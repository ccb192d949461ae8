/**
  The lexeme matcher of the SIML lexer: the ordered alternation
  COLON | NUMBER | DASH | IDENTIFIER | STRING, tried at one position of the
  input the way a backtracking regular-expression engine does it. The first
  alternative that matches wins, even when a later one would match more.
 */
module TokenRegex {
  import opened Wrappers
  import opened TokenTypes

  /** `\d` (ASCII digits only). */
  predicate IsDigit(c: char) { '0' <= c <= '9' }

  /** `[a-zA-Z_]` */
  predicate IsIdentStart(c: char) { 'a' <= c <= 'z' || 'A' <= c <= 'Z' || c == '_' }

  /** `[a-zA-Z0-9_]` */
  predicate IsIdentChar(c: char) { IsIdentStart(c) || IsDigit(c) }

  predicate IsQuote(c: char) { c == '"' || c == '\'' }

  /** Every character of `t` is a digit. */
  predicate AllDigits(t: string) { forall k :: 0 <= k < |t| ==> IsDigit(t[k]) }

  /** Every character of `t` may continue an identifier. */
  predicate AllIdentChars(t: string) { forall k :: 0 <= k < |t| ==> IsIdentChar(t[k]) }

  // ---------------------------------------------------------------------
  // The language of each alternative, stated on the lexeme text alone.
  // ---------------------------------------------------------------------

  /** Every character of `u` other than the one at `k` is a digit. */
  predicate DigitsExcept(u: string, k: int) { forall m :: 0 <= m < |u| && m != k ==> IsDigit(u[m]) }

  /** `\d*\.\d+|\d+`: digits, or digits with one dot that is not the last character. */
  predicate IsUnsignedNumber(u: string) {
    || (|u| > 0 && AllDigits(u))
    || exists k :: 0 <= k < |u| - 1 && u[k] == '.' && DigitsExcept(u, k)
  }

  /** `-?(?:\d*\.\d+|\d+)` */
  predicate IsNumberLexeme(t: string) {
    IsUnsignedNumber(t) || (|t| > 0 && t[0] == '-' && IsUnsignedNumber(t[1..]))
  }

  /** `[a-zA-Z_][a-zA-Z0-9_]*` */
  predicate IsIdentifierLexeme(t: string) {
    |t| > 0 && IsIdentStart(t[0]) && AllIdentChars(t[1..])
  }

  /** `"[^"]*"|'[^']*'`: a quote, anything but that quote, the same quote. */
  predicate IsStringLexeme(t: string) {
    && |t| >= 2
    && IsQuote(t[0])
    && t[|t| - 1] == t[0]
    && forall k :: 0 < k < |t| - 1 ==> t[k] != t[0]
  }

  /** The text `t` belongs to the alternative of kind `kind`. */
  predicate InLanguage(kind: TokenType, t: string) {
    match kind
    case Colon => t == ":"
    case Number => IsNumberLexeme(t)
    case Dash => t == "-"
    case Identifier => IsIdentifierLexeme(t)
    case String => IsStringLexeme(t)
    case _ => false
  }

  // ---------------------------------------------------------------------
  // The matcher.
  // ---------------------------------------------------------------------

  /** Which alternative matched at a position, and how many characters it took. */
  datatype Lexeme = Lexeme(kind: TokenType, length: nat)

  /** A greedy `[...]*`: the length of the longest run of `p`-characters from `j`. */
  function Span(s: string, j: nat, p: char -> bool): (n: nat)
    requires j <= |s|
    ensures j + n <= |s|
    ensures forall k :: j <= k < j + n ==> p(s[k])
    ensures j + n == |s| || !p(s[j + n])
    decreases |s| - j
  {
    if j < |s| && p(s[j]) then 1 + Span(s, j + 1, p) else 0
  }

  /** `(?P<COLON>:)` */
  function MatchColon(s: string, i: nat): (r: Option<nat>)
    ensures r.Some? <==> i < |s| && s[i] == ':'
    ensures r.Some? ==> r.value == 1 && s[i..i + r.value] == ":"
  {
    if i < |s| && s[i] == ':' then Some(1) else None
  }

  /**
    `(?P<NUMBER>-?(?:\d*\.\d+|\d+))`, in the engine's order: the optional
    minus is taken when present; the decimal form is tried before the
    integer form; `\d*` is greedy and gives back nothing useful, since the
    character after a shorter digit run is a digit and not a dot.
   */
  function MatchNumber(s: string, i: nat): (r: Option<nat>)
    ensures r.Some? <==> NumberFollows(s, i) || (i < |s| && s[i] == '-' && NumberFollows(s, i + 1))
    ensures r.Some? ==> 1 <= r.value && i + r.value <= |s|
    ensures r.Some? && s[i] == '-' ==> r.value >= 2
    ensures r.Some? ==> i + r.value == |s| || !IsDigit(s[i + r.value])
  {
    if i >= |s| then None
    else
      var j := if s[i] == '-' then i + 1 else i;
      var d := Span(s, j, IsDigit);
      if j + d + 1 < |s| && s[j + d] == '.' && IsDigit(s[j + d + 1]) then
        Some(j - i + d + 1 + Span(s, j + d + 1, IsDigit))
      else if d > 0 then
        Some(j - i + d)
      else
        None
  }

  /** `(?P<DASH>-)` */
  function MatchDash(s: string, i: nat): (r: Option<nat>)
    ensures r.Some? <==> i < |s| && s[i] == '-'
    ensures r.Some? ==> r.value == 1 && s[i..i + r.value] == "-"
  {
    if i < |s| && s[i] == '-' then Some(1) else None
  }

  /** `(?P<IDENTIFIER>[a-zA-Z_][a-zA-Z0-9_]*)` */
  function MatchIdentifier(s: string, i: nat): (r: Option<nat>)
    ensures r.Some? <==> i < |s| && IsIdentStart(s[i])
    ensures r.Some? ==> 1 <= r.value && i + r.value <= |s|
    ensures r.Some? ==> forall k :: i <= k < i + r.value ==> IsIdentChar(s[k])
    ensures r.Some? ==> i + r.value == |s| || !IsIdentChar(s[i + r.value])
  {
    if i < |s| && IsIdentStart(s[i]) then Some(1 + Span(s, i + 1, IsIdentChar)) else None
  }

  /** `(?P<STRING>"[^"]*"|'[^']*')`: up to the next quote of the same kind. */
  function MatchString(s: string, i: nat): (r: Option<nat>)
    ensures r.Some? <==> i < |s| && IsQuote(s[i]) && exists e :: i < e < |s| && s[e] == s[i]
    ensures r.Some? ==> 2 <= r.value && i + r.value <= |s| && s[i + r.value - 1] == s[i]
    ensures r.Some? ==> forall k :: i < k < i + r.value - 1 ==> s[k] != s[i]
  {
    if i < |s| && IsQuote(s[i]) then
      var q := s[i];
      var n := Span(s, i + 1, c => c != q);
      if i + 1 + n < |s| then Some(n + 2) else None
    else
      None
  }

  /**
    `TOKEN_REGEX.match(s, i)`: the first alternative, in declaration order,
    that matches at position `i`, with the kind named by its group.
   */
  function MatchAt(s: string, i: nat): (r: Option<Lexeme>)
    ensures r.Some? ==> 1 <= r.value.length && i + r.value.length <= |s|
    ensures r.Some? ==> InLanguage(r.value.kind, s[i..i + r.value.length])
  {
    if MatchColon(s, i).Some? then Some(Lexeme(Colon, MatchColon(s, i).value))
    else if MatchNumber(s, i).Some? then
      NumberMatchIsLongest(s, i);
      Some(Lexeme(Number, MatchNumber(s, i).value))
    else if MatchDash(s, i).Some? then Some(Lexeme(Dash, MatchDash(s, i).value))
    else if MatchIdentifier(s, i).Some? then
      IdentifierMatchIsLongest(s, i);
      Some(Lexeme(Identifier, MatchIdentifier(s, i).value))
    else if MatchString(s, i).Some? then
      StringMatchIsUnique(s, i);
      Some(Lexeme(String, MatchString(s, i).value))
    else
      None
  }

  // ---------------------------------------------------------------------
  // Each alternative against its language.
  // ---------------------------------------------------------------------

  /**
    Any unsigned number starting at `j` either stays within the run of
    digits at `j`, or is that whole run, a dot, and part of the digit run
    after the dot.
   */
  lemma UnsignedNumberBound(s: string, j: nat, e: nat)
    requires j <= e <= |s|
    requires IsUnsignedNumber(s[j..e])
    ensures var d := Span(s, j, IsDigit);
      || 0 < e - j <= d
      || (j + d + 1 < e && s[j + d] == '.' && e <= j + d + 1 + Span(s, j + d + 1, IsDigit))
  {
    var u := s[j..e];
    var d := Span(s, j, IsDigit);
    assert forall m :: j <= m < e ==> s[m] == u[m - j];
    if !(|u| > 0 && AllDigits(u)) {
      var k :| 0 <= k < |u| - 1 && u[k] == '.' && DigitsExcept(u, k);
      assert k == d;
    }
  }

  /** The unsigned part of a number lexeme at `i` starts after the minus sign, if any. */
  lemma NumberPrefixIsUnsigned(s: string, i: nat, e: nat)
    requires i < |s| && i <= e <= |s|
    requires IsNumberLexeme(s[i..e])
    ensures var j := if s[i] == '-' then i + 1 else i;
      j <= e && IsUnsignedNumber(s[j..e])
  {
    var t := s[i..e];
    if s[i] == '-' {
      assert t[1..] == s[i + 1..e];
    }
  }

  /** Every number lexeme at `i` is covered by what NUMBER matches there. */
  lemma NumberPrefixWithinMatch(s: string, i: nat, e: nat)
    requires i <= e <= |s|
    requires IsNumberLexeme(s[i..e])
    ensures MatchNumber(s, i).Some? && e <= i + MatchNumber(s, i).value
  {
    if e > i {
      NumberPrefixIsUnsigned(s, i, e);
      var j := if s[i] == '-' then i + 1 else i;
      UnsignedNumberBound(s, j, e);
    }
  }

  /** What NUMBER matches is a number lexeme. */
  lemma NumberMatchIsNumber(s: string, i: nat)
    requires MatchNumber(s, i).Some?
    ensures i + MatchNumber(s, i).value <= |s|
    ensures IsNumberLexeme(s[i..i + MatchNumber(s, i).value])
  {
    var j := if s[i] == '-' then i + 1 else i;
    var d := Span(s, j, IsDigit);
    var e := i + MatchNumber(s, i).value;
    var u := s[j..e];
    if j + d + 1 < |s| && s[j + d] == '.' && IsDigit(s[j + d + 1]) {
      forall m | 0 <= m < |u| && m != d ensures IsDigit(u[m]) {
        assert u[m] == s[j + m];
      }
      assert 0 <= d < |u| - 1 && u[d] == '.' && DigitsExcept(u, d);
    } else {
      assert AllDigits(u);
    }
    if s[i] == '-' {
      assert s[i..e][1..] == u;
    } else {
      assert s[i..e] == u;
    }
  }

  /**
    NUMBER takes the longest prefix at `i` that is a number, and fails
    exactly when no non-empty prefix is one.
   */
  lemma NumberMatchIsLongest(s: string, i: nat)
    ensures MatchNumber(s, i).Some? ==>
      var n := MatchNumber(s, i).value;
      && i + n <= |s|
      && IsNumberLexeme(s[i..i + n])
      && forall e :: i + n < e <= |s| ==> !IsNumberLexeme(s[i..e])
    ensures MatchNumber(s, i).None? ==> forall e :: i <= e <= |s| ==> !IsNumberLexeme(s[i..e])
  {
    if MatchNumber(s, i).Some? {
      NumberMatchIsNumber(s, i);
    }
    forall e | i <= e <= |s| && IsNumberLexeme(s[i..e])
      ensures MatchNumber(s, i).Some? && e <= i + MatchNumber(s, i).value
    {
      NumberPrefixWithinMatch(s, i, e);
    }
  }

  /** IDENTIFIER takes the longest prefix at `i` that is an identifier. */
  lemma IdentifierMatchIsLongest(s: string, i: nat)
    ensures MatchIdentifier(s, i).Some? ==>
      var n := MatchIdentifier(s, i).value;
      && i + n <= |s|
      && IsIdentifierLexeme(s[i..i + n])
      && forall e :: i + n < e <= |s| ==> !IsIdentifierLexeme(s[i..e])
    ensures MatchIdentifier(s, i).None? ==> forall e :: i <= e <= |s| ==> !IsIdentifierLexeme(s[i..e])
  {
    if i < |s| && IsIdentStart(s[i]) {
      var n := MatchIdentifier(s, i).value;
      assert s[i..i + n][1..] == s[i + 1..i + n];
      forall e | i + n < e <= |s| ensures !IsIdentifierLexeme(s[i..e]) {
        assert s[i..e][1..][n - 1] == s[i + n];
      }
    } else {
      forall e | i <= e <= |s| ensures !IsIdentifierLexeme(s[i..e]) {
        if e > i {
          assert s[i..e][0] == s[i];
        }
      }
    }
  }

  /**
    STRING matches exactly one prefix, the one that is a string lexeme:
    the opening quote up to the next occurrence of the same quote.
   */
  lemma StringMatchIsUnique(s: string, i: nat)
    ensures forall e :: i <= e <= |s| ==>
      (MatchString(s, i) == Some(e - i) <==> IsStringLexeme(s[i..e]))
  {
    forall e | i <= e <= |s|
      ensures MatchString(s, i) == Some(e - i) <==> IsStringLexeme(s[i..e])
    {
      var t := s[i..e];
      if i < |s| && IsQuote(s[i]) {
        var q := s[i];
        var n := Span(s, i + 1, c => c != q);
        if MatchString(s, i) == Some(e - i) {
          assert e == i + n + 2;
          forall k | 0 < k < |t| - 1 ensures t[k] != t[0] {
            assert t[k] == s[i + k];
          }
        }
      } else if e > i {
        assert t[0] == s[i];
      }
    }
  }

  // ---------------------------------------------------------------------
  // First-alternative-wins consequences.
  // ---------------------------------------------------------------------

  /** What may follow a minus sign for the minus to belong to a NUMBER. */
  predicate NumberFollows(s: string, j: nat) {
    j < |s| && (IsDigit(s[j]) || (s[j] == '.' && j + 1 < |s| && IsDigit(s[j + 1])))
  }

  /** A colon is always COLON of length 1: COLON is the first alternative. */
  lemma ColonAlwaysWins(s: string, i: nat)
    requires i < |s| && s[i] == ':'
    ensures MatchAt(s, i) == Some(Lexeme(Colon, 1))
  {
  }

  /**
    A minus sign followed by a number is part of that NUMBER (NUMBER is tried
    before DASH); otherwise it is a DASH of length exactly 1.
   */
  lemma MinusIsNumberOrDash(s: string, i: nat)
    requires i < |s| && s[i] == '-'
    ensures NumberFollows(s, i + 1) ==>
      && MatchAt(s, i).Some?
      && MatchAt(s, i).value.kind == Number
      && MatchAt(s, i).value.length >= 2
    ensures !NumberFollows(s, i + 1) <==> MatchAt(s, i) == Some(Lexeme(Dash, 1))
    ensures NumberFollows(s, i + 1) ==>
      forall e :: i + MatchAt(s, i).value.length < e <= |s| ==> !IsNumberLexeme(s[i..e])
  {
    NumberMatchIsLongest(s, i);
  }

  /** A digit, or a dot before a digit, always starts a NUMBER, never an IDENTIFIER. */
  lemma DigitStartsNumber(s: string, i: nat)
    requires NumberFollows(s, i)
    ensures MatchAt(s, i).Some? && MatchAt(s, i).value.kind == Number
    ensures forall e :: i + MatchAt(s, i).value.length < e <= |s| ==> !IsNumberLexeme(s[i..e])
  {
    NumberMatchIsLongest(s, i);
  }

  /**
    A letter or underscore starts an IDENTIFIER that runs to the end of the
    longest run of letters, digits and underscores. Words such as `true`,
    `false` and `null` are identifiers: no alternative singles them out.
   */
  lemma LetterStartsIdentifier(s: string, i: nat)
    requires i < |s| && IsIdentStart(s[i])
    ensures MatchAt(s, i).Some? && MatchAt(s, i).value.kind == Identifier
    ensures var e := i + MatchAt(s, i).value.length;
      && IsIdentifierLexeme(s[i..e])
      && (e == |s| || !IsIdentChar(s[e]))
  {
    var e := i + MatchIdentifier(s, i).value;
    assert e == |s| || !IsIdentChar(s[e]);
  }

  /**
    A quote starts a STRING exactly when the same quote occurs again later
    on; the lexeme is then the unique string lexeme at `i`. An unclosed
    quote matches nothing.
   */
  lemma QuoteStartsString(s: string, i: nat)
    requires i < |s| && IsQuote(s[i])
    ensures MatchAt(s, i).Some? <==> exists e :: i < e < |s| && s[e] == s[i]
    ensures MatchAt(s, i).Some? ==> MatchAt(s, i).value.kind == String
    ensures forall e :: i <= e <= |s| ==>
      (MatchAt(s, i) == Some(Lexeme(String, e - i)) <==> IsStringLexeme(s[i..e]))
  {
    StringMatchIsUnique(s, i);
    var q := s[i];
    var n := Span(s, i + 1, c => c != q);
    if i + 1 + n < |s| {
      assert s[i + 1 + n] == s[i];
    }
  }

  /** The characters that can begin a match at `i`. */
  predicate CanStartLexeme(s: string, i: nat) {
    && i < |s|
    && (|| s[i] == ':'
        || s[i] == '-'
        || NumberFollows(s, i)
        || IsIdentStart(s[i])
        || (IsQuote(s[i]) && exists e :: i < e < |s| && s[e] == s[i]))
  }

  /**
    A match exists exactly at the positions that can begin one: at the end
    of the input, and at a space, `#`, `,`, or any other character no
    alternative starts with, nothing matches.
   */
  lemma MatchIffCanStart(s: string, i: nat)
    ensures MatchAt(s, i).Some? <==> CanStartLexeme(s, i)
  {
    if i < |s| && IsQuote(s[i]) {
      QuoteStartsString(s, i);
    }
  }

  /** Separators and comment markers never begin a match. */
  lemma NothingMatchesSeparators(s: string, i: nat)
    requires i < |s| && s[i] in {' ', '#', ',', '\t'}
    ensures MatchAt(s, i) == None
  {
    MatchIffCanStart(s, i);
  }

  /**
    NUMBER prefers the decimal form and needs a digit after the dot;
    a second dot ends the lexeme.
   */
  lemma DecimalExamples()
    ensures MatchAt("30.4", 0) == Some(Lexeme(Number, 4))
    ensures MatchAt("30.", 0) == Some(Lexeme(Number, 2))
    ensures MatchAt("1.2.3", 0) == Some(Lexeme(Number, 3))
  {
  }

  /** A leading dot needs a digit after it, with or without a minus sign. */
  lemma LeadingDotExamples()
    ensures MatchAt(".4", 0) == Some(Lexeme(Number, 2))
    ensures MatchAt("-.5", 0) == Some(Lexeme(Number, 3))
    ensures MatchAt(".x", 0) == None
  {
  }

  /** A minus sign belongs to the number right after it, and is a DASH otherwise. */
  lemma MinusExamples()
    ensures MatchAt("-25", 0) == Some(Lexeme(Number, 3))
    ensures MatchAt("- 5", 0) == Some(Lexeme(Dash, 1))
  {
  }

  /** Bare words, including `true` and `null`, are identifiers; a digit is never their start. */
  lemma WordExamples()
    ensures MatchAt("true", 0) == Some(Lexeme(Identifier, 4))
    ensures MatchAt("null:", 0) == Some(Lexeme(Identifier, 4))
    ensures MatchAt("_x9 y", 0) == Some(Lexeme(Identifier, 3))
    ensures MatchAt("9abc", 0) == Some(Lexeme(Number, 1))
  {
  }

  /** String content keeps `#` and the other quote; an unclosed quote matches nothing. */
  lemma StringExamples()
    ensures MatchAt("\"a # 'b\" c", 0) == Some(Lexeme(String, 8))
  {
    var t := "\"a # 'b\" c";
    assert IsStringLexeme(t[0..8]);
    QuoteStartsString(t, 0);
  }

  /** An unclosed quote matches nothing. */
  lemma UnclosedExample()
    ensures MatchAt("'unclosed", 0) == None
  {
    MatchIffCanStart("'unclosed", 0);
  }

  /** A single-quoted string may hold double quotes. */
  lemma NestedQuoteExample()
    ensures MatchAt("'say \"hi\"'", 0) == Some(Lexeme(String, 10))
  {
    var said := "'say \"hi\"'";
    assert IsStringLexeme(said[0..10]) by {
      assert said[0..10] == said;
    }
    QuoteStartsString(said, 0);
  }
}
