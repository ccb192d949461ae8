/** The conventional Some/None datatype, used for optional fields and failed matches. */
module Wrappers {
  datatype Option<+T> = None | Some(value: T)
}

/**
  The closed set of token kinds of the SIML lexer, with the integer value
  each enum member carries.
 */
module TokenTypes {
  import opened Wrappers

  /** The ten members, in declaration order. */
  datatype TokenType =
    | Keyword
    | Colon
    | Dash
    | Identifier
    | Number
    | String
    | Boolean
    | Null
    | Indent
    | Dedent

  /** The integer carried by each member (`TokenType.X.value`). */
  function Value(t: TokenType): (v: int)
    ensures 1 <= v <= 10
  {
    match t
    case Keyword => 1
    case Colon => 2
    case Dash => 3
    case Identifier => 4
    case Number => 5
    case String => 6
    case Boolean => 9
    case Null => 10
    case Indent => 7
    case Dedent => 8
  }

  /** Lookup by value (`TokenType(v)`): fails for a value no member carries. */
  function FromValue(v: int): (r: Option<TokenType>)
    ensures r.Some? <==> 1 <= v <= 10
    ensures r.Some? ==> Value(r.value) == v
  {
    if v == 1 then Some(Keyword)
    else if v == 2 then Some(Colon)
    else if v == 3 then Some(Dash)
    else if v == 4 then Some(Identifier)
    else if v == 5 then Some(Number)
    else if v == 6 then Some(String)
    else if v == 7 then Some(Indent)
    else if v == 8 then Some(Dedent)
    else if v == 9 then Some(Boolean)
    else if v == 10 then Some(Null)
    else None
  }

  /** Iteration order of the enum (`list(TokenType)`): the order of declaration, no member twice. */
  function Members(): (r: seq<TokenType>)
    ensures |r| == 10
    ensures forall j, k :: 0 <= j < k < |r| ==> r[j] != r[k]
  {
    [Keyword, Colon, Dash, Identifier, Number, String, Boolean, Null, Indent, Dedent]
  }

  /** Lookup by value undoes `Value`: no two members share a value. */
  lemma FromValueRoundTrip(t: TokenType)
    ensures FromValue(Value(t)) == Some(t)
  {
  }

  /** Distinct members carry distinct values. */
  lemma ValueInjective(a: TokenType, b: TokenType)
    ensures Value(a) == Value(b) <==> a == b
  {
    FromValueRoundTrip(a);
    FromValueRoundTrip(b);
  }

  /**
    Every member is listed exactly once, the ten values are exactly 1..10,
    and the declaration order is not the value order: BOOLEAN (9) and
    NULL (10) are declared before INDENT (7) and DEDENT (8).
   */
  lemma MembersEnumerateValues()
    ensures |Members()| == 10
    ensures forall t: TokenType :: t in Members()
    ensures forall j, k :: 0 <= j < k < |Members()| ==> Value(Members()[j]) != Value(Members()[k])
    ensures (set t | t in Members() :: Value(t)) == {1, 2, 3, 4, 5, 6, 7, 8, 9, 10}
    ensures Value(Members()[7]) > Value(Members()[8])
  {
    forall t: TokenType ensures t in Members() {
      match t
      case Keyword => assert Members()[0] == t;
      case Colon => assert Members()[1] == t;
      case Dash => assert Members()[2] == t;
      case Identifier => assert Members()[3] == t;
      case Number => assert Members()[4] == t;
      case String => assert Members()[5] == t;
      case Boolean => assert Members()[6] == t;
      case Null => assert Members()[7] == t;
      case Indent => assert Members()[8] == t;
      case Dedent => assert Members()[9] == t;
    }
    var values := set t | t in Members() :: Value(t);
    forall v | v in {1, 2, 3, 4, 5, 6, 7, 8, 9, 10} ensures v in values {
      assert Value(FromValue(v).value) in values;
    }
  }
}
