/**
  The token record: one lexical unit with its kind, its payload, the source
  line it comes from and the indentation of that line. The payload is of
  any type, so it is a type parameter here.
 */
module Tokens {
  import opened TokenTypes

  /** The record's four fields; `kind` holds the field the source calls `type`. */
  datatype Token<V> = Token(kind: TokenType, value: V, line: int, indent: int)

  /**
    The generated constructor: it takes any kind, payload, line and indent,
    never fails and validates nothing (negative lines and indents included).
    Reading the four fields back gives exactly what was passed in.
   */
  function NewToken<V>(kind: TokenType, value: V, line: int, indent: int): (t: Token<V>)
    ensures (t.kind, t.value, t.line, t.indent) == (kind, value, line, indent)
  {
    Token(kind, value, line, indent)
  }

  /** Every token is what the constructor builds from its own fields. */
  lemma ConstructionRoundTrip<V>(t: Token<V>)
    ensures NewToken(t.kind, t.value, t.line, t.indent) == t
  {
  }

  /**
    The generated equality: the four fields compared as a tuple, in
    declaration order.
   */
  function Equals<V(==)>(a: Token<V>, b: Token<V>): (r: bool)
    ensures r <==> a == b
    ensures r <==> b == a
  {
    (a.kind, a.value, a.line, a.indent) == (b.kind, b.value, b.line, b.indent)
  }

  /** Tokens built from different arguments are different tokens. */
  lemma NewTokenInjective<V>(k1: TokenType, v1: V, l1: int, i1: int, k2: TokenType, v2: V, l2: int, i2: int)
    ensures Equals(NewToken(k1, v1, l1, i1), NewToken(k2, v2, l2, i2))
      <==> k1 == k2 && v1 == v2 && l1 == l2 && i1 == i2
  {
  }

  /**
    A token's kind is one of the ten enum members, so it carries a value in
    1..10. This holds by the field's type: the constructor checks nothing.
   */
  lemma KindIsMember<V>(t: Token<V>)
    ensures t.kind in Members()
    ensures 1 <= Value(t.kind) <= 10
  {
    MembersEnumerateValues();
  }
}
