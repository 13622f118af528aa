/** SQL text as tokens, and the numbering of its parameters. */
module Tokens {
  import opened Values
  import opened SqlWords

  datatype Token =
    | Word(key: Key)          // a word, which is spelled as `Spelling` says
    | Name(id: string)        // a quoted identifier
    | Hole(index: nat)        // a placeholder
    | Literal(value: Value)   // a value in place of a placeholder

  type Sql = seq<Token>

  predicate IsInline(t: Sql) { forall i | 0 <= i < |t| :: !t[i].Hole? }

  predicate IsPlain(t: Sql) { forall i | 0 <= i < |t| :: t[i].Word? || t[i].Name? }

  /** The values in a text, left to right. */
  function Bindings(t: Sql): seq<Value> {
    if t == [] then [] else (if t[0].Literal? then [t[0].value] else []) + Bindings(t[1..])
  }

  /** The text with its values taken out, and placeholders `k` + 1, `k` + 2, ... in their places. */
  function Number(t: Sql, k: nat): Sql {
    if t == [] then []
    else if t[0].Literal? then [Hole(k + 1)] + Number(t[1..], k + 1)
    else [t[0]] + Number(t[1..], k)
  }

  /** The placeholders of a text, left to right. */
  function Holes(t: Sql): seq<nat> {
    if t == [] then [] else (if t[0].Hole? then [t[0].index] else []) + Holes(t[1..])
  }

  /** The text with the parameters put in for the placeholders, where placeholder `k` + 1 is for the first. */
  function Substitute(t: Sql, k: nat, params: seq<Value>): Sql {
    if t == [] then []
    else
      var rest := Substitute(t[1..], k, params);
      match t[0]
      case Hole(i) => if k < i <= k + |params| then [Literal(params[i - k - 1])] + rest else [t[0]] + rest
      case _ => [t[0]] + rest
  }

  lemma {:induction false} BindingsAppend(a: Sql, b: Sql)
    ensures Bindings(a + b) == Bindings(a) + Bindings(b)
  {
    if a == [] {
      assert a + b == b;
    } else {
      BindingsAppend(a[1..], b);
      assert (a + b)[1..] == a[1..] + b;
    }
  }

  lemma {:induction false} NumberAppend(a: Sql, b: Sql, k: nat)
    ensures Number(a + b, k) == Number(a, k) + Number(b, k + |Bindings(a)|)
  {
    if a == [] {
      assert a + b == b;
    } else {
      var rest, k' := a[1..] + b, if a[0].Literal? then k + 1 else k;
      assert a + b == [a[0]] + rest && (a + b)[1..] == rest;
      NumberAppend(a[1..], b, k');
      assert |Bindings(a)| == |Bindings(a[1..])| + if a[0].Literal? then 1 else 0;
    }
  }

  lemma {:induction false} PlainStays(t: Sql, k: nat)
    requires IsPlain(t)
    ensures Number(t, k) == t && Bindings(t) == []
  {
    if t != [] { PlainStays(t[1..], k); }
  }

  /** The placeholders count on from `k`, one for each value. */
  lemma {:induction false} HolesCount(t: Sql, k: nat)
    requires IsInline(t)
    ensures |Holes(Number(t, k))| == |Bindings(t)|
    ensures forall i | 0 <= i < |Bindings(t)| :: Holes(Number(t, k))[i] == k + 1 + i
  {
    if t != [] {
      var k' := if t[0].Literal? then k + 1 else k;
      HolesCount(t[1..], k');
      assert Number(t, k)[1..] == Number(t[1..], k');
    }
  }

  /** Putting the values back for the placeholders gives the inline text. */
  lemma {:induction false} SubstituteNumbered(t: Sql, k: nat, before: seq<Value>)
    requires IsInline(t)
    ensures Substitute(Number(t, k + |before|), k, before + Bindings(t)) == t
  {
    hide Substitute;
    if t == [] {
      SubstituteNone(k, before + Bindings(t));
    } else {
      var rest := t[1..];
      assert t == [t[0]] + rest;
      if t[0].Literal? {
        var v := t[0].value;
        SubstituteNumbered(rest, k, before + [v]);
        assert before + Bindings(t) == before + [v] + Bindings(rest);
        SubstituteHole(Number(rest, k + |before| + 1), k, before, v, Bindings(rest));
      } else {
        SubstituteNumbered(rest, k, before);
        assert Bindings(t) == Bindings(rest);
        SubstituteOther(t[0], Number(rest, k + |before|), k, before + Bindings(rest));
      }
    }
  }

  lemma SubstituteNone(k: nat, params: seq<Value>)
    ensures Substitute([], k, params) == []
  {}

  lemma SubstituteHole(rest: Sql, k: nat, before: seq<Value>, v: Value, after: seq<Value>)
    ensures Substitute([Hole(k + |before| + 1)] + rest, k, before + [v] + after)
         == [Literal(v)] + Substitute(rest, k, before + [v] + after)
  {
    var t := [Hole(k + |before| + 1)] + rest;
    assert t[1..] == rest && (before + [v] + after)[|before|] == v;
  }

  lemma SubstituteOther(first: Token, rest: Sql, k: nat, params: seq<Value>)
    requires !first.Hole?
    ensures Substitute([first] + rest, k, params) == [first] + Substitute(rest, k, params)
  {
    assert ([first] + rest)[1..] == rest;
  }
}
