/**
  `EC2Client.prototype.expand`: array-valued query parameters become one
  parameter per element, keyed by the element's index written into the
  key's `#` placeholder; every other parameter is copied unchanged.
 */
module Expansion {
  import opened JsObject
  import opened Text

  /** The key an array-valued parameter is expanded with: the key itself when it holds a `#`, else the key with `.#` appended. */
  function Pattern(k: string): string
  {
    if '#' in k then k else k + ".#"
  }

  /** The pattern always holds a `#`, begins with the key, and is the key itself when the key already holds a `#`. */
  lemma PatternShape(k: string)
    ensures var p := Pattern(k); '#' in p && |k| <= |p| && p[..|k|] == k
    ensures '#' in k ==> Pattern(k) == k
  {
    if '#' !in k {
      assert (k + ".#")[|k| + 1] == '#';
    }
  }

  /** The key of element `i` of the array-valued parameter `k`: the first `#` of its pattern replaced by `i` in decimal. */
  function IndexedKey(k: string, i: nat): string
  {
    ReplaceFirst(Pattern(k), '#', NatToString(i))
  }

  /** The assignments `exp[...] = ...` the loop body makes for one parameter, in order. */
  function Assignments(k: string, v: Value): seq<(string, Value)>
  {
    match v
    case Arr(xs) => seq(|xs|, i requires 0 <= i < |xs| => (IndexedKey(k, i), xs[i]))
    case Scalar(_) => [(k, v)]
  }

  /** The expanded query: a fresh object filled parameter by parameter. */
  function Expanded(query: Obj): (exp: Obj)
    ensures DistinctKeys(exp)
  {
    if query == [] then []
    else
      var last := query[|query| - 1];
      var exp := PutAll(Expanded(query[..|query| - 1]), Assignments(last.0, last.1));
      PutAllToMap(Expanded(query[..|query| - 1]), Assignments(last.0, last.1));
      exp
  }

  /** All assignments of the expansion, parameter after parameter. */
  function AllAssignments(query: Obj): seq<(string, Value)>
  {
    if query == [] then []
    else
      var last := query[|query| - 1];
      AllAssignments(query[..|query| - 1]) + Assignments(last.0, last.1)
  }

  method Expand(query: Obj) returns (exp: Obj)
    ensures exp == Expanded(query)
  {
    exp := [];
    var i := 0;
    while i < |query|
      invariant 0 <= i <= |query|
      invariant exp == Expanded(query[..i])
    {
      var key := query[i].0;
      var value := query[i].1;
      ghost var prev := exp;
      assert query[..i + 1][..i] == query[..i] && query[..i + 1][i] == query[i];
      match value {
        case Arr(xs) =>
          if '#' !in key {
            key := key + ".#";
          }
          var n := 0;
          while n < |xs|
            invariant 0 <= n <= |xs|
            invariant key == Pattern(query[i].0)
            invariant exp == PutAll(Expanded(query[..i]), Assignments(query[i].0, value)[..n])
          {
            assert Assignments(query[i].0, value)[..n + 1][..n] == Assignments(query[i].0, value)[..n];
            exp := Put(exp, ReplaceFirst(key, '#', NatToString(n)), xs[n]);
            n := n + 1;
          }
          assert Assignments(query[i].0, value)[..n] == Assignments(query[i].0, value);
        case Scalar(_) =>
          assert Assignments(key, value)[..0] == [];
          exp := Put(exp, key, value);
      }
      assert exp == PutAll(prev, Assignments(query[i].0, query[i].1));
      i := i + 1;
    }
    assert query[..i] == query;
  }

  /** The expanded query holds, for each key, the value of the last assignment to it. */
  lemma {:induction false} ExpandedDenotes(query: Obj)
    ensures ToMap(Expanded(query)) == PairsMap(AllAssignments(query))
  {
    if query != [] {
      var init := query[..|query| - 1];
      var last := query[|query| - 1];
      ExpandedDenotes(init);
      PutAllToMap(Expanded(init), Assignments(last.0, last.1));
      PairsMapAppend(AllAssignments(init), Assignments(last.0, last.1));
    }
  }

  /** What an expanded key looks like: `.i` appended, or the first `#` of the key replaced by `i`. */
  lemma IndexedKeyShape(k: string, i: nat)
    ensures '#' !in k ==> IndexedKey(k, i) == k + "." + NatToString(i)
    ensures '#' in k ==> IndexedKey(k, i) == k[..FirstIndex(k, '#')] + NatToString(i) + k[FirstIndex(k, '#') + 1..]
  {
    assert '#' in Pattern(k);
    ReplaceFirstPresent(Pattern(k), '#', NatToString(i));
    if '#' !in k {
      var p := k + ".#";
      assert '#' in p && p[|k| + 1] == '#';
      assert p[..|k| + 1] == k + ".";
      assert FirstIndex(p, '#') == |k| + 1 by {
        var f := FirstIndex(p, '#');
      }
    }
  }

  /** Different elements of one array never share a key. */
  lemma IndexedKeyInjective(k: string, i: nat, j: nat)
    requires IndexedKey(k, i) == IndexedKey(k, j)
    ensures i == j
  {
    IndexedKeyShape(k, i);
    IndexedKeyShape(k, j);
    var a, b := NatToString(i), NatToString(j);
    var pre, post := if '#' in k then k[..FirstIndex(k, '#')] else k + ".",
                     if '#' in k then k[FirstIndex(k, '#') + 1..] else "";
    assert pre + a + post == pre + b + post;
    assert |a| == |b|;
    assert (pre + a + post)[|pre|..|pre| + |a|] == a;
    assert (pre + b + post)[|pre|..|pre| + |b|] == b;
    NatToStringInjective(i, j);
  }

  /** A lone array-valued parameter expands to its assignments, each to a fresh key. */
  lemma ExpandArrayAppends(k: string, xs: seq<Value>)
    ensures Expanded([(k, Arr(xs))]) == Assignments(k, Arr(xs))
  {
    var ps := Assignments(k, Arr(xs));
    assert [(k, Arr(xs))][..0] == [];
    assert DistinctKeys([] + ps) by {
      forall i, j | 0 <= i < j < |ps| ensures ps[i].0 != ps[j].0 {
        if ps[i].0 == ps[j].0 { IndexedKeyInjective(k, i, j); }
      }
    }
    PutAllFresh([], ps);
    assert [] + ps == ps;
  }

  /**
    A lone array-valued parameter of n elements expands to exactly n
    parameters, element i under `IndexedKey(k, i)`, in index order.
   */
  lemma ExpandArray(k: string, xs: seq<Value>)
    ensures |Expanded([(k, Arr(xs))])| == |xs|
    ensures forall i :: 0 <= i < |xs| ==> Expanded([(k, Arr(xs))])[i] == (IndexedKey(k, i), xs[i])
    ensures ToMap(Expanded([(k, Arr(xs))])).Keys == set i | 0 <= i < |xs| :: IndexedKey(k, i)
    ensures forall i :: 0 <= i < |xs| ==> ToMap(Expanded([(k, Arr(xs))]))[IndexedKey(k, i)] == xs[i]
  {
    ExpandArrayAppends(k, xs);
    ArrayKeys(Expanded([(k, Arr(xs))]), k, xs);
  }

  /** `{InstanceId: ["a", "b"]}` expands to `{"InstanceId.0": "a", "InstanceId.1": "b"}`: the indices start at 0. */
  lemma InstanceIdExample()
    ensures Expanded([("InstanceId", Arr([Scalar("a"), Scalar("b")]))])
         == [("InstanceId.0", Scalar("a")), ("InstanceId.1", Scalar("b"))]
  {
    var xs := [Scalar("a"), Scalar("b")];
    ExpandArrayAppends("InstanceId", xs);
    InstanceIdKeys();
    var r := Assignments("InstanceId", Arr(xs));
    assert r[0] == ("InstanceId.0", Scalar("a")) && r[1] == ("InstanceId.1", Scalar("b"));
  }

  lemma InstanceIdKeys()
    ensures IndexedKey("InstanceId", 0) == "InstanceId.0"
    ensures IndexedKey("InstanceId", 1) == "InstanceId.1"
  {
    assert '#' !in "InstanceId";
    IndexedKeyShape("InstanceId", 0);
    IndexedKeyShape("InstanceId", 1);
    assert NatToString(0) == "0" && NatToString(1) == "1";
  }

  lemma ArrayKeys(r: Obj, k: string, xs: seq<Value>)
    requires r == Assignments(k, Arr(xs)) && DistinctKeys(r)
    ensures ToMap(r).Keys == set i | 0 <= i < |xs| :: IndexedKey(k, i)
    ensures forall i :: 0 <= i < |xs| ==> ToMap(r)[IndexedKey(k, i)] == xs[i]
  {
    forall i | 0 <= i < |xs| ensures IndexedKey(k, i) in ToMap(r) && ToMap(r)[IndexedKey(k, i)] == xs[i] {
      ToMapAt(r, i);
    }
    forall x | x in KeySet(r) ensures exists i :: 0 <= i < |xs| && x == IndexedKey(k, i) {
      var p :| p in r && p.0 == x;
      var i :| 0 <= i < |r| && r[i] == p;
    }
    forall i | 0 <= i < |xs| ensures IndexedKey(k, i) in KeySet(r) {
      assert r[i] in r;
    }
  }

  /** A query without array values and with distinct keys expands to itself: every parameter stays under its key with its value, in order. */
  lemma {:induction false} ExpandScalars(query: Obj)
    requires DistinctKeys(query)
    requires forall i :: 0 <= i < |query| ==> query[i].1.Scalar?
    ensures Expanded(query) == query
  {
    if query != [] {
      var init := query[..|query| - 1];
      var last := query[|query| - 1];
      assert DistinctKeys(init);
      ExpandScalars(init);
      assert init + [last] == query;
      PutAllFresh(init, [last]);
    }
  }
}
