/**
  JavaScript objects used as string-keyed dictionaries (the query the client
  builds, the expanded query, the sorted copy it signs). An object is kept as
  its own properties in enumeration order; assigning `o[k] = v` replaces the
  value of an existing property where it stands and appends a new one.
 */
module JsObject {

  /** A query-parameter value: a scalar in its string form, or an array. */
  datatype Value = Scalar(s: string) | Arr(elems: seq<Value>)

  /** An object as its properties in enumeration order. */
  type Obj = seq<(string, Value)>

  function KeysOf(o: Obj): seq<string>
  {
    seq(|o|, i requires 0 <= i < |o| => o[i].0)
  }

  function KeySet(o: Obj): set<string>
  {
    set p | p in o :: p.0
  }

  /** The list of keys and the set of keys hold the same strings. */
  lemma KeysOfKeySet(o: Obj)
    ensures forall x :: x in KeysOf(o) <==> x in KeySet(o)
  {
    forall x | x in KeysOf(o) ensures x in KeySet(o) {
      var i :| 0 <= i < |o| && KeysOf(o)[i] == x;
      assert o[i] in o;
    }
    forall x | x in KeySet(o) ensures x in KeysOf(o) {
      var p :| p in o && p.0 == x;
      var i :| 0 <= i < |o| && o[i] == p;
      assert KeysOf(o)[i] == x;
    }
  }

  /** A real object never holds two properties with the same name. */
  predicate DistinctKeys(o: Obj)
  {
    forall i, j :: 0 <= i < j < |o| ==> o[i].0 != o[j].0
  }

  /** The dictionary an object denotes (for a repeated key, its first property). */
  function ToMap(o: Obj): (m: map<string, Value>)
    ensures m.Keys == KeySet(o)
  {
    if o == [] then map[] else
      var m' := ToMap(o[1..]);
      assert KeySet(o) == KeySet(o[1..]) + {o[0].0} by {
        assert forall p :: p in o <==> p == o[0] || p in o[1..];
      }
      m'[o[0].0 := o[0].1]
  }

  lemma {:induction false} ToMapAt(o: Obj, i: nat)
    requires DistinctKeys(o) && i < |o|
    ensures o[i].0 in ToMap(o) && ToMap(o)[o[i].0] == o[i].1
  {
    if i > 0 {
      ToMapAt(o[1..], i - 1);
    }
  }

  /** `o[k] = v` on a JavaScript object. */
  function Put(o: Obj, k: string, v: Value): (r: Obj)
    ensures KeySet(r) == KeySet(o) + {k}
    ensures k !in KeySet(o) ==> r == o + [(k, v)]
  {
    if o == [] then [(k, v)]
    else if o[0].0 == k then [(k, v)] + o[1..]
    else
      var t := Put(o[1..], k, v);
      assert KeySet(o) == KeySet(o[1..]) + {o[0].0} by {
        assert forall p :: p in o <==> p == o[0] || p in o[1..];
      }
      assert KeySet([o[0]] + t) == KeySet(t) + {o[0].0} by {
        assert forall p :: p in [o[0]] + t <==> p == o[0] || p in t;
      }
      [o[0]] + t
  }

  lemma {:induction false} PutToMap(o: Obj, k: string, v: Value)
    ensures ToMap(Put(o, k, v)) == ToMap(o)[k := v]
  {
    if o != [] && o[0].0 != k {
      PutToMap(o[1..], k, v);
      assert Put(o, k, v)[1..] == Put(o[1..], k, v);
    }
  }

  lemma {:induction false} PutDistinct(o: Obj, k: string, v: Value)
    ensures DistinctKeys(o) ==> DistinctKeys(Put(o, k, v))
  {
    if DistinctKeys(o) && o != [] && o[0].0 != k {
      PutDistinct(o[1..], k, v);
      var t := Put(o[1..], k, v);
      assert o[0].0 !in KeySet(o[1..]);
      assert o[0].0 !in KeySet(t);
      forall j | 0 < j < |Put(o, k, v)|
        ensures Put(o, k, v)[0].0 != Put(o, k, v)[j].0
      {
        assert Put(o, k, v)[j] == t[j - 1];
        assert t[j - 1] in t;
      }
    }
  }

  /** The assignments `o[k] = v` for each pair of `ps` in turn. */
  function PutAll(o: Obj, ps: seq<(string, Value)>): Obj
  {
    if ps == [] then o
    else Put(PutAll(o, ps[..|ps| - 1]), ps[|ps| - 1].0, ps[|ps| - 1].1)
  }

  lemma {:induction false} PutAllToMap(o: Obj, ps: seq<(string, Value)>)
    ensures ToMap(PutAll(o, ps)) == ToMap(o) + PairsMap(ps)
    ensures DistinctKeys(o) ==> DistinctKeys(PutAll(o, ps))
  {
    if ps != [] {
      var last := ps[|ps| - 1];
      PutAllToMap(o, ps[..|ps| - 1]);
      PutToMap(PutAll(o, ps[..|ps| - 1]), last.0, last.1);
      MapUpdateUnion(ToMap(o), PairsMap(ps[..|ps| - 1]), last.0, last.1);
      PutDistinct(PutAll(o, ps[..|ps| - 1]), last.0, last.1);
    }
  }

  /** The dictionary a sequence of assignments denotes: a later pair wins. */
  function PairsMap(ps: seq<(string, Value)>): map<string, Value>
  {
    if ps == [] then map[]
    else PairsMap(ps[..|ps| - 1])[ps[|ps| - 1].0 := ps[|ps| - 1].1]
  }

  lemma {:induction false} PairsMapKeys(ps: seq<(string, Value)>)
    ensures PairsMap(ps).Keys == KeySet(ps)
  {
    if ps != [] {
      var init := ps[..|ps| - 1];
      PairsMapKeys(init);
      assert ps == init + [ps[|ps| - 1]];
      assert forall p :: p in ps <==> p in init || p == ps[|ps| - 1];
    }
  }

  /** The value of a key in a sequence of assignments is the one of its last assignment. */
  lemma {:induction false} PairsMapLastWins(ps: seq<(string, Value)>, i: nat)
    requires i < |ps|
    requires forall j :: i < j < |ps| ==> ps[j].0 != ps[i].0
    ensures ps[i].0 in PairsMap(ps) && PairsMap(ps)[ps[i].0] == ps[i].1
  {
    if i < |ps| - 1 {
      PairsMapLastWins(ps[..|ps| - 1], i);
    }
  }

  lemma {:induction false} PairsMapAppend(a: seq<(string, Value)>, b: seq<(string, Value)>)
    ensures PairsMap(a + b) == PairsMap(a) + PairsMap(b)
  {
    if b == [] {
      assert a + b == a;
    } else {
      var b' := b[..|b| - 1];
      var last := b[|b| - 1];
      assert (a + b)[..|a + b| - 1] == a + b';
      assert (a + b)[|a + b| - 1] == last;
      PairsMapAppend(a, b');
      MapUpdateUnion(PairsMap(a), PairsMap(b'), last.0, last.1);
    }
  }

  lemma MapUpdateUnion(m: map<string, Value>, n: map<string, Value>, k: string, v: Value)
    ensures (m + n)[k := v] == m + n[k := v]
  {
  }

  /** Assigning fresh keys one by one appends them in order. */
  lemma {:induction false} PutAllFresh(o: Obj, ps: seq<(string, Value)>)
    requires DistinctKeys(o + ps)
    ensures PutAll(o, ps) == o + ps
  {
    if ps == [] {
      assert o + ps == o;
    } else {
      var ps' := ps[..|ps| - 1];
      var last := ps[|ps| - 1];
      var front := o + ps';
      assert o + ps == front + [last];
      assert DistinctKeys(front) by {
        forall i, j | 0 <= i < j < |front| ensures front[i].0 != front[j].0 {
          assert front[i] == (o + ps)[i] && front[j] == (o + ps)[j];
        }
      }
      PutAllFresh(o, ps');
      assert last.0 !in KeySet(front) by {
        forall p | p in front ensures p.0 != last.0 {
          var i :| 0 <= i < |front| && front[i] == p;
          assert (o + ps)[i] == p && (o + ps)[|front|] == last;
        }
      }
    }
  }
}
