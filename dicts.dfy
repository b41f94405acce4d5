/** Python dictionaries built from pairs, where a later pair overwrites an earlier one. */
module Dicts {

  /** The keys of a list of pairs. */
  ghost function KeysOf<K, V>(ps: seq<(K, V)>): set<K>
  {
    set i | 0 <= i < |ps| :: ps[i].0
  }

  /** `dict(ps)`: the pairs are stored from left to right, so the last pair with a key wins. */
  function FromPairs<K, V>(ps: seq<(K, V)>): (m: map<K, V>)
    ensures m.Keys == KeysOf(ps)
    decreases |ps|
  {
    if ps == [] then map[]
    else
      var m' := FromPairs(ps[..|ps| - 1]);
      assert KeysOf(ps) == KeysOf(ps[..|ps| - 1]) + {ps[|ps| - 1].0} by {
        assert forall i | 0 <= i < |ps| - 1 :: ps[..|ps| - 1][i] == ps[i];
      }
      m'[ps[|ps| - 1].0 := ps[|ps| - 1].1]
  }

  /** A pair that no later pair overrides gives the value of its key. */
  lemma {:induction false} LastWins<K, V>(ps: seq<(K, V)>, i: nat)
    requires i < |ps|
    requires forall j | i < j < |ps| :: ps[j].0 != ps[i].0
    ensures ps[i].0 in FromPairs(ps) && FromPairs(ps)[ps[i].0] == ps[i].1
    decreases |ps|
  {
    if i < |ps| - 1 {
      var init := ps[..|ps| - 1];
      assert init[i] == ps[i];
      LastWins(init, i);
    }
  }

  /** Every value of the dictionary comes from a pair that no later pair overrides. */
  lemma {:induction false} ValueFromLastPair<K, V>(ps: seq<(K, V)>, k: K)
    requires k in FromPairs(ps)
    ensures exists i | 0 <= i < |ps| :: ps[i].0 == k && ps[i].1 == FromPairs(ps)[k]
                                         && forall j | i < j < |ps| :: ps[j].0 != k
    decreases |ps|
  {
    var n := |ps| - 1;
    if ps[n].0 != k {
      var init := ps[..n];
      ValueFromLastPair(init, k);
      var i :| 0 <= i < |init| && init[i].0 == k && init[i].1 == FromPairs(init)[k]
                && forall j | i < j < |init| :: init[j].0 != k;
      assert ps[i] == init[i];
      assert forall j | i < j < |ps| :: ps[j].0 != k by {
        forall j | i < j < |ps| ensures ps[j].0 != k {
          if j < n { assert ps[j] == init[j]; }
        }
      }
    }
  }

  /** Building from a concatenation is building from each part, the later part winning. */
  lemma {:induction false} FromPairsAppend<K, V>(a: seq<(K, V)>, b: seq<(K, V)>)
    ensures FromPairs(a + b) == FromPairs(a) + FromPairs(b)
    decreases |b|
  {
    if b == [] {
      assert a + b == a;
    } else {
      var n := |b| - 1;
      assert (a + b)[..|a + b| - 1] == a + b[..n];
      assert (a + b)[|a + b| - 1] == b[n];
      FromPairsAppend(a, b[..n]);
    }
  }

  /** No key occurs twice, as in the items of a real dictionary. */
  ghost predicate DistinctKeys<K, V>(d: seq<(K, V)>)
  {
    forall i, j | 0 <= i < j < |d| :: d[i].0 != d[j].0
  }

  /** `d[k] = v` on a dictionary that keeps its items in insertion order:
      an existing key keeps its place and takes the new value, a new key goes last. */
  function Put<K(==), V>(d: seq<(K, V)>, k: K, v: V): (r: seq<(K, V)>)
    requires DistinctKeys(d)
    ensures DistinctKeys(r)
    ensures FromPairs(r) == FromPairs(d)[k := v]
    ensures k !in KeysOf(d) ==> r == d + [(k, v)]
    ensures k in KeysOf(d) ==> |r| == |d| && forall i | 0 <= i < |d| :: r[i] == (if d[i].0 == k then (k, v) else d[i])
    decreases |d|
  {
    if d == [] then [(k, v)]
    else if d[0].0 == k then
      PutFirst(d, k, v);
      [(k, v)] + d[1..]
    else
      var p := Put(d[1..], k, v);
      PutLater(d, k, v, p);
      PutLaterShape(d, k, v, p);
      [d[0]] + p
  }

  lemma PutFirst<K, V>(d: seq<(K, V)>, k: K, v: V)
    requires |d| >= 1 && d[0].0 == k && DistinctKeys(d)
    ensures DistinctKeys([(k, v)] + d[1..])
    ensures FromPairs([(k, v)] + d[1..]) == FromPairs(d)[k := v]
    ensures k in KeysOf(d)
    ensures var r := [(k, v)] + d[1..];
            |r| == |d| && forall i | 0 <= i < |d| :: r[i] == (if d[i].0 == k then (k, v) else d[i])
  {
    assert d[0].0 in KeysOf(d);
    var r := [(k, v)] + d[1..];
    TailDistinct(d);
    ConsDistinct((k, v), d[1..]);
    ConsMap(d);
    ConsMap(r);
    assert r[1..] == d[1..];
    OverwriteFirst(FromPairs(d[1..]), k, d[0].1, v);
  }

  lemma OverwriteFirst<K, V>(a: map<K, V>, k: K, w: V, v: V)
    requires k !in a
    ensures map[k := v] + a == (map[k := w] + a)[k := v]
  {
  }

  lemma OverwriteLater<K, V>(a: map<K, V>, k0: K, w: V, k: K, v: V)
    requires k0 != k
    ensures map[k0 := w] + a[k := v] == (map[k0 := w] + a)[k := v]
  {
  }

  lemma PutLaterShape<K, V>(d: seq<(K, V)>, k: K, v: V, p: seq<(K, V)>)
    requires |d| >= 1 && d[0].0 != k
    requires k !in KeysOf(d[1..]) ==> p == d[1..] + [(k, v)]
    requires k in KeysOf(d[1..]) ==>
               |p| == |d[1..]| && forall i | 0 <= i < |d[1..]| :: p[i] == (if d[1..][i].0 == k then (k, v) else d[1..][i])
    ensures k !in KeysOf(d) ==> [d[0]] + p == d + [(k, v)]
    ensures k in KeysOf(d) ==> var r := [d[0]] + p;
              |r| == |d| && forall i | 0 <= i < |d| :: r[i] == (if d[i].0 == k then (k, v) else d[i])
  {
    var r := [d[0]] + p;
    ConsKeys(d);
    if k !in KeysOf(d) {
      assert [d[0]] + (d[1..] + [(k, v)]) == d + [(k, v)];
    } else {
      forall i | 0 < i < |d| ensures r[i] == (if d[i].0 == k then (k, v) else d[i]) {
        assert r[i] == p[i - 1] && d[i] == d[1..][i - 1];
      }
    }
  }

  lemma PutLater<K, V>(d: seq<(K, V)>, k: K, v: V, p: seq<(K, V)>)
    requires |d| >= 1 && d[0].0 != k && DistinctKeys(d)
    requires DistinctKeys(p) && FromPairs(p) == FromPairs(d[1..])[k := v]
    ensures DistinctKeys([d[0]] + p)
    ensures FromPairs([d[0]] + p) == FromPairs(d)[k := v]
  {
    var r := [d[0]] + p;
    TailDistinct(d);
    ConsKeys(d);
    assert d[0].0 !in FromPairs(p);
    ConsDistinct(d[0], p);
    ConsMap(d);
    ConsMap(r);
    assert r[1..] == p;
    OverwriteLater(FromPairs(d[1..]), d[0].0, d[0].1, k, v);
  }

  /** A dictionary's items split as the first item and the rest. */
  lemma ConsMap<K, V>(d: seq<(K, V)>)
    requires |d| >= 1
    ensures FromPairs(d) == map[d[0].0 := d[0].1] + FromPairs(d[1..])
  {
    var h := [d[0]];
    assert h[..0] == [];
    assert FromPairs(h) == map[d[0].0 := d[0].1];
    assert d == h + d[1..];
    FromPairsAppend(h, d[1..]);
  }

  lemma ConsKeys<K, V>(d: seq<(K, V)>)
    requires |d| >= 1
    ensures KeysOf(d) == {d[0].0} + KeysOf(d[1..])
  {
    assert forall i | 1 <= i < |d| :: d[i] == d[1..][i - 1];
  }

  lemma TailDistinct<K, V>(d: seq<(K, V)>)
    requires |d| >= 1 && DistinctKeys(d)
    ensures DistinctKeys(d[1..]) && d[0].0 !in KeysOf(d[1..])
  {
    assert forall i | 1 <= i < |d| :: d[i] == d[1..][i - 1];
  }

  lemma ConsDistinct<K, V>(p: (K, V), rest: seq<(K, V)>)
    requires DistinctKeys(rest) && p.0 !in KeysOf(rest)
    ensures DistinctKeys([p] + rest)
  {
    var d := [p] + rest;
    forall i, j | 0 <= i < j < |d| ensures d[i].0 != d[j].0 {
      assert d[j] == rest[j - 1];
      if i > 0 { assert d[i] == rest[i - 1]; }
    }
  }

  /** `dict(ps)` as an insertion-ordered dictionary. */
  function DictOf<K(==), V>(ps: seq<(K, V)>): (d: seq<(K, V)>)
    ensures DistinctKeys(d)
    ensures FromPairs(d) == FromPairs(ps)
    decreases |ps|
  {
    if ps == [] then []
    else
      var n := |ps| - 1;
      Put(DictOf(ps[..n]), ps[n].0, ps[n].1)
  }

  /** Items that already have distinct keys are kept as they are. */
  lemma {:induction false} DictOfDistinct<K, V>(ps: seq<(K, V)>)
    requires DistinctKeys(ps)
    ensures DictOf(ps) == ps
    decreases |ps|
  {
    if ps != [] {
      var n := |ps| - 1;
      var init := ps[..n];
      LastDistinct(ps);
      DictOfDistinct(init);
      assert DictOf(ps) == Put(init, ps[n].0, ps[n].1);
      assert Put(init, ps[n].0, ps[n].1) == init + [ps[n]];
      assert init + [ps[n]] == ps;
    }
  }

  lemma LastDistinct<K, V>(ps: seq<(K, V)>)
    requires |ps| >= 1 && DistinctKeys(ps)
    ensures DistinctKeys(ps[..|ps| - 1]) && ps[|ps| - 1].0 !in KeysOf(ps[..|ps| - 1])
  {
    var init := ps[..|ps| - 1];
    assert forall i | 0 <= i < |init| :: init[i] == ps[i];
  }
}
