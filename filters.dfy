/** Keeping the elements of a sequence that satisfy a test, in order, and what the number
    kept says about the sequence. */
module Filters {

  /** `[x for x in xs if p(x)]` */
  function Keep<T>(xs: seq<T>, p: T -> bool): (r: seq<T>)
    ensures |r| <= |xs|
    ensures forall x | x in r :: x in xs && p(x)
    decreases |xs|
  {
    if xs == [] then []
    else (if p(xs[0]) then [xs[0]] else []) + Keep(xs[1..], p)
  }

  /** Two elements pass the test. */
  predicate TwoPass<T>(xs: seq<T>, p: T -> bool)
  {
    exists i, j | 0 <= i < j < |xs| :: p(xs[i]) && p(xs[j])
  }

  /** Nothing is kept exactly when no element passes. */
  lemma {:induction false} KeepNone<T>(xs: seq<T>, p: T -> bool)
    ensures |Keep(xs, p)| == 0 <==> forall i | 0 <= i < |xs| :: !p(xs[i])
    decreases |xs|
  {
    if xs != [] {
      KeepNone(xs[1..], p);
      assert forall i | 0 < i < |xs| :: xs[i] == xs[1..][i - 1];
    }
  }

  lemma TwoPassCons<T>(xs: seq<T>, p: T -> bool)
    requires xs != []
    ensures TwoPass(xs, p) <==> (p(xs[0]) && exists i | 0 <= i < |xs[1..]| :: p(xs[1..][i])) || TwoPass(xs[1..], p)
  {
    var tl := xs[1..];
    if TwoPass(xs, p) {
      var i, j :| 0 <= i < j < |xs| && p(xs[i]) && p(xs[j]);
      assert p(tl[j - 1]);
      if i > 0 {
        assert p(tl[i - 1]);
      }
    }
    if p(xs[0]) && exists i | 0 <= i < |tl| :: p(tl[i]) {
      var i :| 0 <= i < |tl| && p(tl[i]);
      assert p(xs[i + 1]);
    }
    if TwoPass(tl, p) {
      var i, j :| 0 <= i < j < |tl| && p(tl[i]) && p(tl[j]);
      assert p(xs[i + 1]) && p(xs[j + 1]);
    }
  }

  /** Two or more are kept exactly when two elements pass. */
  lemma {:induction false} KeepMany<T>(xs: seq<T>, p: T -> bool)
    ensures |Keep(xs, p)| >= 2 <==> TwoPass(xs, p)
    decreases |xs|
  {
    if xs != [] {
      KeepMany(xs[1..], p);
      KeepNone(xs[1..], p);
      TwoPassCons(xs, p);
    }
  }

  /** When exactly one is kept, it is the only element that passes. */
  lemma {:induction false} KeepOne<T>(xs: seq<T>, p: T -> bool)
    ensures var r := Keep(xs, p);
            |r| == 1 ==> exists i | 0 <= i < |xs| :: p(xs[i]) && r[0] == xs[i]
                           && forall j | 0 <= j < |xs| && j != i :: !p(xs[j])
    decreases |xs|
  {
    if xs != [] {
      var tl := xs[1..];
      KeepOne(tl, p);
      KeepNone(tl, p);
      var r := Keep(xs, p);
      var rt := Keep(tl, p);
      if |r| == 1 {
        assert forall j | 0 < j < |xs| :: xs[j] == tl[j - 1];
        if !p(xs[0]) {
          var i :| 0 <= i < |tl| && p(tl[i]) && rt[0] == tl[i]
                   && forall j | 0 <= j < |tl| && j != i :: !p(tl[j]);
          assert xs[i + 1] == tl[i];
        }
      }
    }
  }
}
