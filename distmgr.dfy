/** The distributions manager (`raduga/distmgr.py`): the requirements of several sets
    merged by project key, later ones taking precedence, and a distribution found for
    each before any is activated. */
module DistMgr {
  import opened Wrappers
  import opened Dicts

  /** A parsed requirement: `key` is the project key the parser derives from it, `text`
      is how the requirement prints. */
  datatype Requirement = Requirement(key: string, text: string)

  /** An installed distribution, as the package environment reports it. */
  datatype Distribution = Distribution(name: string, version: string)

  /** `Requirement.parse` on each string of a set, in order: `None` stands for a string the
      parser rejects with a `ValueError`. */
  function ParseSet(parse: string -> Option<Requirement>, strs: seq<string>): (r: Result<seq<Requirement>>)
    ensures r.Ok? <==> forall i | 0 <= i < |strs| :: parse(strs[i]).Some?
    ensures r.Ok? ==> |r.value| == |strs| && forall i | 0 <= i < |strs| :: parse(strs[i]) == Some(r.value[i])
    decreases |strs|
  {
    if strs == [] then Ok([])
    else
      var n := |strs| - 1;
      assert forall i | 0 <= i < n :: strs[..n][i] == strs[i];
      match ParseSet(parse, strs[..n])
      case Err(e) => Err(e)
      case Ok(init) =>
        match parse(strs[n])
        case None => Err(ValueError(strs[n]))
        case Some(q) => Ok(init + [q])
  }

  /** A set that fails to parse fails on its first string the parser rejects. */
  lemma {:induction false} ParseSetError(parse: string -> Option<Requirement>, strs: seq<string>)
    requires ParseSet(parse, strs).Err?
    ensures exists i | 0 <= i < |strs| :: (parse(strs[i]).None? && ParseSet(parse, strs).error == ValueError(strs[i])
              && forall i2 | 0 <= i2 < i :: parse(strs[i2]).Some?)
    decreases |strs|
  {
    var n := |strs| - 1;
    var init := strs[..n];
    assert forall i | 0 <= i < n :: init[i] == strs[i];
    if ParseSet(parse, init).Err? {
      ParseSetError(parse, init);
      var i :| 0 <= i < |init| && (parse(init[i]).None? && ParseSet(parse, init).error == ValueError(init[i])
                && forall i2 | 0 <= i2 < i :: parse(init[i2]).Some?);
      assert parse(strs[i]).None?;
    } else {
      assert parse(strs[n]).None?;
    }
  }

  /** Each requirement under its key, as `reqs[req.key] = req` stores it. */
  function Keyed(reqs: seq<Requirement>): (ps: seq<(string, Requirement)>)
    ensures |ps| == |reqs| && forall i | 0 <= i < |reqs| :: ps[i] == (reqs[i].key, reqs[i])
  {
    seq(|reqs|, i requires 0 <= i < |reqs| => (reqs[i].key, reqs[i]))
  }

  /** What one set contributes to the merged dictionary. */
  function FlattenSet(parse: string -> Option<Requirement>, strs: seq<string>): Result<map<string, Requirement>>
  {
    match ParseSet(parse, strs)
    case Err(e) => Err(e)
    case Ok(reqs) => Ok(FromPairs(Keyed(reqs)))
  }

  /** `_flatten_reqs(*req_sets)`: the sets in order, each one laid over the ones before. */
  function Flatten(parse: string -> Option<Requirement>, sets: seq<seq<string>>): Result<map<string, Requirement>>
    decreases |sets|
  {
    if sets == [] then Ok(map[])
    else
      var n := |sets| - 1;
      match Flatten(parse, sets[..n])
      case Err(e) => Err(e)
      case Ok(m) =>
        match FlattenSet(parse, sets[n])
        case Err(e) => Err(e)
        case Ok(m2) => Ok(m + m2)
  }

  /** The key a string's requirement has, if it parses. */
  function KeyOf(parse: string -> Option<Requirement>, s: string): Option<string>
  {
    match parse(s)
    case None => None
    case Some(q) => Some(q.key)
  }

  /** Within one set, a requirement with no later entry for its key is the one kept, and
      every kept requirement sits under its own key. */
  lemma FlattenSetEntries(parse: string -> Option<Requirement>, strs: seq<string>)
    requires FlattenSet(parse, strs).Ok?
    ensures var m := FlattenSet(parse, strs).value;
            && (forall k | k in m :: m[k].key == k)
            && (forall k :: k in m <==> NamedIn(parse, strs, k))
  {
    var reqs := ParseSet(parse, strs).value;
    var ps := Keyed(reqs);
    forall k | k in FromPairs(ps) ensures FromPairs(ps)[k].key == k {
      ValueFromLastPair(ps, k);
    }
    forall k ensures k in FromPairs(ps) <==> NamedIn(parse, strs, k) {
      if k in FromPairs(ps) {
        var i :| 0 <= i < |ps| && ps[i].0 == k;
        assert KeyOf(parse, strs[i]) == Some(k);
      }
      if NamedIn(parse, strs, k) {
        var i :| 0 <= i < |strs| && KeyOf(parse, strs[i]) == Some(k);
        assert ps[i].0 == k;
      }
    }
  }

  /** At most one requirement per key: each kept requirement sits under its own key. */
  lemma {:induction false} FlattenKeyed(parse: string -> Option<Requirement>, sets: seq<seq<string>>)
    requires Flatten(parse, sets).Ok?
    ensures forall k | k in Flatten(parse, sets).value :: Flatten(parse, sets).value[k].key == k
    decreases |sets|
  {
    if sets != [] {
      var n := |sets| - 1;
      FlattenKeyed(parse, sets[..n]);
      FlattenSetEntries(parse, sets[n]);
    }
  }

  /** Some requirement of some set has the key `k`. */
  predicate Named(parse: string -> Option<Requirement>, sets: seq<seq<string>>, k: string)
  {
    exists j, i | 0 <= j < |sets| && 0 <= i < |sets[j]| :: KeyOf(parse, sets[j][i]) == Some(k)
  }

  /** Some requirement of the set has the key `k`. */
  predicate NamedIn(parse: string -> Option<Requirement>, strs: seq<string>, k: string)
  {
    exists i | 0 <= i < |strs| :: KeyOf(parse, strs[i]) == Some(k)
  }

  lemma NamedSnoc(parse: string -> Option<Requirement>, sets: seq<seq<string>>, k: string)
    requires sets != []
    ensures Named(parse, sets, k) <==> Named(parse, sets[..|sets| - 1], k) || NamedIn(parse, sets[|sets| - 1], k)
  {
    var n := |sets| - 1;
    var init := sets[..n];
    if Named(parse, sets, k) {
      var j, i :| 0 <= j < |sets| && 0 <= i < |sets[j]| && KeyOf(parse, sets[j][i]) == Some(k);
      if j < n {
        assert init[j] == sets[j];
        assert KeyOf(parse, init[j][i]) == Some(k);
      } else {
        assert KeyOf(parse, sets[n][i]) == Some(k);
      }
    }
    if Named(parse, init, k) {
      var j, i :| 0 <= j < |init| && 0 <= i < |init[j]| && KeyOf(parse, init[j][i]) == Some(k);
      assert init[j] == sets[j];
    }
    if NamedIn(parse, sets[n], k) {
      var i :| 0 <= i < |sets[n]| && KeyOf(parse, sets[n][i]) == Some(k);
      assert KeyOf(parse, sets[n][i]) == Some(k);
    }
  }

  /** A key is in the result exactly when some requirement of some set has it. */
  lemma {:induction false} FlattenKeys(parse: string -> Option<Requirement>, sets: seq<seq<string>>, k: string)
    requires Flatten(parse, sets).Ok?
    ensures k in Flatten(parse, sets).value <==> Named(parse, sets, k)
    decreases |sets|
  {
    if sets != [] {
      var n := |sets| - 1;
      FlattenKeys(parse, sets[..n], k);
      FlattenSetEntries(parse, sets[n]);
      NamedSnoc(parse, sets, k);
    }
  }

  /** The requirement at position `i` of set `j` is the one kept for its key when no later
      set and no later entry of the same set names that key: later sets, and later
      entries within a set, take precedence. */
  lemma {:induction false} LaterWins(parse: string -> Option<Requirement>, sets: seq<seq<string>>, j: nat, i: nat)
    requires Flatten(parse, sets).Ok?
    requires j < |sets| && i < |sets[j]| && parse(sets[j][i]).Some?
    requires forall j2, i2 | j < j2 < |sets| && 0 <= i2 < |sets[j2]| ::
               KeyOf(parse, sets[j2][i2]) != KeyOf(parse, sets[j][i])
    requires forall i2 | i < i2 < |sets[j]| :: KeyOf(parse, sets[j][i2]) != KeyOf(parse, sets[j][i])
    ensures var q := parse(sets[j][i]).value;
            q.key in Flatten(parse, sets).value && Flatten(parse, sets).value[q.key] == q
    decreases |sets|
  {
    var q := parse(sets[j][i]).value;
    var n := |sets| - 1;
    var init := sets[..n];
    FlattenSetEntries(parse, sets[n]);
    if j == n {
      var reqs := ParseSet(parse, sets[n]).value;
      var ps := Keyed(reqs);
      forall i2 | i < i2 < |ps| ensures ps[i2].0 != ps[i].0 {
        assert KeyOf(parse, sets[j][i2]) == Some(reqs[i2].key);
      }
      LastWins(ps, i);
    } else {
      assert init[j] == sets[j];
      forall j2, i2 | j < j2 < |init| && 0 <= i2 < |init[j2]|
        ensures KeyOf(parse, init[j2][i2]) != KeyOf(parse, init[j][i])
      {
        assert init[j2] == sets[j2];
      }
      LaterWins(parse, init, j, i);
      assert !NamedIn(parse, sets[n], q.key);
    }
  }

  /** The error `requirement_loader` raises for a requirement nothing matches. */
  function Unmatched(req: Requirement): Error
  {
    RuntimeError("Unable to find distribution matching " + req.text)
  }

  /** `DistributionsManager`. `parse` is `Requirement.parse`; `bestMatch` is the package
      environment's best match for a requirement among the installed distributions. */
  class DistributionsManager {
    const parse: string -> Option<Requirement>
    const bestMatch: Requirement -> Option<Distribution>
    /** The distributions activated so far, in activation order. */
    var activated: seq<Distribution>

    constructor (parse: string -> Option<Requirement>, bestMatch: Requirement -> Option<Distribution>)
      ensures this.parse == parse && this.bestMatch == bestMatch && activated == []
    {
      this.parse := parse;
      this.bestMatch := bestMatch;
      activated := [];
    }

    /** `_flatten_reqs(*req_sets)`: the merged dictionary whose values it returns. */
    method FlattenReqs(reqSets: seq<seq<string>>) returns (r: Result<map<string, Requirement>>)
      ensures r == Flatten(parse, reqSets)
    {
      var reqs: map<string, Requirement> := map[];
      for j := 0 to |reqSets|
        invariant Flatten(parse, reqSets[..j]) == Ok(reqs)
      {
        var rset := reqSets[j];
        ghost var before := reqs;
        ghost var seen: seq<Requirement> := [];
        for i := 0 to |rset|
          invariant ParseSet(parse, rset[..i]) == Ok(seen)
          invariant reqs == before + FromPairs(Keyed(seen))
        {
          var sreq := rset[i];
          var req := parse(sreq);
          ParseSnoc(parse, rset, i);
          if req.None? {
            FlattenFailsAt(parse, reqSets, j, i);
            return Err(ValueError(sreq));
          }
          KeyedSnoc(seen, req.value);
          UnionUpdate(before, FromPairs(Keyed(seen)), req.value.key, req.value);
          seen := seen + [req.value];
          reqs := reqs[req.value.key := req.value];
        }
        assert rset[..|rset|] == rset;
        FlattenSnoc(parse, reqSets, j);
      }
      assert reqSets[..|reqSets|] == reqSets;
      r := Ok(reqs);
    }

    /** The lookup step of `requirement_loader`: a distribution is found for every
        requirement before any is activated; if one has none, nothing is activated. */
    method LoadRequirements(reqs: seq<Requirement>) returns (r: Result<()>)
      modifies this
      ensures r.Ok? <==> forall i | 0 <= i < |reqs| :: bestMatch(reqs[i]).Some?
      ensures r.Ok? ==> activated == old(activated) + seq(|reqs|, i requires 0 <= i < |reqs| => bestMatch(reqs[i]).value)
      ensures r.Err? ==> activated == old(activated)
      ensures r.Err? ==> exists i | 0 <= i < |reqs| :: (bestMatch(reqs[i]).None? && r.error == Unmatched(reqs[i])
                           && forall i2 | 0 <= i2 < i :: bestMatch(reqs[i2]).Some?)
    {
      var reqDists: seq<Distribution> := [];
      for i := 0 to |reqs|
        invariant |reqDists| == i
        invariant forall i2 | 0 <= i2 < i :: bestMatch(reqs[i2]) == Some(reqDists[i2])
      {
        var found := bestMatch(reqs[i]);
        if found.None? {
          return Err(Unmatched(reqs[i]));
        }
        reqDists := reqDists + [found.value];
      }
      for i := 0 to |reqDists|
        invariant activated == old(activated) + reqDists[..i]
      {
        activated := activated + [reqDists[i]];
        assert reqDists[..i + 1] == reqDists[..i] + [reqDists[i]];
      }
      assert reqDists == seq(|reqs|, i requires 0 <= i < |reqs| => bestMatch(reqs[i]).value);
      r := Ok(());
    }
  }

  /** Once a prefix of a set fails to parse, the set fails with the same error. */
  lemma {:induction false} ParsePrefixFails(parse: string -> Option<Requirement>, strs: seq<string>, k: nat)
    requires k <= |strs| && ParseSet(parse, strs[..k]).Err?
    ensures ParseSet(parse, strs) == ParseSet(parse, strs[..k])
    decreases |strs|
  {
    if k < |strs| {
      var n := |strs| - 1;
      assert strs[..n][..k] == strs[..k];
      ParsePrefixFails(parse, strs[..n], k);
    } else {
      assert strs[..k] == strs;
    }
  }

  /** Once a prefix of the sets fails, the whole merge fails with the same error. */
  lemma {:induction false} FlattenPrefixFails(parse: string -> Option<Requirement>, sets: seq<seq<string>>, k: nat)
    requires k <= |sets| && Flatten(parse, sets[..k]).Err?
    ensures Flatten(parse, sets) == Flatten(parse, sets[..k])
    decreases |sets|
  {
    if k < |sets| {
      var n := |sets| - 1;
      assert sets[..n][..k] == sets[..k];
      FlattenPrefixFails(parse, sets[..n], k);
    } else {
      assert sets[..k] == sets;
    }
  }

  /** One more string of a set parsed. */
  lemma ParseSnoc(parse: string -> Option<Requirement>, strs: seq<string>, i: nat)
    requires i < |strs| && ParseSet(parse, strs[..i]).Ok?
    ensures parse(strs[i]).None? ==> ParseSet(parse, strs[..i + 1]) == Err(ValueError(strs[i]))
    ensures parse(strs[i]).Some? ==>
              ParseSet(parse, strs[..i + 1]) == Ok(ParseSet(parse, strs[..i]).value + [parse(strs[i]).value])
  {
    assert strs[..i + 1][..i] == strs[..i];
  }

  /** The merge fails at the first string that does not parse. */
  lemma FlattenFailsAt(parse: string -> Option<Requirement>, sets: seq<seq<string>>, j: nat, i: nat)
    requires j < |sets| && i < |sets[j]| && Flatten(parse, sets[..j]).Ok?
    requires ParseSet(parse, sets[j][..i + 1]) == Err(ValueError(sets[j][i]))
    ensures Flatten(parse, sets) == Err(ValueError(sets[j][i]))
  {
    ParsePrefixFails(parse, sets[j], i + 1);
    assert sets[..j + 1][..j] == sets[..j] && sets[..j + 1][j] == sets[j];
    FlattenPrefixFails(parse, sets, j + 1);
  }

  /** One more set merged. */
  lemma FlattenSnoc(parse: string -> Option<Requirement>, sets: seq<seq<string>>, j: nat)
    requires j < |sets| && Flatten(parse, sets[..j]).Ok? && ParseSet(parse, sets[j]).Ok?
    ensures Flatten(parse, sets[..j + 1]) ==
              Ok(Flatten(parse, sets[..j]).value + FromPairs(Keyed(ParseSet(parse, sets[j]).value)))
  {
    assert sets[..j + 1][..j] == sets[..j] && sets[..j + 1][j] == sets[j];
  }

  lemma KeyedSnoc(seen: seq<Requirement>, q: Requirement)
    ensures FromPairs(Keyed(seen + [q])) == FromPairs(Keyed(seen))[q.key := q]
  {
    var ps := Keyed(seen + [q]);
    assert ps[..|seen|] == Keyed(seen);
  }

  lemma UnionUpdate<K, V>(a: map<K, V>, b: map<K, V>, k: K, v: V)
    ensures (a + b)[k := v] == a + b[k := v]
  {
  }
}
