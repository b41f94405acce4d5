/** The stack lifecycle layer over CloudFormation (raduga/aws/cfn.py).
    The remote service is an oracle: `Remote` answers a describe-stacks call for one
    stack id or name, and the listing of all stacks is a sequence of descriptions. */
module Cfn {
  import opened Wrappers
  import opened Strings
  import opened Dicts

  // ---------------------------------------------------------------- statuses

  /** The stack statuses boto lists as `CloudFormationConnection.valid_states`. */
  const ValidStates: seq<string> := [
    "CREATE_IN_PROGRESS", "CREATE_FAILED", "CREATE_COMPLETE",
    "ROLLBACK_IN_PROGRESS", "ROLLBACK_FAILED", "ROLLBACK_COMPLETE",
    "DELETE_IN_PROGRESS", "DELETE_FAILED", "DELETE_COMPLETE",
    "UPDATE_IN_PROGRESS", "UPDATE_COMPLETE_CLEANUP_IN_PROGRESS",
    "UPDATE_COMPLETE", "UPDATE_ROLLBACK_IN_PROGRESS",
    "UPDATE_ROLLBACK_FAILED",
    "UPDATE_ROLLBACK_COMPLETE_CLEANUP_IN_PROGRESS",
    "UPDATE_ROLLBACK_COMPLETE"]

  predicate IsBeingCreated(status: string)
  {
    status in ["CREATE_IN_PROGRESS", "UPDATE_IN_PROGRESS"]
  }

  predicate IsBeingDeleted(status: string)
  {
    status == "DELETE_IN_PROGRESS"
  }

  predicate IsCreated(status: string)
  {
    status in ["CREATE_COMPLETE", "UPDATE_COMPLETE", "UPDATE_ROLLBACK_COMPLETE"]
  }

  predicate IsDeleted(status: string)
  {
    status == "DELETE_COMPLETE"
  }

  predicate IsFailedOrRollbacked(status: string)
  {
    status in ["CREATE_FAILED", "ROLLBACK_IN_PROGRESS", "ROLLBACK_FAILED", "ROLLBACK_COMPLETE"]
  }

  predicate IsRollbackTriggered(status: string)
  {
    status in ["ROLLBACK_IN_PROGRESS", "ROLLBACK_FAILED", "ROLLBACK_COMPLETE"]
  }

  predicate IsDeleteTriggered(status: string)
  {
    status in ["DELETE_IN_PROGRESS", "DELETE_FAILED", "DELETE_COMPLETE"]
  }

  /** Being created, created and failed-or-rolled-back never hold together. */
  lemma StatusClassesDisjoint(status: string)
    ensures !(IsBeingCreated(status) && IsCreated(status))
    ensures !(IsBeingCreated(status) && IsFailedOrRollbacked(status))
    ensures !(IsCreated(status) && IsFailedOrRollbacked(status))
    ensures IsDeleteTriggered(status) ==>
              !IsBeingCreated(status) && !IsCreated(status) && !IsFailedOrRollbacked(status)
  {
  }

  /** A triggered rollback counts as a failure; both delete states count as a triggered delete. */
  lemma StatusClassImplications(status: string)
    ensures IsRollbackTriggered(status) ==> IsFailedOrRollbacked(status)
    ensures IsDeleted(status) ==> IsDeleteTriggered(status)
    ensures IsBeingDeleted(status) ==> IsDeleteTriggered(status)
  {
  }

  /** The valid statuses that none of the predicates recognises. */
  lemma UnclassifiedStates()
    ensures forall s | s in ValidStates ::
              (!IsBeingCreated(s) && !IsCreated(s) && !IsFailedOrRollbacked(s) && !IsDeleteTriggered(s))
              <==> s in ["UPDATE_COMPLETE_CLEANUP_IN_PROGRESS", "UPDATE_ROLLBACK_IN_PROGRESS",
                         "UPDATE_ROLLBACK_FAILED", "UPDATE_ROLLBACK_COMPLETE_CLEANUP_IN_PROGRESS"]
  {
  }

  /** `_non_delete_states`: the statuses of `states` that do not start with `DELETE_`, in order. */
  function NonDeleteStates(states: seq<string>): (r: seq<string>)
    ensures |r| <= |states|
    ensures forall s :: s in r <==> s in states && !StartsWith(s, "DELETE_")
    decreases |states|
  {
    if states == [] then []
    else
      var rest := NonDeleteStates(states[1..]);
      if StartsWith(states[0], "DELETE_") then rest else [states[0]] + rest
  }

  /** No status kept by `_non_delete_states` is a delete state. */
  lemma NonDeleteStatesExcludeDeletes(states: seq<string>)
    ensures forall s | s in NonDeleteStates(states) ::
              !IsDeleteTriggered(s) && !IsDeleted(s) && !IsBeingDeleted(s)
  {
    forall s | s in NonDeleteStates(states)
      ensures !IsDeleteTriggered(s)
    {
      assert !StartsWith(s, "DELETE_");
      assert StartsWith("DELETE_IN_PROGRESS", "DELETE_");
      assert StartsWith("DELETE_FAILED", "DELETE_");
      assert StartsWith("DELETE_COMPLETE", "DELETE_");
    }
  }

  // ---------------------------------------------------------------- remote records

  /** A stack parameter or output, as `vars()` of boto's object shows it. */
  datatype Entry = Entry(key: string, value: string, description: string)

  datatype Event = Event(eventId: string, timestamp: int, logicalResourceId: string,
                         resourceStatus: string, resourceType: string,
                         resourceStatusReason: string)

  /** What describe-stacks reports about one stack. */
  datatype StackDescription = StackDescription(
    stackId: string, stackName: string, stackStatus: string,
    tags: map<string, string>, parameters: seq<Entry>, outputs: seq<Entry>,
    events: seq<Event>)

  /** The answer to a describe-stacks call: a description or a `BotoServerError` with its code. */
  datatype Lookup = Found(description: StackDescription) | Failed(code: string)

  type Remote = string -> Lookup

  /** `_AWSStack`: a stack known by its id or name. */
  datatype StackHandle = StackHandle(stackId: string)

  /** A stack definition: its JSON as `dump_json()` writes it (indented), as
      `dump_json(pretty=False)` writes it (compact), and the capabilities it needs. */
  datatype Template = Template(prettyJson: string, compactJson: string, requiredCapabilities: seq<string>)

  // ---------------------------------------------------------------- existence and creation

  /** `stack_exists`: `Some(b)` for a returned boolean, `None` when the method falls off
      its `except` clause and returns Python's `None`. `created` holds the stacks this
      connection has created: describe-stacks reports them (in CREATE_IN_PROGRESS or
      later), whatever the snapshot `remote` says. */
  function StackExists(remote: Remote, created: set<string>, stackName: string): Option<bool>
  {
    if stackName in created then Some(true)
    else
      match remote(stackName)
      case Found(d) => Some(!IsDeleted(d.stackStatus))
      case Failed(code) => if code == "ValidationError" then Some(false) else None
  }

  /** The three outcomes of `stack_exists`. */
  lemma StackExistsCases(remote: Remote, created: set<string>, stackName: string)
    ensures StackExists(remote, created, stackName) == Some(true) <==>
              stackName in created ||
              (remote(stackName).Found? && remote(stackName).description.stackStatus != "DELETE_COMPLETE")
    ensures StackExists(remote, created, stackName) == Some(false) <==>
              stackName !in created &&
              (remote(stackName) == Failed("ValidationError") ||
               (remote(stackName).Found? && remote(stackName).description.stackStatus == "DELETE_COMPLETE"))
    ensures StackExists(remote, created, stackName).None? <==>
              stackName !in created && remote(stackName).Failed? && remote(stackName).code != "ValidationError"
  {
  }

  datatype Op = CreateStack | UpdateStack

  /** The keyword arguments of `create_stack_in_cfn`. `stack` and `stack_name` are
      either passed or not. */
  datatype CreateArgs = CreateArgs(
    stack: Option<Template>, stackName: Option<string>,
    parameters: Arg<seq<(string, string)>>, allowUpdate: Arg<bool>,
    tags: Arg<map<string, string>>)

  /** The `api_call_args` passed to `create_stack` or `update_stack`; `tags` is `Absent`
      when the dictionary has no `tags` entry. */
  datatype ApiCall = ApiCall(
    op: Op, stackName: string, templateUrl: string,
    parameters: seq<(string, string)>, capabilities: seq<string>,
    tags: Arg<map<string, string>>)

  /** Whether the existing stack may be touched, and how. `found` is the value
      `stack_exists` returned, taken as a truth value. */
  function ChooseCall(found: Option<bool>, allowUpdate: Arg<bool>): Result<Op>
  {
    if found != Some(true) then Ok(CreateStack)
    else
      match allowUpdate
      case Absent => Err(KeyError("allow_update"))
      case Given(true) => Ok(UpdateStack)
      case _ => Err(RuntimeError("Stack already exists but updates not allowed!"))
  }

  /** Everything `create_stack_in_cfn` decides before and after the template upload;
      `s3Url` gives the URL at which the upload stores a stack's template. */
  function CreatePlan(remote: Remote, created: set<string>, s3Url: string -> string, args: CreateArgs): Result<ApiCall>
  {
    var parameters := if args.parameters.Given? then args.parameters.value else [];
    if args.stack.None? then Err(RuntimeError("stack not provided"))
    else if args.stackName.None? then Err(RuntimeError("stack name not provided"))
    else
      var name := args.stackName.value;
      match ChooseCall(StackExists(remote, created, name), args.allowUpdate)
      case Err(e) => Err(e)
      case Ok(op) =>
        Ok(ApiCall(op, name, s3Url(name), parameters, args.stack.value.requiredCapabilities, args.tags))
  }

  /** A stack "exists" for `create_stack_in_cfn` when this connection created it, or
      describing it succeeds with a status other than DELETE_COMPLETE. */
  ghost predicate ExistsRemotely(remote: Remote, created: set<string>, stackName: string)
  {
    stackName in created ||
    (remote(stackName).Found? && remote(stackName).description.stackStatus != "DELETE_COMPLETE")
  }

  /** The stacks known to have been created once `call` has been issued. */
  function AfterCall(created: set<string>, call: ApiCall): set<string>
  {
    if call.op == CreateStack then created + {call.stackName} else created
  }

  /** The create / update / refuse decision of `create_stack_in_cfn`, stated against the
      remote's answer. */
  lemma CreatePlanDecision(remote: Remote, created: set<string>, s3Url: string -> string, args: CreateArgs)
    ensures args.stack.None? ==> CreatePlan(remote, created, s3Url, args) == Err(RuntimeError("stack not provided"))
    ensures args.stack.Some? && args.stackName.None? ==>
              CreatePlan(remote, created, s3Url, args) == Err(RuntimeError("stack name not provided"))
    ensures args.stack.Some? && args.stackName.Some? ==>
              var r := CreatePlan(remote, created, s3Url, args);
              var name := args.stackName.value;
              && (r.Ok? && r.value.op == CreateStack <==> !ExistsRemotely(remote, created, name))
              && (r.Ok? && r.value.op == UpdateStack <==>
                    ExistsRemotely(remote, created, name) && args.allowUpdate == Given(true))
              && (r.Err? <==> ExistsRemotely(remote, created, name) && args.allowUpdate != Given(true))
  {
  }

  /** What an issued call carries: the default empty parameter list, the template URL,
      the stack's capabilities, and the tags exactly when they were passed. */
  lemma CreatePlanArguments(remote: Remote, created: set<string>, s3Url: string -> string, args: CreateArgs)
    requires CreatePlan(remote, created, s3Url, args).Ok?
    ensures var c := CreatePlan(remote, created, s3Url, args).value;
            && args.stack.Some? && args.stackName.Some?
            && c.stackName == args.stackName.value
            && c.templateUrl == s3Url(args.stackName.value)
            && c.capabilities == args.stack.value.requiredCapabilities
            && (args.parameters.Absent? || args.parameters.Null? ==> c.parameters == [])
            && (args.parameters.Given? ==> c.parameters == args.parameters.value)
            && (c.tags.Absent? <==> args.tags.Absent?)
            && c.tags == args.tags
  {
  }

  // ---------------------------------------------------------------- finding stacks

  /** Every (key, value) pair of `filter` is among `tags`. */
  predicate TagsContain(tags: map<string, string>, filter: map<string, string>)
  {
    forall k | k in filter :: k in tags && tags[k] == filter[k]
  }

  /** `find_stacks(**tags)`: the stacks of the listing whose tags contain the filter,
      in listing order. */
  function FindStacks(listing: seq<StackDescription>, filter: map<string, string>): (r: seq<StackHandle>)
    ensures |r| <= |listing|
    decreases |listing|
  {
    if listing == [] then []
    else
      var rest := FindStacks(listing[1..], filter);
      if TagsContain(listing[0].tags, filter) then [StackHandle(listing[0].stackId)] + rest else rest
  }

  /** A stack is found exactly when its tags contain every requested pair. */
  lemma {:induction false} FindStacksMembers(listing: seq<StackDescription>, filter: map<string, string>, h: StackHandle)
    ensures h in FindStacks(listing, filter) <==>
              exists i | 0 <= i < |listing| :: TagsContain(listing[i].tags, filter) && h == StackHandle(listing[i].stackId)
    decreases |listing|
  {
    if listing != [] {
      FindStacksMembers(listing[1..], filter, h);
      if exists i | 0 <= i < |listing| :: TagsContain(listing[i].tags, filter) && h == StackHandle(listing[i].stackId) {
        var i :| 0 <= i < |listing| && TagsContain(listing[i].tags, filter) && h == StackHandle(listing[i].stackId);
        if i > 0 { assert listing[1..][i - 1] == listing[i]; }
      }
      if h in FindStacks(listing[1..], filter) {
        var i :| 0 <= i < |listing[1..]| && TagsContain(listing[1..][i].tags, filter) && h == StackHandle(listing[1..][i].stackId);
        assert listing[1..][i] == listing[i + 1];
      }
    }
  }

  /** An empty filter finds every stack of the listing, in order. */
  lemma {:induction false} FindStacksEmptyFilter(listing: seq<StackDescription>)
    ensures |FindStacks(listing, map[])| == |listing|
    ensures forall i | 0 <= i < |listing| :: FindStacks(listing, map[])[i] == StackHandle(listing[i].stackId)
    decreases |listing|
  {
    if listing != [] {
      FindStacksEmptyFilter(listing[1..]);
    }
  }

  // ---------------------------------------------------------------- events

  /** The events whose id is not blocked, in their original order. */
  function Unblocked(events: seq<Event>, blocked: set<string>): (r: seq<Event>)
    ensures |r| <= |events|
    decreases |events|
  {
    if events == [] then []
    else
      var rest := Unblocked(events[1..], blocked);
      if events[0].eventId in blocked then rest else [events[0]] + rest
  }

  lemma {:induction false} UnblockedMembers(events: seq<Event>, blocked: set<string>)
    ensures forall e :: e in Unblocked(events, blocked) <==> e in events && e.eventId !in blocked
    decreases |events|
  {
    if events != [] {
      UnblockedMembers(events[1..], blocked);
      assert events == [events[0]] + events[1..];
    }
  }

  ghost predicate SortedByTime(s: seq<Event>)
  {
    forall i, j | 0 <= i < j < |s| :: s[i].timestamp <= s[j].timestamp
  }

  /** The events of `s` with timestamp `t`, in order. */
  function WithTime(s: seq<Event>, t: int): seq<Event>
    decreases |s|
  {
    if s == [] then [] else (if s[0].timestamp == t then [s[0]] else []) + WithTime(s[1..], t)
  }

  /** Places `e` after every event that is not later than it. */
  function InsertByTime(s: seq<Event>, e: Event): (r: seq<Event>)
    ensures |r| == |s| + 1
    decreases |s|
  {
    if s == [] then [e]
    else if e.timestamp < s[0].timestamp then [e] + s
    else [s[0]] + InsertByTime(s[1..], e)
  }

  /** `list.sort(key=lambda e: e['timestamp'])`: a stable sort by timestamp. */
  function SortByTime(s: seq<Event>): (r: seq<Event>)
    ensures |r| == |s|
    decreases |s|
  {
    if s == [] then []
    else
      var n := |s| - 1;
      InsertByTime(SortByTime(s[..n]), s[n])
  }

  /** Inserting adds exactly the one event. */
  lemma {:induction false} InsertByTimePerm(s: seq<Event>, e: Event)
    ensures multiset(InsertByTime(s, e)) == multiset(s) + multiset{e}
    decreases |s|
  {
    if s != [] && e.timestamp >= s[0].timestamp {
      InsertByTimePerm(s[1..], e);
      assert s == [s[0]] + s[1..];
    }
  }

  /** Sorting is a permutation. */
  lemma {:induction false} SortByTimePerm(s: seq<Event>)
    ensures multiset(SortByTime(s)) == multiset(s)
    decreases |s|
  {
    if s != [] {
      var n := |s| - 1;
      var init := s[..n];
      var sorted := SortByTime(init);
      SortByTimePerm(init);
      InsertByTimePerm(sorted, s[n]);
      assert SortByTime(s) == InsertByTime(sorted, s[n]);
      assert s == init + [s[n]];
      assert multiset(s) == multiset(init) + multiset{s[n]};
    }
  }

  /** A lower bound on every timestamp survives the insertion of a later event. */
  lemma {:induction false} InsertByTimeBound(s: seq<Event>, e: Event, lo: int)
    requires forall i | 0 <= i < |s| :: lo <= s[i].timestamp
    requires lo <= e.timestamp
    ensures forall i | 0 <= i < |InsertByTime(s, e)| :: lo <= InsertByTime(s, e)[i].timestamp
    decreases |s|
  {
    if s != [] && e.timestamp >= s[0].timestamp {
      InsertByTimeBound(s[1..], e, lo);
    }
  }

  lemma SortedTail(s: seq<Event>)
    requires SortedByTime(s) && s != []
    ensures SortedByTime(s[1..])
    ensures forall i | 0 <= i < |s[1..]| :: s[0].timestamp <= s[1..][i].timestamp
  {
    forall i, j | 0 <= i < j < |s[1..]| ensures s[1..][i].timestamp <= s[1..][j].timestamp {
      assert s[1..][i] == s[i + 1] && s[1..][j] == s[j + 1];
    }
    forall i | 0 <= i < |s[1..]| ensures s[0].timestamp <= s[1..][i].timestamp {
      assert s[1..][i] == s[i + 1];
    }
  }

  lemma SortedCons(a: Event, r: seq<Event>)
    requires SortedByTime(r)
    requires forall i | 0 <= i < |r| :: a.timestamp <= r[i].timestamp
    ensures SortedByTime([a] + r)
  {
    forall i, j | 0 <= i < j < |[a] + r| ensures ([a] + r)[i].timestamp <= ([a] + r)[j].timestamp {
      assert ([a] + r)[j] == r[j - 1];
      if i > 0 { assert ([a] + r)[i] == r[i - 1]; }
    }
  }

  lemma {:induction false} InsertByTimeSorted(s: seq<Event>, e: Event)
    requires SortedByTime(s)
    ensures SortedByTime(InsertByTime(s, e))
    decreases |s|
  {
    if s == [] {
    } else if e.timestamp < s[0].timestamp {
      forall i | 0 <= i < |s| ensures e.timestamp <= s[i].timestamp {
        assert s[0].timestamp <= s[i].timestamp || i == 0;
      }
      SortedCons(e, s);
    } else {
      SortedTail(s);
      InsertByTimeSorted(s[1..], e);
      InsertByTimeBound(s[1..], e, s[0].timestamp);
      SortedCons(s[0], InsertByTime(s[1..], e));
    }
  }

  lemma {:induction false} SortByTimeSorted(s: seq<Event>)
    ensures SortedByTime(SortByTime(s))
    decreases |s|
  {
    if s != [] {
      SortByTimeSorted(s[..|s| - 1]);
      InsertByTimeSorted(SortByTime(s[..|s| - 1]), s[|s| - 1]);
    }
  }

  lemma {:induction false} WithTimeAppend(a: seq<Event>, b: seq<Event>, t: int)
    ensures WithTime(a + b, t) == WithTime(a, t) + WithTime(b, t)
    decreases |a|
  {
    if a == [] {
      assert a + b == b;
    } else {
      assert (a + b)[1..] == a[1..] + b;
      WithTimeAppend(a[1..], b, t);
    }
  }

  lemma {:induction false} WithTimeNone(s: seq<Event>, t: int)
    requires forall i | 0 <= i < |s| :: s[i].timestamp != t
    ensures WithTime(s, t) == []
    decreases |s|
  {
    if s != [] { WithTimeNone(s[1..], t); }
  }

  lemma {:induction false} InsertByTimeStable(s: seq<Event>, e: Event, t: int)
    requires SortedByTime(s)
    ensures WithTime(InsertByTime(s, e), t) == WithTime(s, t) + (if e.timestamp == t then [e] else [])
    decreases |s|
  {
    if s == [] {
    } else {
      var tl := s[1..];
      SortedTail(s);
      var head := if s[0].timestamp == t then [s[0]] else [];
      assert WithTime(s, t) == head + WithTime(tl, t);
      if e.timestamp < s[0].timestamp {
        if e.timestamp == t {
          assert forall i | 0 <= i < |tl| :: tl[i].timestamp != t;
          WithTimeNone(tl, t);
        }
        WithTimeAppend([e], s, t);
      } else {
        InsertByTimeStable(tl, e, t);
        var r := InsertByTime(tl, e);
        assert InsertByTime(s, e) == [s[0]] + r;
        assert ([s[0]] + r)[1..] == r;
        assert WithTime([s[0]] + r, t) == head + WithTime(r, t);
      }
    }
  }

  lemma WithTimeSnoc(init: seq<Event>, last: Event, t: int)
    ensures WithTime(init + [last], t) == WithTime(init, t) + (if last.timestamp == t then [last] else [])
  {
    WithTimeAppend(init, [last], t);
  }

  /** Events with equal timestamps keep their relative order. */
  lemma {:induction false} SortByTimeStable(s: seq<Event>, t: int)
    ensures WithTime(SortByTime(s), t) == WithTime(s, t)
    decreases |s|
  {
    if s != [] {
      var n := |s| - 1;
      var init, last := s[..n], s[n];
      var sorted := SortByTime(init);
      SortByTimeSorted(init);
      InsertByTimeStable(sorted, last, t);
      SortByTimeStable(init, t);
      WithTimeSnoc(init, last, t);
      assert s == init + [last];
      assert SortByTime(s) == InsertByTime(sorted, last);
    }
  }

  /** `describe_events(not_these)`: the stack's events whose id is not the id of an event
      in `not_these`, sorted by timestamp. A failed describe call propagates. */
  function DescribeEvents(remote: Remote, stackId: string, notThese: seq<Event>): Result<seq<Event>>
  {
    var blocked := set e | e in notThese :: e.eventId;
    match remote(stackId)
    case Failed(code) => Err(ServerError(code))
    case Found(d) => Ok(SortByTime(Unblocked(d.events, blocked)))
  }

  /** The events returned are exactly the stack's events not blocked by `not_these`, each as
      often as the stack reports it, sorted by timestamp, equal timestamps in reported order. */
  lemma DescribeEventsSpec(remote: Remote, stackId: string, notThese: seq<Event>)
    ensures remote(stackId).Failed? ==> DescribeEvents(remote, stackId, notThese) == Err(ServerError(remote(stackId).code))
    ensures remote(stackId).Found? ==>
              var r := DescribeEvents(remote, stackId, notThese).value;
              var raw := remote(stackId).description.events;
              var kept := Unblocked(raw, set e | e in notThese :: e.eventId);
              && SortedByTime(r)
              && multiset(r) == multiset(kept)
              && (forall e :: e in r <==> e in raw && forall b | b in notThese :: b.eventId != e.eventId)
              && (forall t :: WithTime(r, t) == WithTime(kept, t))
  {
    if remote(stackId).Found? {
      var raw := remote(stackId).description.events;
      var blocked := set e | e in notThese :: e.eventId;
      var kept := Unblocked(raw, blocked);
      var r := SortByTime(kept);
      SortByTimeSorted(kept);
      SortByTimePerm(kept);
      UnblockedMembers(raw, blocked);
      forall t ensures WithTime(r, t) == WithTime(kept, t) { SortByTimeStable(kept, t); }
      forall e ensures e in r <==> e in kept {
        assert e in r <==> e in multiset(r);
        assert e in kept <==> e in multiset(kept);
      }
    }
  }

  // ---------------------------------------------------------------- parameters and outputs

  /** `dict([(p['key'], p) for p in entries])` */
  function KeyedEntries(entries: seq<Entry>): map<string, Entry>
  {
    FromPairs(seq(|entries|, i requires 0 <= i < |entries| => (entries[i].key, entries[i])))
  }

  /** Each entry is keyed by its `key`; of several entries with one key, the last wins. */
  lemma KeyedEntriesLastWins(entries: seq<Entry>)
    ensures KeyedEntries(entries).Keys == set i | 0 <= i < |entries| :: entries[i].key
    ensures forall i | 0 <= i < |entries| && (forall j | i < j < |entries| :: entries[j].key != entries[i].key) ::
              KeyedEntries(entries)[entries[i].key] == entries[i]
  {
    var ps := seq(|entries|, i requires 0 <= i < |entries| => (entries[i].key, entries[i]));
    assert KeysOf(ps) == set i | 0 <= i < |entries| :: entries[i].key by {
      forall k | k in KeysOf(ps) ensures k in set i | 0 <= i < |entries| :: entries[i].key {
        var i :| 0 <= i < |ps| && ps[i].0 == k;
      }
      forall k | k in set i | 0 <= i < |entries| :: entries[i].key ensures k in KeysOf(ps) {
        var i :| 0 <= i < |entries| && entries[i].key == k;
        assert ps[i].0 == k;
      }
    }
    forall i | 0 <= i < |entries| && (forall j | i < j < |entries| :: entries[j].key != entries[i].key)
      ensures KeyedEntries(entries)[entries[i].key] == entries[i]
    {
      LastWins(ps, i);
    }
  }

  /** `describe_parameters` */
  function DescribeParameters(remote: Remote, stackId: string): Result<map<string, Entry>>
  {
    match remote(stackId)
    case Failed(code) => Err(ServerError(code))
    case Found(d) => Ok(KeyedEntries(d.parameters))
  }

  /** `describe_outputs` */
  function DescribeOutputs(remote: Remote, stackId: string): Result<map<string, Entry>>
  {
    match remote(stackId)
    case Failed(code) => Err(ServerError(code))
    case Found(d) => Ok(KeyedEntries(d.outputs))
  }

  /** `describe_parameters` and `describe_outputs` propagate a failed describe call, and
      otherwise key the stack's parameters and outputs by name, the last entry winning. */
  lemma DescribeKeyed(remote: Remote, stackId: string)
    ensures remote(stackId).Failed? ==>
              && DescribeParameters(remote, stackId) == Err(ServerError(remote(stackId).code))
              && DescribeOutputs(remote, stackId) == Err(ServerError(remote(stackId).code))
    ensures remote(stackId).Found? ==>
              var d := remote(stackId).description;
              && DescribeParameters(remote, stackId).Ok?
              && DescribeParameters(remote, stackId).value.Keys == (set i | 0 <= i < |d.parameters| :: d.parameters[i].key)
              && (forall i | 0 <= i < |d.parameters| && (forall j | i < j < |d.parameters| :: d.parameters[j].key != d.parameters[i].key) ::
                    DescribeParameters(remote, stackId).value[d.parameters[i].key] == d.parameters[i])
              && DescribeOutputs(remote, stackId).Ok?
              && DescribeOutputs(remote, stackId).value.Keys == (set i | 0 <= i < |d.outputs| :: d.outputs[i].key)
              && (forall i | 0 <= i < |d.outputs| && (forall j | i < j < |d.outputs| :: d.outputs[j].key != d.outputs[i].key) ::
                    DescribeOutputs(remote, stackId).value[d.outputs[i].key] == d.outputs[i])
  {
    if remote(stackId).Found? {
      KeyedEntriesLastWins(remote(stackId).description.parameters);
      KeyedEntriesLastWins(remote(stackId).description.outputs);
    }
  }

  // ---------------------------------------------------------------- the connection object

  /** `AWSCfn`: a CloudFormation connection. Its state is what it has sent: the templates
      uploaded to S3, the create/update calls issued, and so the stacks it has created. */
  class AWSCfn {
    const remote: Remote
    /** The result of `describe_stacks()` without arguments. */
    const listing: seq<StackDescription>
    /** The URL `_upload_stack_template` returns for a stack name. */
    const s3Url: string -> string
    /** The stack id `create_stack` or `update_stack` returns for a stack name. */
    const stackIdOf: string -> string
    /** The compact JSON uploaded for each stack, in upload order. */
    var uploads: seq<(string, string)>
    var apiCalls: seq<ApiCall>
    var created: set<string>

    constructor (remote: Remote, listing: seq<StackDescription>, s3Url: string -> string,
                 stackIdOf: string -> string)
      ensures this.remote == remote && this.listing == listing && this.s3Url == s3Url
      ensures this.stackIdOf == stackIdOf
      ensures uploads == [] && apiCalls == [] && created == {}
    {
      this.remote := remote;
      this.listing := listing;
      this.s3Url := s3Url;
      this.stackIdOf := stackIdOf;
      uploads := [];
      apiCalls := [];
      created := {};
    }

    /** `create_stack_in_cfn`. It checks its arguments and whether the stack may be
        created or updated before it uploads anything; then it uploads the compact
        template, issues one call and returns the handle of the stack id it gets back. */
    method CreateStackInCfn(args: CreateArgs) returns (r: Result<StackHandle>)
      modifies this
      ensures var plan := CreatePlan(remote, old(created), s3Url, args);
              && (plan.Err? ==> r == Err(plan.error) && uploads == old(uploads)
                                && apiCalls == old(apiCalls) && created == old(created))
              && (plan.Ok? ==> r == Ok(StackHandle(stackIdOf(args.stackName.value)))
                               && uploads == old(uploads) + [(args.stackName.value, args.stack.value.compactJson)]
                               && apiCalls == old(apiCalls) + [plan.value]
                               && created == AfterCall(old(created), plan.value))
    {
      var parameters := if args.parameters.Given? then args.parameters.value else [];
      if args.stack.None? {
        return Err(RuntimeError("stack not provided"));
      }
      if args.stackName.None? {
        return Err(RuntimeError("stack name not provided"));
      }
      var stack, name := args.stack.value, args.stackName.value;
      var choice := ChooseCall(StackExists(remote, created, name), args.allowUpdate);
      if choice.Err? {
        return Err(choice.error);
      }
      uploads := uploads + [(name, stack.compactJson)];
      var call := ApiCall(choice.value, name, s3Url(name), parameters, stack.requiredCapabilities, Absent);
      if !args.tags.Absent? {
        call := call.(tags := args.tags);
      }
      apiCalls := apiCalls + [call];
      if choice.value == CreateStack {
        created := created + {name};
      }
      r := Ok(StackHandle(stackIdOf(name)));
    }
  }
}
