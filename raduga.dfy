/** The top-level object of raduga (`raduga/__init__.py`): an environment of variables,
    overridden or defaulted per stack, and the set of stacks to deploy or print. */
module Raduga {
  import opened Wrappers
  import opened Aws
  import opened Cfn

  // ---------------------------------------------------------------- per-stack environment

  /** The value `getEnvForStack` gives the key `k`, once the stack variables in `done`
      were applied: the stack's own entry, else the base value, else `_default`. */
  function Resolved<V>(env: map<string, V>, vars: map<string, map<string, V>>, name: string,
                       done: set<string>, k: string): V
    requires k in env || (k in done && k in vars && (name in vars[k] || "_default" in vars[k]))
  {
    if k in done && k in vars && name in vars[k] then vars[k][name]
    else if k in env then env[k]
    else vars[k]["_default"]
  }

  /** The environment after the stack variables in `done` were applied to a copy of `env`. */
  function Overlay<V>(env: map<string, V>, vars: map<string, map<string, V>>, name: string,
                      done: set<string>): map<string, V>
  {
    map k | k in env.Keys + done && (k in env || (k in vars && (name in vars[k] || "_default" in vars[k])))
      :: Resolved(env, vars, name, done, k)
  }

  /** `getEnvForStack(name)`: every stack variable applied. */
  function EnvForStack<V>(env: map<string, V>, vars: map<string, map<string, V>>, name: string): map<string, V>
  {
    Overlay(env, vars, name, vars.Keys)
  }

  /** Each stack's environment, as `getEnvForStack` gives it. */
  function EnvLookup<V>(env: map<string, V>, vars: map<string, map<string, V>>): string -> map<string, V>
  {
    name => EnvForStack(env, vars, name)
  }

  /** A stack variable with an entry for the stack overrides the base value. */
  lemma StackEntryOverrides<V>(env: map<string, V>, vars: map<string, map<string, V>>, name: string, k: string)
    requires k in vars && name in vars[k]
    ensures k in EnvForStack(env, vars, name) && EnvForStack(env, vars, name)[k] == vars[k][name]
  {
  }

  /** Without an entry for the stack, the base value stays; `_default` is used only when
      the base environment lacks the key. */
  lemma DefaultOnlyWhenMissing<V>(env: map<string, V>, vars: map<string, map<string, V>>, name: string, k: string)
    requires k in vars && name !in vars[k]
    ensures k in env ==> k in EnvForStack(env, vars, name) && EnvForStack(env, vars, name)[k] == env[k]
    ensures k !in env ==>
              (k in EnvForStack(env, vars, name) <==> "_default" in vars[k]) &&
              ("_default" in vars[k] ==> EnvForStack(env, vars, name)[k] == vars[k]["_default"])
  {
  }

  /** Keys no stack variable names keep their base value. */
  lemma UntouchedKeys<V>(env: map<string, V>, vars: map<string, map<string, V>>, name: string, k: string)
    requires k !in vars
    ensures k in EnvForStack(env, vars, name) <==> k in env
    ensures k in env ==> EnvForStack(env, vars, name)[k] == env[k]
  {
  }

  /** The keys of the result: the base keys, and the stack variables that have an entry
      for the stack or a `_default`. */
  lemma EnvForStackKeys<V>(env: map<string, V>, vars: map<string, map<string, V>>, name: string, k: string)
    ensures k in EnvForStack(env, vars, name) <==>
              k in env || (k in vars && (name in vars[k] || "_default" in vars[k]))
  {
  }

  /** Before any stack variable is applied, the copy is the base environment. */
  lemma OverlayNone<V>(env: map<string, V>, vars: map<string, map<string, V>>, name: string)
    ensures Overlay(env, vars, name, {}) == env
  {
  }

  /** Applying one more stack variable changes the copy at that key only. */
  lemma OverlayStep<V>(env: map<string, V>, vars: map<string, map<string, V>>, name: string,
                       done: set<string>, k: string)
    requires k in vars && k !in done
    ensures var before := Overlay(env, vars, name, done);
            Overlay(env, vars, name, done + {k}) ==
              if name in vars[k] then before[k := vars[k][name]]
              else if "_default" in vars[k] && k !in before then before[k := vars[k]["_default"]]
              else before
  {
  }

  /** `Environment`: the base variables and the per-stack variables. */
  class Environment<V> {
    var env: map<string, V>
    var stackVars: map<string, map<string, V>>

    constructor (env: map<string, V>)
      ensures this.env == env && stackVars == map[]
    {
      this.env := env;
      stackVars := map[];
    }

    /** `set(**kwargs)`: the base environment is replaced as a whole. */
    method Set(env: map<string, V>)
      modifies this
      ensures this.env == env && stackVars == old(stackVars)
    {
      this.env := env;
    }

    /** `setStackVar(name, valuesDict)`: only the named variable is replaced. */
    method SetStackVar(name: string, values: map<string, V>)
      modifies this
      ensures stackVars == old(stackVars)[name := values] && env == old(env)
    {
      stackVars := stackVars[name := values];
    }

    /** `getEnvForStack(stack_name)`: the stack variables are applied to a copy of the base
        environment, one at a time in whatever order the dictionary yields them; neither
        field changes. */
    method GetEnvForStack(stackName: string) returns (ret: map<string, V>)
      ensures ret == EnvForStack(env, stackVars, stackName)
    {
      ret := env;
      var todo := stackVars.Keys;
      ghost var done: set<string> := {};
      OverlayNone(env, stackVars, stackName);
      while todo != {}
        invariant todo + done == stackVars.Keys && todo !! done
        invariant ret == Overlay(env, stackVars, stackName, done)
        decreases todo
      {
        var stackVar :| stackVar in todo;
        var vdict := stackVars[stackVar];
        OverlayStep(env, stackVars, stackName, done, stackVar);
        if stackName in vdict {
          ret := ret[stackVar := vdict[stackName]];
        } else if "_default" in vdict && stackVar !in ret {
          ret := ret[stackVar := vdict["_default"]];
        }
        todo := todo - {stackVar};
        done := done + {stackVar};
      }
    }
  }

  // ---------------------------------------------------------------- stacks

  /** The name of a stack class: the Python class a stack definition names. */
  type StackClass = string

  /** The keyword arguments passed to `addStack`; only `stack_class` is ever read. */
  datatype StackDesc = StackDesc(stackClass: Option<StackClass>)

  /** `order` lists the stack names once each, in the order `stacks.keys()` yields. */
  predicate Listed(order: seq<string>, stacks: map<string, StackDesc>)
  {
    && (forall i | 0 <= i < |order| :: order[i] in stacks)
    && (forall n | n in stacks :: n in order)
    && (forall i, j | 0 <= i < j < |order| :: order[i] != order[j])
  }

  /** The stacks `deploy` and `printS` act on: all of them when the selection is missing
      or empty, otherwise exactly the selected names in the given order. */
  function Selection(order: seq<string>, sel: Option<seq<string>>): seq<string>
  {
    if sel.None? || |sel.value| == 0 then order else sel.value
  }

  lemma SelectionCases(order: seq<string>, stacks: map<string, StackDesc>, sel: Option<seq<string>>)
    requires Listed(order, stacks)
    ensures sel.None? || sel.value == [] ==>
              && (forall n :: n in Selection(order, sel) <==> n in stacks)
              && (forall i, j | 0 <= i < j < |Selection(order, sel)| :: Selection(order, sel)[i] != Selection(order, sel)[j])
    ensures sel.Some? && sel.value != [] ==> Selection(order, sel) == sel.value
  {
  }

  /** What a loop over stack names produced before it ended, and the error that ended it. */
  datatype Run<T> = Run(out: seq<T>, failure: Option<Error>)

  function Prepend<T>(out: seq<T>, r: Run<T>): Run<T>
  {
    Run(out + r.out, r.failure)
  }

  lemma PrependEmpty<T>(r: Run<T>)
    ensures Prepend([], r) == r
  {
    assert [] + r.out == r.out;
  }

  lemma PrependAppend<T>(a: seq<T>, b: seq<T>, r: Run<T>)
    ensures Prepend(a, Prepend(b, r)) == Prepend(a + b, r)
  {
    assert a + (b + r.out) == (a + b) + r.out;
  }

  /** The arguments `deploy` passes to `create_stack_in_cfn`. */
  function DeployArgs(template: Template, name: string): CreateArgs
  {
    CreateArgs(Some(template), Some(name), Absent, Given(false), Absent)
  }

  /** The calls `deploy` issues for `names`, and the error that stops it. Each create
      makes that stack exist for the calls after it. */
  function DeployRun<V>(remote: Remote, created: set<string>, s3Url: string -> string,
                        instantiate: (StackClass, map<string, V>) -> Template,
                        envOf: string -> map<string, V>,
                        stacks: map<string, StackDesc>, names: seq<string>): Run<ApiCall>
    decreases |names|
  {
    if names == [] then Run([], None)
    else
      match DeployStep(remote, created, s3Url, instantiate, stacks, names[0], envOf(names[0]))
      case Err(e) => Run([], Some(e))
      case Ok(c) => Prepend([c], DeployRun(remote, AfterCall(created, c), s3Url, instantiate, envOf, stacks, names[1..]))
  }

  /** What `deploy` does for one name and its environment: the create call it issues,
      or the error it stops with. */
  function DeployStep<V>(remote: Remote, created: set<string>, s3Url: string -> string,
                         instantiate: (StackClass, map<string, V>) -> Template,
                         stacks: map<string, StackDesc>, name: string, environ: map<string, V>): Result<ApiCall>
  {
    if name !in stacks then Err(KeyError(name))
    else if stacks[name].stackClass.None? then Err(KeyError("stack_class"))
    else CreatePlan(remote, created, s3Url, DeployArgs(instantiate(stacks[name].stackClass.value, environ), name))
  }

  /** What `deploy` asks of `create_stack_in_cfn` is at most a create of that very stack. */
  lemma DeployPlan(remote: Remote, created: set<string>, s3Url: string -> string, template: Template, name: string)
    ensures var plan := CreatePlan(remote, created, s3Url, DeployArgs(template, name));
            && (plan.Ok? <==> !ExistsRemotely(remote, created, name))
            && (plan.Ok? ==> plan.value.op == CreateStack && plan.value.stackName == name
                             && AfterCall(created, plan.value) == created + {name})
            && (plan.Err? ==> plan.error == RuntimeError("Stack already exists but updates not allowed!"))
  {
    CreatePlanDecision(remote, created, s3Url, DeployArgs(template, name));
  }

  /** The names before position `i`. */
  ghost function Earlier(names: seq<string>, i: nat): set<string>
    requires i <= |names|
  {
    set j | 0 <= j < i :: names[j]
  }

  /** One more name seen. */
  lemma EarlierSnoc(base: set<string>, names: seq<string>, i: nat)
    requires i < |names|
    ensures base + Earlier(names, i + 1) == (base + Earlier(names, i)) + {names[i]}
  {
    assert Earlier(names, i + 1) == Earlier(names, i) + {names[i]};
  }

  /** A stack `deploy` can create: it is defined, has a class, and does not exist yet. */
  ghost predicate Deployable(remote: Remote, created: set<string>, stacks: map<string, StackDesc>, name: string)
  {
    name in stacks && stacks[name].stackClass.Some? && !ExistsRemotely(remote, created, name)
  }

  /** The error `deploy` stops with at a name it cannot create. */
  function DeployError(stacks: map<string, StackDesc>, name: string): Error
  {
    if name !in stacks then KeyError(name)
    else if stacks[name].stackClass.None? then KeyError("stack_class")
    else RuntimeError("Stack already exists but updates not allowed!")
  }

  /** The names before position `i` of a sequence are its head and the names before
      position `i - 1` of its tail. */
  lemma EarlierCons(names: seq<string>, i: nat)
    requires 0 < i <= |names|
    ensures Earlier(names, i) == {names[0]} + Earlier(names[1..], i - 1)
  {
    var tl := names[1..];
    forall x | x in Earlier(names, i) ensures x in {names[0]} + Earlier(tl, i - 1) {
      var j :| 0 <= j < i && names[j] == x;
      if j > 0 { assert tl[j - 1] == x; }
    }
    forall x | x in Earlier(tl, i - 1) ensures x in Earlier(names, i) {
      var j :| 0 <= j < i - 1 && tl[j] == x;
      assert names[j + 1] == x;
    }
  }

  /** One step of `deploy`: a stack it can create is created, and the rest of the run
      sees it; at any other name the run stops with that name's error. */
  lemma DeployRunStep<V>(remote: Remote, created: set<string>, s3Url: string -> string,
                         instantiate: (StackClass, map<string, V>) -> Template,
                         envOf: string -> map<string, V>,
                         stacks: map<string, StackDesc>, names: seq<string>)
    requires names != []
    ensures var run := DeployRun(remote, created, s3Url, instantiate, envOf, stacks, names);
            var rest := DeployRun(remote, created + {names[0]}, s3Url, instantiate, envOf, stacks, names[1..]);
            && (Deployable(remote, created, stacks, names[0]) ==>
                  && |run.out| == 1 + |rest.out|
                  && run.out[0].op == CreateStack && run.out[0].stackName == names[0]
                  && run.out[1..] == rest.out && run.failure == rest.failure)
            && (!Deployable(remote, created, stacks, names[0]) ==>
                  run == Run([], Some(DeployError(stacks, names[0]))))
  {
    var name := names[0];
    if name in stacks && stacks[name].stackClass.Some? {
      var template := instantiate(stacks[name].stackClass.value, envOf(name));
      CreatePlanDecision(remote, created, s3Url, DeployArgs(template, name));
      DeployPlan(remote, created, s3Url, template, name);
    }
  }

  /** `deploy` only ever creates stacks, one per name in order, and stops at the first name
      that is undefined or already exists, since it never allows updates; a stack created
      earlier in the same run exists. */
  lemma {:induction false} DeployNeverUpdates<V>(remote: Remote, created: set<string>, s3Url: string -> string,
                        instantiate: (StackClass, map<string, V>) -> Template,
                        envOf: string -> map<string, V>,
                        stacks: map<string, StackDesc>, names: seq<string>)
    ensures var run := DeployRun(remote, created, s3Url, instantiate, envOf, stacks, names);
            && |run.out| <= |names|
            && (forall i | 0 <= i < |run.out| ::
                  run.out[i].op == CreateStack && run.out[i].stackName == names[i]
                  && Deployable(remote, created + Earlier(names, i), stacks, names[i]))
            && (run.failure.None? <==>
                  forall i | 0 <= i < |names| :: Deployable(remote, created + Earlier(names, i), stacks, names[i]))
            && (run.failure.None? ==> |run.out| == |names|)
            && (run.failure.Some? ==>
                  && |run.out| < |names|
                  && !Deployable(remote, created + Earlier(names, |run.out|), stacks, names[|run.out|])
                  && run.failure == Some(DeployError(stacks, names[|run.out|])))
    decreases |names|
  {
    if names != [] {
      var name := names[0];
      var tl := names[1..];
      var run := DeployRun(remote, created, s3Url, instantiate, envOf, stacks, names);
      DeployRunStep(remote, created, s3Url, instantiate, envOf, stacks, names);
      assert Earlier(names, 0) == {};
      assert created + Earlier(names, 0) == created;
      if Deployable(remote, created, stacks, name) {
        var created' := created + {name};
        var rest := DeployRun(remote, created', s3Url, instantiate, envOf, stacks, tl);
        DeployNeverUpdates(remote, created', s3Url, instantiate, envOf, stacks, tl);
        forall i | 0 < i <= |names|
          ensures created + Earlier(names, i) == created' + Earlier(tl, i - 1)
        {
          EarlierCons(names, i);
        }
        assert forall i | 0 < i < |names| :: names[i] == tl[i - 1];
        assert forall i | 0 < i < |run.out| :: run.out[i] == rest.out[i - 1];
      }
    }
  }

  /** The run over `names[i..]`, given what `deploy` did at `names[i]`: it stops with
      that error, or it is that call followed by the run over the rest, which sees the
      new stack. */
  lemma DeployRunAt<V>(remote: Remote, created: set<string>, s3Url: string -> string,
                       instantiate: (StackClass, map<string, V>) -> Template,
                       envOf: string -> map<string, V>,
                       stacks: map<string, StackDesc>, names: seq<string>, i: nat,
                       step: Result<ApiCall>, after: set<string>)
    requires i < |names|
    requires step == DeployStep(remote, created, s3Url, instantiate, stacks, names[i], envOf(names[i]))
    requires step.Ok? ==> after == created + {names[i]}
    ensures step.Err? ==>
              DeployRun(remote, created, s3Url, instantiate, envOf, stacks, names[i..]) == Run([], Some(step.error))
    ensures step.Ok? ==>
              DeployRun(remote, created, s3Url, instantiate, envOf, stacks, names[i..]) ==
                Prepend([step.value], DeployRun(remote, after, s3Url, instantiate, envOf, stacks, names[i + 1..]))
  {
    assert names[i..][0] == names[i] && names[i..][1..] == names[i + 1..];
    if step.Ok? {
      DeployPlan(remote, created, s3Url, instantiate(stacks[names[i]].stackClass.value, envOf(names[i])), names[i]);
    }
  }

  /** A name selected twice is never created twice: `deploy` stops at the second
      occurrence at the latest, and if it gets there it refuses to update. */
  lemma DeployRepeatedName<V>(remote: Remote, created: set<string>, s3Url: string -> string,
                              instantiate: (StackClass, map<string, V>) -> Template,
                              envOf: string -> map<string, V>,
                              stacks: map<string, StackDesc>, names: seq<string>, i: nat, j: nat)
    requires i < j < |names| && names[i] == names[j]
    ensures var run := DeployRun(remote, created, s3Url, instantiate, envOf, stacks, names);
            && run.failure.Some? && |run.out| <= j
            && (|run.out| == j ==> run.failure == Some(RuntimeError("Stack already exists but updates not allowed!")))
  {
    var run := DeployRun(remote, created, s3Url, instantiate, envOf, stacks, names);
    DeployNeverUpdates(remote, created, s3Url, instantiate, envOf, stacks, names);
    assert names[i] in Earlier(names, j);
    assert !Deployable(remote, created + Earlier(names, j), stacks, names[j]);
    if |run.out| == j {
      assert Deployable(remote, created + Earlier(names, i), stacks, names[i]);
    }
  }

  /** The dashed rule `printS` prints after each stack. */
  function Rule(): string
  {
    seq(79, _ => '-') + "\n\n"
  }

  /** The lines `printS` prints for `names`, and the error that stops it. */
  function PrintRun<V>(instantiate: (StackClass, map<string, V>) -> Template,
                       envOf: string -> map<string, V>,
                       stacks: map<string, StackDesc>, names: seq<string>): Run<string>
    decreases |names|
  {
    if names == [] then Run([], None)
    else
      var name := names[0];
      var head := "STACK: " + name;
      if name !in stacks then Run([head], Some(KeyError(name)))
      else if stacks[name].stackClass.None? then Run([head], Some(KeyError("stack_class")))
      else
        var template := instantiate(stacks[name].stackClass.value, envOf(name));
        Prepend([head, template.prettyJson, Rule()], PrintRun(instantiate, envOf, stacks, names[1..]))
  }

  /** A stack `printS` can print: it is defined and has a class. */
  predicate Printable(stacks: map<string, StackDesc>, name: string)
  {
    name in stacks && stacks[name].stackClass.Some?
  }

  /** `printS` stops exactly at the first stack it cannot build, after that stack's
      heading; otherwise it prints three lines per stack. */
  lemma {:induction false} PrintRunLength<V>(instantiate: (StackClass, map<string, V>) -> Template,
                       envOf: string -> map<string, V>,
                       stacks: map<string, StackDesc>, names: seq<string>)
    ensures var run := PrintRun(instantiate, envOf, stacks, names);
            && (run.failure.None? <==> forall i | 0 <= i < |names| :: Printable(stacks, names[i]))
            && (run.failure.None? ==> |run.out| == 3 * |names|)
            && (run.failure.Some? ==>
                  exists n | 0 <= n < |names| :: |run.out| == 3 * n + 1 && !Printable(stacks, names[n])
                    && forall i | 0 <= i < n :: Printable(stacks, names[i]))
    decreases |names|
  {
    if names != [] {
      var tl := names[1..];
      PrintRunLength(instantiate, envOf, stacks, tl);
      assert forall i | 0 < i < |names| :: names[i] == tl[i - 1];
      var run := PrintRun(instantiate, envOf, stacks, names);
      if Printable(stacks, names[0]) && run.failure.Some? {
        var rest := PrintRun(instantiate, envOf, stacks, tl);
        var n :| 0 <= n < |tl| && |rest.out| == 3 * n + 1 && !Printable(stacks, tl[n])
                   && forall i | 0 <= i < n :: Printable(stacks, tl[i]);
        assert |run.out| == 3 * (n + 1) + 1 && !Printable(stacks, names[n + 1]);
      } else if run.failure.Some? {
        assert |run.out| == 3 * 0 + 1;
      }
    }
  }

  /** Each stack's lines: its heading, the JSON of the stack built from the stack's own
      environment, and the rule. */
  lemma {:induction false} PrintRunLines<V>(instantiate: (StackClass, map<string, V>) -> Template,
                       envOf: string -> map<string, V>,
                       stacks: map<string, StackDesc>, names: seq<string>, i: nat)
    requires i < |names|
    ensures var run := PrintRun(instantiate, envOf, stacks, names);
            && (3 * i < |run.out| ==> run.out[3 * i] == "STACK: " + names[i])
            && (3 * i + 2 < |run.out| ==>
                  Printable(stacks, names[i]) &&
                  run.out[3 * i + 1] == instantiate(stacks[names[i]].stackClass.value, envOf(names[i])).prettyJson &&
                  run.out[3 * i + 2] == Rule())
    decreases |names|
  {
    var tl := names[1..];
    var run := PrintRun(instantiate, envOf, stacks, names);
    if i > 0 && Printable(stacks, names[0]) {
      PrintRunLines(instantiate, envOf, stacks, tl, i - 1);
      var rest := PrintRun(instantiate, envOf, stacks, tl);
      assert run.out[3..] == rest.out;
      assert names[i] == tl[i - 1];
    }
  }

  /** One iteration of `deploy`'s loop, once the stack's environment is known: look up
      the stack's class, build the stack and ask `create_stack_in_cfn` to create it. */
  method DeployOne<V>(cfn: AWSCfn, instantiate: (StackClass, map<string, V>) -> Template,
                      stacks: map<string, StackDesc>, name: string, environ: map<string, V>)
    returns (r: Result<ApiCall>)
    modifies cfn
    ensures r == DeployStep(cfn.remote, old(cfn.created), cfn.s3Url, instantiate, stacks, name, environ)
    ensures r.Ok? ==> cfn.apiCalls == old(cfn.apiCalls) + [r.value] && cfn.created == old(cfn.created) + {name}
    ensures r.Err? ==> cfn.apiCalls == old(cfn.apiCalls) && cfn.created == old(cfn.created)
  {
    if name !in stacks {
      return Err(KeyError(name));
    }
    var desc := stacks[name];
    if desc.stackClass.None? {
      return Err(KeyError("stack_class"));
    }
    var theStack := instantiate(desc.stackClass.value, environ);
    DeployPlan(cfn.remote, cfn.created, cfn.s3Url, theStack, name);
    var handle := cfn.CreateStackInCfn(DeployArgs(theStack, name));
    if handle.Err? {
      return Err(handle.error);
    }
    r := Ok(cfn.apiCalls[|cfn.apiCalls| - 1]);
  }

  /** The loop of `deploy` over the selected names: the calls it issues and the error it
      stops with, if any, are those of `DeployRun`. */
  method DeployAll<V>(cfn: AWSCfn, env: Environment<V>, inst: (StackClass, map<string, V>) -> Template,
                      stk: map<string, StackDesc>, names: seq<string>)
    returns (calls: seq<ApiCall>, failure: Option<Error>)
    modifies cfn
    ensures var run := DeployRun(cfn.remote, old(cfn.created), cfn.s3Url, inst,
                                 EnvLookup(env.env, env.stackVars), stk, names);
            && calls == run.out && failure == run.failure
            && |calls| <= |names|
            && cfn.apiCalls == old(cfn.apiCalls) + calls
            && cfn.created == old(cfn.created) + Earlier(names, |calls|)
  {
    ghost var envOf := EnvLookup(env.env, env.stackVars);
    ghost var remote, s3Url := cfn.remote, cfn.s3Url;
    ghost var all := DeployRun(remote, cfn.created, s3Url, inst, envOf, stk, names);
    calls := [];
    failure := None;
    var i := 0;
    assert names[0..] == names;
    assert Earlier(names, 0) == {};
    PrependEmpty(all);
    while i < |names| && failure.None?
      invariant 0 <= i <= |names| && |calls| == i
      invariant failure.None? ==>
                  all == Prepend(calls, DeployRun(remote, cfn.created, s3Url, inst, envOf, stk, names[i..]))
      invariant failure.Some? ==> all == Run(calls, failure)
      invariant cfn.apiCalls == old(cfn.apiCalls) + calls
      invariant cfn.created == old(cfn.created) + Earlier(names, i)
      decreases |names| - i, failure.None?
    {
      var name := names[i];
      var environ := env.GetEnvForStack(name);
      assert environ == envOf(name);
      ghost var before := cfn.created;
      var step := DeployOne(cfn, inst, stk, name, environ);
      DeployRunAt(remote, before, s3Url, inst, envOf, stk, names, i, step, cfn.created);
      if step.Err? {
        assert calls + [] == calls;
        failure := Some(step.error);
      } else {
        EarlierSnoc(old(cfn.created), names, i);
        PrependAppend(calls, [step.value], DeployRun(remote, cfn.created, s3Url, inst, envOf, stk, names[i + 1..]));
        assert cfn.apiCalls == old(cfn.apiCalls) + (calls + [step.value]);
        calls := calls + [step.value];
        i := i + 1;
      }
    }
    if failure.None? {
      assert names[i..] == [];
      assert calls + [] == calls;
    }
  }

  /** `Raduga`: the environment, the stack definitions and the deployment targets.
      `instantiate` calls a stack class on an environment and gives the template. */
  class Raduga<V> {
    const instantiate: (StackClass, map<string, V>) -> Template
    const env: Environment<V>
    var stacks: map<string, StackDesc>
    /** The order in which `stacks.keys()` yields the names. */
    var order: seq<string>
    var targets: map<string, Target>

    ghost predicate Valid()
      reads this
    {
      Listed(order, stacks)
    }

    constructor (instantiate: (StackClass, map<string, V>) -> Template)
      ensures Valid() && fresh(env)
      ensures this.instantiate == instantiate
      ensures env.env == map[] && env.stackVars == map[]
      ensures stacks == map[] && order == [] && targets == map[]
    {
      this.instantiate := instantiate;
      env := new Environment(map[]);
      stacks := map[];
      order := [];
      targets := map[];
    }

    /** `addStack(name, **stack)`: only the entry of that name is replaced. */
    method AddStack(name: string, desc: StackDesc)
      requires Valid()
      modifies this
      ensures Valid()
      ensures stacks == old(stacks)[name := desc] && targets == old(targets)
      ensures order == if name in old(stacks) then old(order) else old(order) + [name]
    {
      if name !in stacks {
        order := order + [name];
      }
      stacks := stacks[name := desc];
    }

    /** `setTarget(name, **target)`: the target is built as `Target` builds it, and stored
        only if that succeeds. */
    method SetTarget(name: string, credentials: Arg<Credentials>, region: Arg<Value>, iamArn: string)
      returns (r: Result<()>)
      modifies this
      ensures var t := NewTarget(credentials, region, iamArn);
              && (t.Ok? ==> r == Ok(()) && targets == old(targets)[name := t.value])
              && (t.Err? ==> r == Err(t.error) && targets == old(targets))
      ensures stacks == old(stacks) && order == old(order)
    {
      var t := NewTarget(credentials, region, iamArn);
      if t.Err? {
        return Err(t.error);
      }
      targets := targets[name := t.value];
      r := Ok(());
    }

    /** `deploy(stack_sel)`: each selected stack is built from its environment and
        created, never updated. `cfn` stands for the connection opened for the `aws`
        target; opening it reads the target's bucket name, which a target built without
        credentials lacks. */
    method Deploy(sel: Option<seq<string>>, cfn: AWSCfn) returns (r: Result<seq<ApiCall>>)
      modifies cfn
      ensures "aws" !in targets ==>
                r == Err(KeyError("aws")) && cfn.apiCalls == old(cfn.apiCalls) && cfn.created == old(cfn.created)
      ensures "aws" in targets && targets["aws"].cfnBucketName.None? ==>
                r == Err(AttributeError("cfn_bucket_name")) && cfn.apiCalls == old(cfn.apiCalls) && cfn.created == old(cfn.created)
      ensures "aws" in targets && targets["aws"].cfnBucketName.Some? ==>
                var names := Selection(order, sel);
                var run := DeployRun(cfn.remote, old(cfn.created), cfn.s3Url, instantiate,
                                     EnvLookup(env.env, env.stackVars), stacks, names);
                && cfn.apiCalls == old(cfn.apiCalls) + run.out
                && |run.out| <= |names|
                && cfn.created == old(cfn.created) + Earlier(names, |run.out|)
                && r == (if run.failure.None? then Ok(run.out) else Err(run.failure.value))
    {
      if "aws" !in targets {
        return Err(KeyError("aws"));
      }
      if targets["aws"].cfnBucketName.None? {
        return Err(AttributeError("cfn_bucket_name"));
      }
      var names := Selection(order, sel);
      var calls, failure := DeployAll(cfn, env, instantiate, stacks, names);
      r := if failure.None? then Ok(calls) else Err(failure.value);
    }

    /** `printS(stack_sel)`: the lines printed for the selected stacks, and the error that
        ends the listing; nothing changes. */
    method PrintS(sel: Option<seq<string>>) returns (r: Run<string>)
      ensures r == PrintRun(instantiate, EnvLookup(env.env, env.stackVars), stacks, Selection(order, sel))
    {
      var names := Selection(order, sel);
      ghost var all := PrintRun(instantiate, EnvLookup(env.env, env.stackVars), stacks, names);
      var lines: seq<string> := [];
      var i := 0;
      assert names[0..] == names;
      PrependEmpty(all);
      while i < |names|
        invariant 0 <= i <= |names|
        invariant all == Prepend(lines, PrintRun(instantiate, EnvLookup(env.env, env.stackVars), stacks, names[i..]))
      {
        var name := names[i];
        assert names[i..][0] == name && names[i..][1..] == names[i + 1..];
        var heading := "STACK: " + name;
        var environ := env.GetEnvForStack(name);
        assert environ == EnvLookup(env.env, env.stackVars)(name);
        if name !in stacks {
          assert all == Run(lines + [heading], Some(KeyError(name)));
          return Run(lines + [heading], Some(KeyError(name)));
        }
        var desc := stacks[name];
        if desc.stackClass.None? {
          assert all == Run(lines + [heading], Some(KeyError("stack_class")));
          return Run(lines + [heading], Some(KeyError("stack_class")));
        }
        var theStack := instantiate(desc.stackClass.value, environ);
        PrependAppend(lines, [heading, theStack.prettyJson, Rule()],
                      PrintRun(instantiate, EnvLookup(env.env, env.stackVars), stacks, names[i + 1..]));
        lines := lines + [heading, theStack.prettyJson, Rule()];
        i := i + 1;
      }
      assert names[i..] == [];
      assert lines + [] == lines;
      r := Run(lines, None);
    }
  }
}
