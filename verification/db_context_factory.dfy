/**
 * `DbContextFactory<T>`: a registry of initialised test databases. The
 * first `InitDb` of a connection string records its context options,
 * recreates the database and runs the registered actions on it, stopping at
 * one that throws; a repeat `InitDb` does nothing. `Create` builds a context for an initialised
 * database only.
 */
module DbContextFactories {
  import opened Wrappers
  import opened Exceptions
  import opened DbConnectionStrings
  import opened ContextEffects

  /** The calls made running the registered actions, and the exception that stopped them, if any. */
  datatype Invocation = Invocation(effects: seq<Effect>, outcome: Outcome<Exception>)

  /**
   * `_actions.ForEach(a => a.Invoke(options))`: each action in registration
   * order, up to and including the first one that throws, whose exception
   * propagates.
   */
  function InvokeAll(actions: seq<Action>, options: ContextOptions): (run: Invocation)
    ensures |run.effects| <= |actions|
    ensures forall i :: 0 <= i < |run.effects| ==> run.effects[i] == Invoke(actions[i], options)
    ensures run.outcome.Pass? <==> forall i :: 0 <= i < |actions| ==> actions[i].fault.None?
    ensures run.outcome.Pass? ==> |run.effects| == |actions|
    ensures run.outcome.Fail? ==>
      && 0 < |run.effects|
      && actions[|run.effects| - 1].fault == Some(run.outcome.error)
      && forall i :: 0 <= i < |run.effects| - 1 ==> actions[i].fault.None?
    decreases |actions|
  {
    if actions == [] then Invocation([], Pass)
    else
      var prior := InvokeAll(actions[..|actions| - 1], options);
      var last := actions[|actions| - 1];
      if prior.outcome.Fail? then prior
      else Invocation(prior.effects + [Invoke(last, options)], if last.fault.Some? then Fail(last.fault.value) else Pass)
  }

  /**
   * The run of the actions is determined by the first action that throws:
   * when the actions before position `n` do not throw and the one at `n`
   * does (or there is none), the run calls exactly the actions up to `n`.
   */
  lemma InvokeAllStopsAt(actions: seq<Action>, options: ContextOptions, n: nat, calls: seq<Effect>)
    requires n <= |actions|
    requires forall j :: 0 <= j < n ==> actions[j].fault.None?
    requires n < |actions| ==> actions[n].fault.Some?
    requires |calls| == (if n < |actions| then n + 1 else n)
    requires forall j :: 0 <= j < |calls| ==> calls[j] == Invoke(actions[j], options)
    ensures InvokeAll(actions, options) == Invocation(calls, if n < |actions| then Fail(actions[n].fault.value) else Pass)
  {
    var run := InvokeAll(actions, options);
    if run.outcome.Fail? {
      assert |run.effects| == n + 1;
    }
    assert run.effects == calls;
  }

  /**
   * `InitDb` of one connection string on a registry with the given actions:
   * nothing for a recorded key; otherwise record the key, recreate the
   * database and run the actions, the key staying recorded when one throws.
   */
  function InitStep(r: Registry, actions: seq<Action>, dbConnectionString: DbConnectionString): Step {
    if dbConnectionString in r.initedDb then Step(r, Pass)
    else
      var options := AsSqlConnectionString(dbConnectionString);
      var run := InvokeAll(actions, options);
      Step(Registry(r.initedDb[dbConnectionString := options], r.effects + [EnsureDb(options)] + run.effects), run.outcome)
  }

  /** `InitDb` of each connection string in turn, up to the first that throws. */
  function InitTrace(r: Registry, actions: seq<Action>, keys: seq<DbConnectionString>): Step
    decreases |keys|
  {
    if keys == [] then Step(r, Pass)
    else
      var prior := InitTrace(r, actions, keys[..|keys| - 1]);
      if prior.outcome.Fail? then prior
      else InitStep(prior.registry, actions, keys[|keys| - 1])
  }

  /** Running registered actions recreates no database. */
  lemma InvokeAllEnsuresNothing(actions: seq<Action>, options: ContextOptions, k: DbConnectionString)
    ensures Recreated(InvokeAll(actions, options).effects, k) == 0
  {
    var effects := InvokeAll(actions, options).effects;
    assert EnsureDb(AsSqlConnectionString(k)) !in effects;
  }

  /** One `InitDb` keeps the registry consistent and each database recreated at most once. */
  lemma InitStepKeepsOnce(r: Registry, actions: seq<Action>, dbConnectionString: DbConnectionString)
    requires Consistent(r.initedDb) && EnsuredOnce(r.initedDb, r.effects)
    ensures var r' := InitStep(r, actions, dbConnectionString).registry;
      Consistent(r'.initedDb) && EnsuredOnce(r'.initedDb, r'.effects)
  {
    if dbConnectionString !in r.initedDb {
      var options := AsSqlConnectionString(dbConnectionString);
      var run := InvokeAll(actions, options);
      var r' := InitStep(r, actions, dbConnectionString).registry;
      assert multiset(r'.effects) == multiset(r.effects) + multiset([EnsureDb(options)]) + multiset(run.effects);
      forall k ensures Recreated(r'.effects, k) == if k in r'.initedDb then 1 else 0 {
        InvokeAllEnsuresNothing(actions, options, k);
        OptionsIdentifyDatabase(k, dbConnectionString);
      }
    }
  }

  /** `InitDb` over a sequence keeps the registry consistent and each database recreated at most once. */
  lemma {:induction false} InitTraceKeepsOnce(r: Registry, actions: seq<Action>, keys: seq<DbConnectionString>)
    requires Consistent(r.initedDb) && EnsuredOnce(r.initedDb, r.effects)
    ensures var r' := InitTrace(r, actions, keys).registry;
      Consistent(r'.initedDb) && EnsuredOnce(r'.initedDb, r'.effects)
    decreases |keys|
  {
    if keys != [] {
      InitTraceKeepsOnce(r, actions, keys[..|keys| - 1]);
      InitStepKeepsOnce(InitTrace(r, actions, keys[..|keys| - 1]).registry, actions, keys[|keys| - 1]);
    }
  }

  /**
   * After `InitDb` over a sequence, the initialised keys are old ones or keys
   * of the sequence, and include all of the sequence when nothing threw; no
   * stored options value was replaced and the old calls are a prefix of the
   * new log.
   */
  lemma {:induction false} InitTraceGrows(r: Registry, actions: seq<Action>, keys: seq<DbConnectionString>)
    ensures var step := InitTrace(r, actions, keys).registry;
      forall k :: k in r.initedDb ==> k in step.initedDb && step.initedDb[k] == r.initedDb[k]
    ensures var step := InitTrace(r, actions, keys).registry;
      forall k :: k in step.initedDb ==> k in r.initedDb || k in keys
    ensures var step := InitTrace(r, actions, keys);
      step.outcome.Pass? ==> forall k :: k in keys ==> k in step.registry.initedDb
    ensures r.effects <= InitTrace(r, actions, keys).registry.effects
    decreases |keys|
  {
    if keys != [] {
      var front, last := keys[..|keys| - 1], keys[|keys| - 1];
      InitTraceGrows(r, actions, front);
      assert keys == front + [last];
    }
  }

  /** A connection string that appears twice in the sequence is initialised once. */
  lemma InitTraceDuplicate(r: Registry, actions: seq<Action>, keys: seq<DbConnectionString>, dbConnectionString: DbConnectionString)
    requires dbConnectionString in keys
    ensures InitTrace(r, actions, keys + [dbConnectionString]) == InitTrace(r, actions, keys)
  {
    InitTraceGrows(r, actions, keys);
    assert (keys + [dbConnectionString])[..|keys|] == keys;
    var prior := InitTrace(r, actions, keys);
    if prior.outcome.Pass? {
      assert dbConnectionString in prior.registry.initedDb;
      assert InitStep(prior.registry, actions, dbConnectionString) == Step(prior.registry, Pass);
    }
  }

  /**
   * The first `InitDb` of a connection string records it and recreates its
   * database, then runs the actions in order up to the first that throws;
   * it throws exactly when some action throws, and then that action's
   * exception.
   */
  lemma InitStepFirstTime(r: Registry, actions: seq<Action>, dbConnectionString: DbConnectionString)
    requires dbConnectionString !in r.initedDb
    ensures var step := InitStep(r, actions, dbConnectionString);
      var options := AsSqlConnectionString(dbConnectionString);
      var called := |step.registry.effects| - |r.effects| - 1;
      && step.registry.initedDb == r.initedDb[dbConnectionString := options]
      && 0 <= called <= |actions|
      && step.registry.effects[..|r.effects|] == r.effects
      && step.registry.effects[|r.effects|] == EnsureDb(options)
      && (forall i :: 0 <= i < called ==> step.registry.effects[|r.effects| + 1 + i] == Invoke(actions[i], options))
      && (step.outcome.Pass? <==> forall i :: 0 <= i < |actions| ==> actions[i].fault.None?)
      && (step.outcome.Pass? ==> called == |actions|)
      && (step.outcome.Fail? ==> 0 < called && actions[called - 1].fault == Some(step.outcome.error))
  {
  }

  /**
   * Once a connection string is recorded, a later `InitDb` of it changes
   * nothing and throws nothing, whatever actions are registered by then,
   * even when the first `InitDb` threw before running every action.
   */
  lemma InitStepRepeat(r: Registry, actions: seq<Action>, later: seq<Action>, dbConnectionString: DbConnectionString)
    ensures var first := InitStep(r, actions, dbConnectionString);
      && dbConnectionString in first.registry.initedDb
      && InitStep(first.registry, later, dbConnectionString) == Step(first.registry, Pass)
  {
  }

  /** Once `InitDb` over a prefix throws, the longer sequence throws the same and ends in the same registry. */
  lemma {:induction false} InitTraceFailSticks(r: Registry, actions: seq<Action>, keys: seq<DbConnectionString>, n: nat)
    requires n <= |keys| && InitTrace(r, actions, keys[..n]).outcome.Fail?
    ensures InitTrace(r, actions, keys) == InitTrace(r, actions, keys[..n])
    decreases |keys|
  {
    if n < |keys| {
      assert keys[..|keys| - 1][..n] == keys[..n];
      InitTraceFailSticks(r, actions, keys[..|keys| - 1], n);
    } else {
      assert keys[..n] == keys;
    }
  }

  /** `Create` keeps each database recreated exactly as often as before. */
  lemma CreateKeepsOnce(r: Registry, options: ContextOptions, logSink: Option<LogSink>)
    requires EnsuredOnce(r.initedDb, r.effects)
    ensures EnsuredOnce(r.initedDb, r.effects + CreateEffects(options, logSink))
  {
    forall k ensures Recreated(r.effects + CreateEffects(options, logSink), k) == Recreated(r.effects, k) {
      CreateKeepsCounts(r.effects, options, logSink, k);
    }
  }

  class DbContextFactory {
    var initedDb: map<DbConnectionString, ContextOptions>
    var actions: seq<Action>
    ghost var effects: seq<Effect>

    ghost function State(): Registry
      reads this
    {
      Registry(initedDb, effects)
    }

    ghost predicate Valid()
      reads this
    {
      Consistent(initedDb) && EnsuredOnce(initedDb, effects)
    }

    /** A factory with no initialised database and no registered action. */
    constructor ()
      ensures Valid() && initedDb == map[] && actions == [] && effects == []
    {
      initedDb := map[];
      actions := [];
      effects := [];
    }

    /**
     * `InitDb(dbConnectionString)`: `TryAdd`, then on success ensure the
     * database and run the actions, up to the first that throws.
     */
    method InitDb(dbConnectionString: DbConnectionString) returns (outcome: Outcome<Exception>)
      requires Valid()
      modifies this`initedDb, this`effects
      ensures Valid()
      ensures Step(State(), outcome) == InitStep(old(State()), actions, dbConnectionString)
    {
      ghost var before := State();
      if dbConnectionString in initedDb {
        return Pass; // already initialised
      }
      var options := AsSqlConnectionString(dbConnectionString);
      initedDb := initedDb[dbConnectionString := options];
      effects := effects + [EnsureDb(initedDb[dbConnectionString])];
      outcome := InvokeActions(initedDb[dbConnectionString]);
      InitStepKeepsOnce(before, actions, dbConnectionString);
    }

    /** `_actions.ForEach(a => a.Invoke(options))`: call each action in turn until one throws. */
    method InvokeActions(options: ContextOptions) returns (outcome: Outcome<Exception>)
      modifies this`effects
      ensures effects == old(effects) + InvokeAll(actions, options).effects
      ensures outcome == InvokeAll(actions, options).outcome
    {
      ghost var done: seq<Effect> := [];
      var i := 0;
      while i < |actions|
        invariant i <= |actions|
        invariant effects == old(effects) + done
        invariant |done| == i && forall j :: 0 <= j < i ==> done[j] == Invoke(actions[j], options)
        invariant forall j :: 0 <= j < i ==> actions[j].fault.None?
      {
        var action := actions[i];
        effects := effects + [Invoke(action, options)];
        done := done + [Invoke(action, options)];
        if action.fault.Some? {
          InvokeAllStopsAt(actions, options, i, done);
          return Fail(action.fault.value);
        }
        i := i + 1;
      }
      InvokeAllStopsAt(actions, options, i, done);
      outcome := Pass;
    }

    /** `InitDb(dbConnectionStrings)`: the single `InitDb` on each element in order, up to the first that throws. */
    method InitDbAll(dbConnectionStrings: seq<DbConnectionString>) returns (outcome: Outcome<Exception>)
      requires Valid()
      modifies this`initedDb, this`effects
      ensures Valid()
      ensures Step(State(), outcome) == InitTrace(old(State()), actions, dbConnectionStrings)
    {
      ghost var before := State();
      var i := 0;
      while i < |dbConnectionStrings|
        invariant i <= |dbConnectionStrings|
        invariant Valid()
        invariant Step(State(), Pass) == InitTrace(before, actions, dbConnectionStrings[..i])
      {
        assert dbConnectionStrings[..i + 1][..i] == dbConnectionStrings[..i];
        var step := InitDb(dbConnectionStrings[i]);
        if step.Fail? {
          InitTraceFailSticks(before, actions, dbConnectionStrings, i + 1);
          return step;
        }
        i := i + 1;
      }
      assert dbConnectionStrings[..i] == dbConnectionStrings;
      outcome := Pass;
    }

    /**
     * `Create(dbConnectionString, logSink)`: a context on the stored options,
     * with logging when a sink is given; fails for a database that was never
     * initialised.
     */
    method Create(dbConnectionString: DbConnectionString, logSink: Option<LogSink> := None) returns (r: Result<DbContext, Exception>)
      requires Valid()
      modifies this`effects
      ensures Valid()
      ensures r.Failure? <==> dbConnectionString !in initedDb
      ensures r.Failure? ==> r.error == InvalidOperation(NotInitialized) && effects == old(effects)
      ensures r.Success? ==>
        && r.value == DbContext(initedDb[dbConnectionString])
        && r.value.options == AsSqlConnectionString(dbConnectionString)
        && effects == old(effects) + CreateEffects(initedDb[dbConnectionString], logSink)
    {
      ghost var before := State();
      if dbConnectionString !in initedDb {
        return Failure(InvalidOperation(NotInitialized));
      }
      var options := initedDb[dbConnectionString];
      assert options == AsSqlConnectionString(dbConnectionString);
      effects := effects + [BuildDbContext(options)];
      if logSink.Some? {
        effects := effects + [StartLogging(options, logSink.value)];
      }
      assert State() == Registry(before.initedDb, before.effects + CreateEffects(options, logSink));
      CreateKeepsOnce(before, options, logSink);
      r := Success(DbContext(options));
    }

    /** `RegisterOnInit(action)`: append the action; databases already initialised do not run it. */
    method RegisterOnInit(action: Action)
      requires Valid()
      modifies this`actions
      ensures Valid()
      ensures actions == old(actions) + [action]
    {
      actions := actions + [action];
    }

    /** `ClearRegistration()`: forget every registered action. */
    method ClearRegistration()
      requires Valid()
      modifies this`actions
      ensures Valid()
      ensures actions == []
    {
      actions := [];
    }
  }
}
