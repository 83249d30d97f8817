/**
 * `BookStoreContextFactory`: the registry of book-store test databases. The
 * first `InitDb` of a connection string records it, recreates the database
 * and seeds it with the books of the seed file; a repeat `InitDb` does
 * nothing. The seed file arrives as its decoded records.
 */
module BookStoreContextFactories {
  import opened Wrappers
  import opened Exceptions
  import opened DbConnectionStrings
  import opened BookJsonLoader
  import opened ContextEffects

  /**
   * `InitDb(dbConnectionString, fileToSeedDbWith)`: nothing for a recorded
   * key; otherwise record the key, recreate its database, then seed it, or
   * throw the loader's error, the key staying recorded.
   */
  function SeedStep(r: Registry, dbConnectionString: DbConnectionString, fileToSeedDbWith: seq<BookInfo>): Step {
    if dbConnectionString in r.initedDb then Step(r, Pass)
    else
      var options := AsSqlConnectionString(dbConnectionString);
      var initedDb := r.initedDb[dbConnectionString := options];
      var ensured := r.effects + [EnsureDb(options)];
      match LoadError(fileToSeedDbWith)
      case Some(error) => Step(Registry(initedDb, ensured), Fail(error))
      case None => Step(Registry(initedDb, ensured + [SeedWith(options, fileToSeedDbWith)]), Pass)
  }

  /** `InitDb(dbConnectionStrings, fileToSeedDbWith)`: `SeedStep` on each key in order, up to the first that throws. */
  function SeedTrace(r: Registry, keys: seq<DbConnectionString>, fileToSeedDbWith: seq<BookInfo>): Step
    decreases |keys|
  {
    if keys == [] then Step(r, Pass)
    else
      var prior := SeedTrace(r, keys[..|keys| - 1], fileToSeedDbWith);
      if prior.outcome.Fail? then prior
      else SeedStep(prior.registry, keys[|keys| - 1], fileToSeedDbWith)
  }

  /** Each database was seeded at most once, and only once recorded. */
  ghost predicate SeededAtMostOnce(initedDb: map<DbConnectionString, ContextOptions>, effects: seq<Effect>) {
    forall k :: Seeded(effects, k) <= if k in initedDb then 1 else 0
  }

  /** The invariant of the factory's registry. */
  ghost predicate Sound(r: Registry) {
    Consistent(r.initedDb) && EnsuredOnce(r.initedDb, r.effects) && SeededAtMostOnce(r.initedDb, r.effects)
  }

  /** Recreating a database counts one more recreation for it and changes no seed count. */
  lemma EnsureCounts(effects: seq<Effect>, dbConnectionString: DbConnectionString, k: DbConnectionString)
    ensures var options := AsSqlConnectionString(dbConnectionString);
      && Recreated(effects + [EnsureDb(options)], k) == Recreated(effects, k) + (if k == dbConnectionString then 1 else 0)
      && Seeded(effects + [EnsureDb(options)], k) == Seeded(effects, k)
  {
    var options := AsSqlConnectionString(dbConnectionString);
    assert multiset(effects + [EnsureDb(options)]) == multiset(effects) + multiset{EnsureDb(options)};
    OptionsIdentifyDatabase(k, dbConnectionString);
    SeededStep(effects, EnsureDb(options), k);
  }

  /** Seeding a database counts one more seed for it and changes no recreation count. */
  lemma SeedCounts(effects: seq<Effect>, dbConnectionString: DbConnectionString, records: seq<BookInfo>, k: DbConnectionString)
    ensures var options := AsSqlConnectionString(dbConnectionString);
      && Recreated(effects + [SeedWith(options, records)], k) == Recreated(effects, k)
      && Seeded(effects + [SeedWith(options, records)], k) == Seeded(effects, k) + (if k == dbConnectionString then 1 else 0)
  {
    var options := AsSqlConnectionString(dbConnectionString);
    assert multiset(effects + [SeedWith(options, records)]) == multiset(effects) + multiset{SeedWith(options, records)};
    OptionsIdentifyDatabase(k, dbConnectionString);
    SeededStep(effects, SeedWith(options, records), k);
  }

  /** Recording a new key and recreating its database keeps the invariant and leaves that database unseeded. */
  lemma RecordSound(r: Registry, dbConnectionString: DbConnectionString)
    requires Sound(r) && dbConnectionString !in r.initedDb
    ensures var options := AsSqlConnectionString(dbConnectionString);
      var recorded := Registry(r.initedDb[dbConnectionString := options], r.effects + [EnsureDb(options)]);
      Sound(recorded) && Seeded(recorded.effects, dbConnectionString) == 0
  {
    var options := AsSqlConnectionString(dbConnectionString);
    forall k
      ensures Recreated(r.effects + [EnsureDb(options)], k) == Recreated(r.effects, k) + (if k == dbConnectionString then 1 else 0)
      ensures Seeded(r.effects + [EnsureDb(options)], k) == Seeded(r.effects, k)
    {
      EnsureCounts(r.effects, dbConnectionString, k);
    }
  }

  /** Seeding a recorded database that was not seeded yet keeps the invariant. */
  lemma SeedSound(r: Registry, dbConnectionString: DbConnectionString, fileToSeedDbWith: seq<BookInfo>)
    requires Sound(r) && dbConnectionString in r.initedDb && Seeded(r.effects, dbConnectionString) == 0
    ensures Sound(Registry(r.initedDb, r.effects + [SeedWith(AsSqlConnectionString(dbConnectionString), fileToSeedDbWith)]))
  {
    var options := AsSqlConnectionString(dbConnectionString);
    forall k
      ensures Recreated(r.effects + [SeedWith(options, fileToSeedDbWith)], k) == Recreated(r.effects, k)
      ensures Seeded(r.effects + [SeedWith(options, fileToSeedDbWith)], k) == Seeded(r.effects, k) + (if k == dbConnectionString then 1 else 0)
    {
      SeedCounts(r.effects, dbConnectionString, fileToSeedDbWith, k);
    }
  }

  /** `InitDb` keeps each recorded database recreated once and seeded at most once, and touches no other. */
  lemma SeedStepSound(r: Registry, dbConnectionString: DbConnectionString, fileToSeedDbWith: seq<BookInfo>)
    requires Sound(r)
    ensures Sound(SeedStep(r, dbConnectionString, fileToSeedDbWith).registry)
  {
    if dbConnectionString !in r.initedDb {
      var options := AsSqlConnectionString(dbConnectionString);
      RecordSound(r, dbConnectionString);
      var recorded := Registry(r.initedDb[dbConnectionString := options], r.effects + [EnsureDb(options)]);
      if LoadError(fileToSeedDbWith).None? {
        SeedSound(recorded, dbConnectionString, fileToSeedDbWith);
      }
    }
  }

  /**
   * A first `InitDb` records the key whether or not the seed throws,
   * recreates its database once, and seeds it exactly when the records
   * load; it throws exactly the loader's error.
   */
  lemma SeedStepFirstTime(r: Registry, dbConnectionString: DbConnectionString, fileToSeedDbWith: seq<BookInfo>)
    requires Sound(r) && dbConnectionString !in r.initedDb
    ensures var step := SeedStep(r, dbConnectionString, fileToSeedDbWith);
      && step.registry.initedDb.Keys == r.initedDb.Keys + {dbConnectionString}
      && Recreated(step.registry.effects, dbConnectionString) == 1
      && Seeded(step.registry.effects, dbConnectionString) == (if LoadError(fileToSeedDbWith).None? then 1 else 0)
      && (step.outcome.Fail? <==> LoadError(fileToSeedDbWith).Some?)
      && (step.outcome.Fail? ==> step.outcome.error == LoadError(fileToSeedDbWith).value)
  {
    var options := AsSqlConnectionString(dbConnectionString);
    var ensured := r.effects + [EnsureDb(options)];
    var step := SeedStep(r, dbConnectionString, fileToSeedDbWith);
    EnsureCounts(r.effects, dbConnectionString, dbConnectionString);
    if LoadError(fileToSeedDbWith).None? {
      SeedCounts(ensured, dbConnectionString, fileToSeedDbWith, dbConnectionString);
      assert step.registry.effects == ensured + [SeedWith(options, fileToSeedDbWith)];
    } else {
      assert step.registry.effects == ensured;
    }
  }

  /** A second `InitDb` of the same key changes nothing and throws nothing, whatever the seed file. */
  lemma SeedStepRepeat(r: Registry, dbConnectionString: DbConnectionString, file1: seq<BookInfo>, file2: seq<BookInfo>)
    ensures var first := SeedStep(r, dbConnectionString, file1);
      SeedStep(first.registry, dbConnectionString, file2) == Step(first.registry, Pass)
  {
  }

  /** `InitDb` over a sequence keeps the registry invariant. */
  lemma {:induction false} SeedTraceSound(r: Registry, keys: seq<DbConnectionString>, fileToSeedDbWith: seq<BookInfo>)
    requires Sound(r)
    ensures Sound(SeedTrace(r, keys, fileToSeedDbWith).registry)
    decreases |keys|
  {
    if keys != [] {
      var prior := SeedTrace(r, keys[..|keys| - 1], fileToSeedDbWith);
      SeedTraceSound(r, keys[..|keys| - 1], fileToSeedDbWith);
      SeedStepSound(prior.registry, keys[|keys| - 1], fileToSeedDbWith);
    }
  }

  /** Once `InitDb` over a prefix throws, the longer sequence throws the same and ends in the same registry. */
  lemma {:induction false} SeedTraceFailSticks(r: Registry, keys: seq<DbConnectionString>, n: nat, fileToSeedDbWith: seq<BookInfo>)
    requires n <= |keys| && SeedTrace(r, keys[..n], fileToSeedDbWith).outcome.Fail?
    ensures SeedTrace(r, keys, fileToSeedDbWith) == SeedTrace(r, keys[..n], fileToSeedDbWith)
    decreases |keys|
  {
    if n < |keys| {
      assert keys[..|keys| - 1][..n] == keys[..n];
      SeedTraceFailSticks(r, keys[..|keys| - 1], n, fileToSeedDbWith);
    } else {
      assert keys[..n] == keys;
    }
  }

  /** The position of the first key of `keys` that `initedDb` lacks, if any. */
  function FirstNew(initedDb: map<DbConnectionString, ContextOptions>, keys: seq<DbConnectionString>): (r: Option<nat>)
    ensures r.None? <==> forall j :: 0 <= j < |keys| ==> keys[j] in initedDb
    ensures r.Some? ==>
      && r.value < |keys|
      && keys[r.value] !in initedDb
      && forall j :: 0 <= j < r.value ==> keys[j] in initedDb
    decreases |keys|
  {
    if keys == [] then None
    else
      match FirstNew(initedDb, keys[..|keys| - 1])
      case Some(j) => Some(j)
      case None => if keys[|keys| - 1] in initedDb then None else Some(|keys| - 1)
  }

  /** When the seed records load, `InitDb` records its key, replaces no stored options and throws nothing. */
  lemma SeedStepLoads(r: Registry, dbConnectionString: DbConnectionString, fileToSeedDbWith: seq<BookInfo>)
    requires LoadError(fileToSeedDbWith).None?
    ensures var step := SeedStep(r, dbConnectionString, fileToSeedDbWith);
      && step.outcome == Pass
      && step.registry.initedDb.Keys == r.initedDb.Keys + {dbConnectionString}
      && forall k :: k in r.initedDb ==> step.registry.initedDb[k] == r.initedDb[k]
  {
  }

  /**
   * When the seed records load, `InitDb` over a sequence records every key
   * of it, replaces no stored options and throws nothing.
   */
  lemma {:induction false} SeedTraceLoads(r: Registry, keys: seq<DbConnectionString>, fileToSeedDbWith: seq<BookInfo>)
    requires LoadError(fileToSeedDbWith).None?
    ensures var step := SeedTrace(r, keys, fileToSeedDbWith);
      && step.outcome == Pass
      && (forall k :: k in step.registry.initedDb <==> k in r.initedDb || k in keys)
      && forall k :: k in r.initedDb ==> step.registry.initedDb[k] == r.initedDb[k]
    decreases |keys|
  {
    if keys != [] {
      var front := keys[..|keys| - 1];
      SeedTraceLoads(r, front, fileToSeedDbWith);
      SeedStepLoads(SeedTrace(r, front, fileToSeedDbWith).registry, keys[|keys| - 1], fileToSeedDbWith);
      assert keys == front + [keys[|keys| - 1]];
    }
  }

  /**
   * When the seed records do not load, `InitDb` over a sequence stops at
   * the first key not yet recorded: that key is recorded and the loader's
   * error thrown; with no such key nothing changes.
   */
  lemma {:induction false} SeedTraceStops(r: Registry, keys: seq<DbConnectionString>, fileToSeedDbWith: seq<BookInfo>)
    requires LoadError(fileToSeedDbWith).Some?
    ensures var step := SeedTrace(r, keys, fileToSeedDbWith);
      match FirstNew(r.initedDb, keys)
      case None => step == Step(r, Pass)
      case Some(j) =>
        && step.outcome == Fail(LoadError(fileToSeedDbWith).value)
        && step.registry.initedDb == r.initedDb[keys[j] := AsSqlConnectionString(keys[j])]
    decreases |keys|
  {
    if keys != [] {
      SeedTraceStops(r, keys[..|keys| - 1], fileToSeedDbWith);
    }
  }

  /** `Create` keeps the registry invariant: it neither recreates nor seeds a database. */
  lemma CreateSound(r: Registry, options: ContextOptions, logSink: Option<LogSink>)
    requires Sound(r)
    ensures Sound(Registry(r.initedDb, r.effects + CreateEffects(options, logSink)))
  {
    forall k
      ensures Recreated(r.effects + CreateEffects(options, logSink), k) == Recreated(r.effects, k)
      ensures Seeded(r.effects + CreateEffects(options, logSink), k) == Seeded(r.effects, k)
    {
      CreateKeepsCounts(r.effects, options, logSink, k);
    }
  }

  /** `LoadBooks` of the seed records, which either throws the first date error or loads them all. */
  method LoadSeed(fileToSeedDbWith: seq<BookInfo>) returns (books: Result<seq<Book>, Exception>)
    ensures books.Failure? <==> LoadError(fileToSeedDbWith).Some?
    ensures books.Failure? ==> books.error == LoadError(fileToSeedDbWith).value
    ensures books.Success? ==> exists authorDict :: LoadedWith(books.value, fileToSeedDbWith, authorDict)
  {
    ghost var authorDict;
    books, authorDict := LoadBooks(fileToSeedDbWith);
    assert books.Success? ==> LoadedWith(books.value, fileToSeedDbWith, authorDict);
  }

  class BookStoreContextFactory {
    var initedDb: map<DbConnectionString, ContextOptions>
    ghost var effects: seq<Effect>

    ghost function State(): Registry
      reads this
    {
      Registry(initedDb, effects)
    }

    ghost predicate Valid()
      reads this
    {
      Sound(State())
    }

    /** A factory with no initialised database. */
    constructor ()
      ensures Valid() && initedDb == map[] && effects == []
    {
      initedDb := map[];
      effects := [];
    }

    /**
     * `InitDb(dbConnectionString, fileToSeedDbWith)`: `TryAdd` the key,
     * then recreate the database and seed it from the records, which the
     * loader may reject.
     */
    method InitDb(dbConnectionString: DbConnectionString, fileToSeedDbWith: seq<BookInfo>) returns (outcome: Outcome<Exception>)
      requires Valid()
      modifies this
      ensures Valid()
      ensures Step(State(), outcome) == SeedStep(old(State()), dbConnectionString, fileToSeedDbWith)
    {
      SeedStepSound(State(), dbConnectionString, fileToSeedDbWith);
      if dbConnectionString in initedDb {
        return Pass; // already initialised
      }
      var options := AsSqlConnectionString(dbConnectionString);
      initedDb := initedDb[dbConnectionString := options];
      effects := effects + [EnsureDb(options)];
      var books := LoadSeed(fileToSeedDbWith);
      if books.Failure? {
        return Fail(books.error);
      }
      effects := effects + [SeedWith(options, fileToSeedDbWith)];
      outcome := Pass;
    }

    /** `InitDb(dbConnectionStrings, fileToSeedDbWith)`: the single `InitDb` on each key in order, up to the first that throws. */
    method InitDbAll(dbConnectionStrings: seq<DbConnectionString>, fileToSeedDbWith: seq<BookInfo>) returns (outcome: Outcome<Exception>)
      requires Valid()
      modifies this
      ensures Valid()
      ensures Step(State(), outcome) == SeedTrace(old(State()), dbConnectionStrings, fileToSeedDbWith)
    {
      ghost var before := State();
      var i := 0;
      while i < |dbConnectionStrings|
        invariant i <= |dbConnectionStrings|
        invariant Valid()
        invariant Step(State(), Pass) == SeedTrace(before, dbConnectionStrings[..i], fileToSeedDbWith)
      {
        assert dbConnectionStrings[..i + 1][..i] == dbConnectionStrings[..i];
        var step := InitDb(dbConnectionStrings[i], fileToSeedDbWith);
        if step.Fail? {
          SeedTraceFailSticks(before, dbConnectionStrings, i + 1, fileToSeedDbWith);
          return step;
        }
        i := i + 1;
      }
      assert dbConnectionStrings[..i] == dbConnectionStrings;
      outcome := Pass;
    }

    /**
     * `Create(dbConnectionString, logSink)`: a context on the stored
     * options, with logging when a sink is given; fails for a database
     * that was never initialised and never records one.
     */
    method Create(dbConnectionString: DbConnectionString, logSink: Option<LogSink> := None) returns (r: Result<DbContext, Exception>)
      requires Valid()
      modifies this`effects
      ensures Valid()
      ensures r.Failure? <==> dbConnectionString !in initedDb
      ensures r.Failure? ==> r.error == InvalidOperation(NotInitialized) && effects == old(effects)
      ensures r.Success? ==>
        && r.value == DbContext(initedDb[dbConnectionString])
        && r.value.options == AsSqlConnectionString(dbConnectionString)
        && effects == old(effects) + CreateEffects(initedDb[dbConnectionString], logSink)
    {
      ghost var before := State();
      if dbConnectionString !in initedDb {
        return Failure(InvalidOperation(NotInitialized));
      }
      var options := initedDb[dbConnectionString];
      assert options == AsSqlConnectionString(dbConnectionString);
      effects := effects + [BuildDbContext(options)];
      if logSink.Some? {
        effects := effects + [StartLogging(options, logSink.value)];
      }
      assert State() == Registry(before.initedDb, before.effects + CreateEffects(options, logSink));
      CreateSound(before, options, logSink);
      r := Success(DbContext(options));
    }
  }
}
