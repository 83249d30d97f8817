/**
 * The database-side operations the context factories perform, which are
 * calls into the ORM and the database server. They are not modelled by
 * their behaviour: each call is recorded as an `Effect` in a ghost log, so
 * that the factories' contracts can say which calls happen, for which
 * database, and in which order.
 */
module ContextEffects {
  import opened Wrappers
  import opened Exceptions
  import opened CatalogNaming
  import opened DbConnectionStrings
  import opened BookJsonLoader

  /** `DbContextOptions<T>`: the options of a context bound to one connection string. */
  datatype ContextOptions = ContextOptions(connectionString: SqlConnection)

  /** `dbConnectionString.AsSqlConnectionString<T>()`: options that use SQL Server with that connection string. */
  function AsSqlConnectionString(dbConnectionString: DbConnectionString): (options: ContextOptions)
    ensures options.connectionString == dbConnectionString.connectionString
  {
    ContextOptions(dbConnectionString.connectionString)
  }

  /** Distinct connection strings give distinct options, so an effect names its database. */
  lemma OptionsIdentifyDatabase(a: DbConnectionString, b: DbConnectionString)
    ensures AsSqlConnectionString(a) == AsSqlConnectionString(b) <==> a == b
  {
    if AsSqlConnectionString(a) == AsSqlConnectionString(b) {
      assert a.connectionString == AsSqlConnectionString(a).connectionString;
    }
  }

  /**
   * A registered `Action<DbContextOptions<T>>`, known by its identity and
   * by the exception it throws when invoked, if it throws one.
   */
  datatype Action = Action(id: nat, fault: Option<Exception>)

  /** An `ILineWritable` log sink, known only by its identity. */
  datatype LogSink = LogSink(id: nat)

  /** A context built from options (`BuildDbContext`). */
  datatype DbContext = DbContext(options: ContextOptions)

  /** One call into the ORM or the database. */
  datatype Effect =
    | EnsureDb(options: ContextOptions)                        // delete, then create the database
    | Invoke(action: Action, options: ContextOptions)          // run a registered action
    | SeedWith(options: ContextOptions, records: seq<BookInfo>) // save the books `LoadBooks` makes of the records
    | BuildDbContext(options: ContextOptions)                  // construct a context
    | StartLogging(options: ContextOptions, sink: LogSink)     // attach a log sink to it

  const NotInitialized := "Db not initialized."

  /** The initialised databases of a factory with the calls it made so far. */
  datatype Registry = Registry(initedDb: map<DbConnectionString, ContextOptions>, effects: seq<Effect>)

  /** The registry after an `InitDb`, with what that `InitDb` returned or threw. */
  datatype Step = Step(registry: Registry, outcome: Outcome<Exception>)

  /** Every stored options value is the one `AsSqlConnectionString` gives for its key. */
  ghost predicate Consistent(initedDb: map<DbConnectionString, ContextOptions>) {
    forall k :: k in initedDb ==> initedDb[k] == AsSqlConnectionString(k)
  }

  /** The database of a connection string was recreated once if it is initialised, and never otherwise. */
  ghost predicate EnsuredOnce(initedDb: map<DbConnectionString, ContextOptions>, effects: seq<Effect>) {
    forall k :: Recreated(effects, k) == if k in initedDb then 1 else 0
  }

  /** How often the database of a connection string was (re)created. */
  function Recreated(effects: seq<Effect>, dbConnectionString: DbConnectionString): nat {
    multiset(effects)[EnsureDb(AsSqlConnectionString(dbConnectionString))]
  }

  /** How often the database of a connection string was seeded, whatever with. */
  function Seeded(effects: seq<Effect>, dbConnectionString: DbConnectionString): nat {
    if effects == [] then 0
    else Seeded(effects[..|effects| - 1], dbConnectionString)
         + (if SeedsDatabase(effects[|effects| - 1], dbConnectionString) then 1 else 0)
  }

  /** The call seeds the database of the connection string. */
  predicate SeedsDatabase(e: Effect, dbConnectionString: DbConnectionString) {
    e.SeedWith? && e.options == AsSqlConnectionString(dbConnectionString)
  }

  /** Seed counts add up over a log written in two parts. */
  lemma {:induction false} SeededAppend(a: seq<Effect>, b: seq<Effect>, k: DbConnectionString)
    ensures Seeded(a + b, k) == Seeded(a, k) + Seeded(b, k)
    decreases |b|
  {
    if b == [] {
      assert a + b == a;
    } else {
      assert (a + b)[..|a + b| - 1] == a + b[..|b| - 1];
      SeededAppend(a, b[..|b| - 1], k);
    }
  }

  /** One more call seeds a database once more exactly when it seeds that database. */
  lemma SeededStep(effects: seq<Effect>, e: Effect, k: DbConnectionString)
    ensures Seeded(effects + [e], k) == Seeded(effects, k) + if SeedsDatabase(e, k) then 1 else 0
  {
    assert (effects + [e])[..|effects|] == effects;
  }

  /** A log without seeding calls seeds no database. */
  lemma {:induction false} NotSeeded(effects: seq<Effect>, k: DbConnectionString)
    requires forall i :: 0 <= i < |effects| ==> !effects[i].SeedWith?
    ensures Seeded(effects, k) == 0
    decreases |effects|
  {
    if effects != [] {
      NotSeeded(effects[..|effects| - 1], k);
    }
  }

  /** The effects of `Create`: build the context, then attach the sink when one is given. */
  function CreateEffects(options: ContextOptions, logSink: Option<LogSink>): (effects: seq<Effect>)
    ensures |effects| == if logSink.Some? then 2 else 1
    ensures effects[0] == BuildDbContext(options)
    ensures logSink.Some? ==> effects[1] == StartLogging(options, logSink.value)
  {
    [BuildDbContext(options)] + if logSink.Some? then [StartLogging(options, logSink.value)] else []
  }

  /** `Create` neither recreates nor seeds a database. */
  lemma CreateEffectsNeutral(options: ContextOptions, logSink: Option<LogSink>, k: DbConnectionString)
    ensures Recreated(CreateEffects(options, logSink), k) == 0
    ensures Seeded(CreateEffects(options, logSink), k) == 0
  {
    var effects := CreateEffects(options, logSink);
    assert EnsureDb(AsSqlConnectionString(k)) !in multiset(effects);
    NotSeeded(effects, k);
  }

  /** After `Create`, every database has been recreated and seeded as often as before. */
  lemma CreateKeepsCounts(effects: seq<Effect>, options: ContextOptions, logSink: Option<LogSink>, k: DbConnectionString)
    ensures Recreated(effects + CreateEffects(options, logSink), k) == Recreated(effects, k)
    ensures Seeded(effects + CreateEffects(options, logSink), k) == Seeded(effects, k)
  {
    CreateEffectsNeutral(options, logSink, k);
    SeededAppend(effects, CreateEffects(options, logSink), k);
  }
}
