# EntityFrameworkCoreTests test-database helpers, modelled in Dafny

This project models the helper layer of nikodemmazur/EntityFrameworkCoreTests,
a C# EF Core test suite, and proves properties of the model. It covers:

- **Isolated database names** (`DbConnectionString`, `SqlDb`). A test class, and
  optionally a test method, gets a database of its own: `-Class` or
  `-Class-Method` is appended to the initial catalog of a base connection string.
  Both files share one definition of that rule (`CatalogNaming`).
  `DbConnectionString` has value equality and a hash code that agrees with it.
- **The seed-data loader** (`BookJsonLoader`). It decodes `publishedDate` strings
  with `String.Split('-')`, `int.Parse` and the `DateTime` constructor.
  It generates reviews whose mean tracks each book's average rating.
  It numbers author links with a wrapping byte counter.
  It shares one `Author` object per author name.
- **The initialised-database registries** (`DbContextFactory<T>`,
  `BookStoreContextFactory`, `DbContextFactoryManager<T>`). These are classes with
  the source's own fields:
  - the registry map of a factory;
  - the registered actions of `DbContextFactory<T>`;
  - the factory map of the manager.

  The database work they trigger happens in EF Core and SQL Server, so it is
  recorded in a ghost log of calls (`ContextEffects.Effect`). Each method is
  proved against a pure step function (`InitStep`, `SeedStep`) or trace function
  (`InitTrace`, `SeedTrace`). The invariant is proved for those functions: every
  initialised database was recreated exactly once, every other database never,
  and every book-store database was seeded at most once.
- **`SimpleLineWriter`**: an append-only text buffer.

One module per file:

| file | module |
|---|---|
| `wrappers.dfy` | `Wrappers`, `Exceptions` |
| `text.dfy` | `Text` |
| `catalog_naming.dfy` | `CatalogNaming` |
| `db_connection_string.dfy` | `DbConnectionStrings` |
| `sql_db.dfy` | `SqlDb` |
| `book_json_loader.dfy` | `BookJsonLoader` |
| `context_effects.dfy` | `ContextEffects` |
| `db_context_factory.dfy` | `DbContextFactories` |
| `book_store_context_factory.dfy` | `BookStoreContextFactories` |
| `db_context_factory_manager.dfy` | `DbContextFactoryManagers` |
| `simple_line_writer.dfy` | `SimpleLineWriters` |

A thrown exception is the `Failure`/`Fail` case of a `Result`/`Outcome`, carrying
an `Exceptions.Exception` with the source's message.

## Model

| member | source | states |
|---|---|---|
| Text.Split | tests/EntityFrameworkCoreTests/Loaders/BookJsonLoader.cs:14 | `Split('-')` has one piece more than the text has dashes, empty pieces kept, and no piece contains a dash |
| Text.JoinSplit | tests/EntityFrameworkCoreTests/Loaders/BookJsonLoader.cs:14 | joining the pieces with the separator gives back the text |
| Text.SplitJoin | tests/EntityFrameworkCoreTests/Loaders/BookJsonLoader.cs:14 | splitting the join of separator-free pieces gives back the pieces |
| Text.ParseInt | tests/EntityFrameworkCoreTests/Loaders/BookJsonLoader.cs:18-22 | `int.Parse` succeeds exactly for an optionally signed digit string whose value lies in the 32-bit range, and returns that value; it throws FormatException exactly for text that is not such a string, and OverflowException for one out of range |
| Text.ParseShowNat | tests/EntityFrameworkCoreTests/Loaders/BookJsonLoader.cs:18-22 | `int.Parse` reads back the decimal text of every non-negative 32-bit value |
| Text.ParsePadded | tests/EntityFrameworkCoreTests/Loaders/BookJsonLoader.cs:18-22 | `int.Parse` reads a 32-bit value written with any number of leading zeros, with or without a `+` or `-` sign |
| Text.ParseZeroPadded | tests/EntityFrameworkCoreTests/Loaders/BookJsonLoader.cs:18-22 | a zero-padded decimal part such as `06` contains no dash and parses to its value |
| Text.ParseInt32Bounds | tests/EntityFrameworkCoreTests/Loaders/BookJsonLoader.cs:18-22 | `-2147483648` parses to the least 32-bit value and `2147483648` throws OverflowException |
| CatalogNaming.AppendSuffix | tests/EntityFrameworkCoreTests/Db/DbConnectionString.cs:29-32 | the catalog becomes `catalog-Class`, or `catalog-Class-Method` for a non-empty method name; data source and other keywords are unchanged |
| CatalogNaming.SuffixParts | tests/EntityFrameworkCoreTests/Db/DbConnectionString.cs:29 | for dash-free names, splitting the suffix on dashes gives back the class and method names |
| CatalogNaming.SuffixInjective | tests/EntityFrameworkCoreTests/Db/DbConnectionString.cs:29 | for dash-free names, distinct (class, method) pairs have distinct suffixes |
| CatalogNaming.MethodNameInjective | tests/EntityFrameworkCoreTests/Db/DbConnectionString.cs:29-32 | within one class, equal derived connection strings mean equal method names, whatever the names |
| CatalogNaming.NamingInjective | tests/EntityFrameworkCoreTests/Db/DbConnectionString.cs:29-32 | for dash-free names, the derived connection string determines both the class and the method name |
| CatalogNaming.CrossClassCollision | tests/EntityFrameworkCoreTests/Db/DbConnectionString.cs:29 | class `A-B` with no method and class `A` with method `B` get the same database |
| DbConnectionStrings.CreateFrom | tests/EntityFrameworkCoreTests/Db/DbConnectionString.cs:27-35 | the value holds the base connection string with the suffixed catalog, everything else unchanged |
| DbConnectionStrings.Create | tests/EntityFrameworkCoreTests/Db/DbConnectionString.cs:42-46 | the public overload applies the private one to the configured default connection |
| DbConnectionStrings.Equals | tests/EntityFrameworkCoreTests/Db/DbConnectionString.cs:53-57 | `Equals(other)` holds exactly when `other` is not null and has the same connection string |
| DbConnectionStrings.GetHashCode | tests/EntityFrameworkCoreTests/Db/DbConnectionString.cs:59-62 | the hash code is `HashCode.Combine` of the connection string alone |
| DbConnectionStrings.EqualsIsValueEquality | tests/EntityFrameworkCoreTests/Db/DbConnectionString.cs:48-57 | `Equals` holds exactly for equal connection strings, is symmetric, and is false for null |
| DbConnectionStrings.EqualsAgreesWithHash | tests/EntityFrameworkCoreTests/Db/DbConnectionString.cs:53-62 | equal values have equal hash codes |
| DbConnectionStrings.DistinctMethodsDistinctDatabases | tests/EntityFrameworkCoreTests/Db/DbConnectionString.cs:27-35 | within one class and base, distinct method names give unequal values |
| SqlDb.CreateConnectionStringFrom | tests/EntityFrameworkCoreTests/Db/SqlDb.cs:49-57 | the catalog becomes `catalog-Class`, or `catalog-Class-Method` for a non-empty method name; nothing else changes |
| SqlDb.CreateConnectionStringFromCaller | tests/EntityFrameworkCoreTests/Db/SqlDb.cs:32-40 | throws "Cannot obtain info about the caller." exactly when the frame or its declaring type is missing; otherwise it is the explicit-name overload applied to the caller's declaring class and, when asked, the caller's method name, so only the catalog changes |
| SqlDb.WithoutMethodNameIsClassOnly | tests/EntityFrameworkCoreTests/Db/SqlDb.cs:32-40 | with `withMethodName` false, the caller-based name is the class-only name |
| SqlDb.AgreesWithDbConnectionString | tests/EntityFrameworkCoreTests/Db/SqlDb.cs:49-57 | `SqlDb` and `DbConnectionString` derive the same connection string from the same names |
| BookJsonLoader.NewDate | tests/EntityFrameworkCoreTests/Loaders/BookJsonLoader.cs:18-22 | `new DateTime(y, m, d)` succeeds exactly for a calendar date in years 1 to 9999, and throws otherwise |
| BookJsonLoader.DecodePublishDate | tests/EntityFrameworkCoreTests/Loaders/BookJsonLoader.cs:12-26 | throws InvalidOperationException exactly when the text has three or more dashes, with the source's message; a decoded date is a valid calendar date |
| BookJsonLoader.DecodeParts | tests/EntityFrameworkCoreTests/Loaders/BookJsonLoader.cs:15-25 | the switch throws InvalidOperationException exactly when there are not one to three parts |
| BookJsonLoader.DecodePartsOfNumbers | tests/EntityFrameworkCoreTests/Loaders/BookJsonLoader.cs:15-22 | one to three numeric parts give `new DateTime` of their values, with month and day defaulting to 1 |
| BookJsonLoader.DecodePartsFirstBadPart | tests/EntityFrameworkCoreTests/Loaders/BookJsonLoader.cs:17-22 | the first part that `int.Parse` rejects decides the exception |
| BookJsonLoader.DecodeJoined | tests/EntityFrameworkCoreTests/Loaders/BookJsonLoader.cs:12-23 | decoding dash-joined numeric parts is `new DateTime` of their values |
| BookJsonLoader.DecodeYear | tests/EntityFrameworkCoreTests/Loaders/BookJsonLoader.cs:17-18 | "Y" decodes to 1 January of Y |
| BookJsonLoader.DecodeYearMonth | tests/EntityFrameworkCoreTests/Loaders/BookJsonLoader.cs:19-20 | "Y-M" decodes to `new DateTime(Y, M, 1)` |
| BookJsonLoader.DecodeYearMonthDay | tests/EntityFrameworkCoreTests/Loaders/BookJsonLoader.cs:21-22 | "Y-M-D" decodes to `new DateTime(Y, M, D)` |
| BookJsonLoader.DecodePaddedYearMonthDay | tests/EntityFrameworkCoreTests/Loaders/BookJsonLoader.cs:12-22 | "YYYY-MM-DD" with zero-padded parts, as in the seed file, decodes to `new DateTime(Y, M, D)` |
| BookJsonLoader.DecodeSeedFileDate | tests/EntityFrameworkCoreTests/Loaders/BookJsonLoader.cs:12-22 | the seed-file date `2014-06-02` decodes to 2 June 2014 |
| BookJsonLoader.LeapDay | tests/EntityFrameworkCoreTests/Loaders/BookJsonLoader.cs:21-22 | "Y-2-29" decodes exactly when Y is a leap year |
| BookJsonLoader.Truncate | tests/EntityFrameworkCoreTests/Loaders/BookJsonLoader.cs:43 | `Math.Truncate` rounds toward zero |
| BookJsonLoader.Ceiling | tests/EntityFrameworkCoreTests/Loaders/BookJsonLoader.cs:43 | `Math.Ceiling` is the least integer not below its argument |
| BookJsonLoader.CalculateReviewsToMatch | tests/EntityFrameworkCoreTests/Loaders/BookJsonLoader.cs:34-48 | the loop yields `ratingsCount` reviews (none for a non-positive count), which are the reviews `MatchingReviews` specifies |
| BookJsonLoader.MatchingReviewsPrefix | tests/EntityFrameworkCoreTests/Loaders/BookJsonLoader.cs:38-46 | generating more reviews only extends the earlier ones |
| BookJsonLoader.ReviewsTruncOrCeil | tests/EntityFrameworkCoreTests/Loaders/BookJsonLoader.cs:40-44 | every review is anonymous and gives the truncated or the rounded-up rating |
| BookJsonLoader.IntegralAverageIsExact | tests/EntityFrameworkCoreTests/Loaders/BookJsonLoader.cs:43 | for a whole-number rating, every review gives exactly that rating |
| BookJsonLoader.ReviewRule | tests/EntityFrameworkCoreTests/Loaders/BookJsonLoader.cs:43-45 | review 0 rounds up; review k rounds down exactly when the mean of the first k is above the rating |
| BookJsonLoader.NextReviewBySum | tests/EntityFrameworkCoreTests/Loaders/BookJsonLoader.cs:43-45 | review k rounds down exactly when the sum of the first k stars exceeds k times the rating |
| BookJsonLoader.RunningSumNearScaled | tests/EntityFrameworkCoreTests/Loaders/BookJsonLoader.cs:36-46 | for a non-negative rating, the sum of the first n stars stays strictly within one star of n times the rating |
| BookJsonLoader.RunningSumNearTarget | tests/EntityFrameworkCoreTests/Loaders/BookJsonLoader.cs:36-46 | the same bound, with the product written out |
| BookJsonLoader.AverageNearTarget | tests/EntityFrameworkCoreTests/Loaders/BookJsonLoader.cs:28-47 | the reviews "add up to the average rating": their mean is strictly within 1/n of a non-negative rating |
| BookJsonLoader.LinkAuthors | tests/EntityFrameworkCoreTests/Loaders/BookJsonLoader.cs:62-67 | link i holds the dictionary's author for name i and order `i mod 256`; the first missing name throws KeyNotFoundException |
| BookJsonLoader.CreateBookWithRefs | tests/EntityFrameworkCoreTests/Loaders/BookJsonLoader.cs:50-73 | builds the book from the record (price `?? -1`, reviews only with a rating) or throws the date decoder's exception, else KeyNotFound for the first missing author |
| BookJsonLoader.Author.constructor | tests/EntityFrameworkCoreTests/Loaders/BookJsonLoader.cs:85 | a new `Author` carries the name it is given |
| BookJsonLoader.CollectAuthors | tests/EntityFrameworkCoreTests/Loaders/BookJsonLoader.cs:79-87 | the dictionary has one fresh `Author` per listed name, named by its key, with distinct objects for distinct names |
| BookJsonLoader.NoLoadErrorAllDecode | tests/EntityFrameworkCoreTests/Loaders/BookJsonLoader.cs:89 | with no load error, every record's date decodes |
| BookJsonLoader.AllDecodeNoLoadError | tests/EntityFrameworkCoreTests/Loaders/BookJsonLoader.cs:89 | when every record's date decodes, there is no load error |
| BookJsonLoader.LoadErrorIffBadDate | tests/EntityFrameworkCoreTests/Loaders/BookJsonLoader.cs:56 | loading fails exactly when some record's date fails to decode |
| BookJsonLoader.LoadErrorIsFirstBadDate | tests/EntityFrameworkCoreTests/Loaders/BookJsonLoader.cs:89 | the load error is the error of the first record whose date fails to decode |
| BookJsonLoader.LoadErrorSticks | tests/EntityFrameworkCoreTests/Loaders/BookJsonLoader.cs:89 | once a prefix fails, every longer prefix fails with the same error |
| BookJsonLoader.CreateBooks | tests/EntityFrameworkCoreTests/Loaders/BookJsonLoader.cs:89 | `CreateBookWithRefs` on each record in order: fails exactly when some date fails, with the first record's error; otherwise one book per record, each built from its record |
| BookJsonLoader.AuthorsShared | tests/EntityFrameworkCoreTests/Loaders/BookJsonLoader.cs:79-89 | two author links hold the same `Author` object exactly when they name the same author |
| BookJsonLoader.LoadBooks | tests/EntityFrameworkCoreTests/Loaders/BookJsonLoader.cs:75-90 | one book per record, in order, each built from its record over one shared author dictionary; otherwise the first date error |
| ContextEffects.AsSqlConnectionString | tests/EntityFrameworkCoreTests/Db/DbConnectionStringExtensions.cs:13-18 | the options carry the value's connection string |
| ContextEffects.OptionsIdentifyDatabase | tests/EntityFrameworkCoreTests/Db/DbConnectionStringExtensions.cs:13-18 | two values give equal options exactly when they are equal |
| ContextEffects.CreateEffects | tests/EntityFrameworkCoreTests/Context/DbContextFactory.cs:42-44 | `Create` builds a context, then attaches the sink only when one is given |
| ContextEffects.CreateEffectsNeutral | tests/EntityFrameworkCoreTests/Context/DbContextFactory.cs:38-46 | `Create` neither recreates nor seeds any database |
| ContextEffects.CreateKeepsCounts | tests/EntityFrameworkCoreTests/Context/DbContextFactory.cs:38-46 | after `Create`, every database has been recreated and seeded as often as before |
| DbContextFactories.InvokeAll | tests/EntityFrameworkCoreTests/Context/DbContextFactory.cs:26 | the registered actions run on the options in registration order, up to and including the first that throws; its exception propagates and the later actions never run; with no throwing action, every action runs once |
| DbContextFactories.InvokeAllStopsAt | tests/EntityFrameworkCoreTests/Context/DbContextFactory.cs:26 | the run is decided by the first throwing action: it calls exactly the actions up to it and fails with its exception, or all of them and passes |
| DbContextFactories.InvokeAllEnsuresNothing | tests/EntityFrameworkCoreTests/Context/DbContextFactory.cs:26 | running the actions recreates no database |
| DbContextFactories.InitStepKeepsOnce | tests/EntityFrameworkCoreTests/Context/DbContextFactory.cs:21-27 | `InitDb` keeps stored options consistent and keeps every initialised database recreated exactly once, others never, whether or not an action throws |
| DbContextFactories.InitTraceKeepsOnce | tests/EntityFrameworkCoreTests/Context/DbContextFactory.cs:29-30 | the same over a sequence of connection strings |
| DbContextFactories.InitTraceGrows | tests/EntityFrameworkCoreTests/Context/DbContextFactory.cs:29-30 | no stored value is replaced or removed; only keys of the sequence are added, and all of them when nothing throws; the old log is a prefix of the new one |
| DbContextFactories.InitTraceDuplicate | tests/EntityFrameworkCoreTests/Context/DbContextFactory.cs:21-30 | initialising a connection string already in the sequence again changes nothing |
| DbContextFactories.InitStepFirstTime | tests/EntityFrameworkCoreTests/Context/DbContextFactory.cs:21-27 | a first `InitDb` adds the key, recreates the database, then runs the actions in order up to the first that throws; it throws exactly when some action does, with that action's exception, and otherwise runs every action (`EnsureDb` taken to return normally) |
| DbContextFactories.InitStepRepeat | tests/EntityFrameworkCoreTests/Context/DbContextFactory.cs:21-27 | the key stays recorded even when an action threw, so a second `InitDb` of it does nothing and throws nothing, whatever actions are registered by then |
| DbContextFactories.InitTraceFailSticks | tests/EntityFrameworkCoreTests/Context/DbContextFactory.cs:29-30 | after the first exception, the rest of the sequence is not processed |
| DbContextFactories.CreateKeepsOnce | tests/EntityFrameworkCoreTests/Context/DbContextFactory.cs:38-46 | `Create` keeps every database's recreation count |
| DbContextFactories.DbContextFactory.constructor | tests/EntityFrameworkCoreTests/Context/DbContextFactory.cs:16-19 | a new factory has no initialised database and no action |
| DbContextFactories.DbContextFactory.InitDb | tests/EntityFrameworkCoreTests/Context/DbContextFactory.cs:21-27 | the new state and the outcome are `InitStep` of the old state, and the invariant is kept |
| DbContextFactories.DbContextFactory.InvokeActions | tests/EntityFrameworkCoreTests/Context/DbContextFactory.cs:26 | the `ForEach` loop appends exactly the calls and returns exactly the outcome `InvokeAll` specifies |
| DbContextFactories.DbContextFactory.InitDbAll | tests/EntityFrameworkCoreTests/Context/DbContextFactory.cs:29-30 | the new state and the outcome are `InitTrace` of the old state, stopping at the first exception, and the invariant is kept |
| DbContextFactories.DbContextFactory.Create | tests/EntityFrameworkCoreTests/Context/DbContextFactory.cs:38-46 | throws "Db not initialized." exactly for an unknown key; otherwise gives a context on the stored options and logs the build and the sink |
| DbContextFactories.DbContextFactory.RegisterOnInit | tests/EntityFrameworkCoreTests/Context/DbContextFactory.cs:48-51 | appends the action |
| DbContextFactories.DbContextFactory.ClearRegistration | tests/EntityFrameworkCoreTests/Context/DbContextFactory.cs:53-56 | empties the action list |
| BookStoreContextFactories.SeedStepSound | tests/EntityFrameworkCoreTests/Context/BookStoreContextFactory.cs:20-25 | `InitDb` keeps every recorded database recreated once and seeded at most once, and touches no other |
| BookStoreContextFactories.RecordSound | tests/EntityFrameworkCoreTests/Context/BookStoreContextFactory.cs:22-24 | recording a new key and recreating its database keeps the invariant, and that database is not yet seeded |
| BookStoreContextFactories.SeedSound | tests/EntityFrameworkCoreTests/Context/BookStoreContextFactory.cs:24 | seeding a recorded, never-seeded database keeps the invariant |
| BookStoreContextFactories.SeedStepFirstTime | tests/EntityFrameworkCoreTests/Context/BookStoreContextFactory.cs:20-25 | a first `InitDb` records the key even when seeding throws; it recreates once, seeds exactly when the records load, and throws exactly the loader's error (`EnsureDb` and `SaveChanges` taken to return normally) |
| BookStoreContextFactories.SeedStepRepeat | tests/EntityFrameworkCoreTests/Context/BookStoreContextFactory.cs:22-23 | a second `InitDb` of a key changes nothing and throws nothing, whatever the file |
| BookStoreContextFactories.SeedTraceSound | tests/EntityFrameworkCoreTests/Context/BookStoreContextFactory.cs:27-28 | `InitDb` over a sequence keeps the invariant |
| BookStoreContextFactories.SeedTraceFailSticks | tests/EntityFrameworkCoreTests/Context/BookStoreContextFactory.cs:27-28 | after the first exception, the rest of the sequence is not processed |
| BookStoreContextFactories.SeedStepLoads | tests/EntityFrameworkCoreTests/Context/BookStoreContextFactory.cs:20-25 | with loadable records, one `InitDb` throws nothing (`EnsureDb` and `SaveChanges` taken to return normally), records the key and replaces no stored value |
| BookStoreContextFactories.SeedTraceLoads | tests/EntityFrameworkCoreTests/Context/BookStoreContextFactory.cs:27-28 | with loadable records, every key of the sequence is recorded, nothing is replaced, and nothing throws (`EnsureDb` and `SaveChanges` taken to return normally) |
| BookStoreContextFactories.SeedTraceStops | tests/EntityFrameworkCoreTests/Context/BookStoreContextFactory.cs:27-28 | with unloadable records, the first new key is recorded and the loader's error thrown (`EnsureDb` taken to return normally); with no new key nothing changes |
| BookStoreContextFactories.CreateSound | tests/EntityFrameworkCoreTests/Context/BookStoreContextFactory.cs:36-44 | `Create` keeps the registry invariant |
| BookStoreContextFactories.LoadSeed | tests/EntityFrameworkCoreTests/Context/BookStoreContextOptionsExtensions.cs:28-33 | loading the seed records throws exactly the first date error; otherwise it yields the books built from them |
| BookStoreContextFactories.BookStoreContextFactory.constructor | tests/EntityFrameworkCoreTests/Context/BookStoreContextFactory.cs:17-18 | a new factory has no initialised database |
| BookStoreContextFactories.BookStoreContextFactory.InitDb | tests/EntityFrameworkCoreTests/Context/BookStoreContextFactory.cs:20-25 | the new state and the outcome are `SeedStep` of the old state, and the invariant is kept |
| BookStoreContextFactories.BookStoreContextFactory.InitDbAll | tests/EntityFrameworkCoreTests/Context/BookStoreContextFactory.cs:27-28 | the new state and the outcome are `SeedTrace` of the old state, and the invariant is kept |
| BookStoreContextFactories.BookStoreContextFactory.Create | tests/EntityFrameworkCoreTests/Context/BookStoreContextFactory.cs:36-44 | throws "Db not initialized." exactly for an unknown key; otherwise gives a context on the stored options and logs the build and the sink |
| DbContextFactoryManagers.DbContextFactoryManager.constructor | tests/EntityFrameworkCoreTests/Context/DbContextFactoryManager.cs:12-15 | a new manager holds no factory |
| DbContextFactoryManagers.DbContextFactoryManager.GetDbContextFactory | tests/EntityFrameworkCoreTests/Context/DbContextFactoryManager.cs:19-20 | a known name returns its factory and leaves the map unchanged; a new name stores and returns a fresh empty factory; different names keep different factories |
| SimpleLineWriters.WrittenSnoc | tests/EntityFrameworkCoreTests/Logging/SimpleLineWriter.cs:11 | writing one more line appends it and a line break to the text |
| SimpleLineWriters.SplitWritten | tests/EntityFrameworkCoreTests/Logging/SimpleLineWriter.cs:7-11 | splitting the text at line breaks gives back the lines written, then one empty piece |
| SimpleLineWriters.SimpleLineWriter.constructor | tests/EntityFrameworkCoreTests/Logging/SimpleLineWriter.cs:7 | a new writer's buffer is empty |
| SimpleLineWriters.SimpleLineWriter.GetString | tests/EntityFrameworkCoreTests/Logging/SimpleLineWriter.cs:9 | the text is the written lines in call order, each followed by a line break; reading changes nothing |
| SimpleLineWriters.SimpleLineWriter.WriteLine | tests/EntityFrameworkCoreTests/Logging/SimpleLineWriter.cs:11 | the buffer becomes the old buffer plus the line and a line break |

## Left out

- File and JSON I/O: `File.ReadAllText` and `JsonConvert.DeserializeObject` are not modelled. The seed file is given to `LoadBooks` and `InitDb` as its decoded records.
- Configuration: `AppSettingsLoader` and the "DefaultConnection" lookup are not part of this model. The default connection string is a parameter of `DbConnectionStrings.Create`.
- Connection-string text: `SqlConnectionStringBuilder` parsing and `ToString` are not modelled. A connection string is the record `CatalogNaming.SqlConnection`.
- Stack inspection: `new StackTrace().GetFrame(level)?.GetMethod()` becomes the `callerFrame` parameter of `SqlDb.CreateConnectionStringFromCaller`. The source's parameterless `CreateConnectionString()` (SqlDb.cs:63-67) has no member of its own here: it is `CreateConnectionStringFromCaller` applied to the configured default connection and the frame two levels up.
- EF Core and SQL Server: `EnsureDb`, running an action, seeding, `BuildDbContext` and `StartLogging` run outside the program. They are recorded as `ContextEffects.Effect` calls in a ghost log, not executed.
- DbContextFactories.InitStepFirstTime: `EnsureDb` (`EnsureDeleted`, then `EnsureCreated`) is taken to return normally, so the contract's "throws exactly when some action does" covers action exceptions only. In the source, an `EnsureDb` that throws after `TryAdd` leaves the key recorded with no action run, and every later `InitDb` of that key does nothing; the model has no such state.
- BookStoreContextFactories.SeedStepFirstTime: `EnsureDb` and the `SaveChanges` inside `SeedWith` are taken to return normally, so the only exception modelled is the loader's. In the source, either one throwing after `TryAdd` leaves the key recorded and the database never seeded (and, when `EnsureDb` throws, possibly not recreated either), and every later `InitDb` of that key does nothing.
- BookStoreContextFactories.SeedStepLoads: "throws nothing" with loadable records holds only under the same assumption that `EnsureDb` and `SaveChanges` return normally.
- BookStoreContextFactories.SeedTraceStops: the loader's error is the exception only when `EnsureDb` returns normally. In the source a throwing `EnsureDb` on the first new key leaves that key recorded and throws its own exception instead of the loader's.
- BookStoreContextFactories.SeedTraceLoads: "nothing throws" holds only under the same assumption; in the source a throwing `EnsureDb` or `SaveChanges` stops the sequence at that key.
- `ContextEffects.SeedWith` records the decoded records the books were built from, not the `Book` objects. `LoadSeed` states that those books exist and are built from the records.
- Concurrency: the `ConcurrentDictionary` races, `InitDbAsync` (both overloads on both factories), and the lazy thread-safe singletons `Instance` are not modelled. Operations run one at a time, and a caller holds each object itself.
- `DbContextFactoryManager.GetDbContextFactory`: the eagerly built candidate factory is modelled. A race where two threads both add is not.
- Generic type parameters: `DbContextFactory<T>` and `DbContextFactoryManager<T>` are modelled for a single context type.
- Actions and log sinks are known only by their identity (`Action`, `LogSink`); an action also carries the exception it throws, if any. What an action does to the database is not modelled, and whether it throws is fixed per action rather than depending on the database.
- BookJsonLoader.Truncate: the `(int)` cast of the `Math.Truncate`/`Math.Ceiling` result is unbounded here; a rating outside the 32-bit range would not be cut as the cast does, which ratings from 0 to 5 never reach. The same holds for `BookJsonLoader.Ceiling`.
- `BookJsonLoader.AverageStars`: the mean of the reviews is exact real arithmetic. The source's `double` rounding in `Average` and in the `> averageRating` comparison is not modelled.
- `BookJsonLoader.AverageNearTarget`: proved for non-negative ratings only. Seed-file ratings are never negative.
- `BookJsonLoader.CreateBookWithRefs`: the `(decimal)` conversion of the price is not modelled, because prices are real numbers here.
- `Text.ParseInt`: leading and trailing white space and culture-specific signs are not accepted. Only an optionally signed ASCII digit string is.
- `BookJsonLoader.LoadBooks`: the source returns a lazy `Select`, so a bad date throws while `SeedWith` enumerates the books. That happens before `SaveChanges`, so nothing is saved. The model fails eagerly with the same first error and likewise records no seeding.
- Book back-references (`BookAuthor.Book`) and EF key and navigation properties are not modelled. A null `authors` list or null record fields are not modelled.
- `DbConnectionStrings.GetHashCode`: `HashCode.Combine`'s per-process seed is the `combine` function parameter.
- `SimpleLineWriters.NewLine`: `Environment.NewLine` is "\n", as on Unix. On Windows it is "\r\n".
- `CatalogNaming.CrossClassCollision`: two different class and method pairs can name the same database once a class name contains a dash. C# identifiers cannot contain a dash, so no caller reaches this case, and it is documented rather than reported as a defect.
