/**
 * `DbContextFactoryManager<T>`: named `DbContextFactory` instances, so that
 * test classes sharing a name share one registry of initialised databases.
 */
module DbContextFactoryManagers {
  import opened DbContextFactories

  class DbContextFactoryManager {
    var dbCtxFacts: map<string, DbContextFactory>

    /** Different names hold different factories. */
    ghost predicate Valid()
      reads this
    {
      forall a, b :: a in dbCtxFacts && b in dbCtxFacts && a != b ==> dbCtxFacts[a] != dbCtxFacts[b]
    }

    /** A manager that holds no factory yet. */
    constructor ()
      ensures Valid() && dbCtxFacts == map[]
    {
      dbCtxFacts := map[];
    }

    /**
     * `GetDbContextFactory(name)`: `GetOrAdd(name, new DbContextFactory<T>())`.
     * The candidate factory is built before the lookup, whether or not it
     * is stored. A known name returns its factory and leaves the map as it
     * was; a new name stores the candidate, an empty factory no other name
     * holds, and returns it.
     */
    method GetDbContextFactory(name: string) returns (f: DbContextFactory)
      requires Valid()
      modifies this`dbCtxFacts
      ensures Valid()
      ensures name in old(dbCtxFacts) ==> f == old(dbCtxFacts)[name] && dbCtxFacts == old(dbCtxFacts)
      ensures name !in old(dbCtxFacts) ==>
        && dbCtxFacts == old(dbCtxFacts)[name := f]
        && fresh(f)
        && f.Valid() && f.initedDb == map[] && f.actions == [] && f.effects == []
    {
      var candidate := new DbContextFactory();
      if name in dbCtxFacts {
        f := dbCtxFacts[name];
      } else {
        dbCtxFacts := dbCtxFacts[name := candidate];
        f := candidate;
      }
    }
  }
}
