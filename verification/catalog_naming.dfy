/**
 * The isolated-database naming rule shared by `DbConnectionString.Create`
 * and `SqlDb.CreateConnectionStringFrom`: the test class name, and the test
 * method name when there is one, are appended to the initial catalog of a
 * base connection string, so that each test class (or test) gets a
 * database of its own.
 */
module CatalogNaming {
  import opened Text

  /**
   * A parsed SQL Server connection string (the `SqlConnectionStringBuilder`
   * of the source): the initial catalog, and every other keyword kept as is.
   */
  datatype SqlConnection = SqlConnection(dataSource: string, initialCatalog: string, otherKeywords: map<string, string>)

  /** `"-" + className`, then `"-" + methodName` unless the method name is empty. */
  function Suffix(className: string, methodName: string): string {
    "-" + className + (if methodName == "" then "" else "-" + methodName)
  }

  /** `builder.InitialCatalog += Suffix(className, methodName)`. */
  function AppendSuffix(baseConnStr: SqlConnection, className: string, methodName: string): (r: SqlConnection)
    ensures r.dataSource == baseConnStr.dataSource && r.otherKeywords == baseConnStr.otherKeywords
    ensures methodName == "" ==> r.initialCatalog == baseConnStr.initialCatalog + "-" + className
    ensures methodName != "" ==> r.initialCatalog == baseConnStr.initialCatalog + "-" + className + "-" + methodName
  {
    baseConnStr.(initialCatalog := baseConnStr.initialCatalog + Suffix(className, methodName))
  }

  /**
   * For names without a dash (C# identifiers), splitting the suffix on
   * dashes gives back the names: the suffix is decodable.
   */
  lemma SuffixParts(className: string, methodName: string)
    requires '-' !in className && '-' !in methodName
    ensures Split(Suffix(className, methodName), '-')
         == if methodName == "" then ["", className] else ["", className, methodName]
  {
    var parts := if methodName == "" then ["", className] else ["", className, methodName];
    assert Join(parts, '-') == Suffix(className, methodName) by {
      if methodName != "" {
        assert Join(parts[1..], '-') == className + "-" + methodName;
      }
    }
    SplitJoin(parts, '-');
  }

  /** For dash-free names, distinct (class, method) pairs give distinct suffixes. */
  lemma SuffixInjective(c1: string, m1: string, c2: string, m2: string)
    requires '-' !in c1 && '-' !in m1 && '-' !in c2 && '-' !in m2
    requires Suffix(c1, m1) == Suffix(c2, m2)
    ensures c1 == c2 && m1 == m2
  {
    SuffixParts(c1, m1);
    SuffixParts(c2, m2);
    var p1 := Split(Suffix(c1, m1), '-');
    assert |p1| >= 2 && p1[1] == c1 && p1[1] == c2;
  }

  /** Within one class, the method name is recovered from the catalog, whatever the names. */
  lemma MethodNameInjective(baseConnStr: SqlConnection, className: string, m1: string, m2: string)
    requires AppendSuffix(baseConnStr, className, m1) == AppendSuffix(baseConnStr, className, m2)
    ensures m1 == m2
  {
    var head := baseConnStr.initialCatalog + "-" + className;
    var t1 := if m1 == "" then "" else "-" + m1;
    var t2 := if m2 == "" then "" else "-" + m2;
    assert baseConnStr.initialCatalog + Suffix(className, m1) == head + t1;
    assert baseConnStr.initialCatalog + Suffix(className, m2) == head + t2;
    assert t1 == (head + t1)[|head|..] == (head + t2)[|head|..] == t2;
    if m1 != "" {
      assert m1 == t1[1..];
    }
  }

  /**
   * For dash-free names, the whole name pair is recovered from the derived
   * connection string of a fixed base.
   */
  lemma NamingInjective(baseConnStr: SqlConnection, c1: string, m1: string, c2: string, m2: string)
    requires '-' !in c1 && '-' !in m1 && '-' !in c2 && '-' !in m2
    requires AppendSuffix(baseConnStr, c1, m1) == AppendSuffix(baseConnStr, c2, m2)
    ensures c1 == c2 && m1 == m2
  {
    var b := baseConnStr.initialCatalog;
    var s1, s2 := Suffix(c1, m1), Suffix(c2, m2);
    assert s1 == (b + s1)[|b|..] == (b + s2)[|b|..] == s2;
    SuffixInjective(c1, m1, c2, m2);
  }

  /**
   * Across classes the rule is not injective once a class name may hold a
   * dash: class "A-B" without a method and class "A" with method "B" get the
   * same database.
   */
  lemma CrossClassCollision(baseConnStr: SqlConnection)
    ensures AppendSuffix(baseConnStr, "A-B", "") == AppendSuffix(baseConnStr, "A", "B")
  {
    assert Suffix("A-B", "") == "-A-B" == Suffix("A", "B");
  }
}
