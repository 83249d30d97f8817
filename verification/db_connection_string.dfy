/**
 * `DbConnectionString`: an immutable value holding the connection string of
 * a test database whose catalog name follows the isolation convention, with
 * value equality on that connection string.
 */
module DbConnectionStrings {
  import opened Wrappers
  import opened CatalogNaming

  datatype DbConnectionString = DbConnectionString(connectionString: SqlConnection)

  /** The private `Create(baseConnStr, className, methodName = "")`. */
  function CreateFrom(baseConnStr: SqlConnection, className: string, methodName: string := ""): (r: DbConnectionString)
    ensures r.connectionString.dataSource == baseConnStr.dataSource
    ensures r.connectionString.otherKeywords == baseConnStr.otherKeywords
    ensures methodName == "" ==> r.connectionString.initialCatalog == baseConnStr.initialCatalog + "-" + className
    ensures methodName != "" ==>
      r.connectionString.initialCatalog == baseConnStr.initialCatalog + "-" + className + "-" + methodName
  {
    DbConnectionString(AppendSuffix(baseConnStr, className, methodName))
  }

  /**
   * The public `Create(className, methodName = "")`, applied to the
   * "DefaultConnection" connection string read from the settings file.
   */
  function Create(defaultConnection: SqlConnection, className: string, methodName: string := ""): (r: DbConnectionString)
    ensures r == CreateFrom(defaultConnection, className, methodName)
  {
    CreateFrom(defaultConnection, className, methodName)
  }

  /** `Equals(DbConnectionString? other)`; `Equals(object?)` passes any other type as null. */
  function Equals(self: DbConnectionString, other: Option<DbConnectionString>): (equal: bool)
    ensures equal <==> other == Some(self)
  {
    other.Some? && self.connectionString == other.value.connectionString
  }

  /**
   * `GetHashCode()`: `HashCode.Combine` of the connection string, whose
   * per-process seed is the `combine` parameter here.
   */
  function GetHashCode(self: DbConnectionString, combine: SqlConnection -> int): (hash: int)
    ensures hash == combine(self.connectionString)
  {
    combine(self.connectionString)
  }

  /** Two values are Equal exactly when they are the same value; nothing equals null. */
  lemma EqualsIsValueEquality(a: DbConnectionString, b: DbConnectionString)
    ensures Equals(a, Some(b)) <==> a == b
    ensures !Equals(a, None)
    ensures Equals(a, Some(b)) == Equals(b, Some(a))
  {
  }

  /** Equal values have equal hash codes, whatever the process seed. */
  lemma EqualsAgreesWithHash(a: DbConnectionString, b: DbConnectionString, combine: SqlConnection -> int)
    requires Equals(a, Some(b))
    ensures GetHashCode(a, combine) == GetHashCode(b, combine)
  {
  }

  /** Within one class and base, distinct method names give distinct, unequal values. */
  lemma DistinctMethodsDistinctDatabases(baseConnStr: SqlConnection, className: string, m1: string, m2: string)
    requires m1 != m2
    ensures !Equals(CreateFrom(baseConnStr, className, m1), Some(CreateFrom(baseConnStr, className, m2)))
  {
    if AppendSuffix(baseConnStr, className, m1) == AppendSuffix(baseConnStr, className, m2) {
      MethodNameInjective(baseConnStr, className, m1, m2);
    }
  }
}
