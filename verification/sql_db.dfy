/**
 * `SqlDb.CreateConnectionStringFrom`: the same isolation naming applied to
 * a connection string, with the class and method either given explicitly
 * or taken from a frame of the caller's stack.
 */
module SqlDb {
  import opened Wrappers
  import opened Exceptions
  import opened CatalogNaming
  import DbConnectionStrings

  /** The part of a stack frame's `MethodBase` that is read: its name and declaring type. */
  datatype MethodInfo = MethodInfo(name: string, declaringTypeName: Option<string>)

  const CallerUnknown := "Cannot obtain info about the caller."

  /** `CreateConnectionStringFrom(baseConnStr, className, methodName = "")`. */
  function CreateConnectionStringFrom(baseConnStr: SqlConnection, className: string, methodName: string := ""): (r: SqlConnection)
    ensures r.dataSource == baseConnStr.dataSource && r.otherKeywords == baseConnStr.otherKeywords
    ensures methodName == "" ==> r.initialCatalog == baseConnStr.initialCatalog + "-" + className
    ensures methodName != "" ==> r.initialCatalog == baseConnStr.initialCatalog + "-" + className + "-" + methodName
  {
    AppendSuffix(baseConnStr, className, methodName)
  }

  /**
   * `CreateConnectionStringFrom(baseConnStr, stackFrameLevel, withMethodName)`;
   * `callerFrame` is the method of the stack frame at `stackFrameLevel`,
   * None when there is no such frame.
   */
  function CreateConnectionStringFromCaller(baseConnStr: SqlConnection, callerFrame: Option<MethodInfo>, withMethodName: bool := true)
    : (r: Result<SqlConnection, Exception>)
    ensures r.Failure? <==> callerFrame.None? || callerFrame.value.declaringTypeName.None?
    ensures r.Failure? ==> r.error == InvalidOperation(CallerUnknown)
    ensures r.Success? ==> r.value == CreateConnectionStringFrom(baseConnStr, callerFrame.value.declaringTypeName.value,
                                                                 if withMethodName then callerFrame.value.name else "")
    ensures r.Success? ==> r.value.initialCatalog == baseConnStr.initialCatalog + "-" + callerFrame.value.declaringTypeName.value
                                                     + (if withMethodName && callerFrame.value.name != "" then "-" + callerFrame.value.name else "")
  {
    match callerFrame
    case None => Failure(InvalidOperation(CallerUnknown))
    case Some(caller) =>
      match caller.declaringTypeName
      case None => Failure(InvalidOperation(CallerUnknown))
      case Some(className) =>
        Success(CreateConnectionStringFrom(baseConnStr, className, if withMethodName then caller.name else ""))
  }

  /** Without the method name, the caller-based overload gives the class-only database. */
  lemma WithoutMethodNameIsClassOnly(baseConnStr: SqlConnection, caller: MethodInfo, className: string)
    requires caller.declaringTypeName == Some(className)
    ensures CreateConnectionStringFromCaller(baseConnStr, Some(caller), false)
         == Success(CreateConnectionStringFrom(baseConnStr, className))
  {
  }

  /** `SqlDb` and `DbConnectionString` name the same database for the same names. */
  lemma AgreesWithDbConnectionString(baseConnStr: SqlConnection, className: string, methodName: string)
    ensures CreateConnectionStringFrom(baseConnStr, className, methodName)
         == DbConnectionStrings.CreateFrom(baseConnStr, className, methodName).connectionString
  {
  }
}
