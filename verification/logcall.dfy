/**
 * The `@LogCall` annotation: what to log about one method, fixed when the
 * method is declared and read by every interception of it.
 */
module LogCall {

  /** The five levels of both `LogLevel` enums. */
  datatype LogLevel = Trace | Debug | Info | Warn | Error

  /** One `@LogCall` annotation; `customLog` non-empty selects the custom pattern. */
  datatype Spec = Spec(
    level: LogLevel,
    logParameters: bool,
    logReturn: bool,
    logStackTrace: bool,
    logException: bool,
    customLog: string)

  /** `@LogCall` with every element left at its default: level WARN (the
      annotation's doc comment says TRACE; the declared default is WARN), all
      flags off, and an empty custom pattern. */
  const DefaultSpec: Spec := Spec(Warn, false, false, false, false, "")

  /** The custom pattern replaces the default layout when it is non-empty. */
  predicate UsesCustomLog(spec: Spec) {
    spec.customLog != ""
  }
}
