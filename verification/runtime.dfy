/**
 * What one interception sees and produces: the wrapped call's outcome, the
 * logger it writes to, and the writes it makes.
 */
module Runtime {
  import opened Wrappers
  import opened LogCall

  /** A throwable as the formatters read it: `getClass().getSimpleName()`,
      `getMessage()` (possibly null) and the text `printStackTrace` prints. */
  datatype Failure = Failure(simpleName: string, message: Option<string>, trace: string)

  /** How the wrapped call ended: a value (`None` for null or a void method)
      or a throwable. */
  datatype Outcome = Returned(value: Option<string>) | Threw(failure: Failure)

  /** The `result` the interceptor and the aspect format: null after a throw. */
  function ResultValue(outcome: Outcome): Option<string> {
    match outcome
    case Returned(v) => v
    case Threw(_) => None
  }

  /** What the ByteBuddy front ends read from the intercepted `Method` and its call. */
  datatype Invocation = Invocation(
    methodName: string,             // method.getName()
    className: string,              // simple name of the declaring class
    paramNames: seq<string>,        // getParameters() names; their number is getParameterCount()
    args: seq<Option<string>>,      // allArguments, each as its toString (None for null)
    returnsVoid: bool,              // getReturnType() == void.class
    resultOnThrow: Option<string>)  // what @Advice.Return holds after a throw: the return type's
                                    // default, None for reference and void types, the zero's
                                    // text ("0", "false", "0.0") for primitive ones

  /** The parameter guard: logParameters and at least one declared parameter. */
  predicate ShowParams(spec: Spec, inv: Invocation) {
    spec.logParameters && |inv.paramNames| > 0
  }

  /** The logger of the declaring class, described by the levels it has enabled. */
  datatype Sink = Sink(enabled: set<LogLevel>)

  /** `isLoggerEnabled`: the logger's `isXxxEnabled` for the given level. */
  predicate IsEnabled(sink: Sink, level: LogLevel) {
    level in sink.enabled
  }

  datatype Write = Write(level: LogLevel, message: string)

  /** `log(logger, level, message)`: `logger.xxx(message)` for the level, which
      writes the message at that level exactly when the level is enabled. */
  function Emit(sink: Sink, level: LogLevel, message: string): (w: seq<Write>)
    ensures |w| <= 1
    ensures |w| == 1 <==> IsEnabled(sink, level)
    ensures forall x :: x in w ==> x.level == level && x.message == message
  {
    if IsEnabled(sink, level) then [Write(level, message)] else []
  }

  /** What the caller and the log see of one intercepted call. */
  datatype Observed = Observed(outcome: Outcome, writes: seq<Write>)
}
