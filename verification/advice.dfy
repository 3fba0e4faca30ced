/**
 * The ByteBuddy advice front end, `LogCallAdvice`: the exit advice of an
 * instrumented method logs the finished call when the method is annotated
 * and the logger has the annotation's level enabled. Its custom patterns know
 * `{exception}` but not `{stacktrace}`.
 */
module Advice {
  import opened Wrappers
  import opened Text
  import opened Lines
  import opened LogCall
  import opened Runtime
  import opened Placeholders
  import Decimal
  import Layout
  import Interceptor

  const AdviceFrame: string := "com.github.pourquoipas" + ".logcall." + "LogCallAdvice"

  /** The trace filter: drop every line that mentions the advice class. */
  predicate KeepFrame(line: string) {
    !Contains(line, AdviceFrame)
  }

  /** `getCleanStackTrace` over the printed trace of a throwable. */
  function CleanStackTrace(trace: string): string {
    Clean(trace, KeepFrame)
  }

  lemma AdviceFrameHasNoBreak()
    ensures |AdviceFrame| > 0 && '\n' !in AdviceFrame
  {
    assert '\n' !in "com.github.pourquoipas" && '\n' !in ".logcall." && '\n' !in "LogCallAdvice";
  }

  /** The cleaned trace never mentions the advice class. */
  lemma CleanStackTraceDropsFrames(trace: string)
    ensures !Contains(CleanStackTrace(trace), AdviceFrame)
  {
    AdviceFrameHasNoBreak();
    CleanAvoids(trace, KeepFrame, AdviceFrame);
  }

  /** Every other line of the trace is still there. */
  lemma CleanStackTraceKeepsFrames(trace: string, line: string)
    requires line in SplitLines(trace) && KeepFrame(line)
    ensures Contains(CleanStackTrace(trace), line)
  {
    CleanKeeps(trace, KeepFrame, line);
  }

  // ---------------------------------------------------------------------
  // formatCustomLog

  /** The last step of `formatCustomLog`: `{exception}` takes the cleaned trace
      of a thrown exception; there is no `{stacktrace}` step. */
  function TraceStep(log: string, outcome: Outcome): string {
    if Contains(log, ExceptionKey) && outcome.Threw? then
      ReplaceAll(log, ExceptionKey, CleanStackTrace(outcome.failure.trace))
    else log
  }

  /** The `@Advice.Return` value `formatCustomLog` sees: the returned value, or
      after a throw the default of the method's return type, which is null
      only for reference and void return types. */
  function AdviceResult(inv: Invocation, outcome: Outcome): Option<string> {
    match outcome
    case Returned(v) => v
    case Threw(_) => inv.resultOnThrow
  }

  /** `formatCustomLog`: the shared chain with positional and by-name
      parameter steps, the advice's result, then the trace step. */
  function FormatCustom(pattern: string, inv: Invocation, outcome: Outcome): string {
    var log := SubstituteCommon(pattern, inv.methodName, inv.className, inv.args,
                                ParamSteps(inv.args, inv.paramNames), AdviceResult(inv, outcome));
    TraceStep(log, outcome)
  }

  // ---------------------------------------------------------------------
  // buildLogMessage and exit

  /** The cleaned trace of the thrown exception, used only after a throw. */
  function ExceptionTrace(outcome: Outcome): string {
    if outcome.Threw? then CleanStackTrace(outcome.failure.trace) else ""
  }

  /** The default layout of this call, with both traces cleaned. */
  function DefaultSections(spec: Spec, inv: Invocation, outcome: Outcome, duration: int,
                           callTrace: string): (r: seq<Layout.Section>)
    ensures Layout.Follows(r, spec, inv.methodName, ShowParams(spec, inv), inv.args, outcome,
                           inv.returnsVoid, duration, CleanStackTrace(callTrace), ExceptionTrace(outcome))
  {
    Layout.Build(spec, inv.methodName, ShowParams(spec, inv), inv.args, outcome, inv.returnsVoid,
                 duration, CleanStackTrace(callTrace), ExceptionTrace(outcome))
  }

  /** `buildLogMessage`: a non-empty custom pattern wins over the layout. */
  function BuildLogMessage(spec: Spec, inv: Invocation, outcome: Outcome, duration: int,
                           callTrace: string): string
  {
    if UsesCustomLog(spec) then FormatCustom(spec.customLog, inv, outcome)
    else Layout.Render(DefaultSections(spec, inv, outcome, duration, callTrace))
  }

  /** `exit`: a method without `@LogCall` is never logged; an annotated one
      gets one write at the annotation's level, carrying the built message,
      exactly when the logger has that level enabled. The call's own outcome
      passes through unchanged. */
  function Exit(annotation: Option<Spec>, sink: Sink, inv: Invocation, outcome: Outcome, duration: int,
                callTrace: string): (o: Observed)
    ensures o.outcome == outcome
    ensures |o.writes| <= 1
    ensures |o.writes| == 1 <==> annotation.Some? && IsEnabled(sink, annotation.value.level)
    ensures forall w :: w in o.writes ==>
              annotation.Some?
              && w == Write(annotation.value.level, BuildLogMessage(annotation.value, inv, outcome, duration, callTrace))
  {
    match annotation
    case None => Observed(outcome, [])
    case Some(spec) =>
      if !IsEnabled(sink, spec.level) then Observed(outcome, [])
      else Observed(outcome, Emit(sink, spec.level, BuildLogMessage(spec, inv, outcome, duration, callTrace)))
  }

  // ---------------------------------------------------------------------
  // Properties of the messages

  /** A custom pattern in which none of the replaced texts occurs is logged
      verbatim, whatever braces it holds; `{stacktrace}` needs no condition,
      since the advice never replaces it. */
  lemma UnmatchedPatternVerbatim(spec: Spec, inv: Invocation, outcome: Outcome, duration: int, callTrace: string)
    requires UsesCustomLog(spec)
    requires NoTargetIn(spec.customLog, CommonPlan(inv.methodName, inv.className, inv.args,
                                                   ParamSteps(inv.args, inv.paramNames), AdviceResult(inv, outcome)))
    requires outcome.Threw? ==> !Contains(spec.customLog, ExceptionKey)
    ensures BuildLogMessage(spec, inv, outcome, duration, callTrace) == spec.customLog
  {
    var steps := ParamSteps(inv.args, inv.paramNames);
    CommonFollowsPlan(spec.customLog, inv.methodName, inv.className, inv.args, steps, AdviceResult(inv, outcome));
    StepsIdentity(spec.customLog, CommonPlan(inv.methodName, inv.className, inv.args, steps, AdviceResult(inv, outcome)));
  }

  /** A custom pattern without any `{` is logged verbatim. */
  lemma VerbatimPattern(spec: Spec, inv: Invocation, outcome: Outcome, duration: int, callTrace: string)
    requires UsesCustomLog(spec) && '{' !in spec.customLog && PlainNames(inv.paramNames)
    ensures BuildLogMessage(spec, inv, outcome, duration, callTrace) == spec.customLog
  {
    ParamStepsArePlaceholders(inv.args, inv.paramNames, 0);
    CommonLeavesText(spec.customLog, inv.methodName, inv.className, inv.args,
                     ParamSteps(inv.args, inv.paramNames), AdviceResult(inv, outcome));
    NotContainsFirstChar(spec.customLog, ExceptionKey);
  }

  /** `{stacktrace}` is never substituted: it stays in the message whatever
      the outcome, unless a parameter is named `stacktrace`. */
  lemma StacktraceKept(pattern: string, inv: Invocation, outcome: Outcome)
    requires PlainNames(inv.paramNames) && "stacktrace" !in inv.paramNames
    requires Contains(pattern, StacktraceKey)
    ensures Contains(FormatCustom(pattern, inv, outcome), StacktraceKey)
  {
    var steps := ParamSteps(inv.args, inv.paramNames);
    BuiltinsArePlaceholders();
    ParamStepsArePlaceholders(inv.args, inv.paramNames, 0);
    ParamStepsAvoid(inv.args, inv.paramNames, 0, "stacktrace");
    CommonKeeps(pattern, inv.methodName, inv.className, inv.args, steps, AdviceResult(inv, outcome), StacktraceKey);
    var log := SubstituteCommon(pattern, inv.methodName, inv.className, inv.args, steps, AdviceResult(inv, outcome));
    if Contains(log, ExceptionKey) && outcome.Threw? {
      PlaceholderSurvives(log, ExceptionKey, CleanStackTrace(outcome.failure.trace), StacktraceKey);
    }
  }

  /** `{exception}` stays in the message when nothing was thrown. */
  lemma ExceptionKeptWithoutThrow(pattern: string, inv: Invocation, value: Option<string>)
    requires PlainNames(inv.paramNames) && "exception" !in inv.paramNames
    requires Contains(pattern, ExceptionKey)
    ensures Contains(FormatCustom(pattern, inv, Returned(value)), ExceptionKey)
  {
    BuiltinsArePlaceholders();
    ParamStepsArePlaceholders(inv.args, inv.paramNames, 0);
    ParamStepsAvoid(inv.args, inv.paramNames, 0, "exception");
    CommonKeeps(pattern, inv.methodName, inv.className, inv.args, ParamSteps(inv.args, inv.paramNames), value,
                ExceptionKey);
  }

  /** The pattern `{exception}` after a throw is the exception's cleaned trace. */
  lemma ExceptionPattern(inv: Invocation, failure: Failure)
    requires PlainNames(inv.paramNames) && "exception" !in inv.paramNames
    ensures FormatCustom(ExceptionKey, inv, Threw(failure)) == CleanStackTrace(failure.trace)
  {
    ExceptionReachesStep(inv, Threw(failure));
    TraceStepOnException(failure);
  }

  /** The pattern `{exception}` is handed to the trace step as it is. */
  lemma ExceptionReachesStep(inv: Invocation, outcome: Outcome)
    requires PlainNames(inv.paramNames) && "exception" !in inv.paramNames
    ensures FormatCustom(ExceptionKey, inv, outcome) == TraceStep(ExceptionKey, outcome)
  {
    BuiltinsArePlaceholders();
    ParamStepsArePlaceholders(inv.args, inv.paramNames, 0);
    ParamStepsAvoid(inv.args, inv.paramNames, 0, "exception");
    CommonLeavesPlaceholder(ExceptionKey, inv.methodName, inv.className, inv.args,
                            ParamSteps(inv.args, inv.paramNames), AdviceResult(inv, outcome));
  }

  lemma TraceStepOnException(failure: Failure)
    ensures TraceStep(ExceptionKey, Threw(failure)) == CleanStackTrace(failure.trace)
  {
    ContainsSelf(ExceptionKey);
    BuiltinsArePlaceholders();
    ReplaceWhole(ExceptionKey, CleanStackTrace(failure.trace));
  }

  /** After a throw `{return}` renders as the return type's default: `null`
      for a reference or void return type, the primitive's zero otherwise. */
  lemma ReturnAfterThrow(inv: Invocation, failure: Failure)
    requires PlainNames(inv.paramNames) && "return" !in inv.paramNames
    requires '{' !in Display(inv.resultOnThrow)
    ensures FormatCustom(ReturnKey, inv, Threw(failure)) == Display(inv.resultOnThrow)
    ensures inv.resultOnThrow.None? ==> FormatCustom(ReturnKey, inv, Threw(failure)) == "null"
  {
    var steps := ParamSteps(inv.args, inv.paramNames);
    var shown := Display(inv.resultOnThrow);
    assert SubstituteCommon(ReturnKey, inv.methodName, inv.className, inv.args, steps, inv.resultOnThrow)
        == shown by {
      BuiltinsArePlaceholders();
      ParamStepsArePlaceholders(inv.args, inv.paramNames, 0);
      ParamStepsAvoid(inv.args, inv.paramNames, 0, "return");
      CommonRendersReturn(inv.methodName, inv.className, inv.args, steps, inv.resultOnThrow);
    }
    NotContainsFirstChar(shown, ExceptionKey);
  }

  /** With every element of `@LogCall` at its default the message is the
      method name, the exception name after a throw, and the duration. */
  lemma DefaultSpecMessage(inv: Invocation, outcome: Outcome, duration: int, callTrace: string)
    ensures BuildLogMessage(DefaultSpec, inv, outcome, duration, callTrace)
         == "Method '" + inv.methodName + "'"
            + (if outcome.Threw? then " | Threw Exception: " + outcome.failure.simpleName else "")
            + " | Duration: " + Decimal.IntToString(duration) + "ms"
  {
    var r := DefaultSections(DefaultSpec, inv, outcome, duration, callTrace);
    Layout.MinimalMessage(r, DefaultSpec, inv.methodName, inv.args, outcome, inv.returnsVoid, duration,
                          CleanStackTrace(callTrace), ExceptionTrace(outcome));
  }

  /** Without trace sections the advice lays a call out exactly as the
      interceptor does. */
  lemma LayoutAgreesWithInterceptor(spec: Spec, inv: Invocation, outcome: Outcome, duration: int, callTrace: string)
    requires !UsesCustomLog(spec) && !spec.logStackTrace && !(outcome.Threw? && spec.logException)
    ensures BuildLogMessage(spec, inv, outcome, duration, callTrace)
         == Interceptor.BuildLogMessage(spec, inv, outcome, duration, callTrace)
  {
    Layout.BuildIgnoresTraces(spec, inv.methodName, ShowParams(spec, inv), inv.args, outcome, inv.returnsVoid,
                              duration, CleanStackTrace(callTrace), ExceptionTrace(outcome),
                              Interceptor.CleanStackTrace(callTrace), Interceptor.ExceptionTrace(outcome));
  }

  /** A custom pattern that mentions neither trace placeholder renders the
      same under the advice and under the interceptor, as long as both see the
      same result: after a normal return, or after a throw from a method whose
      return type is not primitive. */
  lemma CustomAgreesWithInterceptor(pattern: string, inv: Invocation, outcome: Outcome, callTrace: string)
    requires outcome.Threw? ==> inv.resultOnThrow.None?
    requires var log := SubstituteCommon(pattern, inv.methodName, inv.className, inv.args,
                                         ParamSteps(inv.args, inv.paramNames), AdviceResult(inv, outcome));
      !Contains(log, StacktraceKey) && !Contains(log, ExceptionKey)
    ensures FormatCustom(pattern, inv, outcome) == Interceptor.FormatCustom(pattern, inv, outcome, callTrace)
  {
  }

  /** The other place they part: after a throw from a method with a primitive
      return type, `{return}` is the type's zero under the advice and `null`
      under the interceptor. */
  lemma ReturnDiverges(inv: Invocation, failure: Failure, callTrace: string)
    requires PlainNames(inv.paramNames) && "return" !in inv.paramNames
    requires inv.resultOnThrow.Some? && '{' !in inv.resultOnThrow.value
    ensures FormatCustom(ReturnKey, inv, Threw(failure)) == inv.resultOnThrow.value
    ensures Interceptor.FormatCustom(ReturnKey, inv, Threw(failure), callTrace) == "null"
  {
    ReturnAfterThrow(inv, failure);
    Interceptor.ReturnAfterThrow(inv, failure, callTrace);
  }

  /** Where the two formatters part: the pattern `{stacktrace}` is logged as
      written by the advice, and as the cleaned trace by the interceptor. */
  lemma StacktraceDiverges(inv: Invocation, outcome: Outcome, callTrace: string)
    requires PlainNames(inv.paramNames) && "stacktrace" !in inv.paramNames
    ensures FormatCustom(StacktraceKey, inv, outcome) == StacktraceKey
    ensures Interceptor.FormatCustom(StacktraceKey, inv, outcome, callTrace)
         == Interceptor.CleanStackTrace(if outcome.Threw? then outcome.failure.trace else callTrace)
  {
    StacktracePatternKept(inv, outcome);
    Interceptor.StacktracePattern(inv, outcome, callTrace);
  }

  /** The advice's half of the difference. */
  lemma StacktracePatternKept(inv: Invocation, outcome: Outcome)
    requires PlainNames(inv.paramNames) && "stacktrace" !in inv.paramNames
    ensures FormatCustom(StacktraceKey, inv, outcome) == StacktraceKey
  {
    var steps := ParamSteps(inv.args, inv.paramNames);
    assert SubstituteCommon(StacktraceKey, inv.methodName, inv.className, inv.args, steps, AdviceResult(inv, outcome))
        == StacktraceKey by {
      BuiltinsArePlaceholders();
      ParamStepsArePlaceholders(inv.args, inv.paramNames, 0);
      ParamStepsAvoid(inv.args, inv.paramNames, 0, "stacktrace");
      CommonLeavesPlaceholder(StacktraceKey, inv.methodName, inv.className, inv.args, steps, AdviceResult(inv, outcome));
    }
    TraceStepLeavesStacktrace(outcome);
  }

  /** The advice's trace step never touches `{stacktrace}`. */
  lemma TraceStepLeavesStacktrace(outcome: Outcome)
    ensures TraceStep(StacktraceKey, outcome) == StacktraceKey
  {
    BuiltinKeysArePlaceholders();
    PlaceholderNotInOther(StacktraceKey, ExceptionKey);
  }

  /** After a throw with logException the default layout names the exception
      and carries its cleaned trace under `Exception Stack Trace:`. */
  lemma ExceptionShown(spec: Spec, inv: Invocation, failure: Failure, duration: int, callTrace: string, line: string)
    requires !UsesCustomLog(spec) && spec.logException
    requires line in SplitLines(failure.trace) && KeepFrame(line)
    ensures var msg := BuildLogMessage(spec, inv, Threw(failure), duration, callTrace);
      && Contains(msg, " | Threw Exception: " + failure.simpleName)
      && Contains(msg, "\nException Stack Trace:\n")
      && Contains(msg, line)
  {
    var r := DefaultSections(spec, inv, Threw(failure), duration, callTrace);
    var clean := CleanStackTrace(failure.trace);
    Layout.RenderedText(r, spec, inv.methodName, ShowParams(spec, inv), inv.args, Threw(failure), inv.returnsVoid,
                        duration, CleanStackTrace(callTrace), clean);
    Interceptor.StackSectionParts(Layout.Render(r), clean);
    CleanStackTraceKeepsFrames(failure.trace, line);
    ContainsTrans(Layout.Render(r), clean, line);
  }
}
