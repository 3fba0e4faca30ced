/**
 * The ByteBuddy method-delegation front end, `LogCallInterceptor`: when the
 * class logger has the annotation's level enabled, run the call, then build
 * the message (custom pattern or default layout) and write it at that level.
 */
module Interceptor {
  import opened Wrappers
  import opened Text
  import opened Lines
  import opened LogCall
  import opened Runtime
  import opened Placeholders
  import Decimal
  import Layout

  const InterceptFrame: string := "com.github.pourquoipas" + ".logcall." + "LogCallInterceptor" + ".intercept"
  const ByteBuddyFrame: string := "net.bytebuddy"

  /** The trace filter: drop the interceptor's own frame and ByteBuddy's. */
  predicate KeepFrame(line: string) {
    !Contains(line, InterceptFrame) && !Contains(line, ByteBuddyFrame)
  }

  /** `getCleanStackTrace` over the printed trace of a throwable. */
  function CleanStackTrace(trace: string): string {
    Clean(trace, KeepFrame)
  }

  /** The cleaned trace mentions neither the interceptor frame nor ByteBuddy. */
  lemma CleanStackTraceDropsFrames(trace: string)
    ensures !Contains(CleanStackTrace(trace), InterceptFrame)
    ensures !Contains(CleanStackTrace(trace), ByteBuddyFrame)
  {
    MarkersHaveNoBreak();
    CleanAvoids(trace, KeepFrame, InterceptFrame);
    CleanAvoids(trace, KeepFrame, ByteBuddyFrame);
  }

  lemma MarkersHaveNoBreak()
    ensures |InterceptFrame| > 0 && '\n' !in InterceptFrame
    ensures |ByteBuddyFrame| > 0 && '\n' !in ByteBuddyFrame
  {
    assert '\n' !in "com.github.pourquoipas" && '\n' !in ".logcall." && '\n' !in "LogCallInterceptor";
  }

  /** Every other line of the trace is still there. */
  lemma CleanStackTraceKeepsFrames(trace: string, line: string)
    requires line in SplitLines(trace) && KeepFrame(line)
    ensures Contains(CleanStackTrace(trace), line)
  {
    CleanKeeps(trace, KeepFrame, line);
  }

  /** Cleaning twice is cleaning once when the kept lines split back unchanged. */
  lemma CleanStackTraceIdempotent(trace: string)
    requires var kept := FilterLines(SplitLines(trace), KeepFrame);
      && (forall i :: 0 <= i < |kept| - 1 ==> Inner(kept[i]))
      && (|kept| <= 1 || kept[|kept| - 1] != "")
    ensures CleanStackTrace(CleanStackTrace(trace)) == CleanStackTrace(trace)
  {
    CleanIdempotent(trace, KeepFrame);
  }

  // ---------------------------------------------------------------------
  // formatCustomLog

  /** The last step of `formatCustomLog`: `{stacktrace}` takes the cleaned
      trace of the throwable, or of a fresh one at the call when nothing was
      thrown; only a pattern without `{stacktrace}` has `{exception}` replaced,
      and only by a thrown exception's trace. */
  function TraceStep(log: string, outcome: Outcome, callTrace: string): string {
    if Contains(log, StacktraceKey) then
      ReplaceAll(log, StacktraceKey, CleanStackTrace(if outcome.Threw? then outcome.failure.trace else callTrace))
    else if Contains(log, ExceptionKey) && outcome.Threw? then
      ReplaceAll(log, ExceptionKey, CleanStackTrace(outcome.failure.trace))
    else log
  }

  /** `formatCustomLog`: the shared chain with positional and by-name
      parameter steps, the result (null after a throw), then the trace step. */
  function FormatCustom(pattern: string, inv: Invocation, outcome: Outcome, callTrace: string): string {
    var log := SubstituteCommon(pattern, inv.methodName, inv.className, inv.args,
                                ParamSteps(inv.args, inv.paramNames), ResultValue(outcome));
    TraceStep(log, outcome, callTrace)
  }

  // ---------------------------------------------------------------------
  // buildLogMessage and intercept

  /** The cleaned trace of the thrown exception, used only after a throw. */
  function ExceptionTrace(outcome: Outcome): string {
    if outcome.Threw? then CleanStackTrace(outcome.failure.trace) else ""
  }

  /** The default layout of this call, with both traces cleaned. */
  function DefaultSections(spec: Spec, inv: Invocation, outcome: Outcome, duration: int,
                           callTrace: string): (r: seq<Layout.Section>)
    ensures Layout.Follows(r, spec, inv.methodName, ShowParams(spec, inv), inv.args, outcome,
                           inv.returnsVoid, duration, CleanStackTrace(callTrace), ExceptionTrace(outcome))
  {
    Layout.Build(spec, inv.methodName, ShowParams(spec, inv), inv.args, outcome, inv.returnsVoid,
                 duration, CleanStackTrace(callTrace), ExceptionTrace(outcome))
  }

  /** `buildLogMessage`: a non-empty custom pattern wins over the layout. */
  function BuildLogMessage(spec: Spec, inv: Invocation, outcome: Outcome, duration: int,
                           callTrace: string): string
  {
    if UsesCustomLog(spec) then FormatCustom(spec.customLog, inv, outcome, callTrace)
    else Layout.Render(DefaultSections(spec, inv, outcome, duration, callTrace))
  }

  /** `intercept`: the caller sees the wrapped call's own outcome; the log gets
      one write at the annotation's level, carrying the built message, exactly
      when the logger has that level enabled, and nothing otherwise. */
  function Intercept(spec: Spec, sink: Sink, inv: Invocation, outcome: Outcome, duration: int,
                     callTrace: string): (o: Observed)
    ensures o.outcome == outcome
    ensures |o.writes| <= 1
    ensures |o.writes| == 1 <==> IsEnabled(sink, spec.level)
    ensures forall w :: w in o.writes ==> w == Write(spec.level, BuildLogMessage(spec, inv, outcome, duration, callTrace))
  {
    if !IsEnabled(sink, spec.level) then Observed(outcome, [])
    else Observed(outcome, Emit(sink, spec.level, BuildLogMessage(spec, inv, outcome, duration, callTrace)))
  }

  // ---------------------------------------------------------------------
  // Properties of the messages

  /** A custom pattern in which none of the replaced texts occurs is logged
      verbatim, whatever braces it holds: no `replace` finds its target, and
      the trace step finds neither `{stacktrace}` nor, after a throw,
      `{exception}`. */
  lemma UnmatchedPatternVerbatim(spec: Spec, inv: Invocation, outcome: Outcome, duration: int, callTrace: string)
    requires UsesCustomLog(spec)
    requires NoTargetIn(spec.customLog, CommonPlan(inv.methodName, inv.className, inv.args,
                                                   ParamSteps(inv.args, inv.paramNames), ResultValue(outcome)))
    requires !Contains(spec.customLog, StacktraceKey)
    requires outcome.Threw? ==> !Contains(spec.customLog, ExceptionKey)
    ensures BuildLogMessage(spec, inv, outcome, duration, callTrace) == spec.customLog
  {
    var steps := ParamSteps(inv.args, inv.paramNames);
    CommonFollowsPlan(spec.customLog, inv.methodName, inv.className, inv.args, steps, ResultValue(outcome));
    StepsIdentity(spec.customLog, CommonPlan(inv.methodName, inv.className, inv.args, steps, ResultValue(outcome)));
  }

  /** A custom pattern without any `{` is logged verbatim. */
  lemma VerbatimPattern(spec: Spec, inv: Invocation, outcome: Outcome, duration: int, callTrace: string)
    requires UsesCustomLog(spec) && '{' !in spec.customLog && PlainNames(inv.paramNames)
    ensures BuildLogMessage(spec, inv, outcome, duration, callTrace) == spec.customLog
  {
    ParamStepsArePlaceholders(inv.args, inv.paramNames, 0);
    CommonLeavesText(spec.customLog, inv.methodName, inv.className, inv.args,
                     ParamSteps(inv.args, inv.paramNames), ResultValue(outcome));
    NotContainsFirstChar(spec.customLog, StacktraceKey);
    NotContainsFirstChar(spec.customLog, ExceptionKey);
  }

  /** `{exception}` stays in the message when nothing was thrown, and also
      when the pattern has `{stacktrace}`, which shadows it. */
  lemma ExceptionPlaceholderKept(pattern: string, inv: Invocation, outcome: Outcome, callTrace: string)
    requires PlainNames(inv.paramNames) && "exception" !in inv.paramNames && "stacktrace" !in inv.paramNames
    requires Contains(pattern, ExceptionKey)
    requires outcome.Returned? || Contains(pattern, StacktraceKey)
    ensures Contains(FormatCustom(pattern, inv, outcome, callTrace), ExceptionKey)
  {
    BuiltinsArePlaceholders();
    var result := ResultValue(outcome);
    CommonKeepsTraceKey(pattern, inv.methodName, inv.className, inv.args, inv.paramNames, result, "exception");
    if Contains(pattern, StacktraceKey) {
      CommonKeepsTraceKey(pattern, inv.methodName, inv.className, inv.args, inv.paramNames, result, "stacktrace");
    }
    TraceStepKeepsException(SubstituteCommon(pattern, inv.methodName, inv.className, inv.args,
                                             ParamSteps(inv.args, inv.paramNames), result), outcome, callTrace);
  }

  lemma TraceStepKeepsException(log: string, outcome: Outcome, callTrace: string)
    requires Contains(log, ExceptionKey)
    requires outcome.Returned? || Contains(log, StacktraceKey)
    ensures Contains(TraceStep(log, outcome, callTrace), ExceptionKey)
  {
    if Contains(log, StacktraceKey) {
      BuiltinsArePlaceholders();
      PlaceholderSurvives(log, StacktraceKey,
                          CleanStackTrace(if outcome.Threw? then outcome.failure.trace else callTrace), ExceptionKey);
    }
  }

  /** The pattern `{exception}` after a throw is the exception's cleaned trace. */
  lemma ExceptionPattern(inv: Invocation, failure: Failure, callTrace: string)
    requires PlainNames(inv.paramNames) && "exception" !in inv.paramNames
    ensures FormatCustom(ExceptionKey, inv, Threw(failure), callTrace) == CleanStackTrace(failure.trace)
  {
    BuiltinsArePlaceholders();
    ParamStepsAvoid(inv.args, inv.paramNames, 0, "exception");
    ChainLeaves(ExceptionKey, inv, Threw(failure), callTrace);
    TraceStepOnException(failure, callTrace);
  }

  /** After a throw the result is null, so the pattern `{return}` is `null`. */
  lemma ReturnAfterThrow(inv: Invocation, failure: Failure, callTrace: string)
    requires PlainNames(inv.paramNames) && "return" !in inv.paramNames
    ensures FormatCustom(ReturnKey, inv, Threw(failure), callTrace) == "null"
  {
    var steps := ParamSteps(inv.args, inv.paramNames);
    assert SubstituteCommon(ReturnKey, inv.methodName, inv.className, inv.args, steps, None) == "null" by {
      BuiltinsArePlaceholders();
      ParamStepsArePlaceholders(inv.args, inv.paramNames, 0);
      ParamStepsAvoid(inv.args, inv.paramNames, 0, "return");
      CommonRendersReturn(inv.methodName, inv.className, inv.args, steps, None);
    }
    TraceStepLeavesNull(Threw(failure), callTrace);
  }

  lemma TraceStepLeavesNull(outcome: Outcome, callTrace: string)
    ensures TraceStep("null", outcome, callTrace) == "null"
  {
    NotContainsFirstChar("null", ExceptionKey);
    NotContainsFirstChar("null", StacktraceKey);
  }

  /** A placeholder that is neither builtin nor a parameter's reaches the trace step intact. */
  lemma ChainLeaves(p: string, inv: Invocation, outcome: Outcome, callTrace: string)
    requires PlainNames(inv.paramNames) && IsPlaceholder(p) && Avoids(ParamSteps(inv.args, inv.paramNames), p)
    requires p != MethodNameKey && p != ClassNameKey && p != ParamsKey && p != ReturnKey
    ensures FormatCustom(p, inv, outcome, callTrace) == TraceStep(p, outcome, callTrace)
  {
    ParamStepsArePlaceholders(inv.args, inv.paramNames, 0);
    CommonLeavesPlaceholder(p, inv.methodName, inv.className, inv.args,
                            ParamSteps(inv.args, inv.paramNames), ResultValue(outcome));
  }

  lemma TraceStepOnException(failure: Failure, callTrace: string)
    ensures TraceStep(ExceptionKey, Threw(failure), callTrace) == CleanStackTrace(failure.trace)
  {
    BuiltinsArePlaceholders();
    PlaceholderNotInOther(ExceptionKey, StacktraceKey);
    ContainsSelf(ExceptionKey);
    ReplaceWhole(ExceptionKey, CleanStackTrace(failure.trace));
  }

  /** The pattern `{stacktrace}` is the cleaned trace of the exception, or of
      the call when nothing was thrown. */
  lemma StacktracePattern(inv: Invocation, outcome: Outcome, callTrace: string)
    requires PlainNames(inv.paramNames) && "stacktrace" !in inv.paramNames
    ensures FormatCustom(StacktraceKey, inv, outcome, callTrace)
         == CleanStackTrace(if outcome.Threw? then outcome.failure.trace else callTrace)
  {
    BuiltinsArePlaceholders();
    ParamStepsArePlaceholders(inv.args, inv.paramNames, 0);
    ParamStepsAvoid(inv.args, inv.paramNames, 0, "stacktrace");
    CommonLeavesPlaceholder(StacktraceKey, inv.methodName, inv.className, inv.args,
                            ParamSteps(inv.args, inv.paramNames), ResultValue(outcome));
    ContainsSelf(StacktraceKey);
    ReplaceAtFront(StacktraceKey, "", CleanStackTrace(if outcome.Threw? then outcome.failure.trace else callTrace));
    assert StacktraceKey + "" == StacktraceKey;
  }

  /** `{methodName}` renders the method name even when a parameter is named
      `methodName`, since it is replaced before the parameter loop. */
  lemma MethodNameFirst(inv: Invocation, outcome: Outcome, callTrace: string)
    requires PlainNames(inv.paramNames) && '{' !in inv.methodName
    ensures FormatCustom(MethodNameKey, inv, outcome, callTrace) == inv.methodName
  {
    ParamStepsArePlaceholders(inv.args, inv.paramNames, 0);
    CommonMethodNameFirst(inv.methodName, inv.className, inv.args,
                          ParamSteps(inv.args, inv.paramNames), ResultValue(outcome));
    NotContainsFirstChar(inv.methodName, StacktraceKey);
    NotContainsFirstChar(inv.methodName, ExceptionKey);
  }

  /** `{param[i]}` renders the i-th argument, null as `null`. */
  lemma PositionalPlaceholder(inv: Invocation, outcome: Outcome, callTrace: string, i: nat)
    requires i < |inv.args| && PlainNames(inv.paramNames) && '{' !in Display(inv.args[i])
    ensures FormatCustom(IndexPlaceholder(i), inv, outcome, callTrace) == Display(inv.args[i])
  {
    CommonResolvesIndex(inv.methodName, inv.className, inv.args, inv.paramNames, ResultValue(outcome), i);
    NotContainsFirstChar(Display(inv.args[i]), StacktraceKey);
    NotContainsFirstChar(Display(inv.args[i]), ExceptionKey);
  }

  /** With every element of `@LogCall` at its default the message is the
      method name, the exception name after a throw, and the duration. */
  lemma DefaultSpecMessage(inv: Invocation, outcome: Outcome, duration: int, callTrace: string)
    ensures BuildLogMessage(DefaultSpec, inv, outcome, duration, callTrace)
         == "Method '" + inv.methodName + "'"
            + (if outcome.Threw? then " | Threw Exception: " + outcome.failure.simpleName else "")
            + " | Duration: " + Decimal.IntToString(duration) + "ms"
  {
    var r := DefaultSections(DefaultSpec, inv, outcome, duration, callTrace);
    assert BuildLogMessage(DefaultSpec, inv, outcome, duration, callTrace) == Layout.Render(r);
    Layout.MinimalMessage(r, DefaultSpec, inv.methodName, inv.args, outcome, inv.returnsVoid, duration,
                          CleanStackTrace(callTrace), ExceptionTrace(outcome));
  }

  /** logReturn changes nothing for a void method. */
  lemma VoidIgnoresLogReturn(spec: Spec, inv: Invocation, outcome: Outcome, duration: int, callTrace: string)
    requires inv.returnsVoid
    ensures BuildLogMessage(spec.(logReturn := true), inv, outcome, duration, callTrace)
         == BuildLogMessage(spec.(logReturn := false), inv, outcome, duration, callTrace)
  {
    var on, off := spec.(logReturn := true), spec.(logReturn := false);
    var r := DefaultSections(on, inv, outcome, duration, callTrace);
    assert Layout.Follows(r, off, inv.methodName, ShowParams(off, inv), inv.args, outcome, inv.returnsVoid,
                          duration, CleanStackTrace(callTrace), ExceptionTrace(outcome));
    Layout.FollowsUnique(r, DefaultSections(off, inv, outcome, duration, callTrace), off, inv.methodName,
                         ShowParams(off, inv), inv.args, outcome, inv.returnsVoid, duration,
                         CleanStackTrace(callTrace), ExceptionTrace(outcome));
  }

  /** A custom pattern ignores the level, the layout flags and the duration. */
  lemma CustomIgnoresLayout(spec1: Spec, spec2: Spec, inv: Invocation, outcome: Outcome,
                            duration1: int, duration2: int, callTrace: string)
    requires UsesCustomLog(spec1) && spec2.customLog == spec1.customLog
    ensures BuildLogMessage(spec1, inv, outcome, duration1, callTrace)
         == BuildLogMessage(spec2, inv, outcome, duration2, callTrace)
  {
  }

  // ---------------------------------------------------------------------
  // The methods of the test service

  /** The default layout shows the parameter list and the return value when
      asked to, after the method name. */
  lemma ParamsAndReturnShown(spec: Spec, inv: Invocation, value: Option<string>, duration: int, callTrace: string)
    requires !UsesCustomLog(spec) && ShowParams(spec, inv) && spec.logReturn && !inv.returnsVoid
    ensures var msg := BuildLogMessage(spec, inv, Returned(value), duration, callTrace);
      && "Method '" + inv.methodName + "'" <= msg
      && Contains(msg, " | Params: [" + JoinComma(inv.args) + "]")
      && Contains(msg, " | Return: " + Display(value))
  {
    var r := DefaultSections(spec, inv, Returned(value), duration, callTrace);
    Layout.RenderedText(r, spec, inv.methodName, true, inv.args, Returned(value), false, duration,
                        CleanStackTrace(callTrace), ExceptionTrace(Returned(value)));
  }

  /** After a throw with logException the default layout names the exception
      and carries its cleaned trace under `Exception Stack Trace:`. */
  lemma ExceptionShown(spec: Spec, inv: Invocation, failure: Failure, duration: int, callTrace: string, line: string)
    requires !UsesCustomLog(spec) && spec.logException
    requires line in SplitLines(failure.trace) && KeepFrame(line)
    ensures var msg := BuildLogMessage(spec, inv, Threw(failure), duration, callTrace);
      && Contains(msg, " | Threw Exception: " + failure.simpleName)
      && Contains(msg, "\nException Stack Trace:\n")
      && Contains(msg, line)
  {
    var r := DefaultSections(spec, inv, Threw(failure), duration, callTrace);
    var clean := CleanStackTrace(failure.trace);
    Layout.RenderedText(r, spec, inv.methodName, ShowParams(spec, inv), inv.args, Threw(failure), inv.returnsVoid,
                        duration, CleanStackTrace(callTrace), clean);
    StackSectionParts(Layout.Render(r), clean);
    CleanStackTraceKeepsFrames(failure.trace, line);
    ContainsTrans(Layout.Render(r), clean, line);
  }

  lemma StackSectionParts(msg: string, clean: string)
    requires Contains(msg, "\nException Stack Trace:\n" + clean)
    ensures Contains(msg, "\nException Stack Trace:\n") && Contains(msg, clean)
  {
    ContainsLeft(msg, "\nException Stack Trace:\n", clean);
    ContainsRight(msg, "\nException Stack Trace:\n", clean);
  }

  /** With logStackTrace every kept line of the call trace is shown under the
      call heading. */
  lemma CallTraceShown(spec: Spec, inv: Invocation, outcome: Outcome, duration: int, callTrace: string, line: string)
    requires !UsesCustomLog(spec) && spec.logStackTrace
    requires line in SplitLines(callTrace) && KeepFrame(line)
    ensures var msg := BuildLogMessage(spec, inv, outcome, duration, callTrace);
      && ("Method '" + inv.methodName + "'") <= msg
      && Contains(msg, "\nCall Stack Trace:\n")
      && Contains(msg, line)
  {
    var r := DefaultSections(spec, inv, outcome, duration, callTrace);
    var clean := CleanStackTrace(callTrace);
    Layout.RenderedText(r, spec, inv.methodName, ShowParams(spec, inv), inv.args, outcome, inv.returnsVoid,
                        duration, clean, ExceptionTrace(outcome));
    ContainsLeft(Layout.Render(r), "\nCall Stack Trace:\n", clean);
    ContainsRight(Layout.Render(r), "\nCall Stack Trace:\n", clean);
    CleanStackTraceKeepsFrames(callTrace, line);
    ContainsTrans(Layout.Render(r), clean, line);
  }
}
