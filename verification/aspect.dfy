/**
 * The AspectJ front end, `LogCallAspect`: around every method annotated with
 * `@LogCall` it runs the call, then always builds the message (custom pattern
 * or default layout) and hands it to a log helper that writes it only when
 * the logger has the level enabled. Its parameter names may be missing, its
 * trace filter looks at the start of each trimmed line, and its custom traces
 * carry a `Method raised Exception:` header.
 */
module Aspect {
  import opened Wrappers
  import opened Text
  import opened Lines
  import opened LogCall
  import opened Runtime
  import opened Placeholders
  import Decimal
  import Layout
  import Interceptor

  /** What `logMethodCall` reads from the join point. */
  datatype JoinPoint = JoinPoint(
    methodName: string,               // method.getName()
    className: string,                // simple name of the declaring class
    paramNames: Option<seq<string>>,  // signature.getParameterNames(), null when not compiled in
    args: seq<Option<string>>,        // joinPoint.getArgs(), each as its toString (None for null)
    returnsVoid: bool)                // signature.getReturnType() == void.class

  const AspectClass: string := "net.gnius.logcall." + "LogCallAspect"
  const AspectFrameAt: string := "at " + AspectClass

  // ---------------------------------------------------------------------
  // cleanStackTrace

  /** The trace filter: drop a line whose trimmed text starts with the aspect
      class, with or without the `at ` of a printed frame. */
  predicate KeepFrame(line: string) {
    var t := Trim(line);
    !(AspectFrameAt <= t) && !(AspectClass <= t)
  }

  /** `cleanStackTrace`: the empty text stays empty; otherwise split, filter
      and join again. */
  function CleanStackTrace(full: string): string {
    if full == "" then "" else Clean(full, KeepFrame)
  }

  /** The guard for the empty text changes nothing: the split and join alone
      already map it to itself. */
  lemma CleanGuardRedundant(full: string)
    ensures CleanStackTrace(full) == Clean(full, KeepFrame)
  {
    CleanEmpty(KeepFrame);
  }

  /** A printed frame of the aspect is dropped however it is indented. */
  lemma IndentedFrameDropped(indent: string, rest: string)
    requires forall i :: 0 <= i < |indent| ==> indent[i] <= ' '
    ensures !KeepFrame(indent + AspectFrameAt + rest)
  {
    var line := AspectFrameAt + rest;
    assert indent + AspectFrameAt + rest == indent + line;
    assert AspectFrameAt == "at " + "net.gnius.logcall." + "LogCallAspect";
    assert line[0] == 'a' && AspectFrameAt[|AspectFrameAt| - 1] == 't';
    TrimStartSkips(indent, line);
    TrimEndKeepsPrefix(AspectFrameAt, line);
  }

  /** Every other line of the trace is still there. */
  lemma CleanStackTraceKeepsFrames(full: string, line: string)
    requires line in SplitLines(full) && KeepFrame(line)
    ensures Contains(CleanStackTrace(full), line)
  {
    CleanGuardRedundant(full);
    CleanKeeps(full, KeepFrame, line);
  }

  /** Read back line by line, the cleaned trace has no line the filter drops,
      provided the kept lines split back unchanged. */
  lemma CleanStackTraceDropsFrames(full: string)
    requires var kept := FilterLines(SplitLines(full), KeepFrame);
      && (forall i :: 0 <= i < |kept| - 1 ==> Inner(kept[i]))
      && (|kept| <= 1 || kept[|kept| - 1] != "")
    ensures forall line :: line in SplitLines(CleanStackTrace(full)) ==> KeepFrame(line)
  {
    CleanGuardRedundant(full);
    var kept := FilterLines(SplitLines(full), KeepFrame);
    if |kept| == 0 {
      assert Clean(full, KeepFrame) == "";
      EmptyLineKept();
    } else {
      CleanLines(full, KeepFrame);
    }
  }

  lemma EmptyLineKept()
    ensures SplitLines("") == [""] && KeepFrame("")
  {
    assert Trim("") == "";
  }

  /** Cleaning twice is cleaning once under the same proviso. */
  lemma CleanStackTraceIdempotent(full: string)
    requires var kept := FilterLines(SplitLines(full), KeepFrame);
      && (forall i :: 0 <= i < |kept| - 1 ==> Inner(kept[i]))
      && (|kept| <= 1 || kept[|kept| - 1] != "")
    ensures CleanStackTrace(CleanStackTrace(full)) == CleanStackTrace(full)
  {
    CleanGuardRedundant(full);
    CleanGuardRedundant(CleanStackTrace(full));
    CleanIdempotent(full, KeepFrame);
  }

  /** Without the proviso cleaning is not idempotent: a kept empty line that
      ends up last is dropped by the second split. */
  lemma CleanNotIdempotent()
    ensures var full := "a\n\n" + (AspectFrameAt + ".x()");
      && CleanStackTrace(full) == "a\n"
      && CleanStackTrace(CleanStackTrace(full)) == "a"
  {
    CleanOnce(AspectFrameAt + ".x()");
    CleanTwice();
  }

  lemma CleanOnce(frame: string)
    requires frame == AspectFrameAt + ".x()"
    ensures CleanStackTrace("a\n\n" + frame) == "a\n"
  {
    var full := "a\n\n" + frame;
    FrameLineFacts(frame);
    SplitThree(frame);
    EmptyLineKept();
    assert KeepFrame("a") by { assert Trim("a") == "a"; }
    FilterThree("a", "", frame);
    assert JoinLines(["a", ""]) == "a\n";
  }

  lemma SplitThree(frame: string)
    requires '\n' !in frame && frame != ""
    ensures SplitLines("a\n\n" + frame) == ["a", "", frame]
  {
    var full := "a\n\n" + frame;
    assert full == "a" + "\n" + ("" + "\n" + frame);
    RawSplitCons("a", "" + "\n" + frame);
    RawSplitCons("", frame);
    RawSplitNoSeparator(frame);
    assert RawSplit(full) == ["a", "", frame];
    assert '\n' in full by { assert full[1] == '\n'; }
  }

  lemma CleanTwice()
    ensures CleanStackTrace("a\n") == "a"
  {
    var once := "a\n";
    assert once == "a" + "\n" + "";
    RawSplitCons("a", "");
    RawSplitNoSeparator("");
    assert '\n' in once by { assert once[1] == '\n'; }
    assert SplitLines(once) == ["a"];
    assert KeepFrame("a") by { assert Trim("a") == "a"; }
    assert FilterLines(["a"], KeepFrame) == ["a"];
  }

  lemma FrameLineFacts(frame: string)
    requires frame == AspectFrameAt + ".x()"
    ensures '\n' !in frame && frame != "" && !KeepFrame(frame)
  {
    assert frame == "at " + "net.gnius" + ".logcall." + "LogCallAspect" + ".x()";
    assert '\n' !in "at " && '\n' !in "net.gnius" && '\n' !in ".logcall." && '\n' !in "LogCallAspect";
    IndentedFrameDropped("", ".x()");
    assert "" + AspectFrameAt + ".x()" == frame;
  }

  lemma FilterThree(a: string, b: string, c: string)
    requires KeepFrame(a) && KeepFrame(b) && !KeepFrame(c)
    ensures FilterLines([a, b, c], KeepFrame) == [a, b]
  {
    assert [a, b, c][1..] == [b, c] && [b, c][1..] == [c] && [c][1..] == [];
  }

  // ---------------------------------------------------------------------
  // The current thread's frames, for `{stacktrace}` without an exception

  /** The frames that are not null, in order. */
  function PresentFrames(frames: seq<Option<string>>): (r: seq<string>)
    ensures |r| <= |frames|
    ensures forall x :: x in r <==> Some(x) in frames
    ensures forall x :: multiset(r)[x] == multiset(frames)[Some(x)]
    decreases |frames|
  {
    if |frames| == 0 then []
    else
      var init := frames[..|frames| - 1];
      assert frames == init + [frames[|frames| - 1]];
      assert multiset(frames) == multiset(init) + multiset([frames[|frames| - 1]]);
      assert forall x :: Some(x) in frames <==> Some(x) in init || frames[|frames| - 1] == Some(x);
      PresentFrames(init) + (match frames[|frames| - 1] case Some(f) => [f] case None => [])
  }

  /** Each line followed by a line break. */
  function Terminated(lines: seq<string>): string
    decreases |lines|
  {
    if |lines| == 0 then "" else Terminated(lines[..|lines| - 1]) + lines[|lines| - 1] + "\n"
  }

  /** What the writer holds after the loop over `Thread.getStackTrace()`:
      every non-null frame from index 1 on, each on its own line. Index 0 is
      the `getStackTrace` call itself. */
  function FramesText(frames: seq<Option<string>>): string {
    if |frames| > 1 then Terminated(PresentFrames(frames[1..])) else ""
  }

  /** The loop of `formatCustomLog` that writes the frames. */
  method WriteFrames(frames: seq<Option<string>>) returns (text: string)
    ensures text == FramesText(frames)
  {
    text := "";
    if |frames| > 1 {
      var i := 1;
      while i < |frames|
        invariant 1 <= i <= |frames|
        invariant text == Terminated(PresentFrames(frames[1..i]))
      {
        WriteStep(frames, i, text);
        if frames[i].Some? {
          text := text + frames[i].value + "\n";
        }
        i := i + 1;
      }
      assert frames[1..i] == frames[1..];
    }
  }

  /** One iteration of that loop keeps the text in step with the frames seen. */
  lemma WriteStep(frames: seq<Option<string>>, i: nat, text: string)
    requires 1 <= i < |frames| && text == Terminated(PresentFrames(frames[1..i]))
    ensures (if frames[i].Some? then text + frames[i].value + "\n" else text)
         == Terminated(PresentFrames(frames[1..i + 1]))
  {
    PresentFramesStep(frames, i);
    if frames[i].Some? {
      TerminatedSnoc(PresentFrames(frames[1..i]), frames[i].value);
    }
  }

  /** One more frame adds itself when it is not null. */
  lemma PresentFramesStep(frames: seq<Option<string>>, i: nat)
    requires 1 <= i < |frames|
    ensures frames[i].Some? ==> PresentFrames(frames[1..i + 1]) == PresentFrames(frames[1..i]) + [frames[i].value]
    ensures frames[i].None? ==> PresentFrames(frames[1..i + 1]) == PresentFrames(frames[1..i])
  {
    assert frames[1..i + 1][..i - 1] == frames[1..i];
  }

  lemma TerminatedSnoc(lines: seq<string>, x: string)
    ensures Terminated(lines + [x]) == Terminated(lines) + x + "\n"
  {
    assert (lines + [x])[..|lines|] == lines;
  }

  /** A non-empty list of lines written with a break after each is their join
      followed by one break. */
  lemma {:induction false} TerminatedIsJoin(lines: seq<string>)
    requires |lines| > 0
    ensures Terminated(lines) == JoinLines(lines) + "\n"
    decreases |lines|
  {
    var init, last := lines[..|lines| - 1], lines[|lines| - 1];
    if |init| == 0 {
      assert lines == [last];
    } else {
      TerminatedIsJoin(init);
      assert init + [last] == lines;
      JoinSnoc(init, last, "\n");
    }
  }

  /** The written frames split back into the non-null frames after the first,
      when there is at least one, none holds a line break or ends in `\r`, and
      the last is not empty. */
  lemma FramesTextLines(frames: seq<Option<string>>)
    requires |frames| > 1
    requires var present := PresentFrames(frames[1..]);
      && |present| > 0
      && (forall i :: 0 <= i < |present| ==> Inner(present[i]))
      && present[|present| - 1] != ""
    ensures SplitLines(FramesText(frames)) == PresentFrames(frames[1..])
  {
    var present := PresentFrames(frames[1..]);
    TerminatedIsJoin(present);
    JoinSnoc(present, "", "\n");
    assert JoinLines(present) + "\n" == JoinLines(present + [""]);
    var extended := present + [""];
    assert forall i :: 0 <= i < |extended| - 1 ==> Inner(extended[i]) by {
      forall i | 0 <= i < |extended| - 1
        ensures Inner(extended[i])
      {
        assert extended[i] == present[i];
      }
    }
    RawSplitJoin(extended);
    JoinHasSeparator(extended);
    assert extended[..|extended| - 1] == present;
  }

  // ---------------------------------------------------------------------
  // formatCustomLog

  /** The parameter steps: none at all when the names are missing. */
  function ParamStepsOf(jp: JoinPoint): seq<Step> {
    match jp.paramNames
    case None => []
    case Some(names) => ParamSteps(jp.args, names)
  }

  /** The header of a thrown exception's trace: its message, null as `null`. */
  function RaisedHeader(failure: Failure): string {
    "Method raised Exception: " + Display(failure.message) + "\n"
  }

  /** The text `{stacktrace}` and `{exception}` take after a throw. */
  function RaisedTrace(failure: Failure): string {
    RaisedHeader(failure) + CleanStackTrace(failure.trace)
  }

  /** The last step of `formatCustomLog`: `{stacktrace}` takes the header and
      cleaned trace of the exception, or the cleaned current frames when
      nothing was thrown; only a pattern without `{stacktrace}` has
      `{exception}` replaced, and only after a throw. */
  function TraceStep(log: string, outcome: Outcome, frames: seq<Option<string>>): string {
    if Contains(log, StacktraceKey) then
      ReplaceAll(log, StacktraceKey,
                 if outcome.Threw? then RaisedTrace(outcome.failure) else CleanStackTrace(FramesText(frames)))
    else if Contains(log, ExceptionKey) && outcome.Threw? then
      ReplaceAll(log, ExceptionKey, RaisedTrace(outcome.failure))
    else log
  }

  /** `formatCustomLog`. */
  function FormatCustom(pattern: string, jp: JoinPoint, outcome: Outcome, frames: seq<Option<string>>): string {
    var log := SubstituteCommon(pattern, jp.methodName, jp.className, jp.args, ParamStepsOf(jp), ResultValue(outcome));
    TraceStep(log, outcome, frames)
  }

  // ---------------------------------------------------------------------
  // The default layout and logMethodCall

  /** The parameter guard: logParameters and a non-empty list of names. */
  predicate ShowParams(spec: Spec, jp: JoinPoint) {
    spec.logParameters && jp.paramNames.Some? && |jp.paramNames.value| > 0
  }

  function ExceptionTrace(outcome: Outcome): string {
    if outcome.Threw? then CleanStackTrace(outcome.failure.trace) else ""
  }

  function DefaultSections(spec: Spec, jp: JoinPoint, outcome: Outcome, duration: int,
                           callTrace: string): (r: seq<Layout.Section>)
    ensures Layout.Follows(r, spec, jp.methodName, ShowParams(spec, jp), jp.args, outcome,
                           jp.returnsVoid, duration, CleanStackTrace(callTrace), ExceptionTrace(outcome))
  {
    Layout.Build(spec, jp.methodName, ShowParams(spec, jp), jp.args, outcome, jp.returnsVoid,
                 duration, CleanStackTrace(callTrace), ExceptionTrace(outcome))
  }

  /** The message the `finally` block builds: the custom pattern when it is
      non-empty, the default layout otherwise. */
  function BuildLogMessage(spec: Spec, jp: JoinPoint, outcome: Outcome, duration: int,
                           callTrace: string, frames: seq<Option<string>>): string
  {
    if UsesCustomLog(spec) then FormatCustom(spec.customLog, jp, outcome, frames)
    else Layout.Render(DefaultSections(spec, jp, outcome, duration, callTrace))
  }

  /** `logMethodCall`: the caller sees the call's own outcome; the message is
      always built, and the log helper writes it once at the annotation's
      level exactly when the logger has that level enabled. */
  function LogMethodCall(spec: Spec, sink: Sink, jp: JoinPoint, outcome: Outcome, duration: int,
                         callTrace: string, frames: seq<Option<string>>): (o: Observed)
    ensures o.outcome == outcome
    ensures |o.writes| <= 1
    ensures |o.writes| == 1 <==> IsEnabled(sink, spec.level)
    ensures forall w :: w in o.writes ==>
              w == Write(spec.level, BuildLogMessage(spec, jp, outcome, duration, callTrace, frames))
  {
    var message := BuildLogMessage(spec, jp, outcome, duration, callTrace, frames);
    Observed(outcome, Emit(sink, spec.level, message))
  }

  // ---------------------------------------------------------------------
  // Properties of the messages

  /** A custom pattern in which none of the replaced texts occurs is logged
      verbatim, whatever braces it holds. */
  lemma UnmatchedPatternVerbatim(spec: Spec, jp: JoinPoint, outcome: Outcome, duration: int, callTrace: string,
                                 frames: seq<Option<string>>)
    requires UsesCustomLog(spec)
    requires NoTargetIn(spec.customLog, CommonPlan(jp.methodName, jp.className, jp.args,
                                                   ParamStepsOf(jp), ResultValue(outcome)))
    requires !Contains(spec.customLog, StacktraceKey)
    requires outcome.Threw? ==> !Contains(spec.customLog, ExceptionKey)
    ensures BuildLogMessage(spec, jp, outcome, duration, callTrace, frames) == spec.customLog
  {
    CommonFollowsPlan(spec.customLog, jp.methodName, jp.className, jp.args, ParamStepsOf(jp), ResultValue(outcome));
    StepsIdentity(spec.customLog, CommonPlan(jp.methodName, jp.className, jp.args, ParamStepsOf(jp), ResultValue(outcome)));
  }

  /** The pattern `{stacktrace}` after a throw is the exception's header and
      cleaned trace. */
  lemma StacktraceOnThrow(jp: JoinPoint, failure: Failure, frames: seq<Option<string>>)
    requires jp.paramNames.Some? ==> PlainNames(jp.paramNames.value) && "stacktrace" !in jp.paramNames.value
    ensures FormatCustom(StacktraceKey, jp, Threw(failure), frames) == RaisedTrace(failure)
  {
    BuiltinsArePlaceholders();
    TraceKeyReachesStep("stacktrace", jp, Threw(failure), frames);
    StacktraceStep(Threw(failure), frames);
  }

  /** The pattern `{stacktrace}` without a throw is the cleaned list of the
      current thread's frames. */
  lemma StacktraceOnReturn(jp: JoinPoint, value: Option<string>, frames: seq<Option<string>>)
    requires jp.paramNames.Some? ==> PlainNames(jp.paramNames.value) && "stacktrace" !in jp.paramNames.value
    ensures FormatCustom(StacktraceKey, jp, Returned(value), frames) == CleanStackTrace(FramesText(frames))
  {
    BuiltinsArePlaceholders();
    TraceKeyReachesStep("stacktrace", jp, Returned(value), frames);
    StacktraceStep(Returned(value), frames);
  }

  lemma StacktraceStep(outcome: Outcome, frames: seq<Option<string>>)
    ensures TraceStep(StacktraceKey, outcome, frames)
         == if outcome.Threw? then RaisedTrace(outcome.failure) else CleanStackTrace(FramesText(frames))
  {
    ContainsSelf(StacktraceKey);
    BuiltinsArePlaceholders();
    ReplaceWhole(StacktraceKey,
                 if outcome.Threw? then RaisedTrace(outcome.failure) else CleanStackTrace(FramesText(frames)));
  }

  /** The pattern `{exception}` after a throw is the exception's header and
      cleaned trace. */
  lemma ExceptionPattern(jp: JoinPoint, failure: Failure, frames: seq<Option<string>>)
    requires jp.paramNames.Some? ==> PlainNames(jp.paramNames.value) && "exception" !in jp.paramNames.value
    ensures FormatCustom(ExceptionKey, jp, Threw(failure), frames) == RaisedTrace(failure)
  {
    BuiltinsArePlaceholders();
    TraceKeyReachesStep("exception", jp, Threw(failure), frames);
    ExceptionStep(failure, frames);
  }

  lemma ExceptionStep(failure: Failure, frames: seq<Option<string>>)
    ensures TraceStep(ExceptionKey, Threw(failure), frames) == RaisedTrace(failure)
  {
    BuiltinsArePlaceholders();
    PlaceholderNotInOther(ExceptionKey, StacktraceKey);
    ContainsSelf(ExceptionKey);
    ReplaceWhole(ExceptionKey, RaisedTrace(failure));
  }

  /** A pattern that is just a trace placeholder is handed to the trace step
      as it is. */
  lemma TraceKeyReachesStep(b: string, jp: JoinPoint, outcome: Outcome, frames: seq<Option<string>>)
    requires b == "stacktrace" || b == "exception"
    requires jp.paramNames.Some? ==> PlainNames(jp.paramNames.value) && b !in jp.paramNames.value
    ensures FormatCustom(Placeholder(b), jp, outcome, frames) == TraceStep(Placeholder(b), outcome, frames)
  {
    ChainLeaves(b, jp, outcome);
  }

  /** A trace placeholder reaches the trace step intact when no parameter
      bears its name. */
  lemma ChainLeaves(b: string, jp: JoinPoint, outcome: Outcome)
    requires b == "stacktrace" || b == "exception"
    requires jp.paramNames.Some? ==> PlainNames(jp.paramNames.value) && b !in jp.paramNames.value
    ensures SubstituteCommon(Placeholder(b), jp.methodName, jp.className, jp.args, ParamStepsOf(jp), ResultValue(outcome))
         == Placeholder(b)
  {
    BuiltinsArePlaceholders();
    if jp.paramNames.Some? {
      ParamStepsArePlaceholders(jp.args, jp.paramNames.value, 0);
      ParamStepsAvoid(jp.args, jp.paramNames.value, 0, b);
    }
    CommonLeavesPlaceholder(Placeholder(b), jp.methodName, jp.className, jp.args, ParamStepsOf(jp), ResultValue(outcome));
  }

  /** `{exception}` stays in the message when nothing was thrown, and also
      when the pattern has `{stacktrace}`, which shadows it. */
  lemma ExceptionPlaceholderKept(pattern: string, jp: JoinPoint, outcome: Outcome, frames: seq<Option<string>>)
    requires jp.paramNames.Some? ==> PlainNames(jp.paramNames.value)
    requires jp.paramNames.Some? ==> "exception" !in jp.paramNames.value && "stacktrace" !in jp.paramNames.value
    requires Contains(pattern, ExceptionKey)
    requires outcome.Returned? || Contains(pattern, StacktraceKey)
    ensures Contains(FormatCustom(pattern, jp, outcome, frames), ExceptionKey)
  {
    BuiltinsArePlaceholders();
    var result := ResultValue(outcome);
    if jp.paramNames.Some? {
      CommonKeepsTraceKey(pattern, jp.methodName, jp.className, jp.args, jp.paramNames.value, result, "exception");
      if Contains(pattern, StacktraceKey) {
        CommonKeepsTraceKey(pattern, jp.methodName, jp.className, jp.args, jp.paramNames.value, result, "stacktrace");
      }
    } else {
      CommonKeeps(pattern, jp.methodName, jp.className, jp.args, [], result, ExceptionKey);
      if Contains(pattern, StacktraceKey) {
        CommonKeeps(pattern, jp.methodName, jp.className, jp.args, [], result, StacktraceKey);
      }
    }
    TraceStepKeepsException(SubstituteCommon(pattern, jp.methodName, jp.className, jp.args, ParamStepsOf(jp), result),
                            outcome, frames);
  }

  lemma TraceStepKeepsException(log: string, outcome: Outcome, frames: seq<Option<string>>)
    requires Contains(log, ExceptionKey)
    requires outcome.Returned? || Contains(log, StacktraceKey)
    ensures Contains(TraceStep(log, outcome, frames), ExceptionKey)
  {
    if Contains(log, StacktraceKey) {
      BuiltinsArePlaceholders();
      PlaceholderSurvives(log, StacktraceKey,
                          if outcome.Threw? then RaisedTrace(outcome.failure) else CleanStackTrace(FramesText(frames)),
                          ExceptionKey);
    }
  }

  /** Without parameter names even `{param[i]}` is left in place. */
  lemma PositionalNeedsNames(jp: JoinPoint, outcome: Outcome, frames: seq<Option<string>>, i: nat)
    requires jp.paramNames.None?
    ensures FormatCustom(IndexPlaceholder(i), jp, outcome, frames) == IndexPlaceholder(i)
  {
    CommonLeavesIndex(jp.methodName, jp.className, jp.args, ResultValue(outcome), i);
    IndexNotTraceKey(i);
  }

  /** With parameter names `{param[i]}` renders the i-th argument. */
  lemma PositionalWithNames(jp: JoinPoint, outcome: Outcome, frames: seq<Option<string>>, i: nat)
    requires jp.paramNames.Some? && PlainNames(jp.paramNames.value)
    requires i < |jp.args| && '{' !in Display(jp.args[i])
    ensures FormatCustom(IndexPlaceholder(i), jp, outcome, frames) == Display(jp.args[i])
  {
    CommonResolvesIndex(jp.methodName, jp.className, jp.args, jp.paramNames.value, ResultValue(outcome), i);
    NotContainsFirstChar(Display(jp.args[i]), StacktraceKey);
    NotContainsFirstChar(Display(jp.args[i]), ExceptionKey);
  }

  lemma IndexNotTraceKey(i: nat)
    ensures !Contains(IndexPlaceholder(i), StacktraceKey) && !Contains(IndexPlaceholder(i), ExceptionKey)
  {
    BuiltinsArePlaceholders();
    IndexIsPlaceholder(i);
    IndexIsNotNamed(i, "stacktrace");
    IndexIsNotNamed(i, "exception");
    PlaceholderNotInOther(IndexPlaceholder(i), StacktraceKey);
    PlaceholderNotInOther(IndexPlaceholder(i), ExceptionKey);
  }

  /** With every element of `@LogCall` at its default the message is the
      method name, the exception name after a throw, and the duration. */
  lemma DefaultSpecMessage(jp: JoinPoint, outcome: Outcome, duration: int, callTrace: string,
                           frames: seq<Option<string>>)
    ensures BuildLogMessage(DefaultSpec, jp, outcome, duration, callTrace, frames)
         == "Method '" + jp.methodName + "'"
            + (if outcome.Threw? then " | Threw Exception: " + outcome.failure.simpleName else "")
            + " | Duration: " + Decimal.IntToString(duration) + "ms"
  {
    var r := DefaultSections(DefaultSpec, jp, outcome, duration, callTrace);
    Layout.MinimalMessage(r, DefaultSpec, jp.methodName, jp.args, outcome, jp.returnsVoid, duration,
                          CleanStackTrace(callTrace), ExceptionTrace(outcome));
  }

  /** Without trace sections, and with the parameter names known, the aspect
      lays a call out exactly as the interceptor does. */
  lemma LayoutAgreesWithInterceptor(spec: Spec, jp: JoinPoint, outcome: Outcome, duration: int,
                                    callTrace: string, frames: seq<Option<string>>)
    requires !UsesCustomLog(spec) && !spec.logStackTrace && !(outcome.Threw? && spec.logException)
    requires jp.paramNames.Some?
    ensures var inv := Invocation(jp.methodName, jp.className, jp.paramNames.value, jp.args, jp.returnsVoid, None);
      BuildLogMessage(spec, jp, outcome, duration, callTrace, frames)
      == Interceptor.BuildLogMessage(spec, inv, outcome, duration, callTrace)
  {
    var inv := Invocation(jp.methodName, jp.className, jp.paramNames.value, jp.args, jp.returnsVoid, None);
    assert ShowParams(spec, jp) == Runtime.ShowParams(spec, inv);
    Layout.BuildIgnoresTraces(spec, jp.methodName, ShowParams(spec, jp), jp.args, outcome, jp.returnsVoid,
                              duration, CleanStackTrace(callTrace), ExceptionTrace(outcome),
                              Interceptor.CleanStackTrace(callTrace), Interceptor.ExceptionTrace(outcome));
  }

  /** Missing parameter names hide the parameter list even with logParameters. */
  lemma NoNamesNoParams(spec: Spec, jp: JoinPoint, outcome: Outcome, duration: int, callTrace: string,
                        frames: seq<Option<string>>)
    requires !UsesCustomLog(spec) && jp.paramNames.None?
    ensures Layout.ParamsPart(jp.args) !in DefaultSections(spec, jp, outcome, duration, callTrace)
  {
  }

  /** With logException a thrown exception is named and every kept line of
      its trace is shown under the exception heading. */
  lemma ExceptionShown(spec: Spec, jp: JoinPoint, failure: Failure, duration: int, callTrace: string, line: string)
    requires !UsesCustomLog(spec) && spec.logException
    requires line in SplitLines(failure.trace) && KeepFrame(line)
    ensures var msg := BuildLogMessage(spec, jp, Threw(failure), duration, callTrace, []);
      && Contains(msg, " | Threw Exception: " + failure.simpleName)
      && Contains(msg, "\nException Stack Trace:\n")
      && Contains(msg, line)
  {
    var r := DefaultSections(spec, jp, Threw(failure), duration, callTrace);
    var clean := CleanStackTrace(failure.trace);
    Layout.RenderedText(r, spec, jp.methodName, ShowParams(spec, jp), jp.args, Threw(failure), jp.returnsVoid,
                        duration, CleanStackTrace(callTrace), clean);
    Interceptor.StackSectionParts(Layout.Render(r), clean);
    CleanStackTraceKeepsFrames(failure.trace, line);
    ContainsTrans(Layout.Render(r), clean, line);
  }

  /** With logStackTrace every kept line of the call trace is shown under the
      call heading. */
  lemma CallTraceShown(spec: Spec, jp: JoinPoint, outcome: Outcome, duration: int, callTrace: string, line: string)
    requires !UsesCustomLog(spec) && spec.logStackTrace
    requires line in SplitLines(callTrace) && KeepFrame(line)
    ensures var msg := BuildLogMessage(spec, jp, outcome, duration, callTrace, []);
      && ("Method '" + jp.methodName + "'") <= msg
      && Contains(msg, "\nCall Stack Trace:\n")
      && Contains(msg, line)
  {
    var r := DefaultSections(spec, jp, outcome, duration, callTrace);
    var clean := CleanStackTrace(callTrace);
    Layout.RenderedText(r, spec, jp.methodName, ShowParams(spec, jp), jp.args, outcome, jp.returnsVoid,
                        duration, clean, ExceptionTrace(outcome));
    ContainsLeft(Layout.Render(r), "\nCall Stack Trace:\n", clean);
    ContainsRight(Layout.Render(r), "\nCall Stack Trace:\n", clean);
    CleanStackTraceKeepsFrames(callTrace, line);
    ContainsTrans(Layout.Render(r), clean, line);
  }
}
