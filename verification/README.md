# LogCall in Dafny

LogCall is a small Java library. It logs calls to methods annotated with
`@LogCall`. Each logged call produces one message, written at the
annotation's level when the logger of the declaring class has that level
enabled. The message is either a default layout (method name, optionally
parameters, the thrown exception's class or the return value, duration, and
optionally the call stack and the exception stack) or a custom pattern with
placeholders such as `{methodName}`, `{param[0]}`, `{p1}`, `{return}` and
`{stacktrace}`.

The library has three front ends that do the same job in slightly different
ways, and this project models all three:

- `LogCallInterceptor`, a ByteBuddy method delegation (module `Interceptor`);
- `LogCallAdvice`, a ByteBuddy advice woven into the method (module `Advice`);
- `net.gnius.logcall.LogCallAspect`, an AspectJ `@Around` advice (module `Aspect`).

Shared modules:

- `LogCall` is the annotation with its defaults.
- `Runtime` is the logger, described by the set of levels it has enabled, and the outcome of the intercepted call.
- `Layout` is the default message as a list of sections, with a declarative rule (`Follows`) saying which sections appear and in what order.
- `Placeholders` is the substitution chain the three `formatCustomLog` copies share.
- `Text`, `Lines` and `Decimal` model the JDK operations the code relies on: `String.replace`, `split("\r?\n")`, `Collectors.joining`, `Objects.toString(x, "null")`, `trim`, `startsWith`, and `long` printing.
- `ServiceExamples` replays the library's own test scenarios (`TestService` and `TestLogCall`) against the model.

Stack traces are taken as the text `printStackTrace` prints, so the JVM is an input. The clock is an input too: the duration is a parameter.

Where the annotation's documentation and its code disagree, the model follows the code:

- The default level is `WARN`, as declared. The doc comment says `TRACE`.
- Only Java `null` renders as `null`; an empty string renders as itself.
- `{stacktrace}` and `{exception}` are handled by an if/else-if. A pattern holding `{stacktrace}` therefore keeps its `{exception}` text, even after a throw.
- `LogCallAdvice` has no `{stacktrace}` step, and keeps that placeholder verbatim.
- After a throw, `LogCallAdvice` reads the result from `@Advice.Return`. That parameter holds the default value of the method's return type, so `{return}` is `0` or `false` for a primitive method and `null` only for reference and void ones. The interceptor and the aspect always log `null` there. The default's text is an input of the call (`Invocation.resultOnThrow`).

The substitution steps run one after another on the text built so far. A parameter value that itself looks like a placeholder is therefore rewritten by a later step (`ServiceExamples.ParameterTextRescanned`). This follows from the code as written.

## Model

| member | source | states |
|---|---|---|
| Runtime.Emit | src/main/java/com/github/pourquoipas/logcall/LogCallInterceptor.java:142-162 | `log` writes at most one message; it writes exactly when the logger has the level enabled, and the write carries that level and the given text |
| Interceptor.Intercept | src/main/java/com/github/pourquoipas/logcall/LogCallInterceptor.java:19-56 | the caller sees the call's own result or its rethrown exception; at most one message is written, exactly when the annotation's level is enabled, and it is the built message at that level |
| Advice.Exit | src/main/java/com/github/pourquoipas/logcall/LogCallAdvice.java:43-62 | no message for a method without the annotation; otherwise exactly one message when its level is enabled, the built message at that level; the call's outcome is untouched |
| Aspect.LogMethodCall | src/main/java/net/gnius/logcall/LogCallAspect.java:82-128 | the outcome is passed through; one message, the custom or default one, written exactly when the annotation's level is enabled |
| Interceptor.CleanStackTraceDropsFrames | src/main/java/com/github/pourquoipas/logcall/LogCallInterceptor.java:127-139 | the cleaned trace contains neither the interceptor's own frame nor any `net.bytebuddy` text |
| Interceptor.CleanStackTraceKeepsFrames | src/main/java/com/github/pourquoipas/logcall/LogCallInterceptor.java:133-138 | every line of the trace that passes the filter still appears in the cleaned trace |
| Interceptor.CleanStackTraceIdempotent | src/main/java/com/github/pourquoipas/logcall/LogCallInterceptor.java:127-139 | cleaning an already-cleaned trace changes nothing, when the kept lines split back into themselves |
| Interceptor.CleanStackTrace | src/main/java/com/github/pourquoipas/logcall/LogCallInterceptor.java:127-139 | characterised by the three lemmas above: it drops the interceptor's and ByteBuddy's frames, keeps every other line, and is idempotent; `Lines.CleanLines` gives its exact lines |
| Interceptor.FormatCustom | src/main/java/com/github/pourquoipas/logcall/LogCallInterceptor.java:95-125 | characterised by `Placeholders.CommonFollowsPlan` (the guarded chain is the plain list of replacements) and the rows below: `UnmatchedPatternVerbatim`, `ExceptionPlaceholderKept`, `ExceptionPattern`, `StacktracePattern`, `ReturnAfterThrow`, `MethodNameFirst`, `PositionalPlaceholder` |
| Interceptor.BuildLogMessage | src/main/java/com/github/pourquoipas/logcall/LogCallInterceptor.java:60-93 | characterised by `CustomIgnoresLayout` (a non-empty pattern decides alone), `DefaultSections` with `Layout.FollowsUnique` (otherwise the layout rule fixes the message), and the examples `DefaultSpecMessage`, `ParamsAndReturnShown`, `ExceptionShown`, `CallTraceShown` |
| Interceptor.DefaultSections | src/main/java/com/github/pourquoipas/logcall/LogCallInterceptor.java:66-92 | the default message is built from exactly the sections the layout rule selects, in layout order, with both traces cleaned |
| Interceptor.VerbatimPattern | src/main/java/com/github/pourquoipas/logcall/LogCallInterceptor.java:95-125 | a custom pattern without any `{` is logged verbatim |
| Interceptor.UnmatchedPatternVerbatim | src/main/java/com/github/pourquoipas/logcall/LogCallInterceptor.java:95-125 | any custom pattern, braces included (`{unknown}`, `Result {"ok": 1}`), is logged verbatim when it holds none of the texts the formatter replaces: no builtin, positional or by-name key, no `{stacktrace}`, and no `{exception}` after a throw |
| Interceptor.ExceptionPlaceholderKept | src/main/java/com/github/pourquoipas/logcall/LogCallInterceptor.java:118-123 | `{exception}` stays in the message when nothing was thrown, or when the pattern also holds `{stacktrace}` |
| Interceptor.ReturnAfterThrow | src/main/java/com/github/pourquoipas/logcall/LogCallInterceptor.java:114-116 | after a throw the result is null, so the pattern `{return}` becomes `null` |
| Interceptor.ExceptionPattern | src/main/java/com/github/pourquoipas/logcall/LogCallInterceptor.java:121-123 | the pattern `{exception}` after a throw becomes the cleaned trace of the exception |
| Interceptor.StacktracePattern | src/main/java/com/github/pourquoipas/logcall/LogCallInterceptor.java:118-120 | the pattern `{stacktrace}` becomes the cleaned trace of the exception after a throw, and of the current call otherwise |
| Interceptor.MethodNameFirst | src/main/java/com/github/pourquoipas/logcall/LogCallInterceptor.java:98 | `{methodName}` becomes the method's name whatever the parameters are called |
| Interceptor.PositionalPlaceholder | src/main/java/com/github/pourquoipas/logcall/LogCallInterceptor.java:105-112 | `{param[i]}` becomes the i-th argument's text, `null` for null |
| Interceptor.DefaultSpecMessage | src/main/java/com/github/pourquoipas/logcall/LogCall.java:30-75 | with every annotation element at its default, the message is exactly `Method 'm'`, the exception class if one was thrown, and the duration |
| Interceptor.VoidIgnoresLogReturn | src/main/java/com/github/pourquoipas/logcall/LogCallInterceptor.java:79-81 | for a void method the `logReturn` flag makes no difference to the message |
| Interceptor.CustomIgnoresLayout | src/main/java/com/github/pourquoipas/logcall/LogCallInterceptor.java:62-64 | a non-empty custom pattern decides the message alone: the layout flags and the duration make no difference |
| Interceptor.ParamsAndReturnShown | src/main/java/com/github/pourquoipas/logcall/LogCallInterceptor.java:67-81 | with parameters and return enabled, the message starts with the method part and contains the comma-joined arguments and the returned value |
| Interceptor.ExceptionShown | src/main/java/com/github/pourquoipas/logcall/LogCallInterceptor.java:77-91 | with `logException`, a thrown exception's class, the exception-stack header and every kept line of its trace appear in the message |
| Interceptor.CallTraceShown | src/main/java/com/github/pourquoipas/logcall/LogCallInterceptor.java:85-87 | with `logStackTrace`, the call-stack header and every kept line of the current trace appear in the message |
| Advice.CleanStackTraceDropsFrames | src/main/java/com/github/pourquoipas/logcall/LogCallAdvice.java:127-133 | the cleaned trace never mentions the advice class |
| Advice.CleanStackTraceKeepsFrames | src/main/java/com/github/pourquoipas/logcall/LogCallAdvice.java:130-132 | every line that passes the filter still appears in the cleaned trace |
| Advice.CleanStackTrace | src/main/java/com/github/pourquoipas/logcall/LogCallAdvice.java:127-133 | characterised by the two lemmas above: it drops every line naming the advice class and keeps every other line |
| Advice.FormatCustom | src/main/java/com/github/pourquoipas/logcall/LogCallAdvice.java:98-125 | characterised by `Placeholders.CommonFollowsPlan` and the rows below: `UnmatchedPatternVerbatim`, `StacktraceKept`, `ExceptionKeptWithoutThrow`, `ExceptionPattern`, `ReturnAfterThrow`, and its agreements and differences with `Interceptor.FormatCustom` |
| Advice.BuildLogMessage | src/main/java/com/github/pourquoipas/logcall/LogCallAdvice.java:66-96 | characterised by `DefaultSections` (without a custom pattern the layout rule fixes the message), `VerbatimPattern`, `UnmatchedPatternVerbatim`, `DefaultSpecMessage`, `LayoutAgreesWithInterceptor` and `ExceptionShown` |
| Advice.DefaultSections | src/main/java/com/github/pourquoipas/logcall/LogCallAdvice.java:71-95 | the default message follows the layout rule, with both traces cleaned by the advice's filter |
| Advice.VerbatimPattern | src/main/java/com/github/pourquoipas/logcall/LogCallAdvice.java:98-125 | a custom pattern without any `{` is logged verbatim |
| Advice.UnmatchedPatternVerbatim | src/main/java/com/github/pourquoipas/logcall/LogCallAdvice.java:98-125 | any custom pattern, braces included, is logged verbatim when it holds none of the replaced keys and, after a throw, no `{exception}`; `{stacktrace}` may stay |
| Advice.StacktraceKept | src/main/java/com/github/pourquoipas/logcall/LogCallAdvice.java:98-125 | `{stacktrace}` is never substituted by the advice and survives into the message |
| Advice.ExceptionKeptWithoutThrow | src/main/java/com/github/pourquoipas/logcall/LogCallAdvice.java:121-123 | when nothing was thrown, `{exception}` survives into the message |
| Advice.ExceptionPattern | src/main/java/com/github/pourquoipas/logcall/LogCallAdvice.java:121-123 | the pattern `{exception}` after a throw becomes the cleaned trace of the exception |
| Advice.ReturnAfterThrow | src/main/java/com/github/pourquoipas/logcall/LogCallAdvice.java:118-120 | after a throw `{return}` becomes the return type's default as `Objects.toString` renders it: `null` for a reference or void return type, the zero for a primitive one |
| Advice.ReturnDiverges | src/main/java/com/github/pourquoipas/logcall/LogCallAdvice.java:118-120 | after a throw from a primitive method, `{return}` is the type's zero under the advice and `null` under the interceptor |
| Advice.DefaultSpecMessage | src/main/java/com/github/pourquoipas/logcall/LogCallAdvice.java:66-96 | with the annotation's defaults the message is exactly method, exception class if thrown, and duration |
| Advice.LayoutAgreesWithInterceptor | src/main/java/com/github/pourquoipas/logcall/LogCallAdvice.java:71-95 | when no trace is asked for, the advice's default message equals the interceptor's |
| Advice.CustomAgreesWithInterceptor | src/main/java/com/github/pourquoipas/logcall/LogCallAdvice.java:98-125 | when the text after the shared steps holds no trace placeholder, and both front ends see the same result (a return, or a throw from a method whose return type is not primitive), the advice's custom message equals the interceptor's |
| Advice.StacktraceDiverges | src/main/java/com/github/pourquoipas/logcall/LogCallAdvice.java:118-124 | where the two part: the pattern `{stacktrace}` is logged as written by the advice, and as the cleaned exception or call trace by the interceptor |
| Advice.ExceptionShown | src/main/java/com/github/pourquoipas/logcall/LogCallAdvice.java:80-94 | with `logException`, the exception's class, the exception-stack header and every kept trace line appear |
| Aspect.CleanGuardRedundant | src/main/java/net/gnius/logcall/LogCallAspect.java:146-149 | the early return for an empty trace gives what split, filter and join give anyway |
| Aspect.IndentedFrameDropped | src/main/java/net/gnius/logcall/LogCallAspect.java:151-155 | a frame of the aspect is dropped however it is indented, because the filter trims the line first |
| Aspect.CleanStackTraceKeepsFrames | src/main/java/net/gnius/logcall/LogCallAspect.java:150-156 | every line that passes the filter still appears in the cleaned trace |
| Aspect.CleanStackTraceDropsFrames | src/main/java/net/gnius/logcall/LogCallAspect.java:146-157 | every line of the cleaned trace passes the filter, when the kept lines split back into themselves |
| Aspect.CleanStackTraceIdempotent | src/main/java/net/gnius/logcall/LogCallAspect.java:146-157 | cleaning twice equals cleaning once, under the same condition |
| Aspect.CleanNotIdempotent | src/main/java/net/gnius/logcall/LogCallAspect.java:146-157 | without that condition, cleaning is not idempotent: a blank line before a dropped last frame survives once, as a trailing newline, and is removed by a second pass |
| Aspect.PresentFrames | src/main/java/net/gnius/logcall/LogCallAspect.java:193-197 | the frames written are the non-null frames, each as many times as it occurs, so a frame repeated by recursion is written every time |
| Aspect.WriteFrames | src/main/java/net/gnius/logcall/LogCallAspect.java:191-199 | the frame loop writes every non-null frame after the first, each followed by a newline |
| Aspect.FramesTextLines | src/main/java/net/gnius/logcall/LogCallAspect.java:191-202 | the written frames text splits back into exactly the frames written |
| Aspect.CleanStackTrace | src/main/java/net/gnius/logcall/LogCallAspect.java:146-157 | characterised by the rows above: the empty-text guard is redundant, the aspect's frames are dropped however indented, other lines are kept, and cleaning is idempotent when the kept lines split back |
| Aspect.FormatCustom | src/main/java/net/gnius/logcall/LogCallAspect.java:159-213 | characterised by `Placeholders.CommonFollowsPlan` and the rows below: `UnmatchedPatternVerbatim`, `StacktraceOnThrow`, `StacktraceOnReturn`, `ExceptionPattern`, `ExceptionPlaceholderKept`, `PositionalNeedsNames`, `PositionalWithNames` |
| Aspect.BuildLogMessage | src/main/java/net/gnius/logcall/LogCallAspect.java:91-126 | characterised by `DefaultSections` (without a custom pattern the layout rule fixes the message), `UnmatchedPatternVerbatim`, `DefaultSpecMessage`, `LayoutAgreesWithInterceptor`, `NoNamesNoParams`, `ExceptionShown` and `CallTraceShown` |
| Aspect.DefaultSections | src/main/java/net/gnius/logcall/LogCallAspect.java:95-124 | the default message follows the layout rule; parameters are shown only when their names are known and non-empty |
| Aspect.UnmatchedPatternVerbatim | src/main/java/net/gnius/logcall/LogCallAspect.java:159-213 | any custom pattern, braces included, is logged verbatim when it holds none of the replaced keys, no `{stacktrace}`, and no `{exception}` after a throw |
| Aspect.StacktraceOnThrow | src/main/java/net/gnius/logcall/LogCallAspect.java:184-203 | after a throw, `{stacktrace}` becomes `Method raised Exception: <message>` and a newline, then the cleaned exception trace |
| Aspect.StacktraceOnReturn | src/main/java/net/gnius/logcall/LogCallAspect.java:190-203 | after a return, `{stacktrace}` becomes the cleaned text of the current frames |
| Aspect.ExceptionPattern | src/main/java/net/gnius/logcall/LogCallAspect.java:204-210 | the pattern `{exception}` after a throw becomes the message header and the cleaned exception trace |
| Aspect.ExceptionPlaceholderKept | src/main/java/net/gnius/logcall/LogCallAspect.java:184-210 | `{exception}` stays in the message when nothing was thrown, or when the pattern also holds `{stacktrace}` |
| Aspect.PositionalNeedsNames | src/main/java/net/gnius/logcall/LogCallAspect.java:171-178 | without parameter names the positional placeholders are left in the message untouched |
| Aspect.PositionalWithNames | src/main/java/net/gnius/logcall/LogCallAspect.java:171-178 | with parameter names `{param[i]}` becomes the i-th argument's text |
| Aspect.DefaultSpecMessage | src/main/java/net/gnius/logcall/LogCallAspect.java:95-126 | with the annotation's defaults the message is exactly method, exception class if thrown, and duration |
| Aspect.LayoutAgreesWithInterceptor | src/main/java/net/gnius/logcall/LogCallAspect.java:95-126 | when names are known and no trace is asked for, the aspect's default message equals the interceptor's |
| Aspect.NoNamesNoParams | src/main/java/net/gnius/logcall/LogCallAspect.java:98-104 | without parameter names the parameters section never appears |
| Aspect.ExceptionShown | src/main/java/net/gnius/logcall/LogCallAspect.java:106-124 | with `logException`, the exception class, the exception-stack header and every kept trace line appear |
| Aspect.CallTraceShown | src/main/java/net/gnius/logcall/LogCallAspect.java:114-118 | with `logStackTrace`, the call-stack header and every kept line of the current trace appear |
| Layout.Build | src/main/java/com/github/pourquoipas/logcall/LogCallInterceptor.java:66-92 | the sections appended satisfy the layout rule: method first, then params, threw or return, duration, call stack and exception stack, each exactly when its flag and the outcome call for it |
| Layout.FollowsUnique | src/main/java/com/github/pourquoipas/logcall/LogCallInterceptor.java:66-92 | the layout rule admits only one list of sections, so any layout that obeys it is the one built |
| Layout.BuildIgnoresTraces | src/main/java/com/github/pourquoipas/logcall/LogCallInterceptor.java:85-91 | a trace is computed into the message only when its flag (and, for the exception, a throw) asks for it |
| Layout.RenderedText | src/main/java/com/github/pourquoipas/logcall/LogCallInterceptor.java:66-92 | the rendered message begins with the method part and contains every selected section's text |
| Layout.MinimalMessage | src/main/java/com/github/pourquoipas/logcall/LogCallInterceptor.java:66-92 | with return and both traces off and no parameters, the message is exactly method, exception class if thrown, and duration |
| Placeholders.CommonFollowsPlan | src/main/java/com/github/pourquoipas/logcall/LogCallInterceptor.java:97-116 | the `contains` guards before `{params}` and `{return}` change nothing: the chain equals the plain list of replacements |
| Placeholders.StepsIdentity | src/main/java/com/github/pourquoipas/logcall/LogCallInterceptor.java:97-116 | a text in which no step finds its target passes any chain of replacements unchanged |
| Placeholders.CommonKeeps | src/main/java/com/github/pourquoipas/logcall/LogCallInterceptor.java:97-116 | a placeholder no step targets survives the shared steps |
| Placeholders.CommonLeavesText | src/main/java/com/github/pourquoipas/logcall/LogCallInterceptor.java:97-116 | a pattern without `{` passes the shared steps unchanged |
| Placeholders.CommonRendersReturn | src/main/java/com/github/pourquoipas/logcall/LogCallInterceptor.java:114-116 | `{return}`, when no parameter is named `return`, becomes the result's text |
| Placeholders.CommonResolvesIndex | src/main/java/com/github/pourquoipas/logcall/LogCallInterceptor.java:105-112 | `{param[i]}` becomes the i-th argument when that text holds no `{` |
| Placeholders.CommonLeavesIndex | src/main/java/net/gnius/logcall/LogCallAspect.java:171-178 | without the parameter loop, `{param[i]}` survives the shared steps |
| Placeholders.ParamStepsAvoid | src/main/java/com/github/pourquoipas/logcall/LogCallInterceptor.java:105-112 | the parameter loop targets no placeholder whose name is not a parameter name |
| Placeholders.PlaceholderSurvives | src/main/java/com/github/pourquoipas/logcall/LogCallInterceptor.java:98-99 | replacing one placeholder never destroys an occurrence of a different one |
| Placeholders.ReplaceTokens | src/main/java/com/github/pourquoipas/logcall/LogCallInterceptor.java:98 | on a pattern read as text and placeholder tokens, a replacement fills exactly the matching tokens |
| Placeholders.ApplyStepsTokens | src/main/java/com/github/pourquoipas/logcall/LogCallInterceptor.java:97-116 | a chain of brace-free replacements fills the pattern's tokens step by step |
| Text.ReplaceAll | src/main/java/com/github/pourquoipas/logcall/LogCallInterceptor.java:98 | a target that does not occur leaves the text unchanged; `ReplaceIsJoinOfPieces`, `PiecesRestore` and `PiecesAvoidTarget` below give its full reading as cut-and-glue |
| Text.ReplaceIsJoinOfPieces | src/main/java/com/github/pourquoipas/logcall/LogCallInterceptor.java:98 | `replace` cuts the text at every occurrence, left to right without overlap, and joins the pieces with the replacement |
| Text.PiecesRestore | src/main/java/com/github/pourquoipas/logcall/LogCallInterceptor.java:98 | joining the pieces with the target gives the original text back |
| Text.PiecesAvoidTarget | src/main/java/com/github/pourquoipas/logcall/LogCallInterceptor.java:98 | no piece contains the target |
| Text.JoinCommaPair | src/main/java/com/github/pourquoipas/logcall/LogCallInterceptor.java:71-73 | two arguments are rendered as `a, b` |
| Text.JoinCommaSnoc | src/main/java/com/github/pourquoipas/logcall/LogCallInterceptor.java:71-73 | one more argument adds `, ` and its text, which with `JoinCommaOne` fixes the rendering of every non-empty argument list |
| Text.JoinCommaOne | src/main/java/com/github/pourquoipas/logcall/LogCallInterceptor.java:71-73 | a single argument is rendered as its text, and a null one as `null` |
| Text.Trim | src/main/java/net/gnius/logcall/LogCallAspect.java:151-152 | characterised by `TrimOf`: any text made of blanks, a core, and blanks trims to that core |
| Text.TrimOf | src/main/java/net/gnius/logcall/LogCallAspect.java:151-152 | leading and trailing characters up to U+0020 are cut off, and a core that starts and ends with a non-blank is kept whole |
| Lines.SplitJoinRoundTrip | src/main/java/com/github/pourquoipas/logcall/LogCallInterceptor.java:133-138 | joining lines with `\n` and splitting on `\r?\n` gives the lines back when none has a break or a trailing `\r` and the last is not empty |
| Lines.JoinSplitRoundTrip | src/main/java/com/github/pourquoipas/logcall/LogCallInterceptor.java:133-138 | splitting a text and joining the lines with `\n` gives it back when it has no `\r` and does not end in a line break |
| Lines.SplitLinesHaveNoBreak | src/main/java/com/github/pourquoipas/logcall/LogCallInterceptor.java:133 | no line of a split holds a line break |
| Lines.SplitLines | src/main/java/com/github/pourquoipas/logcall/LogCallInterceptor.java:133 | characterised by the two round trips `SplitJoinRoundTrip` and `JoinSplitRoundTrip`, and by `SplitLinesHaveNoBreak` |
| Lines.FilterLines | src/main/java/com/github/pourquoipas/logcall/LogCallInterceptor.java:134-137 | only lines that pass are kept, every line that passes is kept, and nothing is kept more often than it occurs |
| Lines.FilterCounts | src/main/java/com/github/pourquoipas/logcall/LogCallInterceptor.java:134-137 | every line that passes is kept exactly as many times as it occurs, and a line that fails is not kept at all |
| Lines.FilterIdempotent | src/main/java/com/github/pourquoipas/logcall/LogCallInterceptor.java:134-137 | filtering twice equals filtering once |
| Lines.CleanKeeps | src/main/java/com/github/pourquoipas/logcall/LogCallInterceptor.java:133-138 | a kept line appears in the cleaned text |
| Lines.CleanAvoids | src/main/java/com/github/pourquoipas/logcall/LogCallInterceptor.java:133-138 | a marker that no kept line contains is absent from the cleaned text |
| Lines.CleanLines | src/main/java/com/github/pourquoipas/logcall/LogCallInterceptor.java:133-138 | the cleaned text splits back into exactly the kept lines, when they split back into themselves |
| Lines.CleanIdempotent | src/main/java/com/github/pourquoipas/logcall/LogCallInterceptor.java:133-138 | cleaning twice equals cleaning once, under the same condition |
| Decimal.ParseIntRoundTrip | src/main/java/com/github/pourquoipas/logcall/LogCallInterceptor.java:83 | the printed duration reads back as the same number |
| Decimal.NatToStringInjective | src/main/java/com/github/pourquoipas/logcall/LogCallInterceptor.java:107 | different indices give different `{param[i]}` texts |
| ServiceExamples.SimpleLogExample | src/test/java/com/github/pourquoipas/logcall/TestLogCall.java:211-224 | `simpleLog("Test", 123)` logs the method, `Params: [Test, 123]` and `Return: OK-Test` |
| ServiceExamples.ExceptionLogExample | src/test/java/com/github/pourquoipas/logcall/TestLogCall.java:227-244 | `exceptionLog("fail")` logs `Threw Exception: IllegalStateException`, the exception-stack header and the exception's first line |
| ServiceExamples.StackTraceLogExample | src/test/java/com/github/pourquoipas/logcall/TestLogCall.java:247-264 | `stackTraceLog()` logs the method, the call-stack header and the calling test's frame |
| ServiceExamples.CustomLogExample | src/test/java/com/github/pourquoipas/logcall/TestLogCall.java:267-279 | `customLog("ParameterValue")` logs exactly `Custom log for customLog with param ParameterValue and return CustomReturn` |
| ServiceExamples.AdviceCustomLogExample | src/test/java/com/github/pourquoipas/logcall/TestService.java:41-44 | the advice renders the same custom message for `customLog` |
| ServiceExamples.AspectCustomLogExample | src/test/java/com/github/pourquoipas/logcall/TestService.java:41-44 | the aspect, with the parameter names known, renders the same custom message |
| ServiceExamples.ParameterTextRescanned | src/main/java/com/github/pourquoipas/logcall/LogCallInterceptor.java:105-116 | an argument whose text is `{return}`, put in by `{p1}`, is rewritten by the later `{return}` step into the result |

## Left out

- The weaving front ends: `LogCallClassWeaver`, `LogCallAgent`, `LogCallFactory` and the `@Pointcut`/`@Around` wiring. The model starts at the intercepted call.
- Log4j and SLF4J internals. A logger is the set of levels it has enabled. The per-level `switch` of `log` and `isLoggerEnabled` becomes a set membership, because every level maps to its own method.
- The `default` branches of those switches are not modelled, because every `LogLevel` value has a case.
- The debug `System.out` prints of the interceptor are not modelled. They affect neither the message nor the outcome.
- The aspect's `ListAppender` probe is not modelled. Its result is unused. But it casts the Log4j logger to `org.apache.logging.log4j.core.Logger` before the wrapped method runs. When the Log4j API is not backed by log4j-core, that cast throws `ClassCastException`, and the method never runs. The model assumes log4j-core is present.
- The aspect's `isLoggerEnabled` is not modelled, because nothing calls it. Its `log` checks the level itself, which `Runtime.Emit` states.
- Interceptor.Intercept: an exception raised while the message is built replaces the call's outcome. It could come from an argument's or the result's `toString`, or from printing a trace. The model does not say so, because it takes those texts as given.
- Advice.Exit: an exception raised while the message is built replaces the call's outcome in the same way. It is not modelled, for the same reason.
- Aspect.LogMethodCall: an exception raised while the message is built replaces the call's outcome. The aspect builds the message even when the level is disabled. This is not modelled, for the same reason.
- JVM-provided texts are inputs: the `printStackTrace` output, `Thread.getStackTrace` frames, `getSimpleName`, `getName`, `getMessage` and each argument's `toString`.
- The Java return type is not modelled. The text of its default value (`0`, `false`, `0.0`, or none for reference and void types) is an input of the call (`Invocation.resultOnThrow`), which only the advice reads.
- The duration is an unbounded integer parameter. The clock and `long` overflow are not modelled.
- The interceptor dereferences the annotation without a null check. That `NullPointerException` is not modelled, and the interceptor is only reached for annotated methods.
- The aspect's `cleanStackTrace` receives `null` from no caller, so that branch is folded into the empty-text case.
- `net.gnius.logcall.LogCall` is not part of this model. The aspect is assumed to read the same annotation elements as `com.github.pourquoipas.logcall.LogCall`.
- Parameter names are assumed to contain no `{`, `}` or `[` (`PlainNames`), as Java identifiers do. Several lemmas require it.
- The interceptor's `getCleanStackTrace` takes a method name it never uses. The model drops that argument.
- Interceptor.CleanStackTraceIdempotent: it is stated only when the kept lines split back into themselves. See `Aspect.CleanNotIdempotent` for the kind of trace that breaks it.
- Aspect.CleanStackTraceIdempotent: it is stated under the same condition, because without it cleaning is not idempotent (`Aspect.CleanNotIdempotent`).
- Aspect.CleanStackTraceDropsFrames: it is stated under the same condition. The unconditional statement is not proved.
- Lines.CleanIdempotent: it is stated under the same condition, for the same reason.
