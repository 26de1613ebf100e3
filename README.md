# thread_start_catch, modelled in Dafny

`thread_start_catch` is a JVMTI agent. It finds out which code starts the
thread named `HighResTimer`:

- When `java.lang.Thread` is loaded, the agent asks the JVM to watch writes to
  the `name` field.
- Each time a thread's name is set to `HighResTimer`, it prints the writing
  thread's stack to the diagnostic stream.

Host buffers are owned by a small move-only guard, `Holder<T>`.

The model covers that guard, the two lookup helpers, the stack printer, the two
event callbacks and the load sequence.

- **The host** (`jvmti.dfy`). The JVM is not modelled. Its answers are a `Jvm`
  value of total functions: the signature of a class, the name of a method, the
  stack of a thread, the status of each set-up step, and so on. Every answer the
  JVM may give, success or any error code, is covered by quantifying over `Jvm`.
  A `Host` object holds the observable state:
  - the buffers the host has allocated and not yet released;
  - the ordered record of host calls and of lines written to the stream.

  `Host.Deallocate` only accepts a live buffer. A verified caller therefore
  never releases a buffer twice and never releases one the host did not hand out.
- **The guard** (`holder.dfy`). `Holder` is a class over one pointer field. Move
  construction hands the buffer over and empties the source. The buffer is then
  released exactly once when both holders are destroyed. The defaulted move
  assignment copies the pointer instead (see Findings).
- **The stack printer** (`stack_trace.dfy`). `getClassSignature`,
  `getMethodName` and `printStackTrace` are methods over the host, each proved
  against a function giving the events it produces. The printer's properties are
  lemmas about those functions:
  - the header appears exactly when the thread query succeeds;
  - without a stack no frame line is printed;
  - otherwise one `class#method` line is printed per frame of the window that
    starts two frames below the top, at most ten, in order.

  Two behaviours of the code are kept as written:
  - A frame whose declaring class cannot be resolved is logged as skipped but is
    not skipped. The uninitialised class local goes to the signature lookup (the
    `Indeterminate` class argument), and the frame's line is printed.
  - The thread name `GetThreadInfo` allocates is never released.
    `PrintStackTrace` states that this buffer stays live.
- **The agent** (`agent.dfy`). `AgentState` holds the two cached identifiers
  that the callbacks share.
  - `ClassLoad` caches them and requests the field watch only for the exact
    signature `Ljava/lang/Thread;`.
  - `OnFieldModification` ignores every other field. For the watched field it
    reads the new value and releases it on both paths. It captures the stack
    only when the value is exactly `HighResTimer`, and only after the release.
  - `OnLoad` runs the six fallible steps in order. It stops with `JNI_ERR` at the
    first failure and returns `JNI_OK` only when every step succeeded.

## Model

| member | source | states |
|---|---|---|
| Holders.Holder.IsValid | thread_start_catch.cpp:38-46 | `valid()` and `operator bool`: the holder owns a buffer exactly when its pointer is not null |
| Holders.Holder.Empty | thread_start_catch.cpp:15 | a default holder owns nothing and is not valid |
| Holders.Holder.Adopt | thread_start_catch.cpp:16-19 | the holder owns the given pointer and is valid exactly when it is not null |
| Holders.Holder.Move | thread_start_catch.cpp:24-29 | the new holder owns the source's former buffer, the source is empty, and no buffer is released |
| Holders.Holder.Deallocate | thread_start_catch.cpp:59-65 | the owned buffer goes back to the host when the holder is valid; an empty holder releases nothing |
| Holders.Holder.Destroy | thread_start_catch.cpp:33-36 | the destructor releases the owned buffer, and only when there is one |
| Holders.Holder.MoveAssign | thread_start_catch.cpp:31 | the defaulted move assignment copies the pointer and leaves the source owning it |
| Holders.Holder.MoveAssignCorrected | thread_start_catch.cpp:31 | the corrected move assignment releases the target's old buffer, moves the source's buffer, empties the source, and leaves self-assignment unchanged |
| Holders.MoveConstructionReleasesOnce | thread_start_catch.cpp:24-36 | a buffer moved by construction is released exactly once when both holders are destroyed |
| Holders.MoveChainReleasesOnce | thread_start_catch.cpp:24-36 | however many move constructions hand a buffer on, it is released exactly once when every holder in the chain is destroyed |
| Holders.MoveAssignmentReleasesTwice | thread_start_catch.cpp:31-36 | after the defaulted move assignment, both holders own one buffer; once the target is destroyed the source still holds a released buffer, and the target's old buffer is never released |
| Holders.MoveAssignmentReleasesOnce | thread_start_catch.cpp:31-36 | with the corrected move assignment, both buffers are released exactly once |
| Jvmti.Window | thread_start_catch.cpp:113 | the frames returned are at most the requested count and are the stack's frames from the start depth on, in order |
| Jvmti.StackTraceReply | thread_start_catch.cpp:113 | the stack query fails with the thread's own error when the stack cannot be read, fails with ILLEGAL_ARGUMENT (103) when a positive start depth is at or past the bottom of the stack, and otherwise succeeds with the window |
| Jvmti.Host.GetStackTrace | thread_start_catch.cpp:113 | the frame buffer's first `count` entries are the returned frames, and `count` is at most the requested maximum |
| Jvmti.Host.Deallocate | thread_start_catch.cpp:63 | releasing removes exactly that buffer, which must be live |
| StackTrace.GetClassSignature | thread_start_catch.cpp:74-84 | an owning holder of a newly allocated buffer with the signature when the host answers; an empty holder and one failure line when it refuses |
| StackTrace.GetMethodName | thread_start_catch.cpp:86-97 | an owning holder of the method's name when the host answers; an empty holder and the same failure line when it refuses |
| StackTrace.DeclaringClass | thread_start_catch.cpp:121-125 | on failure a skip line is logged and the class passed on is the uninitialised local |
| StackTrace.PrintFrame | thread_start_catch.cpp:121-128 | one pass of the frame loop makes the three queries, prints the frame's line and releases both of its buffers |
| StackTrace.PrintFrames | thread_start_catch.cpp:119-129 | the loop over the first `count` frames produces exactly the frames' events, in order, and leaves no buffer behind |
| StackTrace.PrintStackTrace | thread_start_catch.cpp:99-130 | the events are the header, the stack query and the frame lines (or the failure line); the only buffer left live is the thread name |
| StackTrace.FrameRendersOneLine | thread_start_catch.cpp:121-128 | whatever the host answers, a frame produces exactly one `class#method` line |
| StackTrace.FrameQueries | thread_start_catch.cpp:122-127 | a frame makes exactly the declaring-class, signature and method-name queries, in that order |
| StackTrace.FramesRenderInOrder | thread_start_catch.cpp:119-129 | the loop prints one line per frame, the i-th line being the i-th frame's |
| StackTrace.CaptureRendersWindow | thread_start_catch.cpp:107-129 | when the stack query succeeds, the frame lines are the stack's frames from depth 2, as many as exist up to 10, in order |
| StackTrace.CaptureWithoutStackPrintsNoFrames | thread_start_catch.cpp:113-117 | when the stack query fails, no frame line is printed |
| StackTrace.CaptureFrameLinesBounded | thread_start_catch.cpp:107-119 | at most MAX_FRAMES frame lines are ever printed |
| StackTrace.FramesPrintNoHeader | thread_start_catch.cpp:119-129 | the frame loop never prints a header |
| StackTrace.CaptureHeaderIffThreadInfo | thread_start_catch.cpp:101-105 | the header with a name is printed exactly when the thread query answers that name |
| StackTrace.FrameSkipDoesNotSkip | thread_start_catch.cpp:121-126 | a failed declaring-class lookup logs a skip, yet the uninitialised class is looked up and the frame's line is printed |
| ThreadStartCatch.IsThreadClass | thread_start_catch.cpp:144-146 | the class is java.lang.Thread exactly when the signature lookup answers `Ljava/lang/Thread;`, character for character; a refused lookup is no match |
| ThreadStartCatch.ClassLoadWatchesOnlyThread | thread_start_catch.cpp:144-154 | the identifier lookups and the watch request happen once, exactly when the signature is `Ljava/lang/Thread;`; otherwise the only call is the signature lookup |
| ThreadStartCatch.AgentState.constructor | thread_start_catch.cpp:132-133 | both cached identifiers start unset |
| ThreadStartCatch.AgentState.ClassLoad | thread_start_catch.cpp:138-155 | for java.lang.Thread the cached identifiers become those of `start` and `name`; for any other class they are unchanged; the signature buffer is released |
| ThreadStartCatch.FramesOnlyIntrospect | thread_start_catch.cpp:119-129 | every call of the frame loop is a declaring-class, class-signature or method-name query |
| ThreadStartCatch.CaptureOnlyIntrospects | thread_start_catch.cpp:99-130 | a capture starts with the thread query and makes no call other than introspection queries |
| ThreadStartCatch.Captures | thread_start_catch.cpp:169-178 | an event leads to a capture exactly when it writes the cached field and the new value is `HighResTimer`, character for character |
| ThreadStartCatch.FilterCallSequence | thread_start_catch.cpp:169-181 | no call for another field; otherwise read then release, followed by the capture exactly when the name matches |
| ThreadStartCatch.FilterCapturesExactlyOnMatch | thread_start_catch.cpp:169-181 | the capture happens if and only if the field is the watched one and the value is exactly `HighResTimer`; the string is released exactly as often as it is read, and only for the watched field |
| ThreadStartCatch.AgentState.OnFieldModification | thread_start_catch.cpp:158-182 | the events are the filter's; the buffers change only by the leaked thread name of a capture |
| ThreadStartCatch.FirstFailure | thread_start_catch.cpp:186-234 | every step before the returned index succeeds, and the step at the index fails |
| ThreadStartCatch.SetupStopsAtFirstFailure | thread_start_catch.cpp:186-234 | the steps are attempted in order up to and including the first failure, and none after it |
| ThreadStartCatch.SetupLoadedIffAllSucceed | thread_start_catch.cpp:186-237 | success is reported if and only if every step succeeded |
| ThreadStartCatch.SetupAfterSuccesses | thread_start_catch.cpp:186-234 | after k successful steps, the events so far are their calls, followed by the sequence over the remaining steps |
| ThreadStartCatch.Attempt | thread_start_catch.cpp:186-234 | one step is called, and its failure line is written exactly when it fails |
| ThreadStartCatch.LoadStepAt | thread_start_catch.cpp:186-234 | after step i, the events are the successful steps' calls, or, on failure, the whole load sequence |
| ThreadStartCatch.AgentState.OnLoad | thread_start_catch.cpp:184-238 | the events are the load sequence; the result is JNI_OK if and only if all six steps succeed, and JNI_ERR otherwise; no buffer is touched |

## Left out

- The JVM and JNI themselves. Their answers are parameters (the `Jvm` value).
  Each query therefore answers the same arguments the same way throughout a run.
- The text of the stream messages. Lines are records (`Line`), and the two
  lookup helpers share the record `SignatureFailed` because they print the same
  text.
- The contents of the capability set (thread_start_catch.cpp:192-204) and of
  the callback table (211-213). Only the status of those steps is modelled.
- `GetEnv` also stores the environment pointer in a global. That global is not
  modelled, because the host is the parameter throughout.
- Concurrency. The JVM may deliver the callbacks on several threads at once,
  racing on the two cached identifiers. The model is sequential.
- `Holder::ptr()`, `Holder::get()`, the deleted copy
  operations and the element type. They hold no logic beyond the pointer field.
  The unused `JNIStackInfo` alias is not modelled.
- The callback parameters the code does not read: the JVMTI and JNI
  environments, the method, the location, the field's class, the object and the
  signature type. The `jvalue` union and the cast to `jstring` become an object
  reference.
- A null result from `GetStringUTFChars`. The code compares it with `strcmp`
  without a check. The model's string read always returns a string.
- ThreadStartCatch.AgentState.ClassLoad: a refused signature lookup is treated
  as no match. The code builds a `std::string` from the null pointer, which is
  undefined behaviour in C++.
- The uninitialised class local of a frame whose declaring class cannot be
  resolved is one fixed value (`Indeterminate`). Every such frame therefore
  gets the same class text. In C++ the local may still hold the class of an
  earlier frame, or anything else.
- StackTrace.PrintFrame: a refused lookup hands the stream a null `char *`. The
  model renders it as an absent text (`None`), although in C++ this is
  undefined behaviour.

## Findings

| source | as written | input that shows it | evidently intended | confidence | as-written member | corrected member |
|---|---|---|---|---|---|---|
| thread_start_catch.cpp:31 | the defaulted move assignment copies the raw pointer and leaves the source owning it | a holder owning `q` is move-assigned from a holder owning `p`, then both are destroyed: `p` is released twice and `q` never | the target releases `q`, takes `p` and empties the source, so that each buffer is released once | high; not executed (the agent's own code never move-assigns a holder) | Holders.MoveAssignmentReleasesTwice | Holders.MoveAssignmentReleasesOnce |
