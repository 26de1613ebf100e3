/** The agent proper: the class-load watcher, the field-modification filter and
    the load sequence, around the two identifiers the callbacks share. */
module ThreadStartCatch {
  import opened Jvmti
  import opened Holders
  import opened StackTrace

  /** THREAD_TO_CATCH */
  const TargetName: string := "HighResTimer"
  /** the signature of java.lang.Thread */
  const ThreadClassSignature: string := "Ljava/lang/Thread;"
  /** the initial value of the two cached identifiers */
  const Unset: nat := 0
  const JniOk: int := 0
  const JniErr: int := -1

  // ---------------------------------------------------------------------------
  // ClassLoad

  /** The exact-match gate of ClassLoad. A failed signature lookup is no match. */
  predicate IsThreadClass(signature: Reply<string>)
  {
    signature == Done(ThreadClassSignature)
  }

  function StartMethod(jvm: Jvm, klass: ClassRef): MethodId
  {
    jvm.methodIdOf(klass, "start", "()V")
  }

  function NameField(jvm: Jvm, klass: ClassRef): FieldId
  {
    jvm.fieldIdOf(klass, "name", "Ljava/lang/String;")
  }

  /** Everything ClassLoad does that the host and the stream see. */
  function ClassLoadEvents(jvm: Jvm, klass: ClassRef): seq<Event>
  {
    var signature := jvm.classSignature(Resolved(klass));
    var field := NameField(jvm, klass);
    QueryEvents(HostCall.GetClassSignature(Resolved(klass)), signature)
    + if !IsThreadClass(signature) then []
      else [Call(GetMethodID(klass, "start", "()V")),
            Call(GetFieldID(klass, "name", "Ljava/lang/String;")),
            Call(SetFieldModificationWatch(klass, field))]
           + if jvm.watchStatus(klass, field) != Ok then [Out(WatchFailed)] else []
  }

  /** ClassLoad looks the two identifiers up and asks for the field watch,
      once, exactly when the loaded class is java.lang.Thread; for any other
      class its only host call is the signature lookup. */
  lemma ClassLoadWatchesOnlyThread(jvm: Jvm, klass: ClassRef)
    ensures Calls(ClassLoadEvents(jvm, klass))
            == [HostCall.GetClassSignature(Resolved(klass))]
               + if IsThreadClass(jvm.classSignature(Resolved(klass)))
                 then [GetMethodID(klass, "start", "()V"),
                       GetFieldID(klass, "name", "Ljava/lang/String;"),
                       SetFieldModificationWatch(klass, NameField(jvm, klass))]
                 else []
  {
    var signature := jvm.classSignature(Resolved(klass));
    var field := NameField(jvm, klass);
    var query := QueryEvents(HostCall.GetClassSignature(Resolved(klass)), signature);
    var rest := ClassLoadEvents(jvm, klass)[|query|..];
    assert ClassLoadEvents(jvm, klass) == query + rest;
    CallsAppend(query, rest);
    assert Calls(query) == [HostCall.GetClassSignature(Resolved(klass))] by {
      assert query == [query[0]] + query[1..];
      CallsAppend([query[0]], query[1..]);
    }
    if IsThreadClass(signature) {
      var lookups := [Call(GetMethodID(klass, "start", "()V")),
                      Call(GetFieldID(klass, "name", "Ljava/lang/String;")),
                      Call(SetFieldModificationWatch(klass, field))];
      var failed := if jvm.watchStatus(klass, field) != Ok then [Out(WatchFailed)] else [];
      assert rest == lookups + failed;
      CallsAppend(lookups, failed);
      assert lookups == [lookups[0]] + ([lookups[1]] + [lookups[2]]);
      CallsAppend([lookups[0]], [lookups[1]] + [lookups[2]]);
      CallsAppend([lookups[1]], [lookups[2]]);
    }
  }

  // ---------------------------------------------------------------------------
  // OnFieldModification

  /** The filter lets an event through to a capture exactly when it writes the
      watched field and the new value is the target name, character for
      character. */
  predicate Captures(jvm: Jvm, watched: FieldId, field: FieldId, value: ObjRef)
  {
    field == watched && jvm.utfChars(value) == TargetName
  }

  /** Everything OnFieldModification does that the host and the stream see. */
  function FieldModificationEvents(jvm: Jvm, watched: FieldId, field: FieldId, value: ObjRef, thread: ThreadRef)
    : seq<Event>
  {
    if field != watched then []
    else
      var name := jvm.utfChars(value);
      [Call(GetStringUTFChars(value))]
      + if name != TargetName then [Call(ReleaseStringUTFChars(value))]
        else [Out(AboutToStart(name)), Call(ReleaseStringUTFChars(value))] + CaptureEvents(jvm, thread)
  }

  /** The host calls a capture may make: queries about the thread, its stack,
      classes and methods. */
  predicate IsIntrospection(c: HostCall)
  {
    c.GetThreadInfo? || c.GetStackTrace? || c.GetMethodDeclaringClass? || c.GetClassSignature? || c.GetMethodName?
  }

  /** The frame loop only queries methods and classes: no thread or stack
      query, no string read or release, no watch. */
  lemma {:induction false} FramesOnlyIntrospect(jvm: Jvm, fs: seq<Frame>)
    ensures forall c :: c in Calls(FramesEvents(jvm, fs)) ==>
              c.GetMethodDeclaringClass? || c.GetClassSignature? || c.GetMethodName?
  {
    if fs != [] {
      var init, f := fs[..|fs| - 1], fs[|fs| - 1];
      FramesOnlyIntrospect(jvm, init);
      CallsAppend(FramesEvents(jvm, init), FrameEvents(jvm, f));
      FrameQueries(jvm, f);
    }
  }

  /** A capture only queries the host: it neither reads nor releases a string
      value, nor asks for a watch. */
  lemma CaptureOnlyIntrospects(jvm: Jvm, thread: ThreadRef)
    ensures forall c :: c in Calls(CaptureEvents(jvm, thread)) ==> IsIntrospection(c)
    ensures |Calls(CaptureEvents(jvm, thread))| > 0 && Calls(CaptureEvents(jvm, thread))[0] == GetThreadInfo(thread)
  {
    var info := jvm.threadName(thread);
    var head := [Call(GetThreadInfo(thread))]
                + (if info.Done? then [Out(Header(info.value))] else [])
                + [Call(HostCall.GetStackTrace(thread, StartDepth, MaxFrames))];
    var tail := match CapturedFrames(jvm, thread)
                case Refused(_) => [Out(StackTraceFailed)]
                case Done(frames) => FramesEvents(jvm, frames);
    assert CaptureEvents(jvm, thread) == head + tail;
    CallsAppend(head, tail);
    assert head == [head[0]] + head[1..];
    CallsAppend([head[0]], head[1..]);
    if info.Done? {
      assert head[1..] == [head[1]] + [head[2]];
      CallsAppend([head[1]], [head[2]]);
    }
    match CapturedFrames(jvm, thread)
    case Refused(_) =>
    case Done(frames) => FramesOnlyIntrospect(jvm, frames);
  }

  /** The calls of OnFieldModification: none for any field but the watched
      one; otherwise the string is read and released, in that order and once,
      and a capture follows the release exactly when the name matches. */
  lemma FilterCallSequence(jvm: Jvm, watched: FieldId, field: FieldId, value: ObjRef, thread: ThreadRef)
    ensures var cs := Calls(FieldModificationEvents(jvm, watched, field, value, thread));
            (field != watched ==> cs == [])
            && (field == watched ==>
                  |cs| >= 2 && cs[..2] == [GetStringUTFChars(value), ReleaseStringUTFChars(value)]
                  && cs[2..] == if Captures(jvm, watched, field, value) then Calls(CaptureEvents(jvm, thread)) else [])
  {
    if field == watched {
      var name := jvm.utfChars(value);
      var es := FieldModificationEvents(jvm, watched, field, value, thread);
      var read := [Call(GetStringUTFChars(value))];
      var release := [Call(ReleaseStringUTFChars(value))];
      if name != TargetName {
        assert es == read + release;
        CallsAppend(read, release);
      } else {
        var capture := CaptureEvents(jvm, thread);
        assert es == read + [Out(AboutToStart(name))] + release + capture;
        CallsAppend(read + [Out(AboutToStart(name))] + release, capture);
        CallsAppend(read + [Out(AboutToStart(name))], release);
        CallsAppend(read, [Out(AboutToStart(name))]);
      }
    }
  }

  /** The filter captures (its capture starts with the thread query) exactly
      when the event writes the watched field with the target name; the
      string it reads is released exactly as often as it is read, at most once. */
  lemma FilterCapturesExactlyOnMatch(jvm: Jvm, watched: FieldId, field: FieldId, value: ObjRef, thread: ThreadRef)
    ensures var cs := Calls(FieldModificationEvents(jvm, watched, field, value, thread));
            (GetThreadInfo(thread) in cs <==> Captures(jvm, watched, field, value))
            && multiset(cs)[GetStringUTFChars(value)] == multiset(cs)[ReleaseStringUTFChars(value)]
            && multiset(cs)[ReleaseStringUTFChars(value)] == (if field == watched then 1 else 0)
  {
    var cs := Calls(FieldModificationEvents(jvm, watched, field, value, thread));
    FilterCallSequence(jvm, watched, field, value, thread);
    if field == watched {
      var capture := Calls(CaptureEvents(jvm, thread));
      CaptureOnlyIntrospects(jvm, thread);
      ReadReleaseCapture(cs, value, thread, Captures(jvm, watched, field, value), capture);
    }
  }

  /** The counting behind FilterCapturesExactlyOnMatch, on the call sequence alone. */
  lemma ReadReleaseCapture(cs: seq<HostCall>, value: ObjRef, thread: ThreadRef, captured: bool, capture: seq<HostCall>)
    requires forall c :: c in capture ==> IsIntrospection(c)
    requires |capture| > 0 && capture[0] == GetThreadInfo(thread)
    requires |cs| >= 2 && cs[..2] == [GetStringUTFChars(value), ReleaseStringUTFChars(value)]
    requires cs[2..] == if captured then capture else []
    ensures GetThreadInfo(thread) in cs <==> captured
    ensures multiset(cs)[GetStringUTFChars(value)] == 1 && multiset(cs)[ReleaseStringUTFChars(value)] == 1
  {
    var read, release := GetStringUTFChars(value), ReleaseStringUTFChars(value);
    var rest := cs[2..];
    assert cs == [read, release] + rest;
    assert multiset(cs) == multiset{read, release} + multiset(rest);
    assert read !in rest && release !in rest;
    if captured {
      assert rest[0] == GetThreadInfo(thread);
    }
  }

  // ---------------------------------------------------------------------------
  // Agent_OnLoad

  /** The fallible steps of Agent_OnLoad, in the order it takes them. */
  const LoadSequence: seq<LoadStep> :=
    [GetEnv, AddCapabilities, SetEventCallbacks,
     EnableEvent(VmStart), EnableEvent(ClassLoadEvent), EnableEvent(FieldModificationEvent)]

  /** The number of steps that succeed before the first one that fails. */
  function FirstFailure(status: LoadStep -> Status, steps: seq<LoadStep>): (k: nat)
    ensures k <= |steps|
    ensures forall i :: 0 <= i < k ==> status(steps[i]) == Ok
    ensures k < |steps| ==> status(steps[k]) != Ok
  {
    if steps == [] || status(steps[0]) != Ok then 0 else 1 + FirstFailure(status, steps[1..])
  }

  /** The load sequence run over `steps`: each step is attempted, and the first
      failure is logged and ends the sequence; if none fails the agent reports
      that it is loaded. */
  function SetupEvents(status: LoadStep -> Status, steps: seq<LoadStep>): seq<Event>
  {
    if steps == [] then [Out(Loaded)]
    else [Call(Setup(steps[0]))]
         + if status(steps[0]) != Ok then [Out(StepFailed(steps[0]))] else SetupEvents(status, steps[1..])
  }

  /** SetupEvents from step `i` on, one step unfolded. */
  lemma SetupEventsFrom(status: LoadStep -> Status, steps: seq<LoadStep>, i: nat)
    requires i < |steps|
    ensures SetupEvents(status, steps[i..])
            == [Call(Setup(steps[i]))]
               + if status(steps[i]) != Ok then [Out(StepFailed(steps[i]))] else SetupEvents(status, steps[i + 1..])
  {
    assert steps[i..][0] == steps[i] && steps[i..][1..] == steps[i + 1..];
  }

  /** The load sequence attempts the steps in order up to and including the
      first failing one, and none after it. */
  lemma {:induction false} SetupStopsAtFirstFailure(status: LoadStep -> Status, steps: seq<LoadStep>)
    ensures var cs := Calls(SetupEvents(status, steps));
            var k := FirstFailure(status, steps);
            |cs| == Min(k + 1, |steps|)
            && forall i :: 0 <= i < |cs| ==> cs[i] == Setup(steps[i])
  {
    if steps != [] {
      var first := [Call(Setup(steps[0]))];
      if status(steps[0]) != Ok {
        CallsAppend(first, [Out(StepFailed(steps[0]))]);
      } else {
        SetupStopsAtFirstFailure(status, steps[1..]);
        CallsAppend(first, SetupEvents(status, steps[1..]));
      }
    }
  }

  /** The agent reports that it is loaded exactly when every step succeeded. */
  lemma {:induction false} SetupLoadedIffAllSucceed(status: LoadStep -> Status, steps: seq<LoadStep>)
    ensures Out(Loaded) in SetupEvents(status, steps) <==> FirstFailure(status, steps) == |steps|
  {
    if steps != [] && status(steps[0]) == Ok {
      SetupLoadedIffAllSucceed(status, steps[1..]);
    }
  }

  /** One step of Agent_OnLoad: the call, and the failure line if it fails. */
  method Attempt(host: Host, jvm: Jvm, step: LoadStep) returns (ok: bool)
    modifies host
    ensures host.buffers == old(host.buffers) && host.next == old(host.next)
    ensures ok == (jvm.setupStatus(step) == Ok)
    ensures host.events == old(host.events) + [Call(Setup(step))] + if ok then [] else [Out(StepFailed(step))]
  {
    host.Record(Setup(step));
    ok := jvm.setupStatus(step) == Ok;
    if !ok {
      host.Write(StepFailed(step));
    }
  }

  /** The setup calls of the first `k` steps. */
  function Attempted(steps: seq<LoadStep>, k: nat): (es: seq<Event>)
    requires k <= |steps|
    ensures |es| == k && forall j :: 0 <= j < k ==> es[j] == Call(Setup(steps[j]))
  {
    if k == 0 then [] else Attempted(steps, k - 1) + [Call(Setup(steps[k - 1]))]
  }

  /** Once the first `k` steps have succeeded, the sequence so far is their
      calls and what remains is the sequence over the other steps. */
  lemma {:induction false} SetupAfterSuccesses(status: LoadStep -> Status, steps: seq<LoadStep>, k: nat)
    requires k <= |steps|
    requires forall j :: 0 <= j < k ==> status(steps[j]) == Ok
    ensures SetupEvents(status, steps) == Attempted(steps, k) + SetupEvents(status, steps[k..])
  {
    if k == 0 {
      assert steps[0..] == steps;
    } else {
      SetupAfterSuccesses(status, steps, k - 1);
      SetupEventsFrom(status, steps, k - 1);
      calc {
        SetupEvents(status, steps);
        Attempted(steps, k - 1) + SetupEvents(status, steps[k - 1..]);
        Attempted(steps, k - 1) + ([Call(Setup(steps[k - 1]))] + SetupEvents(status, steps[k..]));
        (Attempted(steps, k - 1) + [Call(Setup(steps[k - 1]))]) + SetupEvents(status, steps[k..]);
      }
    }
  }

  /** One `if (... != JNI_OK)` block of Agent_OnLoad, for step `i`:
      on success the record holds the calls of the steps so far, on failure it
      holds the whole load sequence. */
  method LoadStepAt(host: Host, jvm: Jvm, i: nat, ghost start: seq<Event>) returns (ok: bool)
    requires i < |LoadSequence|
    requires forall j :: 0 <= j < i ==> jvm.setupStatus(LoadSequence[j]) == Ok
    requires host.events == start + Attempted(LoadSequence, i)
    modifies host
    ensures host.buffers == old(host.buffers) && host.next == old(host.next)
    ensures ok <==> jvm.setupStatus(LoadSequence[i]) == Ok
    ensures ok ==> host.events == start + Attempted(LoadSequence, i + 1)
    ensures !ok ==> host.events == start + SetupEvents(jvm.setupStatus, LoadSequence)
  {
    ok := Attempt(host, jvm, LoadSequence[i]);
    SetupAfterSuccesses(jvm.setupStatus, LoadSequence, i);
    SetupEventsFrom(jvm.setupStatus, LoadSequence, i);
  }

  // ---------------------------------------------------------------------------
  // The agent's state and callbacks

  /** The process-wide identifiers the two callbacks share. */
  class AgentState {
    /** thread_start */
    var threadStart: MethodId
    /** thread_name_field */
    var threadNameField: FieldId

    constructor ()
      ensures threadStart == Unset && threadNameField == Unset
    {
      threadStart, threadNameField := Unset, Unset;
    }

    /** ClassLoad: for java.lang.Thread, cache the identifiers of `start` and of
        `name` and ask the host to watch writes to `name`; for any other class,
        change nothing. The signature buffer is released on the way out. */
    method ClassLoad(host: Host, jvm: Jvm, klass: ClassRef)
      requires host.Valid()
      modifies this, host
      ensures host.Valid() && host.buffers == old(host.buffers)
      ensures host.events == old(host.events) + ClassLoadEvents(jvm, klass)
      ensures IsThreadClass(jvm.classSignature(Resolved(klass))) ==>
                threadStart == StartMethod(jvm, klass) && threadNameField == NameField(jvm, klass)
      ensures !IsThreadClass(jvm.classSignature(Resolved(klass))) ==>
                threadStart == old(threadStart) && threadNameField == old(threadNameField)
    {
      var name := StackTrace.GetClassSignature(host, jvm, Resolved(klass));
      if name.IsValid() && host.buffers[name.ptr] == ThreadClassSignature {
        host.Record(GetMethodID(klass, "start", "()V"));
        threadStart := jvm.methodIdOf(klass, "start", "()V");
        host.Record(GetFieldID(klass, "name", "Ljava/lang/String;"));
        threadNameField := jvm.fieldIdOf(klass, "name", "Ljava/lang/String;");
        host.Record(SetFieldModificationWatch(klass, threadNameField));
        if jvm.watchStatus(klass, threadNameField) != Ok {
          host.Write(WatchFailed);
        }
      }
      name.Destroy(host);
    }

    /** OnFieldModification: ignore every field but the cached one; read the new
        name, release it, and capture the writing thread's stack only when the
        name is the target. */
    method OnFieldModification(host: Host, jvm: Jvm, thread: ThreadRef, field: FieldId, newValue: ObjRef)
      requires host.Valid()
      modifies host
      ensures host.Valid()
      ensures host.events == old(host.events) + FieldModificationEvents(jvm, threadNameField, field, newValue, thread)
      ensures host.buffers == if Captures(jvm, threadNameField, field, newValue)
                              then AfterCapture(jvm, thread, old(host.buffers), old(host.next))
                              else old(host.buffers)
    {
      if field != threadNameField {
        return;
      }
      host.Record(GetStringUTFChars(newValue));
      var name := jvm.utfChars(newValue);
      if name != TargetName {
        host.Record(ReleaseStringUTFChars(newValue));
        return;
      }
      host.Write(AboutToStart(name));
      host.Record(ReleaseStringUTFChars(newValue));
      ghost var filtered := [Call(GetStringUTFChars(newValue)), Out(AboutToStart(name)), Call(ReleaseStringUTFChars(newValue))];
      assert host.events == old(host.events) + filtered;
      assert FieldModificationEvents(jvm, threadNameField, field, newValue, thread)
             == filtered + CaptureEvents(jvm, thread);
      PrintStackTrace(host, jvm, thread);
    }

    /** Agent_OnLoad: the six steps in order, returning JNI_ERR at the first
        failure without attempting the rest, and JNI_OK when all succeed. */
    method OnLoad(host: Host, jvm: Jvm) returns (r: int)
      modifies host
      ensures host.buffers == old(host.buffers) && host.next == old(host.next)
      ensures host.events == old(host.events) + SetupEvents(jvm.setupStatus, LoadSequence)
      ensures r == JniOk || r == JniErr
      ensures r == JniOk <==> forall i :: 0 <= i < |LoadSequence| ==> jvm.setupStatus(LoadSequence[i]) == Ok
    {
      ghost var start := host.events;
      var ok := LoadStepAt(host, jvm, 0, start);
      if !ok { return JniErr; }
      ok := LoadStepAt(host, jvm, 1, start);
      if !ok { return JniErr; }
      ok := LoadStepAt(host, jvm, 2, start);
      if !ok { return JniErr; }
      ok := LoadStepAt(host, jvm, 3, start);
      if !ok { return JniErr; }
      ok := LoadStepAt(host, jvm, 4, start);
      if !ok { return JniErr; }
      ok := LoadStepAt(host, jvm, 5, start);
      if !ok { return JniErr; }
      SetupAfterSuccesses(jvm.setupStatus, LoadSequence, |LoadSequence|);
      assert LoadSequence[|LoadSequence|..] == [];
      host.Write(Loaded);
      return JniOk;
    }
  }
}
