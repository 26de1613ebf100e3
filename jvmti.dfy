/** An abstract model of the host the agent runs in: the parts of the JVM Tool
    Interface (JVMTI) and of JNI that the agent calls.

    The JVM's answers to queries are not computed here; a `Jvm` value holds them
    as total functions, so every answer the host may give (success or any error
    status) is covered by quantifying over `Jvm`. The `Host` object carries the
    state the agent can change or observe: the buffers the host has allocated and
    not yet released, and the ordered record of host calls and of lines written
    to the diagnostic stream. */
module Jvmti {

  datatype Option<T> = None | Some(value: T)

  /** Identity of one host allocation. `Null` is the null pointer. Identities
      name allocations, not addresses: they are never reused. */
  type Ptr = nat
  const Null: Ptr := 0

  type ClassRef = nat
  type MethodId = nat
  type FieldId = nat
  type ThreadRef = nat
  type ObjRef = nat

  /** JVMTI_ERROR_ILLEGAL_ARGUMENT */
  const IllegalArgument: int := 103

  /** The status a host call returns: JNI_OK (JVMTI_ERROR_NONE), or an error code. */
  datatype Status = Ok | Error(code: int)

  /** What the host answers to one query: a value, or an error code. */
  datatype Reply<T> = Done(value: T) | Refused(code: int)

  function StatusOf<T>(r: Reply<T>): Status
  {
    match r
    case Done(_) => Ok
    case Refused(c) => Error(c)
  }

  /** The class handed to a class query. `Indeterminate` is an uninitialised
      `jclass` local: whatever the stack slot holds. */
  datatype ClassArg = Resolved(cls: ClassRef) | Indeterminate

  /** jvmtiFrameInfo: the method running in a frame and the location in it. */
  datatype Frame = Frame(mid: MethodId, location: int)

  datatype EventKind = VmStart | ClassLoadEvent | FieldModificationEvent

  /** The fallible steps of agent start-up. */
  datatype LoadStep = GetEnv | AddCapabilities | SetEventCallbacks | EnableEvent(kind: EventKind)

  datatype HostCall =
    | Setup(step: LoadStep)
    | GetClassSignature(arg: ClassArg)
    | GetMethodName(mid: MethodId)
    | GetMethodDeclaringClass(mid: MethodId)
    | GetThreadInfo(thread: ThreadRef)
    | GetStackTrace(thread: ThreadRef, startDepth: nat, maxCount: nat)
    | GetMethodID(cls: ClassRef, name: string, sig: string)
    | GetFieldID(cls: ClassRef, name: string, sig: string)
    | SetFieldModificationWatch(cls: ClassRef, field: FieldId)
    | GetStringUTFChars(str: ObjRef)
    | ReleaseStringUTFChars(str: ObjRef)

  /** The lines the agent writes to the diagnostic stream, as records. A text
      that is `None` stands for a null `char *` handed to the stream. */
  datatype Line =
    | SignatureFailed
    | Header(threadName: string)
    | StackTraceFailed
    | FrameSkip
    | FrameLine(className: Option<string>, methodName: Option<string>)
    | WatchFailed
    | AboutToStart(threadName: string)
    | StepFailed(step: LoadStep)
    | Loaded

  datatype Event = Call(call: HostCall) | Out(line: Line)

  /** The answers of the JVM during one run. */
  datatype Jvm = Jvm(
    classSignature: ClassArg -> Reply<string>,
    methodName: MethodId -> Reply<string>,
    declaringClass: MethodId -> Reply<ClassRef>,
    threadName: ThreadRef -> Reply<string>,
    /** the whole stack of a thread, innermost frame first */
    stack: ThreadRef -> Reply<seq<Frame>>,
    methodIdOf: (ClassRef, string, string) -> MethodId,
    fieldIdOf: (ClassRef, string, string) -> FieldId,
    watchStatus: (ClassRef, FieldId) -> Status,
    utfChars: ObjRef -> string,
    setupStatus: LoadStep -> Status)

  function Min(a: nat, b: nat): nat { if a <= b then a else b }

  /** The frames GetStackTrace hands back: at most `maxCount` frames, the first
      being the one `startDepth` frames below the top. */
  function Window(stack: seq<Frame>, startDepth: nat, maxCount: nat): (w: seq<Frame>)
    requires startDepth <= |stack|
    ensures |w| <= maxCount && |w| <= |stack| - startDepth
    ensures |w| == maxCount || |w| == |stack| - startDepth
    ensures forall i :: 0 <= i < |w| ==> w[i] == stack[startDepth + i]
  {
    stack[startDepth..startDepth + Min(maxCount, |stack| - startDepth)]
  }

  /** GetStackTrace's answer for a thread whose stack query answers `stack`: the
      host refuses a positive start depth that reaches past the bottom frame. */
  function StackTraceReply(stack: Reply<seq<Frame>>, startDepth: nat, maxCount: nat): (r: Reply<seq<Frame>>)
    ensures stack.Refused? ==> r == stack
    ensures r.Done? ==> stack.Done? && startDepth <= |stack.value|
    ensures r.Done? ==> r.value == Window(stack.value, startDepth, maxCount)
    ensures stack.Done? && (startDepth == 0 || startDepth < |stack.value|)
            ==> r == Done(Window(stack.value, startDepth, maxCount))
    ensures stack.Done? && 0 < startDepth && |stack.value| <= startDepth ==> r == Refused(IllegalArgument)
  {
    match stack
    case Refused(c) => Refused(c)
    case Done(s) =>
      if 0 < startDepth && |s| <= startDepth then Refused(IllegalArgument)
      else Done(Window(s, startDepth, maxCount))
  }

  /** The host calls in an event record, in order. */
  function Calls(es: seq<Event>): seq<HostCall>
  {
    if es == [] then [] else CallOf(es[0]) + Calls(es[1..])
  }

  function CallOf(e: Event): seq<HostCall>
  {
    if e.Call? then [e.call] else []
  }

  lemma {:induction false} CallsAppend(a: seq<Event>, b: seq<Event>)
    ensures Calls(a + b) == Calls(a) + Calls(b)
  {
    if a == [] {
      assert a + b == b;
    } else {
      var ab := a + b;
      assert ab[0] == a[0] && ab[1..] == a[1..] + b;
      CallsAppend(a[1..], b);
      calc {
        Calls(ab);
        CallOf(ab[0]) + Calls(ab[1..]);
        CallOf(a[0]) + (Calls(a[1..]) + Calls(b));
        (CallOf(a[0]) + Calls(a[1..])) + Calls(b);
      }
    }
  }

  class Host {
    /** the buffers the host has allocated and not yet released, with their text */
    var buffers: map<Ptr, string>
    /** the identity the next allocation receives */
    var next: Ptr
    /** the host calls the agent made and the lines it wrote, in order */
    var events: seq<Event>

    ghost predicate Valid()
      reads this
    {
      Null < next && forall p :: p in buffers ==> Null < p < next
    }

    constructor ()
      ensures Valid() && buffers == map[] && events == []
    {
      buffers, next, events := map[], 1, [];
    }

    /** A call whose only effect the agent sees is its answer. */
    method Record(call: HostCall)
      modifies this
      ensures buffers == old(buffers) && next == old(next)
      ensures events == old(events) + [Call(call)]
    {
      events := events + [Call(call)];
    }

    /** A line written to the diagnostic stream. */
    method Write(line: Line)
      modifies this
      ensures buffers == old(buffers) && next == old(next)
      ensures events == old(events) + [Out(line)]
    {
      events := events + [Out(line)];
    }

    /** A JVMTI call that hands back a newly allocated string, which the caller
        must release with Deallocate: on success `p` is a fresh buffer. */
    method StringQuery(call: HostCall, reply: Reply<string>) returns (st: Status, p: Ptr)
      requires Valid()
      modifies this
      ensures Valid() && st == StatusOf(reply)
      ensures events == old(events) + [Call(call)]
      ensures reply.Done? ==> p == old(next) && p !in old(buffers) && next == old(next) + 1
                              && buffers == old(buffers)[p := reply.value]
      ensures reply.Refused? ==> p == Null && next == old(next) && buffers == old(buffers)
    {
      events := events + [Call(call)];
      st := StatusOf(reply);
      p := Null;
      if reply.Done? {
        p := next;
        buffers := buffers[p := reply.value];
        next := next + 1;
      }
    }

    /** Deallocate: releasing anything but a live buffer is an error of the caller. */
    method Deallocate(p: Ptr)
      requires Valid() && p in buffers
      modifies this
      ensures Valid() && buffers == old(buffers) - {p}
      ensures next == old(next) && events == old(events)
    {
      buffers := buffers - {p};
    }

    /** GetStackTrace: fills `frames` with the window of the thread's stack and
        reports how many it wrote. */
    method GetStackTrace(jvm: Jvm, thread: ThreadRef, startDepth: nat, maxCount: nat, frames: array<Frame>)
      returns (st: Status, count: nat)
      requires maxCount <= frames.Length
      modifies this, frames
      ensures buffers == old(buffers) && next == old(next)
      ensures events == old(events) + [Call(HostCall.GetStackTrace(thread, startDepth, maxCount))]
      ensures st == StatusOf(StackTraceReply(jvm.stack(thread), startDepth, maxCount))
      ensures st == Ok ==> count <= maxCount
                           && frames[..count] == StackTraceReply(jvm.stack(thread), startDepth, maxCount).value
    {
      events := events + [Call(HostCall.GetStackTrace(thread, startDepth, maxCount))];
      var r := StackTraceReply(jvm.stack(thread), startDepth, maxCount);
      st := StatusOf(r);
      count := 0;
      if r.Done? {
        var w := r.value;
        forall i | 0 <= i < |w| {
          frames[i] := w[i];
        }
        count := |w|;
      }
    }
  }
}
