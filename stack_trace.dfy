/** The introspection helpers (getClassSignature, getMethodName) and the stack
    renderer (printStackTrace). Each imperative member is proved against a
    function giving the host calls it makes and the lines it writes; the
    properties of the rendering are lemmas about those functions. */
module StackTrace {
  import opened Jvmti
  import opened Holders

  /** MAX_FRAMES: the capacity of the frame buffer */
  const MaxFrames: nat := 10
  /** the depth the stack query starts at, skipping the constructor overloads */
  const StartDepth: nat := 2

  // ---------------------------------------------------------------------------
  // Specification

  /** A query through getClassSignature or getMethodName: the call, then the
      failure line when the host refuses. Both helpers write the same line. */
  function QueryEvents(call: HostCall, reply: Reply<string>): seq<Event>
  {
    [Call(call)] + if reply.Refused? then [Out(SignatureFailed)] else []
  }

  /** The text the stream receives from a helper's holder: null when refused. */
  function Text(reply: Reply<string>): Option<string>
  {
    if reply.Done? then Some(reply.value) else None
  }

  /** The class handed to the signature lookup of a frame. When the declaring
      class query fails, the uninitialised local is used all the same. */
  function DeclaringClassArg(jvm: Jvm, mid: MethodId): ClassArg
  {
    var r := jvm.declaringClass(mid);
    if r.Done? then Resolved(r.value) else Indeterminate
  }

  /** The `class#method` line of a frame. */
  function RenderFrame(jvm: Jvm, f: Frame): Line
  {
    FrameLine(Text(jvm.classSignature(DeclaringClassArg(jvm, f.mid))), Text(jvm.methodName(f.mid)))
  }

  /** One iteration of the frame loop. */
  function FrameEvents(jvm: Jvm, f: Frame): seq<Event>
  {
    var arg := DeclaringClassArg(jvm, f.mid);
    [Call(GetMethodDeclaringClass(f.mid))]
    + (if jvm.declaringClass(f.mid).Refused? then [Out(FrameSkip)] else [])
    + QueryEvents(HostCall.GetClassSignature(arg), jvm.classSignature(arg))
    + QueryEvents(HostCall.GetMethodName(f.mid), jvm.methodName(f.mid))
    + [Out(RenderFrame(jvm, f))]
  }

  /** The frame loop over `fs`, in order. */
  function FramesEvents(jvm: Jvm, fs: seq<Frame>): seq<Event>
  {
    if fs == [] then [] else FramesEvents(jvm, fs[..|fs| - 1]) + FrameEvents(jvm, fs[|fs| - 1])
  }

  /** The frames the stack query of printStackTrace returns. */
  function CapturedFrames(jvm: Jvm, thread: ThreadRef): Reply<seq<Frame>>
  {
    StackTraceReply(jvm.stack(thread), StartDepth, MaxFrames)
  }

  /** Everything printStackTrace does that the host and the stream see. */
  function CaptureEvents(jvm: Jvm, thread: ThreadRef): seq<Event>
  {
    var info := jvm.threadName(thread);
    [Call(GetThreadInfo(thread))]
    + (if info.Done? then [Out(Header(info.value))] else [])
    + [Call(HostCall.GetStackTrace(thread, StartDepth, MaxFrames))]
    + match CapturedFrames(jvm, thread)
      case Refused(_) => [Out(StackTraceFailed)]
      case Done(frames) => FramesEvents(jvm, frames)
  }

  /** The live buffers after a capture: the thread name that GetThreadInfo
      allocated is never handed to Deallocate, so it stays live. */
  function AfterCapture(jvm: Jvm, thread: ThreadRef, buffers: map<Ptr, string>, next: Ptr): map<Ptr, string>
  {
    var info := jvm.threadName(thread);
    if info.Done? then buffers[next := info.value] else buffers
  }

  /** The `class#method` lines in an event record, in order. */
  function FrameLines(es: seq<Event>): seq<Line>
  {
    if es == [] then [] else FrameLineOf(es[0]) + FrameLines(es[1..])
  }

  function FrameLineOf(e: Event): seq<Line>
  {
    if e.Out? && e.line.FrameLine? then [e.line] else []
  }

  // ---------------------------------------------------------------------------
  // Properties of the rendering

  lemma {:induction false} FrameLinesAppend(a: seq<Event>, b: seq<Event>)
    ensures FrameLines(a + b) == FrameLines(a) + FrameLines(b)
  {
    if a == [] {
      assert a + b == b;
    } else {
      var ab := a + b;
      assert ab[0] == a[0] && ab[1..] == a[1..] + b;
      FrameLinesAppend(a[1..], b);
      calc {
        FrameLines(ab);
        FrameLineOf(ab[0]) + FrameLines(ab[1..]);
        FrameLineOf(a[0]) + (FrameLines(a[1..]) + FrameLines(b));
      }
    }
  }

  /** Whatever the host answers about a frame, the frame gets exactly one
      `class#method` line. */
  lemma FrameRendersOneLine(jvm: Jvm, f: Frame)
    ensures FrameLines(FrameEvents(jvm, f)) == [RenderFrame(jvm, f)]
  {
    var arg := DeclaringClassArg(jvm, f.mid);
    var skip := if jvm.declaringClass(f.mid).Refused? then [Out(FrameSkip)] else [];
    var cs := QueryEvents(HostCall.GetClassSignature(arg), jvm.classSignature(arg));
    var ms := QueryEvents(HostCall.GetMethodName(f.mid), jvm.methodName(f.mid));
    var first := [Call(GetMethodDeclaringClass(f.mid))];
    var last := [Out(RenderFrame(jvm, f))];
    assert FrameEvents(jvm, f) == first + skip + cs + ms + last;
    FrameLinesAppend(first + skip + cs + ms, last);
    FrameLinesAppend(first + skip + cs, ms);
    FrameLinesAppend(first + skip, cs);
    FrameLinesAppend(first, skip);
    assert FrameLines(cs) == [] by { FrameLinesAppend([cs[0]], cs[1..]); assert cs == [cs[0]] + cs[1..]; }
    assert FrameLines(ms) == [] by { FrameLinesAppend([ms[0]], ms[1..]); assert ms == [ms[0]] + ms[1..]; }
  }

  /** Each frame costs three host queries: its declaring class, the signature
      of that class (resolved or not) and the method's name. */
  lemma FrameQueries(jvm: Jvm, f: Frame)
    ensures Calls(FrameEvents(jvm, f))
            == [GetMethodDeclaringClass(f.mid),
                HostCall.GetClassSignature(DeclaringClassArg(jvm, f.mid)),
                HostCall.GetMethodName(f.mid)]
  {
    var arg := DeclaringClassArg(jvm, f.mid);
    var skip := if jvm.declaringClass(f.mid).Refused? then [Out(FrameSkip)] else [];
    var cs := QueryEvents(HostCall.GetClassSignature(arg), jvm.classSignature(arg));
    var ms := QueryEvents(HostCall.GetMethodName(f.mid), jvm.methodName(f.mid));
    var first := [Call(GetMethodDeclaringClass(f.mid))];
    var last := [Out(RenderFrame(jvm, f))];
    assert FrameEvents(jvm, f) == first + skip + cs + ms + last;
    CallsAppend(first + skip + cs + ms, last);
    CallsAppend(first + skip + cs, ms);
    CallsAppend(first + skip, cs);
    CallsAppend(first, skip);
    assert Calls(cs) == [HostCall.GetClassSignature(arg)] by { CallsAppend([cs[0]], cs[1..]); assert cs == [cs[0]] + cs[1..]; }
    assert Calls(ms) == [HostCall.GetMethodName(f.mid)] by { CallsAppend([ms[0]], ms[1..]); assert ms == [ms[0]] + ms[1..]; }
  }

  /** The frame loop writes one `class#method` line per frame, in the order of
      the frames. */
  lemma {:induction false} FramesRenderInOrder(jvm: Jvm, fs: seq<Frame>)
    ensures |FrameLines(FramesEvents(jvm, fs))| == |fs|
    ensures forall i :: 0 <= i < |fs| ==> FrameLines(FramesEvents(jvm, fs))[i] == RenderFrame(jvm, fs[i])
  {
    if fs != [] {
      var init := fs[..|fs| - 1];
      FramesRenderInOrder(jvm, init);
      FrameLinesAppend(FramesEvents(jvm, init), FrameEvents(jvm, fs[|fs| - 1]));
      FrameRendersOneLine(jvm, fs[|fs| - 1]);
    }
  }

  /** printStackTrace prints one `class#method` line per frame of the window
      that starts StartDepth frames below the top: as many lines as there are
      such frames up to MaxFrames, in the order the frames were returned. A
      frame whose declaring class could not be resolved still gets its line. */
  lemma CaptureRendersWindow(jvm: Jvm, thread: ThreadRef)
    requires CapturedFrames(jvm, thread).Done?
    ensures var stack := jvm.stack(thread).value;
            var lines := FrameLines(CaptureEvents(jvm, thread));
            StartDepth <= |stack|
            && |lines| == Min(MaxFrames, |stack| - StartDepth)
            && forall i :: 0 <= i < |lines| ==> lines[i] == RenderFrame(jvm, stack[StartDepth + i])
  {
    var info := jvm.threadName(thread);
    var w := CapturedFrames(jvm, thread).value;
    var head := [Call(GetThreadInfo(thread))]
                + (if info.Done? then [Out(Header(info.value))] else [])
                + [Call(HostCall.GetStackTrace(thread, StartDepth, MaxFrames))];
    assert CaptureEvents(jvm, thread) == head + FramesEvents(jvm, w);
    FrameLinesAppend(head, FramesEvents(jvm, w));
    assert FrameLines(head) == [] by {
      assert head == [head[0]] + head[1..];
      FrameLinesAppend([head[0]], head[1..]);
      if info.Done? {
        assert head[1..] == [head[1]] + [head[2]];
        FrameLinesAppend([head[1]], [head[2]]);
      }
    }
    FramesRenderInOrder(jvm, w);
  }

  /** When the stack query fails, printStackTrace prints no frame line. */
  lemma CaptureWithoutStackPrintsNoFrames(jvm: Jvm, thread: ThreadRef)
    requires CapturedFrames(jvm, thread).Refused?
    ensures FrameLines(CaptureEvents(jvm, thread)) == []
  {
    var es := CaptureEvents(jvm, thread);
    var info := jvm.threadName(thread);
    if info.Done? {
      assert es == [es[0]] + ([es[1]] + ([es[2]] + [es[3]]));
      FrameLinesAppend([es[0]], [es[1]] + ([es[2]] + [es[3]]));
      FrameLinesAppend([es[1]], [es[2]] + [es[3]]);
      FrameLinesAppend([es[2]], [es[3]]);
    } else {
      assert es == [es[0]] + ([es[1]] + [es[2]]);
      FrameLinesAppend([es[0]], [es[1]] + [es[2]]);
      FrameLinesAppend([es[1]], [es[2]]);
    }
  }

  /** However deep the stack, printStackTrace prints at most MaxFrames frame lines. */
  lemma CaptureFrameLinesBounded(jvm: Jvm, thread: ThreadRef)
    ensures |FrameLines(CaptureEvents(jvm, thread))| <= MaxFrames
  {
    if CapturedFrames(jvm, thread).Done? {
      CaptureRendersWindow(jvm, thread);
    } else {
      CaptureWithoutStackPrintsNoFrames(jvm, thread);
    }
  }

  lemma {:induction false} FramesPrintNoHeader(jvm: Jvm, fs: seq<Frame>)
    ensures forall e :: e in FramesEvents(jvm, fs) ==> !(e.Out? && e.line.Header?)
  {
    if fs != [] {
      FramesPrintNoHeader(jvm, fs[..|fs| - 1]);
    }
  }

  /** printStackTrace prints the header, with the thread's name, exactly when
      the thread query succeeds. */
  lemma CaptureHeaderIffThreadInfo(jvm: Jvm, thread: ThreadRef, name: string)
    ensures Out(Header(name)) in CaptureEvents(jvm, thread) <==> jvm.threadName(thread) == Done(name)
  {
    match CapturedFrames(jvm, thread)
    case Refused(_) =>
    case Done(frames) => FramesPrintNoHeader(jvm, frames);
  }

  /** The failed declaring-class lookup is logged as a skipped frame, yet the
      frame is not skipped: the uninitialised class goes to the signature
      lookup and the frame's line is printed. */
  lemma FrameSkipDoesNotSkip(jvm: Jvm, f: Frame)
    requires jvm.declaringClass(f.mid).Refused?
    ensures var es := FrameEvents(jvm, f);
            es[1] == Out(FrameSkip) && es[2] == Call(HostCall.GetClassSignature(Indeterminate))
            && es[|es| - 1] == Out(FrameLine(Text(jvm.classSignature(Indeterminate)), Text(jvm.methodName(f.mid))))
  {
  }

  // ---------------------------------------------------------------------------
  // The code

  /** The text a holder shows the stream. */
  function Render(host: Host, h: Holder): Option<string>
    reads host, h
    requires h.Releasable(host)
  {
    if h.IsValid() then Some(host.buffers[h.ptr]) else None
  }

  /** getClassSignature: an owning holder when the host answers, an empty one
      (after a logged line) when it refuses. */
  method GetClassSignature(host: Host, jvm: Jvm, arg: ClassArg) returns (h: Holder)
    requires host.Valid()
    modifies host
    ensures fresh(h) && host.Valid() && h.Releasable(host)
    ensures h.IsValid() <==> jvm.classSignature(arg).Done?
    ensures h.IsValid() ==> h.ptr !in old(host.buffers)
                            && host.buffers == old(host.buffers)[h.ptr := jvm.classSignature(arg).value]
    ensures !h.IsValid() ==> host.buffers == old(host.buffers)
    ensures host.events == old(host.events) + QueryEvents(HostCall.GetClassSignature(arg), jvm.classSignature(arg))
    ensures Render(host, h) == Text(jvm.classSignature(arg))
  {
    var st, signature := host.StringQuery(HostCall.GetClassSignature(arg), jvm.classSignature(arg));
    if st != Ok {
      host.Write(SignatureFailed);
      h := new Holder.Adopt(Null);
      return;
    }
    h := new Holder.Adopt(signature);
  }

  /** getMethodName: as getClassSignature, for a method's name. */
  method GetMethodName(host: Host, jvm: Jvm, mid: MethodId) returns (h: Holder)
    requires host.Valid()
    modifies host
    ensures fresh(h) && host.Valid() && h.Releasable(host)
    ensures h.IsValid() <==> jvm.methodName(mid).Done?
    ensures h.IsValid() ==> h.ptr !in old(host.buffers)
                            && host.buffers == old(host.buffers)[h.ptr := jvm.methodName(mid).value]
    ensures !h.IsValid() ==> host.buffers == old(host.buffers)
    ensures host.events == old(host.events) + QueryEvents(HostCall.GetMethodName(mid), jvm.methodName(mid))
    ensures Render(host, h) == Text(jvm.methodName(mid))
  {
    var st, name := host.StringQuery(HostCall.GetMethodName(mid), jvm.methodName(mid));
    if st != Ok {
      host.Write(SignatureFailed);
      h := new Holder.Adopt(Null);
      return;
    }
    h := new Holder.Adopt(name);
  }

  /** One pass of printStackTrace's frame loop: the frame's line is printed and
      both buffers it needed are released. */
  method PrintFrame(host: Host, jvm: Jvm, frame: Frame)
    requires host.Valid()
    modifies host
    ensures host.Valid() && host.buffers == old(host.buffers)
    ensures host.events == old(host.events) + FrameEvents(jvm, frame)
  {
    ghost var live, before := host.buffers, host.events;
    var cls := DeclaringClass(host, jvm, frame.mid);
    ghost var afterClass := host.events;
    var className := GetClassSignature(host, jvm, cls);
    var methodName := GetMethodName(host, jvm, frame.mid);
    ghost var afterQueries := host.events;
    host.Write(FrameLine(Render(host, className), Render(host, methodName)));
    methodName.Destroy(host);
    className.Destroy(host);
    assert host.buffers == live;
    assert host.events == before + FrameEvents(jvm, frame) by {
      var arg := DeclaringClassArg(jvm, frame.mid);
      assert afterQueries == afterClass + QueryEvents(HostCall.GetClassSignature(arg), jvm.classSignature(arg))
                             + QueryEvents(HostCall.GetMethodName(frame.mid), jvm.methodName(frame.mid));
    }
  }

  /** GetMethodDeclaringClass as the frame loop uses it: on failure a line is
      logged and the class stays the uninitialised local. */
  method DeclaringClass(host: Host, jvm: Jvm, mid: MethodId) returns (cls: ClassArg)
    requires host.Valid()
    modifies host
    ensures host.Valid() && host.buffers == old(host.buffers) && host.next == old(host.next)
    ensures cls == DeclaringClassArg(jvm, mid)
    ensures host.events == old(host.events) + [Call(GetMethodDeclaringClass(mid))]
                           + (if jvm.declaringClass(mid).Refused? then [Out(FrameSkip)] else [])
  {
    host.Record(GetMethodDeclaringClass(mid));
    cls := Indeterminate;
    var declaring := jvm.declaringClass(mid);
    if declaring.Refused? {
      host.Write(FrameSkip);
    } else {
      cls := Resolved(declaring.value);
    }
  }

  /** printStackTrace: the header, then the frames of the window, each as one
      `class#method` line. */
  method PrintStackTrace(host: Host, jvm: Jvm, thread: ThreadRef)
    requires host.Valid()
    modifies host
    ensures host.Valid()
    ensures host.events == old(host.events) + CaptureEvents(jvm, thread)
    ensures host.buffers == AfterCapture(jvm, thread, old(host.buffers), old(host.next))
  {
    var st, info := host.StringQuery(GetThreadInfo(thread), jvm.threadName(thread));
    if st == Ok {
      host.Write(Header(host.buffers[info]));
    }
    var frames := new Frame[MaxFrames];
    var err, count := host.GetStackTrace(jvm, thread, StartDepth, MaxFrames, frames);
    ghost var head := [Call(GetThreadInfo(thread))]
                      + (if st == Ok then [Out(Header(jvm.threadName(thread).value))] else [])
                      + [Call(HostCall.GetStackTrace(thread, StartDepth, MaxFrames))];
    assert host.events == old(host.events) + head;
    if err != Ok {
      host.Write(StackTraceFailed);
      return;
    }
    PrintFrames(host, jvm, frames, count);
    assert frames[..count] == CapturedFrames(jvm, thread).value;
  }

  /** printStackTrace's frame loop over the first `count` entries of the frame
      buffer. */
  method PrintFrames(host: Host, jvm: Jvm, frames: array<Frame>, count: nat)
    requires host.Valid() && count <= frames.Length
    modifies host
    ensures host.Valid() && host.buffers == old(host.buffers)
    ensures host.events == old(host.events) + FramesEvents(jvm, frames[..count])
  {
    var i := 0;
    while i < count
      invariant 0 <= i <= count
      invariant host.Valid() && host.buffers == old(host.buffers)
      invariant host.events == old(host.events) + FramesEvents(jvm, frames[..i])
    {
      PrintFrame(host, jvm, frames[i]);
      assert frames[..i + 1][..i] == frames[..i];
      i := i + 1;
    }
  }
}
