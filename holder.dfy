/** Holder<T>: a move-only guard over at most one buffer the host allocated.
    The element type plays no part in ownership, so one class stands for both
    instantiations (`JNIChar`, `JNIStackInfo`). */
module Holders {
  import opened Jvmti

  class Holder {
    /** ptr_: the owned buffer, or Null */
    var ptr: Ptr

    /** valid(), and operator bool: the holder owns a buffer */
    predicate IsValid()
      reads this
    {
      ptr != Null
    }

    /** The holder is empty or owns a buffer the host still has live. */
    ghost predicate Releasable(host: Host)
      reads this, host
    {
      ptr == Null || ptr in host.buffers
    }

    /** Holder() = default: the member initialiser leaves it empty. */
    constructor Empty()
      ensures ptr == Null && !IsValid()
    {
      ptr := Null;
    }

    /** explicit Holder(T *ptr): adopts `p`, which may itself be null. */
    constructor Adopt(p: Ptr)
      ensures ptr == p
      ensures IsValid() <==> p != Null
    {
      ptr := p;
    }

    /** Holder(Holder &&other): the new holder takes the buffer and the source
        is left empty; nothing is released. */
    constructor Move(host: Host, other: Holder)
      requires host.Valid()
      modifies host, other
      ensures ptr == old(other.ptr) && other.ptr == Null && !other.IsValid()
      ensures host.Valid() && host.buffers == old(host.buffers)
      ensures host.next == old(host.next) && host.events == old(host.events)
    {
      ptr := Null;
      new;
      // deallocate() runs on the new holder, which is still empty
      Deallocate(host);
      ptr := Null;
      ptr, other.ptr := other.ptr, ptr;
    }

    /** deallocate(): hands the owned buffer back to the host when there is one;
        an empty holder releases nothing. The pointer is not cleared. */
    method Deallocate(host: Host)
      requires host.Valid() && Releasable(host)
      modifies host
      ensures host.Valid() && host.next == old(host.next) && host.events == old(host.events)
      ensures host.buffers == if IsValid() then old(host.buffers) - {ptr} else old(host.buffers)
    {
      if IsValid() {
        host.Deallocate(ptr);
      }
    }

    /** ~Holder() */
    method Destroy(host: Host)
      requires host.Valid() && Releasable(host)
      modifies host
      ensures host.Valid() && host.next == old(host.next) && host.events == old(host.events)
      ensures host.buffers == if IsValid() then old(host.buffers) - {ptr} else old(host.buffers)
    {
      Deallocate(host);
    }

    /** Holder &operator=(Holder &&) = default, as written: the member-wise move
        of a raw pointer copies it. The source keeps its pointer and the buffer
        the target held is dropped without being released. */
    method MoveAssign(other: Holder)
      modifies this
      ensures ptr == other.ptr && other.ptr == old(other.ptr)
    {
      ptr := other.ptr;
    }

    /** Move assignment as the ownership rule wants it: the target releases what
        it held, takes the source's buffer and empties the source; assigning a
        holder to itself changes nothing. */
    method MoveAssignCorrected(host: Host, other: Holder)
      requires host.Valid() && Releasable(host) && other.Releasable(host)
      requires this != other && IsValid() ==> ptr != other.ptr
      modifies this, other, host
      ensures host.Valid() && host.next == old(host.next) && host.events == old(host.events)
      ensures this == other ==> ptr == old(ptr) && host.buffers == old(host.buffers)
      ensures this != other ==> ptr == old(other.ptr) && other.ptr == Null
      ensures this != other ==> host.buffers == if old(IsValid()) then old(host.buffers) - {old(ptr)}
                                                  else old(host.buffers)
      ensures Releasable(host)
    {
      if this != other {
        Deallocate(host);
        ptr := other.ptr;
        other.ptr := Null;
      }
    }
  }

  /** A buffer handed from one holder to a new one by move construction is
      released exactly once when both holders are destroyed: once, because the
      host's Deallocate refuses a buffer that is no longer live, and at least
      once, because the buffer is gone afterwards. */
  method MoveConstructionReleasesOnce(host: Host, p: Ptr)
    requires host.Valid() && p in host.buffers
    modifies host
    ensures host.Valid() && host.buffers == old(host.buffers) - {p}
    ensures host.events == old(host.events)
  {
    var source := new Holder.Adopt(p);
    var target := new Holder.Move(host, source);
    source.Destroy(host);
    target.Destroy(host);
  }

  /** However many times a buffer is handed on by move construction, it is
      released exactly once when every holder in the chain is destroyed: only
      the newest holder owns it, and every earlier one is empty. */
  method MoveChainReleasesOnce(host: Host, p: Ptr, n: nat)
    requires host.Valid() && p in host.buffers
    modifies host
    ensures host.Valid() && host.buffers == old(host.buffers) - {p}
    ensures host.events == old(host.events)
  {
    var first := new Holder.Adopt(p);
    var holders := [first];
    var i := 0;
    while i < n
      invariant 0 <= i <= n && |holders| == i + 1
      invariant forall k :: 0 <= k < |holders| ==> fresh(holders[k])
      invariant holders[i].ptr == p
      invariant forall k :: 0 <= k < i ==> holders[k].ptr == Null
      invariant host.Valid() && host.buffers == old(host.buffers) && host.events == old(host.events)
    {
      var moved := new Holder.Move(host, holders[i]);
      holders := holders + [moved];
      i := i + 1;
    }
    // the holders go out of scope newest first
    var j := |holders|;
    while j > 0
      invariant 0 <= j <= |holders|
      invariant holders[|holders| - 1].ptr == p
      invariant forall k :: 0 <= k < |holders| - 1 ==> holders[k].ptr == Null
      invariant host.Valid() && host.events == old(host.events)
      invariant host.buffers == if j == |holders| then old(host.buffers) else old(host.buffers) - {p}
    {
      j := j - 1;
      holders[j].Destroy(host);
    }
  }

  /** Move assignment as written: after `target = std::move(source)` both
      holders own `p` and nothing owns `q`. Once the target is destroyed, `p` is
      released while the source still holds it, so the source's destructor
      would hand the host a buffer it has already released; `q` is never
      released. */
  method MoveAssignmentReleasesTwice(host: Host, p: Ptr, q: Ptr) returns (source: Holder, target: Holder)
    requires host.Valid() && p in host.buffers && q in host.buffers && p != q
    modifies host
    ensures fresh(source) && fresh(target)
    ensures host.Valid() && host.events == old(host.events)
    ensures source.ptr == p && target.ptr == p
    ensures host.buffers == old(host.buffers) - {p}
    ensures source.IsValid() && !source.Releasable(host)
    ensures q in host.buffers
  {
    source := new Holder.Adopt(p);
    target := new Holder.Adopt(q);
    target.MoveAssign(source);
    target.Destroy(host);
  }

  /** Move assignment corrected: destroying both holders afterwards releases
      the target's old buffer and the moved one, each exactly once. */
  method MoveAssignmentReleasesOnce(host: Host, p: Ptr, q: Ptr)
    requires host.Valid() && p in host.buffers && q in host.buffers && p != q
    modifies host
    ensures host.Valid() && host.buffers == old(host.buffers) - {p, q}
    ensures host.events == old(host.events)
  {
    var source := new Holder.Adopt(p);
    var target := new Holder.Adopt(q);
    target.MoveAssignCorrected(host, source);
    source.Destroy(host);
    target.Destroy(host);
  }
}
