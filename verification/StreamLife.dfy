/**
 Lifetime of a stream struct (libuv/qn-uv-stream.c): JavaScript references, the asynchronous close callback and the
 finalizer, in every order.

 A struct is freed once, when both the close callback and the finalizer have run, and nothing reaches it after that.
 */
module StreamLife {
  import opened HandleList

  /**
   The struct, its uv handle and its JavaScript object. `refs` counts the references to the object, the struct's own
   `self` included; `pending` the write, shutdown and connect requests libuv still has to answer; `frees` the calls
   of `free` on the struct.
   */
  datatype Stream = Stream(
    handle: Uv, pending: nat, refs: nat, self: bool, closed: bool, finalized: bool, linked: bool, frees: nat)

  /** `qn_stream_new` after `uv_tcp_init` or `uv_pipe_init`. */
  const NEW: Stream := Stream(Open, 0, 0, false, false, false, true, 0)

  // ---- what each routine does ----

  function MaybeFreed(s: Stream): Stream {
    if s.closed && s.finalized then s.(linked := false, frees := s.frees + 1) else s
  }

  function CloseAsked(s: Stream): Stream {
    if s.handle == Open then s.(handle := Closing) else s
  }

  /** `qn_stream_finalizer`. */
  function FinalizedStream(s: Stream): Stream {
    var t := s.(self := false, finalized := true);
    if !t.closed then CloseAsked(t) else MaybeFreed(t)
  }

  /** `JS_FreeValue` on the stream object: the finalizer runs when the last reference goes. */
  function Released(s: Stream): Stream
    requires s.refs > 0
  {
    var t := s.(refs := s.refs - 1);
    if t.refs == 0 then FinalizedStream(t) else t
  }

  /** `qn_stream_close_cb`. */
  function CloseCalledBack(s: Stream): Stream
    requires s.self ==> s.refs > 0
  {
    var t := s.(handle := Closed, closed := true);
    if !t.finalized && t.self then Released(t.(self := false)) else MaybeFreed(t)
  }

  /** `qn_stream_wrap`; `ok` is whether the object could be made. */
  function Wrapped(s: Stream, ok: bool): Stream {
    if ok then s.(refs := 2, self := true) else CloseAsked(s)
  }

  class QNStream {
    var handle: Uv
    var pending: nat
    var refs: nat
    var self: bool
    var closed: bool
    var finalized: bool
    var linked: bool
    var frees: nat

    constructor ()
      ensures View() == NEW
    {
      handle, pending, refs, self := Open, 0, 0, false;
      closed, finalized, linked, frees := false, false, true, 0;
    }

    function View(): Stream
      reads this
    {
      Stream(handle, pending, refs, self, closed, finalized, linked, frees)
    }

    method MaybeFree()
      modifies this
      ensures View() == MaybeFreed(old(View()))
    {
      if closed && finalized {
        linked := false;
        frees := frees + 1;
      }
    }

    /** `uv_close`, guarded by `uv_is_closing`. */
    method Close()
      modifies this
      ensures View() == CloseAsked(old(View()))
    {
      if handle == Open { handle := Closing; }
    }

    /** Frees the struct if its close callback has run, and else leaves it to that callback, which is asked for. */
    method Finalizer()
      modifies this
      ensures View() == FinalizedStream(old(View()))
      ensures finalized && !self
      ensures old(closed) ==> frees == old(frees) + 1
      ensures !old(closed) ==> frees == old(frees) && handle != Open
    {
      self := false;
      finalized := true;
      if !closed { Close(); } else { MaybeFree(); }
    }

    method FreeValue()
      requires refs > 0
      modifies this
      ensures View() == Released(old(View()))
    {
      refs := refs - 1;
      if refs == 0 { Finalizer(); }
    }

    /**
     Gives up the struct's own reference, and frees the struct exactly when JavaScript holds no other; an orphan stays
     one.
     */
    method CloseCb()
      requires (Ok(View()) || Orphan(View())) && Enabled(View(), Event.CloseCb)
      modifies this
      ensures View() == CloseCalledBack(old(View()))
      ensures closed && !self
      ensures old(Ok(View())) ==> Ok(View()) && frees == if old(UserRefs(View())) == 0 then 1 else 0
      ensures old(Orphan(View())) ==> Orphan(View())
    {
      handle := Closed;
      closed := true;
      if !finalized && self {
        self := false;
        FreeValue();
        return;
      }
      MaybeFree();
    }

    /** `STREAM_CLOSE`: closing is asked for once, and the struct keeps its own reference until the callback. */
    method CloseOp()
      requires Ok(View()) && UserRefs(View()) > 0
      modifies this
      ensures View() == CloseAsked(old(View()))
      ensures Ok(View()) && handle != Open && self == old(self) && frees == 0
    {
      Close();
    }

    /** JavaScript drops a reference: the struct is freed exactly when that was the last and the callback has run. */
    method Drop()
      requires Ok(View()) && UserRefs(View()) > 0
      modifies this
      ensures View() == Released(old(View()))
      ensures Ok(View()) && self == old(self)
      ensures frees == if old(refs) == 1 then 1 else 0
    {
      FreeValue();
    }

    /** With an object the struct is in good order; without one it is an orphan, closing. */
    method Wrap(ok: bool)
      requires View() == NEW
      modifies this
      ensures View() == Wrapped(old(View()), ok)
      ensures if ok then Ok(View()) && self && UserRefs(View()) == 1 else Orphan(View())
    {
      if !ok {
        Close();
        return;
      }
      refs := 2;
      self := true;
    }
  }

  // ---- runs ----

  /**
   What can happen to a stream: JavaScript copies, drops and uses its references, the collector drops the last of
   them at once, and the event loop delivers callbacks.
   */
  datatype Event = Copy | Drop | Collect | Close | StartRequest | RequestCb | ReadCb | CloseCb

  /** References JavaScript holds, the struct's own not counted. */
  function UserRefs(s: Stream): int {
    s.refs - if s.self then 1 else 0
  }

  /**
   libuv: no callback but the close callback once closing; requests are answered before it; it comes once. Requests
   are accepted on open handles only. The collector sees the struct's own reference as one from outside.
   */
  predicate Enabled(s: Stream, e: Event) {
    match e
    case Copy | Drop | Close => UserRefs(s) > 0
    case Collect => UserRefs(s) > 0 && !s.self
    case StartRequest => UserRefs(s) > 0 && s.handle == Open
    case RequestCb => s.pending > 0
    case ReadCb => s.handle == Open
    case CloseCb => s.handle == Closing && s.pending == 0
  }

  function Step(s: Stream, e: Event): Stream
    requires Enabled(s, e) && (s.self ==> s.refs > 0)
  {
    match e
    case Copy => s.(refs := s.refs + 1)
    case Drop => Released(s)
    case Collect => FinalizedStream(s.(refs := 0))
    case Close => CloseAsked(s)
    case StartRequest => s.(pending := s.pending + 1)
    case RequestCb => s.(pending := s.pending - 1)
    case ReadCb => s
    case CloseCb => CloseCalledBack(s)
  }

  ghost predicate Follows(s: Stream, t: Stream) {
    exists e :: (s.self ==> s.refs > 0) && Enabled(s, e) && t == Step(s, e)
  }

  /** A run of a stream from what `qn_stream_wrap` left. */
  ghost predicate Run(run: seq<Stream>, ok: bool) {
    && run != []
    && run[0] == Wrapped(NEW, ok)
    && forall i | 0 <= i < |run| - 1 :: Follows(run[i], run[i + 1])
  }

  // ---- created streams ----

  predicate Ok(s: Stream) {
    && (s.closed <==> s.handle == Closed)
    && (s.self <==> !s.closed)
    && (s.finalized <==> s.refs == 0)
    && (s.self ==> s.refs > 0)
    && (s.pending > 0 ==> s.handle != Closed)
    && s.frees == (if s.closed && s.finalized then 1 else 0)
    && (s.linked <==> s.frees == 0)
  }

  lemma StepKeeps(s: Stream, e: Event)
    requires Ok(s) && Enabled(s, e)
    ensures Ok(Step(s, e))
  {
  }

  lemma {:induction false} RunKeeps(run: seq<Stream>, i: nat)
    requires Run(run, true) && i < |run|
    ensures Ok(run[i])
  {
    if i > 0 {
      RunKeeps(run, i - 1);
      assert Follows(run[i - 1], run[i - 1 + 1]);
    }
  }

  /** The struct is freed once, when the close callback and the finalizer have both run, in whatever order. */
  lemma FreedExactlyOnce(run: seq<Stream>, i: nat)
    requires Run(run, true) && i < |run|
    ensures run[i].frees == if run[i].closed && run[i].finalized then 1 else 0
    ensures run[i].linked <==> run[i].frees == 0
  {
    RunKeeps(run, i);
  }

  /** Nothing reaches a struct that was freed: no callback is left to come and no reference to use it through. */
  lemma NothingAfterFree(run: seq<Stream>, i: nat, e: Event)
    requires Run(run, true) && i < |run| && Enabled(run[i], e)
    ensures run[i].frees == 0
  {
    RunKeeps(run, i);
  }

  /** The object is not finalized while the struct holds it, and the struct holds it until the close callback. */
  lemma HeldUntilClosed(run: seq<Stream>, i: nat)
    requires Run(run, true) && i < |run|
    ensures run[i].self ==> !run[i].finalized
    ensures run[i].finalized ==> run[i].closed
  {
    RunKeeps(run, i);
  }

  /** When JavaScript and the loop are done with a stream, it was freed, unless it was never closed. */
  lemma FreedOrNeverClosed(run: seq<Stream>, i: nat)
    requires Run(run, true) && i < |run|
    requires forall e: Event :: e != ReadCb ==> !Enabled(run[i], e)
    ensures run[i].frees == 1 || (run[i].handle == Open && run[i].refs == 1 && run[i].self)
  {
    RunKeeps(run, i);
    assert !Enabled(run[i], Drop) && !Enabled(run[i], RequestCb) && !Enabled(run[i], CloseCb);
  }

  // ---- streams that could not be wrapped ----

  /** Closing or closed, without an object: no finalizer will ever run. */
  predicate Orphan(s: Stream) {
    s.handle != Open && s.refs == 0 && !s.self && !s.finalized && s.frees == 0 && s.linked
  }

  /** A struct whose object could not be made is closed but never finalized: it is never freed, in any run. */
  lemma {:induction false} UnwrappedLeaks(run: seq<Stream>, i: nat)
    requires Run(run, false) && i < |run|
    ensures Orphan(run[i])
  {
    if i > 0 {
      UnwrappedLeaks(run, i - 1);
      assert Follows(run[i - 1], run[i - 1 + 1]);
    }
  }
}
