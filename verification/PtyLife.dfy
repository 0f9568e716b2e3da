/**
 Lifetime of a pty struct (libuv/qn-uv-pty.c): two uv handles with a close callback each, the finalizer of the
 JavaScript object, and the exit handler that may run anything in the middle of `pty_try_reap`.

 The struct is freed once, after the last of the three, in whatever order they come, and nothing reaches it later.
 */
module PtyLife {
  import opened HandleList

  /** `reaping` is set while the exit handler runs; the other fields are as in `StreamLife.Stream`. */
  datatype Pty = Pty(
    pipe: Uv, sigchld: Uv,
    pipeClosed: bool, sigchldClosed: bool, closed: bool,
    refs: nat, self: bool, finalized: bool,
    exited: bool, reaping: bool,
    linked: bool, frees: nat)

  /** What `PTY_SPAWN` returns: one reference for JavaScript and one of its own. */
  const SPAWNED: Pty := Pty(Open, Open, false, false, false, 2, true, false, false, false, true, 0)

  // ---- what each routine does ----

  function MaybeFreed(p: Pty): Pty {
    if p.pipeClosed && p.sigchldClosed && p.finalized then p.(linked := false, frees := p.frees + 1) else p
  }

  /** A handle after `uv_close`, unless it was asked before. */
  function AskedClosed(h: Uv, closed: bool): Uv {
    if !closed && h == Open then Closing else h
  }

  /** `pty_close_handles`. */
  function CloseAsked(p: Pty): Pty {
    p.(pipe := AskedClosed(p.pipe, p.pipeClosed), sigchld := AskedClosed(p.sigchld, p.sigchldClosed))
  }

  /** `qn_pty_finalizer`. */
  function FinalizedPty(p: Pty): Pty {
    var q := p.(self := false, finalized := true);
    if !q.closed then CloseAsked(q) else MaybeFreed(q)
  }

  /** `JS_FreeValue` on the pty object. */
  function Released(p: Pty): Pty
    requires p.refs > 0
  {
    var q := p.(refs := p.refs - 1);
    if q.refs == 0 then FinalizedPty(q) else q
  }

  /** `pty_release_prevent_gc`. */
  function SelfReleased(p: Pty): Pty
    requires p.self ==> p.refs > 0
  {
    if p.self then Released(p.(self := false)) else p
  }

  function PipeClosedCb(p: Pty): Pty {
    var q := p.(pipe := Closed, pipeClosed := true);
    if q.sigchldClosed then MaybeFreed(q.(closed := true)) else q
  }

  function SigchldClosedCb(p: Pty): Pty {
    var q := p.(sigchld := Closed, sigchldClosed := true);
    if q.pipeClosed then MaybeFreed(q.(closed := true)) else q
  }

  /** The end of `pty_try_reap`, after the exit handler. */
  function Reaped(p: Pty): Pty
    requires p.self ==> p.refs > 0
  {
    CloseAsked(SelfReleased(p.(reaping := false)))
  }

  /** `pty_try_reap` up to the exit handler; `dead` is whether `waitpid` reaps, `handler` whether there is a handler. */
  function ReapTried(p: Pty, dead: bool, handler: bool): Pty
    requires p.self ==> p.refs > 0
  {
    if p.exited || !dead then p
    else if handler then p.(exited := true, reaping := true)
    else Reaped(p.(exited := true))
  }

  /** `PTY_CLOSE`. */
  function CloseOpDone(p: Pty): Pty
    requires p.self ==> p.refs > 0
  {
    if !p.closed then CloseAsked(SelfReleased(p)) else p
  }

  class QNPty {
    var pipe: Uv
    var sigchld: Uv
    var pipeClosed: bool
    var sigchldClosed: bool
    var closed: bool
    var refs: nat
    var self: bool
    var finalized: bool
    var exited: bool
    var reaping: bool
    var linked: bool
    var frees: nat

    constructor Spawn()
      ensures View() == SPAWNED
    {
      pipe, sigchld, pipeClosed, sigchldClosed, closed := Open, Open, false, false, false;
      refs, self, finalized, exited, reaping, linked, frees := 2, true, false, false, false, true, 0;
    }

    function View(): Pty
      reads this
    {
      Pty(pipe, sigchld, pipeClosed, sigchldClosed, closed, refs, self, finalized, exited, reaping, linked, frees)
    }

    method MaybeFree()
      modifies this
      ensures View() == MaybeFreed(old(View()))
    {
      if pipeClosed && sigchldClosed && finalized {
        linked := false;
        frees := frees + 1;
      }
    }

    method CloseHandles()
      modifies this
      ensures View() == CloseAsked(old(View()))
    {
      if !pipeClosed && pipe == Open { pipe := Closing; }
      if !sigchldClosed && sigchld == Open { sigchld := Closing; }
    }

    /** Frees the struct if both close callbacks have run, and else leaves it to the last of them, both asked for. */
    method Finalizer()
      modifies this
      ensures View() == FinalizedPty(old(View()))
      ensures finalized && !self
      ensures !old(closed) ==>
        && frees == old(frees)
        && pipe == AskedClosed(old(pipe), old(pipeClosed)) && sigchld == AskedClosed(old(sigchld), old(sigchldClosed))
      ensures old(closed) && old(pipeClosed) && old(sigchldClosed) ==> frees == old(frees) + 1
    {
      self := false;
      finalized := true;
      if !closed { CloseHandles(); } else { MaybeFree(); }
    }

    method FreeValue()
      requires refs > 0
      modifies this
      ensures View() == Released(old(View()))
    {
      refs := refs - 1;
      if refs == 0 { Finalizer(); }
    }

    /** Before both close callbacks have run, giving up the self-reference never frees the struct. */
    method ReleasePreventGc()
      requires self ==> refs > 0
      modifies this
      ensures View() == SelfReleased(old(View()))
      ensures !self && (!old(closed) ==> frees == old(frees))
    {
      if self {
        self := false;
        FreeValue();
      }
    }

    /** Frees the struct exactly when the other handle is closed and JavaScript holds no reference. */
    method PipeCloseCb()
      requires Ok(View()) && Enabled(View(), Event.PipeCloseCb)
      modifies this
      ensures View() == PipeClosedCb(old(View()))
      ensures Ok(View()) && closed == old(sigchldClosed)
      ensures frees == if old(sigchldClosed) && old(refs) == 0 then 1 else 0
    {
      pipe := Closed;
      pipeClosed := true;
      if sigchldClosed {
        closed := true;
        MaybeFree();
      }
    }

    method SigchldCloseCb()
      requires Ok(View()) && Enabled(View(), Event.SigchldCloseCb)
      modifies this
      ensures View() == SigchldClosedCb(old(View()))
      ensures Ok(View()) && closed == old(pipeClosed)
      ensures frees == if old(pipeClosed) && old(refs) == 0 then 1 else 0
    {
      sigchld := Closed;
      sigchldClosed := true;
      if pipeClosed {
        closed := true;
        MaybeFree();
      }
    }

    /**
     The first reaping of a dead child calls the handler, or without one gives up the self-reference and closes both
     handles; nothing is freed, and nothing happens on any later call.
     */
    method TryReap(dead: bool, handler: bool)
      requires Ok(View()) && !reaping && (pipe == Open || sigchld == Open)
      modifies this
      ensures View() == ReapTried(old(View()), dead, handler)
      ensures Ok(View()) && frees == 0
      ensures reaping <==> dead && handler && !old(exited)
      ensures self <==> old(self) && (old(exited) || !dead || handler)
    {
      if exited || !dead { return; }
      exited := true;
      if handler {
        reaping := true;
        return;
      }
      FinishReap();
    }

    /** The exit handler returns: whatever it did, the struct is still there, gives up its reference and closes. */
    method ExitHandlerReturns()
      requires Ok(View()) && Enabled(View(), Event.ExitHandlerReturns)
      modifies this
      ensures View() == Reaped(old(View()))
      ensures Ok(View()) && frees == 0 && !self && pipe != Open && sigchld != Open
    {
      FinishReap();
    }

    /** The end of `pty_try_reap`, after the exit handler or without one. */
    method FinishReap()
      requires (self ==> refs > 0) && !closed
      modifies this
      ensures View() == Reaped(old(View())) && frees == old(frees)
    {
      reaping := false;
      ReleasePreventGc();
      CloseHandles();
    }

    /** Gives up the self-reference and closes both handles; the struct outlives the call. */
    method CloseOp()
      requires Ok(View()) && UserRefs(View()) > 0
      modifies this
      ensures View() == CloseOpDone(old(View()))
      ensures Ok(View()) && frees == 0 && !self && pipe != Open && sigchld != Open
    {
      if !closed {
        ReleasePreventGc();
        CloseHandles();
      }
    }
  }

  // ---- runs ----

  /** JavaScript runs, also inside the exit handler; callbacks come from the event loop only. */
  datatype Event =
    | Copy | Drop | Collect | Close
    | SigchldCb(dead: bool, handler: bool)
    | ReadEnd(dead: bool, handler: bool)
    | ReadData
    | ExitHandlerReturns
    | PipeCloseCb
    | SigchldCloseCb

  function UserRefs(p: Pty): int {
    p.refs - if p.self then 1 else 0
  }

  predicate Enabled(p: Pty, e: Event) {
    match e
    case Copy | Drop => UserRefs(p) > 0
    // the caller's reference outlives the call
    case Close => UserRefs(p) > 0
    case Collect => UserRefs(p) > 0 && !p.self
    case SigchldCb(_, _) => p.sigchld == Open && !p.reaping
    case ReadEnd(_, _) => p.pipe == Open && !p.reaping
    case ReadData => p.pipe == Open && !p.reaping
    case ExitHandlerReturns => p.reaping
    case PipeCloseCb => p.pipe == Closing && !p.reaping
    case SigchldCloseCb => p.sigchld == Closing && !p.reaping
  }

  function Step(p: Pty, e: Event): Pty
    requires Enabled(p, e) && (p.self ==> p.refs > 0)
  {
    match e
    case Copy => p.(refs := p.refs + 1)
    case Drop => Released(p)
    case Close => CloseOpDone(p)
    case Collect => FinalizedPty(p.(refs := 0))
    case SigchldCb(dead, handler) => ReapTried(p, dead, handler)
    case ReadEnd(dead, handler) => ReapTried(p, dead, handler)
    case ReadData => p
    case ExitHandlerReturns => Reaped(p)
    case PipeCloseCb => PipeClosedCb(p)
    case SigchldCloseCb => SigchldClosedCb(p)
  }

  ghost predicate Follows(p: Pty, q: Pty) {
    exists e :: (p.self ==> p.refs > 0) && Enabled(p, e) && q == Step(p, e)
  }

  ghost predicate Run(run: seq<Pty>) {
    && run != []
    && run[0] == SPAWNED
    && forall i | 0 <= i < |run| - 1 :: Follows(run[i], run[i + 1])
  }

  predicate Ok(p: Pty) {
    && (p.pipeClosed <==> p.pipe == Closed)
    && (p.sigchldClosed <==> p.sigchld == Closed)
    && (p.closed <==> p.pipeClosed && p.sigchldClosed)
    && (p.self <==> p.pipe == Open)
    && (p.self <==> p.sigchld == Open)
    && (p.self ==> p.refs > 0)
    && (p.finalized <==> p.refs == 0)
    && (p.reaping ==> !p.closed)
    && p.frees == (if p.closed && p.finalized then 1 else 0)
    && (p.linked <==> p.frees == 0)
  }

  lemma StepKeeps(p: Pty, e: Event)
    requires Ok(p) && Enabled(p, e)
    ensures Ok(Step(p, e))
  {
    match e
    case Drop => ReleaseKeeps(p);
    case Close => CloseKeeps(p);
    case ExitHandlerReturns => ReapKeeps(p);
    case SigchldCb(dead, handler) => if dead && !p.exited && !handler { ReapKeeps(p.(exited := true)); }
    case ReadEnd(dead, handler) => if dead && !p.exited && !handler { ReapKeeps(p.(exited := true)); }
    case _ => hide Reaped, CloseOpDone, ReapTried;
  }

  lemma ReleaseKeeps(p: Pty)
    requires Ok(p) && UserRefs(p) > 0
    ensures Ok(Released(p))
  {
  }

  lemma CloseKeeps(p: Pty)
    requires Ok(p) && UserRefs(p) > 0
    ensures Ok(CloseOpDone(p))
  {
  }

  lemma ReapKeeps(p: Pty)
    requires Ok(p) && !p.closed
    ensures Ok(Reaped(p))
  {
  }

  lemma {:induction false} RunKeeps(run: seq<Pty>, i: nat)
    requires Run(run) && i < |run|
    ensures Ok(run[i])
  {
    if i > 0 {
      RunKeeps(run, i - 1);
      hide Ok, Enabled, Step;
      assert Follows(run[i - 1], run[i - 1 + 1]);
      var e :| (run[i - 1].self ==> run[i - 1].refs > 0) && Enabled(run[i - 1], e) && run[i] == Step(run[i - 1], e);
      StepKeeps(run[i - 1], e);
    }
  }

  /** Where the source goes on using the struct after giving up the self-reference, that did not free it. */
  lemma ReleaseLeavesStruct(run: seq<Pty>, i: nat)
    requires Run(run) && i < |run|
    ensures var p := run[i];
      && (p.self ==> p.refs > 0)
      && (p.reaping || p.pipe == Open || p.sigchld == Open ==> SelfReleased(p).frees == p.frees == 0)
      && (UserRefs(p) > 0 && !p.closed ==> SelfReleased(p).frees == p.frees == 0)
  {
    RunKeeps(run, i);
  }

  /** Freed once, when both close callbacks and the finalizer have run, in whatever order. */
  lemma FreedExactlyOnce(run: seq<Pty>, i: nat)
    requires Run(run) && i < |run|
    ensures run[i].frees == if run[i].pipeClosed && run[i].sigchldClosed && run[i].finalized then 1 else 0
    ensures run[i].linked <==> run[i].frees == 0
  {
    RunKeeps(run, i);
  }

  /** After the free no callback comes, no reference is left, and no exit handler is still to return into the struct. */
  lemma NothingAfterFree(run: seq<Pty>, i: nat, e: Event)
    requires Run(run) && i < |run| && Enabled(run[i], e)
    ensures run[i].frees == 0
  {
    RunKeeps(run, i);
  }

  /** The object is not finalized while the struct holds it, which it does until it asks both handles to close. */
  lemma HeldUntilClosing(run: seq<Pty>, i: nat)
    requires Run(run) && i < |run|
    ensures run[i].self ==> !run[i].finalized && run[i].pipe == Open && run[i].sigchld == Open
    ensures !run[i].self ==> run[i].pipe != Open && run[i].sigchld != Open
  {
    RunKeeps(run, i);
  }

  predicate FromOutside(e: Event) {
    e.SigchldCb? || e.ReadEnd? || e.ReadData?
  }

  /** When JavaScript and the loop are done with a pty, it was freed, unless its child lives on and it was never closed. */
  lemma FreedOrNeverClosed(run: seq<Pty>, i: nat)
    requires Run(run) && i < |run|
    requires forall e: Event :: !FromOutside(e) ==> !Enabled(run[i], e)
    ensures run[i].frees == 1 || (run[i].self && run[i].refs == 1 && run[i].pipe == Open && run[i].sigchld == Open)
  {
    RunKeeps(run, i);
    assert !Enabled(run[i], ExitHandlerReturns) && !Enabled(run[i], Drop);
    assert !Enabled(run[i], PipeCloseCb) && !Enabled(run[i], SigchldCloseCb);
  }
}
