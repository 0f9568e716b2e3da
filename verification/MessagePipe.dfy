/**
 One message pipe of a sandboxed worker (sandboxed-worker/sandboxed-worker.c): a mutex, a queue, a wake-up
 byte pipe and a reference count, used by two threads one statement at a time.
 */
module MessagePipe {
  import opened Wrappers

  // ---- the wake-up pipe ----

  datatype WriteOutcome = Wrote | TryAgain | Failed

  /** The outcome that ends the retry loop, if the loop ends. */
  function Decisive(outcomes: seq<WriteOutcome>): Option<WriteOutcome> {
    if outcomes == [] then None
    else if outcomes[0] == TryAgain then Decisive(outcomes[1..])
    else Some(outcomes[0])
  }

  const CHUNK: nat := 16

  /** Clearing reads sixteen bytes at a time until a short read, so it blocks on a whole number of chunks. */
  predicate ClearBlocks(bytes: nat) {
    bytes % CHUNK == 0
  }

  class Waker {
    var bytes: nat

    /** `sandbox_waker_signal`: one byte is written, interrupted writes are tried again. */
    method Signal(outcomes: seq<WriteOutcome>)
      requires Decisive(outcomes).Some?
      modifies this
      ensures bytes == old(bytes) + (if Decisive(outcomes).value == Wrote then 1 else 0)
    {
      var i := 0;
      while true
        invariant i <= |outcomes|
        invariant Decisive(outcomes[i..]) == Decisive(outcomes)
        invariant bytes == old(bytes)
        decreases |outcomes| - i
      {
        var outcome := outcomes[i];
        if outcome == Wrote {
          bytes := bytes + 1;
          break;
        }
        if outcome == Failed { break; }
        assert outcomes[i..][1..] == outcomes[i + 1..];
        i := i + 1;
      }
    }

    /** `sandbox_waker_clear`: empties the pipe; reading an empty pipe blocks. */
    method Clear() returns (blocked: bool)
      modifies this
      ensures bytes == 0
      ensures blocked <==> ClearBlocks(old(bytes))
    {
      while true
        invariant bytes % CHUNK == old(bytes) % CHUNK
        decreases bytes
      {
        if bytes == 0 { return true; }
        var got := if bytes < CHUNK then bytes else CHUNK;
        bytes := bytes - got;
        if got < CHUNK { return false; }
      }
    }
  }

  // ---- the pipe and the statements that touch it ----

  datatype Thread = Parent | Worker

  /** Messages are told apart by name only: their contents are copied, never looked at. */
  type Message = nat

  datatype Life = Absent | Live | Dead

  /** `sent`, `delivered`, `freed` and `destroyed` record history. */
  datatype Pipe = Pipe(
    life: Life,
    refs: int,
    owner: Option<Thread>,
    queue: seq<Message>,
    bytes: nat,
    sent: seq<Message>,
    delivered: seq<Message>,
    freed: seq<Message>,
    destroyed: nat)

  const NO_PIPE: Pipe := Pipe(Absent, 0, None, [], 0, [], [], [], 0)
  const NEW_PIPE: Pipe := Pipe(Live, 1, None, [], 0, [], [], [], 0)

  /** Where a thread stands inside `postMessage` or `sandbox_handle_posted_message`. */
  datatype Op =
    | PostLock(m: Message)
    | PostTest(m: Message)
    | PostSignal(m: Message)
    | PostAppend(m: Message)
    | PostUnlock
    | RecvLock
    | RecvTest
    | RecvRecheck
    | RecvClear
    | RecvUnlock(found: bool)

  predicate IsPost(op: Op) {
    op.PostLock? || op.PostTest? || op.PostSignal? || op.PostAppend? || op.PostUnlock?
  }

  /** The statements between lock and unlock, the unlock included. */
  predicate Locked(op: Op) {
    !op.PostLock? && !op.RecvLock?
  }

  datatype OpResult = Blocked | Moved(pipe: Pipe, next: Option<Op>)

  /** One statement of thread `t` on the pipe; `next` is None once the routine is done with the pipe. */
  function OpStep(p: Pipe, t: Thread, op: Op): OpResult {
    match op
    case PostLock(m) => if p.owner.Some? then Blocked else Moved(p.(owner := Some(t)), Some(PostTest(m)))
    case PostTest(m) => Moved(p, Some(if p.queue == [] then PostSignal(m) else PostAppend(m)))
    case PostSignal(m) => Moved(p.(bytes := p.bytes + 1), Some(PostAppend(m)))
    case PostAppend(m) => Moved(p.(queue := p.queue + [m], sent := p.sent + [m]), Some(PostUnlock))
    case PostUnlock => Moved(p.(owner := None), None)
    case RecvLock => if p.owner.Some? then Blocked else Moved(p.(owner := Some(t)), Some(RecvTest))
    case RecvTest =>
      if p.queue == [] then Moved(p, Some(RecvUnlock(false)))
      else Moved(p.(queue := p.queue[1..], delivered := p.delivered + [p.queue[0]]), Some(RecvRecheck))
    case RecvRecheck => Moved(p, Some(if p.queue == [] then RecvClear else RecvUnlock(true)))
    case RecvClear => if ClearBlocks(p.bytes) then Blocked else Moved(p.(bytes := 0), Some(RecvUnlock(true)))
    case RecvUnlock(_) => Moved(p.(owner := None), None)
  }

  /** `sandbox_free_message_pipe` after the count reached zero. */
  function Destroyed(p: Pipe): Pipe {
    p.(life := Dead, owner := None, queue := [], bytes := 0, freed := p.freed + p.queue, destroyed := p.destroyed + 1)
  }

  // ---- what every statement keeps ----

  /** A pipe together with all that points to it: holders, the threads inside its routines and its destroyer. */
  datatype View = View(
    pipe: Pipe,
    holders: nat,
    parent: Option<Op>,
    worker: Option<Op>,
    destroyer: Option<Thread>)

  function OpOf(v: View, t: Thread): Option<Op> {
    if t == Parent then v.parent else v.worker
  }

  function WithOp(v: View, t: Thread, op: Option<Op>): View {
    if t == Parent then v.(parent := op) else v.(worker := op)
  }

  /** Bytes in the wake-up pipe, given the queue and the statement the mutex owner is about to execute. */
  predicate Wake(queue: seq<Message>, bytes: nat, current: Option<Op>) {
    match current
    case Some(PostSignal(_)) => queue == [] && bytes == 0
    case Some(PostAppend(_)) => bytes == 1
    case Some(RecvRecheck) => bytes == 1
    case Some(RecvClear) => queue == [] && bytes == 1
    case _ => bytes == if queue == [] then 0 else 1
  }

  function Current(v: View): Option<Op> {
    match v.pipe.owner
    case None => None
    case Some(t) => OpOf(v, t)
  }

  predicate Idle(v: View) {
    v.pipe.owner == None && v.parent == None && v.worker == None
  }

  predicate PipeOk(v: View) {
    && v.pipe.refs == v.holders
    && v.pipe.sent == v.pipe.delivered + v.pipe.queue + v.pipe.freed
    && match v.pipe.life
       case Absent => v.pipe == NO_PIPE && v.destroyer == None && Idle(v)
       case Dead => v.holders == 0 && v.destroyer == None && Idle(v) && v.pipe.queue == [] && v.pipe.destroyed == 1
       case Live =>
         && v.pipe.destroyed == 0
         && v.pipe.freed == []
         && (v.holders == 0 <==> v.destroyer.Some?)
         && (v.holders == 0 ==> Idle(v))
         && Mutex(v)
         && Wake(v.pipe.queue, v.pipe.bytes, Current(v))
  }

  /** The owner is the one thread that stands between lock and unlock. */
  predicate Mutex(v: View) {
    && (v.pipe.owner == Some(Parent) <==> v.parent.Some? && Locked(v.parent.value))
    && (v.pipe.owner == Some(Worker) <==> v.worker.Some? && Locked(v.worker.value))
  }

  lemma OpKeeps(v: View, t: Thread, op: Op)
    requires PipeOk(v) && v.pipe.life == Live && OpOf(v, t) == Some(op)
    requires OpStep(v.pipe, t, op).Moved?
    ensures var r := OpStep(v.pipe, t, op);
      PipeOk(WithOp(v.(pipe := r.pipe), t, r.next)) && r.pipe.life == Live
  {
    var p := v.pipe;
    match op
    case PostAppend(m) => assert p.delivered + (p.queue + [m]) + [] == p.delivered + p.queue + [] + [m];
    case RecvTest =>
      if p.queue != [] {
        assert p.delivered + [p.queue[0]] + p.queue[1..] + [] == p.delivered + p.queue + [];
      }
    case _ =>
  }

  lemma EnterKeepsPipe(v: View, t: Thread, op: Op)
    requires PipeOk(v) && v.holders > 0 && OpOf(v, t) == None && !Locked(op)
    ensures PipeOk(WithOp(v, t, Some(op)))
  {
    hide Wake;
  }

  /** One reference fewer; the thread that drops the last one becomes the destroyer. */
  function Dropped(v: View, t: Thread): View
    requires v.holders > 0
  {
    v.(pipe := v.pipe.(refs := v.pipe.refs - 1), holders := v.holders - 1,
       destroyer := if v.pipe.refs - 1 == 0 then Some(t) else v.destroyer)
  }

  lemma DropKeeps(v: View, t: Thread)
    requires PipeOk(v) && v.holders > 0 && (v.holders == 1 ==> v.parent == None && v.worker == None)
    ensures PipeOk(Dropped(v, t))
  {
    hide Wake;
  }

  lemma DestroyKeeps(v: View)
    requires PipeOk(v) && v.destroyer.Some?
    ensures PipeOk(v.(pipe := Destroyed(v.pipe), destroyer := None))
  {
    var p := v.pipe;
    assert p.delivered + p.queue + [] == p.delivered + [] + ([] + p.queue);
  }

  /** Statements left until the mutex is free again. */
  function StatementsToUnlock(op: Op): nat {
    match op
    case PostTest(_) => 4
    case PostSignal(_) => 3
    case PostAppend(_) => 2
    case PostUnlock => 1
    case RecvTest => 4
    case RecvRecheck => 3
    case RecvClear => 2
    case RecvUnlock(_) => 1
    case _ => 0
  }

  /** A thread that holds the mutex is never blocked, clearing included, and is at most four statements from unlocking. */
  lemma OwnerMoves(v: View, t: Thread)
    requires PipeOk(v) && v.pipe.owner == Some(t)
    ensures OpOf(v, t).Some? && 1 <= StatementsToUnlock(OpOf(v, t).value) <= 4
    ensures var r := OpStep(v.pipe, t, OpOf(v, t).value);
      && r.Moved?
      && (r.next.Some? ==> StatementsToUnlock(r.next.value) < StatementsToUnlock(OpOf(v, t).value))
      && (r.next.None? ==> r.pipe.owner == None)
  {
  }
}
