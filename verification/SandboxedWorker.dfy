/**
 A sandboxed worker as two threads over two message pipes (sandboxed-worker/sandboxed-worker.c): constructor,
 handler, finalizer and thread exit, interleaved statement by statement with posting and receiving.
 */
module SandboxedWorker {
  import opened Wrappers
  import opened MessagePipe

  // ---- pipes and the pointers that hold them ----

  /** Named from the parent: its `recv_pipe` and its `send_pipe`. */
  datatype PipeId = ToParent | ToWorker

  /** Pointer variables that own a reference: constructor locals, thread arguments, object fields and ports. */
  datatype Holder =
    | LocalRecv | LocalSend
    | ArgsRecv | ArgsSend
    | DataRecv | DataSend
    | HandlerRecv | PortRecv

  /** The child receives what the parent sends, so the thread arguments are crossed. */
  function PipeOf(h: Holder): PipeId {
    match h
    case LocalRecv | ArgsSend | DataRecv | HandlerRecv => ToParent
    case LocalSend | ArgsRecv | DataSend | PortRecv => ToWorker
  }

  function HoldersOf(held: set<Holder>, id: PipeId): set<Holder> {
    set h | h in held && PipeOf(h) == id
  }

  lemma CountAdded(held: set<Holder>, h: Holder, id: PipeId)
    requires h !in held
    ensures |HoldersOf(held + {h}, id)| == |HoldersOf(held, id)| + (if PipeOf(h) == id then 1 else 0)
  {
    if PipeOf(h) == id {
      assert HoldersOf(held + {h}, id) == HoldersOf(held, id) + {h};
    } else {
      assert HoldersOf(held + {h}, id) == HoldersOf(held, id);
    }
  }

  lemma CountRemoved(held: set<Holder>, h: Holder, id: PipeId)
    requires h in held
    ensures |HoldersOf(held - {h}, id)| == |HoldersOf(held, id)| - (if PipeOf(h) == id then 1 else 0)
  {
    CountAdded(held - {h}, h, id);
    assert held - {h} + {h} == held;
  }

  // ---- where a thread stands ----

  datatype Pc =
    // parent, inside the constructor
    | NewRecv | NewSend | AllocArgs | DupArgsRecv | DupArgsSend | Spawn | NewObject | DupDataRecv | DupDataSend
    // parent, in JavaScript, in the setter, and with the object gone
    | Idle | DupHandler | Gone
    // worker
    | NotStarted | NewRuntime | NewContext | NewPort | DupPort | Running | Exited
    // either: inside a message routine, releasing pointers in order, destroying a pipe
    | InOp(id: PipeId, op: Op)
    | Free(todo: seq<Holder>, next: Pc)
    | Destroy(id: PipeId, todo: seq<Holder>, next: Pc)

  datatype State = State(parent: Pc, worker: Pc, held: set<Holder>, recv: Pipe, send: Pipe)

  const INITIAL: State := State(NewRecv, NotStarted, {}, NO_PIPE, NO_PIPE)

  function PcOf(s: State, t: Thread): Pc {
    if t == Parent then s.parent else s.worker
  }

  function Goto(s: State, t: Thread, pc: Pc): State {
    if t == Parent then s.(parent := pc) else s.(worker := pc)
  }

  function PipeAt(s: State, id: PipeId): Pipe {
    if id == ToParent then s.recv else s.send
  }

  function Put(s: State, id: PipeId, p: Pipe): State {
    if id == ToParent then s.(recv := p) else s.(send := p)
  }

  /** Where a thread goes when a message routine returns. */
  function Home(t: Thread): Pc {
    if t == Parent then Idle else Running
  }

  /** `sandbox_new_message_pipe` into the variable `h`. */
  function Create(s: State, h: Holder): State {
    Put(s, PipeOf(h), NEW_PIPE).(held := s.held + {h})
  }

  /** `h = sandbox_dup_message_pipe(...)`. */
  function Dup(s: State, h: Holder): State {
    var p := PipeAt(s, PipeOf(h));
    Put(s, PipeOf(h), p.(refs := p.refs + 1)).(held := s.held + {h})
  }

  /** `sandbox_free_message_pipe(h)`: nothing for a null pointer, else the count goes down, and at zero the pipe goes. */
  function Release(s: State, t: Thread, h: Holder, todo: seq<Holder>, next: Pc): State {
    if h !in s.held then Goto(s, t, Free(todo, next))
    else
      var p := PipeAt(s, PipeOf(h));
      var rest := Put(s, PipeOf(h), p.(refs := p.refs - 1)).(held := s.held - {h});
      Goto(rest, t, if p.refs - 1 == 0 then Destroy(PipeOf(h), todo, next) else Free(todo, next))
  }

  // ---- steps ----

  /** `ok` is the outcome of an allocation or of `pthread_create`, where the statement has one. */
  datatype Action =
    | Advance(t: Thread, ok: bool)
    | Post(t: Thread, m: Message)
    | Receive(t: Thread)
    | SetHandler(ok: bool)
    | UnsetHandler
    | Finalize
    | LeaveLoop

  function ParentAdvance(s: State, ok: bool): Option<State> {
    match s.parent
    case NewRecv => Some(Goto(if ok then Create(s, LocalRecv) else s, Parent, NewSend))
    case NewSend =>
      var made := if ok then Create(s, LocalSend) else s;
      Some(Goto(made, Parent,
        if LocalRecv in made.held && LocalSend in made.held then AllocArgs else Free([LocalRecv, LocalSend], Gone)))
    case AllocArgs => Some(Goto(s, Parent, if ok then DupArgsRecv else Free([LocalRecv, LocalSend], Gone)))
    case DupArgsRecv => Some(Goto(Dup(s, ArgsRecv), Parent, DupArgsSend))
    case DupArgsSend => Some(Goto(Dup(s, ArgsSend), Parent, Spawn))
    case Spawn =>
      if ok then Some(s.(parent := NewObject, worker := NewRuntime))
      else Some(Goto(s, Parent, Free([LocalRecv, LocalSend, ArgsRecv, ArgsSend], Gone)))
    case NewObject => Some(Goto(s, Parent, if ok then DupDataRecv else Free([LocalRecv, LocalSend], Gone)))
    case DupDataRecv => Some(Goto(Dup(s, DataRecv), Parent, DupDataSend))
    case DupDataSend => Some(Goto(Dup(s, DataSend), Parent, Free([LocalRecv, LocalSend], Idle)))
    case DupHandler => Some(Goto(Dup(s, HandlerRecv), Parent, Idle))
    case _ => None
  }

  function WorkerAdvance(s: State, ok: bool): Option<State> {
    match s.worker
    case NewRuntime => Some(Goto(s, Worker, if ok then NewContext else Free([ArgsRecv, ArgsSend], Exited)))
    case NewContext => Some(Goto(s, Worker, if ok then NewPort else Free([ArgsRecv, ArgsSend], Exited)))
    case NewPort => Some(Goto(s, Worker, if ok then DupPort else Free([ArgsRecv, ArgsSend], Exited)))
    case DupPort => Some(Goto(Dup(s, PortRecv), Worker, Running))
    case _ => None
  }

  /** The next statement of a thread that is inside one of the C routines. */
  function AdvanceStep(s: State, t: Thread, ok: bool): Option<State> {
    match PcOf(s, t)
    case InOp(id, op) =>
      (match OpStep(PipeAt(s, id), t, op)
       case Blocked => None
       case Moved(p, next) =>
         Some(Goto(Put(s, id, p), t, if next.Some? then InOp(id, next.value) else Home(t))))
    case Free(todo, next) =>
      Some(if todo == [] then Goto(s, t, next) else Release(s, t, todo[0], todo[1..], next))
    case Destroy(id, todo, next) =>
      Some(Goto(Put(s, id, Destroyed(PipeAt(s, id))), t, Free(todo, next)))
    case _ => if t == Parent then ParentAdvance(s, ok) else WorkerAdvance(s, ok)
  }

  /** A step of the system, or None where the action is not possible. */
  function Step(s: State, a: Action): Option<State> {
    match a
    case Advance(t, ok) => AdvanceStep(s, t, ok)
    case Post(t, m) =>
      if PcOf(s, t) != Home(t) then None
      else Some(Goto(s, t, InOp(if t == Parent then ToWorker else ToParent, PostLock(m))))
    case Receive(Parent) =>
      if s.parent != Idle || HandlerRecv !in s.held then None
      else Some(Goto(s, Parent, InOp(ToParent, RecvLock)))
    case Receive(Worker) =>
      // `select` reports the port readable
      if s.worker != Running || PortRecv !in s.held || s.send.bytes == 0 then None
      else Some(Goto(s, Worker, InOp(ToWorker, RecvLock)))
    case SetHandler(ok) =>
      if s.parent != Idle then None
      else Some(if HandlerRecv in s.held || !ok then s else Goto(s, Parent, DupHandler))
    case UnsetHandler =>
      if s.parent != Idle then None
      else Some(if HandlerRecv in s.held then Goto(s, Parent, Free([HandlerRecv], Idle)) else s)
    case Finalize =>
      if s.parent != Idle then None
      else Some(Goto(s, Parent, Free([DataRecv, DataSend, HandlerRecv], Gone)))
    case LeaveLoop =>
      // `sandbox_poll` ends the loop only when the port list is empty
      if s.worker != Running || PortRecv in s.held then None
      else Some(Goto(s, Worker, Free([PortRecv, ArgsRecv, ArgsSend], Exited)))
  }

  /** A run: every state follows from the one before it by some action. */
  ghost predicate Run(run: seq<State>) {
    && run != []
    && run[0] == INITIAL
    && forall i | 0 <= i < |run| - 1 :: Follows(run[i], run[i + 1])
  }

  ghost predicate Follows(s: State, s': State) {
    exists a :: Step(s, a) == Some(s')
  }

  // ---- the invariant ----

  function ParentOwned(started: bool): set<Holder> {
    {LocalRecv, LocalSend, DataRecv, DataSend, HandlerRecv} + if started then {} else {ArgsRecv, ArgsSend}
  }

  const WORKER_OWNED: set<Holder> := {ArgsRecv, ArgsSend, PortRecv}

  function KeptAt(pc: Pc): set<Holder> {
    if pc == Idle then {DataRecv, DataSend} else {}
  }

  /** The pointers the parent owns, exactly, at each of its statements. */
  predicate ParentOk(pc: Pc, held: set<Holder>, started: bool) {
    var mine := held * ParentOwned(started);
    match pc
    case NewRecv => !started && mine == {}
    case NewSend => !started && mine <= {LocalRecv}
    case AllocArgs | DupArgsRecv => !started && mine == {LocalRecv, LocalSend}
    case DupArgsSend => !started && mine == {LocalRecv, LocalSend, ArgsRecv}
    case Spawn => !started && mine == {LocalRecv, LocalSend, ArgsRecv, ArgsSend}
    case NewObject | DupDataRecv => started && mine == {LocalRecv, LocalSend}
    case DupDataSend => started && mine == {LocalRecv, LocalSend, DataRecv}
    case Idle => started && mine - {HandlerRecv} == {DataRecv, DataSend}
    case DupHandler => started && mine == {DataRecv, DataSend}
    case InOp(ToWorker, op) => started && IsPost(op) && mine - {HandlerRecv} == {DataRecv, DataSend}
    case InOp(ToParent, op) => started && !IsPost(op) && mine == {DataRecv, DataSend, HandlerRecv}
    case Free(todo, next) => Releasing(mine, todo, next, started)
    case Destroy(_, todo, next) => Releasing(mine, todo, next, started)
    case Gone => mine == {}
    case _ => false
  }

  predicate Releasing(mine: set<Holder>, todo: seq<Holder>, next: Pc, started: bool) {
    && (next == Gone || (next == Idle && started))
    && KeptAt(next) <= mine
    && (forall h <- mine :: h in todo || h in KeptAt(next) || (next == Idle && h == HandlerRecv))
    && (forall h <- todo :: h in ParentOwned(started) - KeptAt(next))
  }

  predicate WorkerOk(pc: Pc, held: set<Holder>) {
    match pc
    case NotStarted => PortRecv !in held
    case NewRuntime | NewContext | NewPort | DupPort => held * WORKER_OWNED == {ArgsRecv, ArgsSend}
    case Running => WORKER_OWNED <= held
    case InOp(ToParent, op) => IsPost(op) && WORKER_OWNED <= held
    case InOp(ToWorker, op) => !IsPost(op) && WORKER_OWNED <= held
    case Free(todo, next) => Leaving(held, todo, next)
    case Destroy(_, todo, next) => Leaving(held, todo, next)
    case Exited => held * WORKER_OWNED == {}
    case _ => false
  }

  predicate Leaving(held: set<Holder>, todo: seq<Holder>, next: Pc) {
    && next == Exited
    && PortRecv !in held
    && (forall h <- held * WORKER_OWNED :: h in todo)
    && (forall h <- todo :: h in WORKER_OWNED)
  }

  function OpOn(pc: Pc, id: PipeId): Option<Op> {
    if pc.InOp? && pc.id == id then Some(pc.op) else None
  }

  predicate Destroying(pc: Pc, id: PipeId) {
    pc.Destroy? && pc.id == id
  }

  predicate NotBothDestroy(s: State, id: PipeId) {
    !(Destroying(s.parent, id) && Destroying(s.worker, id))
  }

  function ViewOf(s: State, id: PipeId): View {
    View(
      PipeAt(s, id),
      |HoldersOf(s.held, id)|,
      OpOn(s.parent, id),
      OpOn(s.worker, id),
      if Destroying(s.parent, id) then Some(Parent) else if Destroying(s.worker, id) then Some(Worker) else None)
  }

  /** A woken worker is the only reader of its pipe, so the byte that woke it is still there. */
  predicate StillAwake(s: State) {
    s.worker.InOp? && s.worker.id == ToWorker && (s.worker.op.RecvLock? || s.worker.op.RecvTest?) ==> s.send.bytes > 0
  }

  predicate NotYetMade(s: State) {
    && (s.parent == NewRecv ==> s.recv.life == Absent && s.send.life == Absent)
    && (s.parent == NewSend ==> s.send.life == Absent)
  }

  predicate ThreadsOk(s: State) {
    && ParentOk(s.parent, s.held, s.worker != NotStarted)
    && WorkerOk(s.worker, s.held)
    && NotBothDestroy(s, ToParent) && NotBothDestroy(s, ToWorker)
    && NotYetMade(s)
    && StillAwake(s)
  }

  predicate Ok(s: State) {
    ThreadsOk(s) && PipeOk(ViewOf(s, ToParent)) && PipeOk(ViewOf(s, ToWorker))
  }

  lemma AnyPipeOk(s: State, id: PipeId)
    requires Ok(s)
    ensures PipeOk(ViewOf(s, id))
  {
    hide ThreadsOk, PipeOk, ViewOf;
  }

  lemma HeldIsLive(s: State, h: Holder)
    requires Ok(s) && h in s.held
    ensures PipeAt(s, PipeOf(h)).life == Live && PipeAt(s, PipeOf(h)).refs > 0
    ensures ViewOf(s, PipeOf(h)).destroyer == None
  {
    hide ThreadsOk;
    assert h in HoldersOf(s.held, PipeOf(h));
  }

  /** A pipe that a thread is working on is held by that thread. */
  function Grip(t: Thread, id: PipeId): Holder {
    match (t, id)
    case (Parent, ToWorker) => DataSend
    case (Parent, ToParent) => HandlerRecv
    case (Worker, ToParent) => ArgsSend
    case (Worker, ToWorker) => PortRecv
  }

  lemma GripHeld(s: State, t: Thread, id: PipeId)
    requires ThreadsOk(s) && OpOn(PcOf(s, t), id).Some?
    ensures Grip(t, id) in s.held && PipeOf(Grip(t, id)) == id
  {
  }

  // ---- each kind of step ----

  lemma OpAdvances(s: State, t: Thread, ok: bool)
    requires Ok(s) && PcOf(s, t).InOp? && AdvanceStep(s, t, ok).Some?
    ensures Ok(AdvanceStep(s, t, ok).value)
  {
    hide ThreadsOk, PipeOk, HoldersOf;
    var id, op := PcOf(s, t).id, PcOf(s, t).op;
    var s' := AdvanceStep(s, t, ok).value;
    GripHeld(s, t, id);
    HeldIsLive(s, Grip(t, id));
    OpKeeps(ViewOf(s, id), t, op);
    var r := OpStep(PipeAt(s, id), t, op);
    assert ViewOf(s', id) == WithOp(ViewOf(s, id).(pipe := r.pipe), t, r.next);
    var other := if id == ToParent then ToWorker else ToParent;
    assert ViewOf(s', other) == ViewOf(s, other);
    assert PipeOk(ViewOf(s', id)) && PipeOk(ViewOf(s', other));
    OpThreads(s, t, ok);
  }

  lemma OpThreads(s: State, t: Thread, ok: bool)
    requires ThreadsOk(s) && PcOf(s, t).InOp? && AdvanceStep(s, t, ok).Some?
    ensures ThreadsOk(AdvanceStep(s, t, ok).value)
  {
  }

  lemma DupKeeps(s: State, h: Holder, id: PipeId)
    requires Ok(s) && h !in s.held && exists g :: g in s.held && PipeOf(g) == PipeOf(h)
    ensures PipeOk(ViewOf(Dup(s, h), id))
  {
    hide ThreadsOk, HoldersOf;
    var g :| g in s.held && PipeOf(g) == PipeOf(h);
    HeldIsLive(s, g);
    CountAdded(s.held, h, id);
    AnyPipeOk(s, id);
  }

  lemma CreateKeeps(s: State, h: Holder, id: PipeId)
    requires Ok(s) && PipeAt(s, PipeOf(h)).life == Absent
    ensures PipeOk(ViewOf(Create(s, h), id))
  {
    hide ThreadsOk;
    AnyPipeOk(s, PipeOf(h));
    AnyPipeOk(s, id);
    assert h !in s.held by {
      if h in s.held { HeldIsLive(s, h); }
    }
    CountAdded(s.held, h, id);
  }

  /** A thread that releases one holder leaves the pipe to any other holder, or is the last and finds it unused. */
  lemma ReleaseKeeps(s: State, t: Thread, h: Holder, todo: seq<Holder>, next: Pc, id: PipeId)
    requires Ok(s) && h in s.held && PcOf(s, t) == Free([h] + todo, next) && next in {Idle, Gone, Exited}
    requires h != Grip(Other(t), PipeOf(h)) || OpOn(PcOf(s, Other(t)), PipeOf(h)).None?
    ensures PipeOk(ViewOf(Release(s, t, h, todo, next), id))
  {
    hide ThreadsOk, PipeOk, HoldersOf;
    var own := PipeOf(h);
    if id != own {
      HoldersElsewhere(s.held, h, id);
      assert ViewOf(Release(s, t, h, todo, next), id) == ViewOf(s, id);
      AnyPipeOk(s, id);
    } else {
      LastHolder(s, t, h);
      HeldIsLive(s, h);
      AnyPipeOk(s, own);
      CountRemoved(s.held, h, own);
      assert ViewOf(Release(s, t, h, todo, next), own) == Dropped(ViewOf(s, own), t);
      DropKeeps(ViewOf(s, own), t);
    }
  }

  lemma HoldersElsewhere(held: set<Holder>, h: Holder, id: PipeId)
    requires h in held && PipeOf(h) != id
    ensures |HoldersOf(held - {h}, id)| == |HoldersOf(held, id)|
  {
    CountRemoved(held, h, id);
  }

  /** When a thread is about to drop the last reference, no thread is inside the pipe's routines. */
  lemma LastHolder(s: State, t: Thread, h: Holder)
    requires Ok(s) && h in s.held && PcOf(s, t).Free?
    requires h != Grip(Other(t), PipeOf(h)) || OpOn(PcOf(s, Other(t)), PipeOf(h)).None?
    ensures |HoldersOf(s.held, PipeOf(h))| == 1 ==> OpOn(s.parent, PipeOf(h)).None? && OpOn(s.worker, PipeOf(h)).None?
  {
    var id := PipeOf(h);
    if OpOn(PcOf(s, Other(t)), id).Some? {
      var grip := Grip(Other(t), id);
      GripHeld(s, Other(t), id);
      hide ThreadsOk, PipeOk;
      assert {h, grip} <= HoldersOf(s.held, id);
      TwoIn(HoldersOf(s.held, id), h, grip);
    }
  }

  lemma TwoIn<T>(s: set<T>, a: T, b: T)
    requires a in s && b in s && a != b
    ensures |s| >= 2
  {
    assert |s - {a} - {b}| >= 0;
  }

  function Other(t: Thread): Thread {
    if t == Parent then Worker else Parent
  }

  lemma FreeNothing(s: State, t: Thread)
    requires ThreadsOk(s) && PcOf(s, t).Free? && PcOf(s, t).todo == []
    ensures ThreadsOk(Goto(s, t, PcOf(s, t).next))
  {
  }

  lemma ParentFrees(pc: Pc, held: set<Holder>, started: bool, id: PipeId)
    requires ParentOk(pc, held, started) && pc.Free? && pc.todo != []
    ensures var held' := held - {pc.todo[0]};
      && ParentOk(Free(pc.todo[1..], pc.next), held', started)
      && ParentOk(Destroy(id, pc.todo[1..], pc.next), held', started)
  {
    var todo := pc.todo;
    assert todo == [todo[0]] + todo[1..] && todo[0] in todo;
    assert (held - {todo[0]}) * ParentOwned(started) == held * ParentOwned(started) - {todo[0]};
  }

  lemma WorkerFrees(pc: Pc, held: set<Holder>, id: PipeId)
    requires WorkerOk(pc, held) && pc.Free? && pc.todo != []
    ensures var held' := held - {pc.todo[0]};
      && WorkerOk(Free(pc.todo[1..], pc.next), held')
      && WorkerOk(Destroy(id, pc.todo[1..], pc.next), held')
  {
    var todo := pc.todo;
    assert todo == [todo[0]] + todo[1..] && todo[0] in todo;
    assert (held - {todo[0]}) * WORKER_OWNED == held * WORKER_OWNED - {todo[0]};
  }

  lemma ParentIndifferent(pc: Pc, held: set<Holder>, h: Holder)
    requires ParentOk(pc, held, true) && h in WORKER_OWNED
    ensures ParentOk(pc, held - {h}, true) && ParentOk(pc, held + {h}, true)
  {
    assert (held - {h}) * ParentOwned(true) == held * ParentOwned(true);
    assert (held + {h}) * ParentOwned(true) == held * ParentOwned(true);
  }

  lemma WorkerIndifferent(pc: Pc, held: set<Holder>, h: Holder)
    requires WorkerOk(pc, held) && h in ParentOwned(pc != NotStarted)
    ensures WorkerOk(pc, held - {h}) && WorkerOk(pc, held + {h})
  {
    if pc != NotStarted {
      assert (held - {h}) * WORKER_OWNED == held * WORKER_OWNED;
      assert (held + {h}) * WORKER_OWNED == held * WORKER_OWNED;
    }
  }

  lemma FreeOwner(s: State, t: Thread)
    requires ThreadsOk(s) && PcOf(s, t).Free? && PcOf(s, t).todo != []
    ensures var h := PcOf(s, t).todo[0];
      if t == Parent then h in ParentOwned(s.worker != NotStarted) else h in WORKER_OWNED && s.worker != NotStarted
  {
    hide StillAwake, NotYetMade, NotBothDestroy;
    var h := PcOf(s, t).todo[0];
    assert h in PcOf(s, t).todo;
    if t == Parent {
      assert Releasing(s.held * ParentOwned(s.worker != NotStarted), s.parent.todo, s.parent.next, s.worker != NotStarted);
    } else {
      assert Leaving(s.held, s.worker.todo, s.worker.next);
    }
  }

  lemma FreeSome(s: State, t: Thread)
    requires ThreadsOk(s) && PcOf(s, t).Free? && PcOf(s, t).todo != []
    requires PcOf(s, t).todo[0] in s.held ==> !Destroying(PcOf(s, Other(t)), PipeOf(PcOf(s, t).todo[0]))
    ensures ThreadsOk(Release(s, t, PcOf(s, t).todo[0], PcOf(s, t).todo[1..], PcOf(s, t).next))
  {
    var pc := PcOf(s, t);
    var h := pc.todo[0];
    FreeOwner(s, t);
    if h !in s.held { assert s.held - {h} == s.held; }
    if t == Parent {
      ParentFrees(pc, s.held, s.worker != NotStarted, PipeOf(h));
      WorkerIndifferent(s.worker, s.held, h);
      hide ParentOk, WorkerOk;
    } else {
      WorkerFrees(pc, s.held, PipeOf(h));
      WorkerGoesOn(s);
      ParentIndifferent(s.parent, s.held, h);
      hide ParentOk, WorkerOk;
    }
  }

  /** Once the worker releases pointers it is past its message routines and the parent past its first statements. */
  lemma WorkerGoesOn(s: State)
    requires ThreadsOk(s) && s.worker.Free?
    ensures s.worker.next == Exited && s.parent != NewRecv && s.parent != NewSend
  {
    hide StillAwake, NotBothDestroy, NotYetMade;
  }

  lemma FreeThreads(s: State, t: Thread)
    requires Ok(s) && PcOf(s, t).Free? && PcOf(s, t).todo != []
    ensures ThreadsOk(Release(s, t, PcOf(s, t).todo[0], PcOf(s, t).todo[1..], PcOf(s, t).next))
  {
    hide ThreadsOk, PipeOk, HoldersOf;
    var h := PcOf(s, t).todo[0];
    if h in s.held { HeldIsLive(s, h); }
    FreeSome(s, t);
  }

  lemma FreeContext(s: State, t: Thread)
    requires ThreadsOk(s) && PcOf(s, t).Free?
    ensures PcOf(s, t).next in {Idle, Gone, Exited}
    ensures forall h <- PcOf(s, t).todo ::
      h != Grip(Other(t), PipeOf(h)) || OpOn(PcOf(s, Other(t)), PipeOf(h)).None?
  {
    hide StillAwake, NotYetMade, NotBothDestroy;
  }

  lemma FreeAdvances(s: State, t: Thread, ok: bool)
    requires Ok(s) && PcOf(s, t).Free?
    ensures Ok(AdvanceStep(s, t, ok).value)
  {
    hide ThreadsOk, PipeOk, HoldersOf;
    var todo, next := PcOf(s, t).todo, PcOf(s, t).next;
    FreeContext(s, t);
    if todo == [] {
      FreeNothing(s, t);
      SameViews(s, Goto(s, t, next));
    } else {
      FreeThreads(s, t);
      assert todo == [todo[0]] + todo[1..];
      if todo[0] in s.held {
        ReleaseKeeps(s, t, todo[0], todo[1..], next, ToParent);
        ReleaseKeeps(s, t, todo[0], todo[1..], next, ToWorker);
      } else {
        SameViews(s, Release(s, t, todo[0], todo[1..], next));
      }
    }
  }

  /** Steps that leave the pipes, the holders and the threads' places in them alone. */
  lemma SameViews(s: State, s': State)
    requires Ok(s) && s'.recv == s.recv && s'.send == s.send && s'.held == s.held
    requires forall id :: OpOn(s'.parent, id) == OpOn(s.parent, id) && OpOn(s'.worker, id) == OpOn(s.worker, id)
    requires forall id :: Destroying(s'.parent, id) == Destroying(s.parent, id)
    requires forall id :: Destroying(s'.worker, id) == Destroying(s.worker, id)
    ensures PipeOk(ViewOf(s', ToParent)) && PipeOk(ViewOf(s', ToWorker))
  {
    hide ThreadsOk, PipeOk, HoldersOf, OpOn, Destroying;
    assert ViewOf(s', ToParent) == ViewOf(s, ToParent) && ViewOf(s', ToWorker) == ViewOf(s, ToWorker);
  }

  lemma DestroyAdvances(s: State, t: Thread, ok: bool)
    requires Ok(s) && PcOf(s, t).Destroy?
    ensures Ok(AdvanceStep(s, t, ok).value)
  {
    hide ThreadsOk, PipeOk, HoldersOf;
    var id := PcOf(s, t).id;
    var s' := AdvanceStep(s, t, ok).value;
    DestroyThreads(s, t);
    AnyPipeOk(s, id);
    DestroyKeeps(ViewOf(s, id));
    var other := if id == ToParent then ToWorker else ToParent;
    AnyPipeOk(s, other);
    assert ViewOf(s', other) == ViewOf(s, other);
    assert ViewOf(s', id) == ViewOf(s, id).(pipe := Destroyed(PipeAt(s, id)), destroyer := None);
  }

  lemma OneDestroyer(s: State, t: Thread)
    requires ThreadsOk(s) && PcOf(s, t).Destroy?
    ensures !Destroying(PcOf(s, Other(t)), PcOf(s, t).id)
  {
    hide ParentOk, WorkerOk, StillAwake, NotYetMade;
  }

  lemma DestroyThreads(s: State, t: Thread)
    requires Ok(s) && PcOf(s, t).Destroy?
    ensures !Destroying(PcOf(s, Other(t)), PcOf(s, t).id)
    ensures var id := PcOf(s, t).id;
      ThreadsOk(Goto(Put(s, id, Destroyed(PipeAt(s, id))), t, Free(PcOf(s, t).todo, PcOf(s, t).next)))
  {
    hide ThreadsOk, PipeOk, HoldersOf;
    OneDestroyer(s, t);
    NobodyInside(s, PcOf(s, t).id);
    DestroyedThreads(s, t);
  }

  lemma DestroyedThreads(s: State, t: Thread)
    requires ThreadsOk(s) && PcOf(s, t).Destroy?
    requires var id := PcOf(s, t).id; OpOn(s.worker, id) == None && PipeAt(s, id).life == Live
    ensures var id := PcOf(s, t).id;
      ThreadsOk(Goto(Put(s, id, Destroyed(PipeAt(s, id))), t, Free(PcOf(s, t).todo, PcOf(s, t).next)))
  {
    SameDuty(PcOf(s, t), s.held, s.worker != NotStarted);
    if t == Worker { NotStartedStays(s); }
    hide ParentOk, WorkerOk;
  }

  lemma NotStartedStays(s: State)
    requires ThreadsOk(s) && s.worker.Destroy?
    ensures s.worker != NotStarted && s.parent != NewRecv && s.parent != NewSend
  {
  }

  lemma SameDuty(pc: Pc, held: set<Holder>, started: bool)
    requires pc.Destroy?
    ensures ParentOk(pc, held, started) ==> ParentOk(Free(pc.todo, pc.next), held, started)
    ensures WorkerOk(pc, held) ==> WorkerOk(Free(pc.todo, pc.next), held)
  {
    hide Releasing, Leaving;
  }

  lemma NobodyInside(s: State, id: PipeId)
    requires Ok(s) && ViewOf(s, id).destroyer.Some?
    ensures OpOn(s.parent, id) == None && OpOn(s.worker, id) == None && PipeAt(s, id).life == Live
  {
    hide ThreadsOk, HoldersOf;
  }

  predicate Plain(pc: Pc) {
    !pc.InOp? && !pc.Destroy?
  }

  lemma QuietMove(s: State, t: Thread, pc: Pc)
    requires Plain(PcOf(s, t)) && Plain(pc)
    ensures ViewOf(Goto(s, t, pc), ToParent) == ViewOf(s, ToParent)
    ensures ViewOf(Goto(s, t, pc), ToWorker) == ViewOf(s, ToWorker)
  {
    hide HoldersOf;
  }

  lemma DupMove(s: State, t: Thread, h: Holder, g: Holder, pc: Pc)
    requires Ok(s) && h !in s.held && g in s.held && PipeOf(g) == PipeOf(h)
    requires Plain(PcOf(s, t)) && Plain(pc)
    ensures var s' := Goto(Dup(s, h), t, pc);
      PipeOk(ViewOf(s', ToParent)) && PipeOk(ViewOf(s', ToWorker))
  {
    hide ThreadsOk, PipeOk, ViewOf;
    DupKeeps(s, h, ToParent);
    DupKeeps(s, h, ToWorker);
    QuietMove(Dup(s, h), t, pc);
  }

  lemma CreateMove(s: State, h: Holder, pc: Pc)
    requires Ok(s) && PipeAt(s, PipeOf(h)).life == Absent && Plain(s.parent) && Plain(pc)
    ensures var s' := Goto(Create(s, h), Parent, pc);
      PipeOk(ViewOf(s', ToParent)) && PipeOk(ViewOf(s', ToWorker))
  {
    hide ThreadsOk, PipeOk, ViewOf;
    CreateKeeps(s, h, ToParent);
    CreateKeeps(s, h, ToWorker);
    QuietMove(Create(s, h), Parent, pc);
  }

  lemma PlainMove(s: State, t: Thread, pc: Pc)
    requires Ok(s) && Plain(PcOf(s, t)) && Plain(pc)
    ensures PipeOk(ViewOf(Goto(s, t, pc), ToParent)) && PipeOk(ViewOf(Goto(s, t, pc), ToWorker))
  {
    hide ThreadsOk, PipeOk, ViewOf;
    QuietMove(s, t, pc);
  }

  lemma ParentPipes(s: State, ok: bool)
    requires Ok(s) && Plain(s.parent) && ParentAdvance(s, ok).Some?
    ensures var s' := ParentAdvance(s, ok).value;
      PipeOk(ViewOf(s', ToParent)) && PipeOk(ViewOf(s', ToWorker))
  {
    hide ThreadsOk, PipeOk, ViewOf, HoldersOf, Dup, Create, Goto;
    ParentFacts(s);
    match s.parent
    case NewRecv => if ok { CreateMove(s, LocalRecv, NewSend); } else { PlainMove(s, Parent, NewSend); }
    case NewSend => NewSendPipes(s, ok);
    case AllocArgs => PlainMove(s, Parent, if ok then DupArgsRecv else Free([LocalRecv, LocalSend], Gone));
    case DupArgsRecv => DupMove(s, Parent, ArgsRecv, LocalSend, DupArgsSend);
    case DupArgsSend => DupMove(s, Parent, ArgsSend, LocalRecv, Spawn);
    case Spawn =>
      if ok {
        SpawnViews(s);
      } else {
        PlainMove(s, Parent, Free([LocalRecv, LocalSend, ArgsRecv, ArgsSend], Gone));
      }
    case NewObject => PlainMove(s, Parent, if ok then DupDataRecv else Free([LocalRecv, LocalSend], Gone));
    case DupDataRecv => DupMove(s, Parent, DataRecv, LocalRecv, DupDataSend);
    case DupDataSend => DupMove(s, Parent, DataSend, LocalSend, Free([LocalRecv, LocalSend], Idle));
    case DupHandler => DupMove(s, Parent, HandlerRecv, DataRecv, Idle);
  }

  lemma NewSendPipes(s: State, ok: bool)
    requires Ok(s) && s.parent == NewSend && s.send.life == Absent
    ensures var s' := ParentAdvance(s, ok).value;
      PipeOk(ViewOf(s', ToParent)) && PipeOk(ViewOf(s', ToWorker))
  {
    hide ThreadsOk, PipeOk, ViewOf, HoldersOf, Create, Goto;
    var made := if ok then Create(s, LocalSend) else s;
    var pc := if LocalRecv in made.held && LocalSend in made.held then AllocArgs else Free([LocalRecv, LocalSend], Gone);
    if ok { CreateMove(s, LocalSend, pc); } else { PlainMove(s, Parent, pc); }
  }

  /** What a constructor statement relies on: which pointers it has and which pipe is still to be made. */
  lemma ParentFacts(s: State)
    requires ThreadsOk(s)
    ensures s.parent == NewRecv ==> s.recv.life == Absent
    ensures s.parent == NewSend ==> s.send.life == Absent
    ensures s.parent in {DupArgsRecv, DupArgsSend, NewObject, DupDataRecv, DupDataSend} ==>
      LocalRecv in s.held && LocalSend in s.held
    ensures s.parent == DupArgsRecv ==> ArgsRecv !in s.held
    ensures s.parent == DupArgsSend ==> ArgsSend !in s.held
    ensures s.parent == DupDataRecv ==> DataRecv !in s.held
    ensures s.parent == DupDataSend ==> DataSend !in s.held
    ensures s.parent == DupHandler ==> HandlerRecv !in s.held && DataRecv in s.held
    ensures s.parent == Spawn ==> s.worker == NotStarted
  {
    hide StillAwake, NotBothDestroy, WorkerOk;
    MineIs(s.held, s.worker != NotStarted);
  }

  lemma MineIs(held: set<Holder>, started: bool)
    ensures forall h <- ParentOwned(started) :: h in held <==> h in held * ParentOwned(started)
    ensures {LocalRecv, LocalSend, DataRecv, DataSend, HandlerRecv} <= ParentOwned(started)
    ensures !started ==> {ArgsRecv, ArgsSend} <= ParentOwned(started)
  {
  }

  lemma SpawnViews(s: State)
    requires Ok(s) && Plain(s.parent) && Plain(s.worker)
    ensures var s' := s.(parent := NewObject, worker := NewRuntime);
      PipeOk(ViewOf(s', ToParent)) && PipeOk(ViewOf(s', ToWorker))
  {
    hide ThreadsOk, PipeOk, ViewOf;
    QuietMove(s, Parent, NewObject);
    QuietMove(Goto(s, Parent, NewObject), Worker, NewRuntime);
  }

  /** A constructor or setter statement, seen from the pointers alone. */
  lemma ParentStatement(pc: Pc, held: set<Holder>)
    ensures pc == NewRecv && ParentOk(pc, held, false) ==>
      ParentOk(NewSend, held, false) && ParentOk(NewSend, held + {LocalRecv}, false)
    ensures pc == NewSend && ParentOk(pc, held, false) ==>
      && ParentOk(Free([LocalRecv, LocalSend], Gone), held, false)
      && ParentOk(Free([LocalRecv, LocalSend], Gone), held + {LocalSend}, false)
      && (LocalRecv in held ==> ParentOk(AllocArgs, held + {LocalSend}, false))
  {
    assert held * ParentOwned(false) + {LocalRecv} == (held + {LocalRecv}) * ParentOwned(false);
    assert held * ParentOwned(false) + {LocalSend} == (held + {LocalSend}) * ParentOwned(false);
  }

  lemma DupArgsStatement(pc: Pc, held: set<Holder>)
    ensures pc == DupArgsRecv && ParentOk(pc, held, false) ==> ParentOk(DupArgsSend, held + {ArgsRecv}, false)
    ensures pc == DupArgsSend && ParentOk(pc, held, false) ==> ParentOk(Spawn, held + {ArgsSend}, false)
  {
    assert (held + {ArgsRecv}) * ParentOwned(false) == held * ParentOwned(false) + {ArgsRecv};
    assert (held + {ArgsSend}) * ParentOwned(false) == held * ParentOwned(false) + {ArgsSend};
  }

  lemma DupDataStatement(pc: Pc, held: set<Holder>)
    ensures pc == DupDataRecv && ParentOk(pc, held, true) ==> ParentOk(DupDataSend, held + {DataRecv}, true)
    ensures pc == DupDataSend && ParentOk(pc, held, true) ==>
      ParentOk(Free([LocalRecv, LocalSend], Idle), held + {DataSend}, true)
  {
    assert (held + {DataRecv}) * ParentOwned(true) == held * ParentOwned(true) + {DataRecv};
    assert (held + {DataSend}) * ParentOwned(true) == held * ParentOwned(true) + {DataSend};
  }

  lemma DupHandlerStatement(pc: Pc, held: set<Holder>)
    ensures pc == DupHandler && ParentOk(pc, held, true) ==> ParentOk(Idle, held + {HandlerRecv}, true)
  {
    assert (held + {HandlerRecv}) * ParentOwned(true) == held * ParentOwned(true) + {HandlerRecv};
  }

  lemma DupThreads(s: State, h: Holder, pc: Pc)
    requires ThreadsOk(s) && Plain(pc) && pc != NewRecv && pc != NewSend && h in ParentOwned(s.worker != NotStarted)
    requires ParentOk(pc, s.held + {h}, s.worker != NotStarted)
    ensures ThreadsOk(Goto(Dup(s, h), Parent, pc))
  {
    WorkerIndifferent(s.worker, s.held, h);
    hide ParentOk, WorkerOk;
  }

  lemma CreateThreads(s: State, h: Holder, pc: Pc)
    requires ThreadsOk(s) && Plain(pc) && h in {LocalRecv, LocalSend} && pc != NewRecv
    requires pc == NewSend ==> s.send.life == Absent && h == LocalRecv
    requires h == LocalSend ==> s.worker == NotStarted
    requires ParentOk(pc, s.held + {h}, s.worker != NotStarted)
    ensures ThreadsOk(Goto(Create(s, h), Parent, pc))
  {
    WorkerIndifferent(s.worker, s.held, h);
    hide ParentOk, WorkerOk;
  }

  lemma PlainThreads(s: State, pc: Pc)
    requires ThreadsOk(s) && Plain(pc) && pc != NewRecv && (pc == NewSend ==> s.send.life == Absent)
    requires ParentOk(pc, s.held, s.worker != NotStarted)
    ensures ThreadsOk(Goto(s, Parent, pc))
  {
    hide ParentOk, WorkerOk;
  }

  /** The constructor statements that only test a result, seen from the pointers alone. */
  lemma TestStatement(pc: Pc, held: set<Holder>)
    ensures pc == AllocArgs && ParentOk(pc, held, false) ==>
      ParentOk(DupArgsRecv, held, false) && ParentOk(Free([LocalRecv, LocalSend], Gone), held, false)
    ensures pc == Spawn && ParentOk(pc, held, false) ==>
      ParentOk(Free([LocalRecv, LocalSend, ArgsRecv, ArgsSend], Gone), held, false)
    ensures pc == NewObject && ParentOk(pc, held, true) ==>
      ParentOk(DupDataRecv, held, true) && ParentOk(Free([LocalRecv, LocalSend], Gone), held, true)
  {
  }

  lemma ParentThreads(s: State, ok: bool)
    requires ThreadsOk(s) && Plain(s.parent) && ParentAdvance(s, ok).Some?
    ensures ThreadsOk(ParentAdvance(s, ok).value)
  {
    var pc := s.parent;
    ParentFacts(s);
    ParentStarted(s);
    ParentStatement(pc, s.held);
    DupArgsStatement(pc, s.held);
    DupDataStatement(pc, s.held);
    DupHandlerStatement(pc, s.held);
    TestStatement(pc, s.held);
    assert ParentOk(pc, s.held, s.worker != NotStarted);
    hide ThreadsOk, ParentOk, Dup, Create, Goto;
    match pc
    case NewRecv => if ok { CreateThreads(s, LocalRecv, NewSend); } else { PlainThreads(s, NewSend); }
    case NewSend =>
      var made := if ok then s.held + {LocalSend} else s.held;
      var next := if LocalRecv in made && LocalSend in made then AllocArgs else Free([LocalRecv, LocalSend], Gone);
      if ok {
        assert Create(s, LocalSend).held == made by { CreateHolds(s, LocalSend); }
        CreateThreads(s, LocalSend, next);
      } else {
        PlainThreads(s, next);
      }
    case AllocArgs => PlainThreads(s, if ok then DupArgsRecv else Free([LocalRecv, LocalSend], Gone));
    case DupArgsRecv => DupThreads(s, ArgsRecv, DupArgsSend);
    case DupArgsSend => DupThreads(s, ArgsSend, Spawn);
    case Spawn =>
      if ok {
        SpawnThreads(s);
      } else {
        PlainThreads(s, Free([LocalRecv, LocalSend, ArgsRecv, ArgsSend], Gone));
      }
    case NewObject => PlainThreads(s, if ok then DupDataRecv else Free([LocalRecv, LocalSend], Gone));
    case DupDataRecv => DupThreads(s, DataRecv, DupDataSend);
    case DupDataSend => DupThreads(s, DataSend, Free([LocalRecv, LocalSend], Idle));
    case DupHandler => DupThreads(s, HandlerRecv, Idle);
  }

  lemma CreateHolds(s: State, h: Holder)
    ensures Create(s, h).held == s.held + {h}
  {
  }

  lemma ParentStarted(s: State)
    requires ThreadsOk(s)
    ensures s.parent in {NewRecv, NewSend, AllocArgs, DupArgsRecv, DupArgsSend, Spawn} ==> s.worker == NotStarted
    ensures s.parent in {NewObject, DupDataRecv, DupDataSend, DupHandler} ==> s.worker != NotStarted
    ensures s.parent == NewSend ==> LocalSend !in s.held
  {
    hide WorkerOk, NotBothDestroy, StillAwake;
    MineIs(s.held, s.worker != NotStarted);
  }

  /** Spawning hands the two argument pointers over to the worker. */
  lemma SpawnThreads(s: State)
    requires ThreadsOk(s) && s.parent == Spawn
    ensures ThreadsOk(s.(parent := NewObject, worker := NewRuntime))
  {
    MineIs(s.held, false);
    MineIs(s.held, true);
    assert s.held * ParentOwned(true) == {LocalRecv, LocalSend};
  }

  lemma ParentAdvances(s: State, ok: bool)
    requires Ok(s) && Plain(s.parent) && ParentAdvance(s, ok).Some?
    ensures Ok(ParentAdvance(s, ok).value)
  {
    hide ThreadsOk, PipeOk, ViewOf, ParentAdvance;
    ParentThreads(s, ok);
    ParentPipes(s, ok);
  }

  lemma WorkerAdvances(s: State, ok: bool)
    requires Ok(s) && Plain(s.worker) && WorkerAdvance(s, ok).Some?
    ensures Ok(WorkerAdvance(s, ok).value)
  {
    WorkerThreads(s, ok);
    WorkerFacts(s);
    hide ThreadsOk, PipeOk, ViewOf, HoldersOf, Dup, Goto;
    match s.worker
    case NewRuntime => PlainMove(s, Worker, if ok then NewContext else Free([ArgsRecv, ArgsSend], Exited));
    case NewContext => PlainMove(s, Worker, if ok then NewPort else Free([ArgsRecv, ArgsSend], Exited));
    case NewPort => PlainMove(s, Worker, if ok then DupPort else Free([ArgsRecv, ArgsSend], Exited));
    case DupPort => DupMove(s, Worker, PortRecv, ArgsRecv, Running);
  }

  lemma WorkerFacts(s: State)
    requires ThreadsOk(s)
    ensures s.worker == DupPort ==> PortRecv !in s.held && ArgsRecv in s.held
  {
    hide StillAwake, NotBothDestroy, NotYetMade, ParentOk;
    assert PortRecv in s.held <==> PortRecv in s.held * WORKER_OWNED;
    assert ArgsRecv in s.held <==> ArgsRecv in s.held * WORKER_OWNED;
  }

  lemma WorkerStatement(pc: Pc, held: set<Holder>)
    ensures pc in {NewRuntime, NewContext, NewPort} && WorkerOk(pc, held) ==>
      && WorkerOk(Free([ArgsRecv, ArgsSend], Exited), held)
      && WorkerOk(NewContext, held) && WorkerOk(NewPort, held) && WorkerOk(DupPort, held)
    ensures pc == DupPort && WorkerOk(pc, held) ==> WorkerOk(Running, held + {PortRecv})
  {
    assert PortRecv in held <==> PortRecv in held * WORKER_OWNED;
  }

  lemma WorkerThreads(s: State, ok: bool)
    requires ThreadsOk(s) && WorkerAdvance(s, ok).Some?
    ensures ThreadsOk(WorkerAdvance(s, ok).value)
  {
    WorkerStatement(s.worker, s.held);
    ParentIndifferent(s.parent, s.held, PortRecv);
    hide ParentOk, WorkerOk, HoldersOf;
  }

  lemma AdvanceKeeps(s: State, t: Thread, ok: bool)
    requires Ok(s) && AdvanceStep(s, t, ok).Some?
    ensures Ok(AdvanceStep(s, t, ok).value)
  {
    hide Ok, ParentAdvance, WorkerAdvance, Release, Goto, OpStep, Destroyed;
    match PcOf(s, t)
    case InOp(_, _) => OpAdvances(s, t, ok);
    case Free(_, _) => FreeAdvances(s, t, ok);
    case Destroy(_, _, _) => DestroyAdvances(s, t, ok);
    case _ => if t == Parent { ParentAdvances(s, ok); } else { WorkerAdvances(s, ok); }
  }

  /** Entering a message routine: the pipe is live and the thread is not yet inside. */
  lemma EnterKeeps(s: State, t: Thread, id: PipeId, op: Op)
    requires Ok(s) && PcOf(s, t) == Home(t) && (op == RecvLock || op.PostLock?)
    requires Grip(t, id) in s.held && IsPost(op) == (id == if t == Parent then ToWorker else ToParent)
    requires t == Worker && op == RecvLock ==> s.send.bytes > 0
    ensures Ok(Goto(s, t, InOp(id, op)))
  {
    hide ThreadsOk, PipeOk, HoldersOf;
    var s' := Goto(s, t, InOp(id, op));
    var other := if id == ToParent then ToWorker else ToParent;
    EnterThreads(s, t, id, op);
    HeldIsLive(s, Grip(t, id));
    HolderCounts(s.held, Grip(t, id));
    AnyPipeOk(s, id);
    AnyPipeOk(s, other);
    EnterKeepsPipe(ViewOf(s, id), t, op);
    assert ViewOf(s', other) == ViewOf(s, other);
    assert ViewOf(s', id) == WithOp(ViewOf(s, id), t, Some(op));
  }

  lemma HolderCounts(held: set<Holder>, h: Holder)
    requires h in held
    ensures |HoldersOf(held, PipeOf(h))| > 0
  {
    assert h in HoldersOf(held, PipeOf(h));
  }

  lemma EnterThreads(s: State, t: Thread, id: PipeId, op: Op)
    requires ThreadsOk(s) && PcOf(s, t) == Home(t) && (op == RecvLock || op.PostLock?)
    requires Grip(t, id) in s.held && IsPost(op) == (id == if t == Parent then ToWorker else ToParent)
    requires t == Worker && op == RecvLock ==> s.send.bytes > 0
    ensures ThreadsOk(Goto(s, t, InOp(id, op)))
  {
    MineIs(s.held, true);
    hide HoldersOf;
  }

  lemma CallKeeps(s: State, a: Action)
    requires Ok(s) && !a.Advance? && Step(s, a).Some?
    ensures Ok(Step(s, a).value)
  {
    CallFacts(s, a);
    hide Ok, ThreadsOk, PipeOk, HoldersOf, Goto;
    match a
    case Post(t, m) => EnterKeeps(s, t, if t == Parent then ToWorker else ToParent, PostLock(m));
    case Receive(Parent) => EnterKeeps(s, Parent, ToParent, RecvLock);
    case Receive(Worker) => EnterKeeps(s, Worker, ToWorker, RecvLock);
    case SetHandler(ok) => if HandlerRecv !in s.held && ok { CallMove(s, DupHandler); }
    case UnsetHandler => if HandlerRecv in s.held { CallMove(s, Free([HandlerRecv], Idle)); }
    case Finalize => CallMove(s, Free([DataRecv, DataSend, HandlerRecv], Gone));
    case LeaveLoop =>
  }

  /** JavaScript on either side runs with the pointers it needs; the worker's port is on its list as long as it runs. */
  lemma CallFacts(s: State, a: Action)
    requires Ok(s)
    ensures s.parent == Idle ==> DataSend in s.held
    ensures s.worker == Running ==> ArgsSend in s.held && PortRecv in s.held
    ensures a == LeaveLoop ==> Step(s, a) == None
  {
    hide PipeOk, StillAwake, NotBothDestroy, NotYetMade, HoldersOf;
    MineIs(s.held, true);
    assert s.parent == Idle ==> DataSend in s.held * ParentOwned(true) - {HandlerRecv};
  }

  lemma CallMove(s: State, pc: Pc)
    requires Ok(s) && s.parent == Idle
    requires pc in {Free([HandlerRecv], Idle), Free([DataRecv, DataSend, HandlerRecv], Gone)}
      || (pc == DupHandler && HandlerRecv !in s.held)
    ensures Ok(Goto(s, Parent, pc))
  {
    PlainMove(s, Parent, pc);
    IdleMay(s.parent, s.held, s.worker != NotStarted);
    hide PipeOk, ViewOf, HoldersOf;
    PlainThreads(s, pc);
  }

  lemma IdleMay(pc: Pc, held: set<Holder>, started: bool)
    requires pc == Idle && ParentOk(pc, held, started)
    ensures ParentOk(Free([HandlerRecv], Idle), held, started)
    ensures ParentOk(Free([DataRecv, DataSend, HandlerRecv], Gone), held, started)
    ensures HandlerRecv !in held ==> ParentOk(DupHandler, held, started)
  {
    MineIs(held, started);
    var mine := held * ParentOwned(started);
    assert HandlerRecv !in held ==> mine - {HandlerRecv} == mine;
    assert forall h <- mine :: h == HandlerRecv || h in mine - {HandlerRecv};
    assert {DataRecv, DataSend} <= mine - {HandlerRecv};
  }

  lemma StepKeeps(s: State, a: Action)
    requires Ok(s) && Step(s, a).Some?
    ensures Ok(Step(s, a).value)
  {
    hide Ok, AdvanceStep;
    match a
    case Advance(t, ok) => AdvanceKeeps(s, t, ok);
    case _ => CallKeeps(s, a);
  }

  lemma {:induction false} RunKeeps(run: seq<State>, i: nat)
    requires Run(run) && i < |run|
    ensures Ok(run[i])
  {
    if i == 0 {
      assert HoldersOf({}, ToParent) == {} && HoldersOf({}, ToWorker) == {};
    } else {
      RunKeeps(run, i - 1);
      hide Ok, Step;
      assert Follows(run[i - 1], run[i - 1 + 1]);
      var a :| Step(run[i - 1], a) == Some(run[i]);
      StepKeeps(run[i - 1], a);
    }
  }

  // ---- what holds in every run ----

  /**
   Whenever the mutex is free the wake-up pipe holds one byte if messages are queued and none otherwise; it never
   holds more than one.
   */
  lemma WakeMatchesQueue(run: seq<State>, i: nat, id: PipeId)
    requires Run(run) && i < |run| && PipeAt(run[i], id).life == Live
    ensures PipeAt(run[i], id).bytes <= 1
    ensures PipeAt(run[i], id).owner == None ==>
      PipeAt(run[i], id).bytes == if PipeAt(run[i], id).queue == [] then 0 else 1
  {
    RunKeeps(run, i);
    hide ThreadsOk, Run, HoldersOf;
    AnyPipeOk(run[i], id);
  }

  /** A thread that holds a mutex can always execute its next statement, and each one brings the unlock closer. */
  lemma CriticalSectionEnds(run: seq<State>, i: nat, t: Thread, id: PipeId, ok: bool)
    requires Run(run) && i < |run| && PipeAt(run[i], id).owner == Some(t)
    ensures var s := run[i];
      && OpOn(PcOf(s, t), id).Some?
      && Step(s, Advance(t, ok)).Some?
      && var s' := Step(s, Advance(t, ok)).value;
        if OpOn(PcOf(s', t), id).Some?
        then StatementsToUnlock(OpOn(PcOf(s', t), id).value) < StatementsToUnlock(OpOn(PcOf(s, t), id).value) <= 4
        else PipeAt(s', id).owner == None
  {
    RunKeeps(run, i);
    var s := run[i];
    hide ThreadsOk, PipeOk, HoldersOf;
    AnyPipeOk(s, id);
    OwnerMoves(ViewOf(s, id), t);
  }

  /** Clearing the wake-up pipe never blocks: there is one byte to read. */
  lemma ClearNeverBlocks(run: seq<State>, i: nat, t: Thread, id: PipeId)
    requires Run(run) && i < |run| && OpOn(PcOf(run[i], t), id) == Some(RecvClear)
    ensures PipeAt(run[i], id).bytes == 1 && !ClearBlocks(PipeAt(run[i], id).bytes)
  {
    RunKeeps(run, i);
    OpIsLive(run[i], t, id);
    hide ThreadsOk, HoldersOf;
    AnyPipeOk(run[i], id);
  }

  lemma OpIsLive(s: State, t: Thread, id: PipeId)
    requires Ok(s) && (OpOn(PcOf(s, t), id).Some? || Destroying(PcOf(s, t), id))
    ensures PipeAt(s, id).life == Live
  {
    hide ThreadsOk, HoldersOf;
    AnyPipeOk(s, id);
    assert ViewOf(s, id).destroyer.Some? || OpOf(ViewOf(s, id), t).Some?;
  }

  /** A worker woken by `select` always finds a message. */
  lemma NoSpuriousWake(run: seq<State>, i: nat)
    requires Run(run) && i < |run| && run[i].worker == InOp(ToWorker, RecvTest)
    ensures run[i].send.queue != []
  {
    RunKeeps(run, i);
    hide ParentOk, WorkerOk, HoldersOf;
  }

  /** Messages leave in the order they were sent; each is delivered, queued, or freed with its pipe, and only one of these. */
  lemma MessagesConserved(run: seq<State>, i: nat, id: PipeId)
    requires Run(run) && i < |run|
    ensures var p := PipeAt(run[i], id);
      && p.sent == p.delivered + p.queue + p.freed
      && (p.life == Dead ==> p.queue == [])
      && (p.life != Dead ==> p.freed == [])
  {
    RunKeeps(run, i);
    hide ThreadsOk, HoldersOf;
    AnyPipeOk(run[i], id);
  }

  /** The count is the number of pointers, and a pipe has been destroyed, once, exactly when it was made and has none left. */
  lemma CountsHolders(run: seq<State>, i: nat, id: PipeId)
    requires Run(run) && i < |run|
    ensures var s := run[i]; var p := PipeAt(s, id);
      && p.refs == |HoldersOf(s.held, id)|
      && p.destroyed == (if p.life == Dead then 1 else 0)
      && (p.life == Live && p.refs == 0 <==> Destroying(s.parent, id) || Destroying(s.worker, id))
      && (p.life == Dead ==> p.refs == 0)
  {
    RunKeeps(run, i);
    hide ThreadsOk, HoldersOf;
    AnyPipeOk(run[i], id);
  }

  /** No statement touches a pipe that is gone: every pointer in use and every routine in progress is on a live pipe. */
  lemma NoUseAfterFree(run: seq<State>, i: nat, id: PipeId)
    requires Run(run) && i < |run| && PipeAt(run[i], id).life != Live
    ensures forall h <- run[i].held :: PipeOf(h) != id
    ensures forall t: Thread :: OpOn(PcOf(run[i], t), id).None? && !Destroying(PcOf(run[i], t), id)
  {
    var s := run[i];
    RunKeeps(run, i);
    hide Ok, Run, HoldersOf;
    forall h | h in s.held ensures PipeOf(h) != id {
      HeldIsLive(s, h);
    }
    forall t: Thread ensures OpOn(PcOf(s, t), id).None? && !Destroying(PcOf(s, t), id) {
      if OpOn(PcOf(s, t), id).Some? || Destroying(PcOf(s, t), id) { OpIsLive(s, t, id); }
    }
  }

  /** Both threads have come to their end, or the worker never began. */
  predicate Over(s: State) {
    s.parent == Gone && (s.worker == NotStarted || s.worker == Exited)
  }

  /** When both sides are over nothing is leaked: every pipe that was made has been destroyed once, with no pointer left. */
  lemma NothingLeaked(run: seq<State>, i: nat, id: PipeId)
    requires Run(run) && i < |run| && Over(run[i])
    ensures run[i].held == {}
    ensures PipeAt(run[i], id).life == Absent || (PipeAt(run[i], id).life == Dead && PipeAt(run[i], id).destroyed == 1)
  {
    var s := run[i];
    RunKeeps(run, i);
    OverHoldsNothing(s);
    hide ThreadsOk;
    AnyPipeOk(s, id);
    assert HoldersOf({}, id) == {};
  }

  lemma OverHoldsNothing(s: State)
    requires ThreadsOk(s) && Over(s)
    ensures s.held == {}
  {
    hide StillAwake, NotBothDestroy, NotYetMade;
    MineIs(s.held, s.worker != NotStarted);
    if s.worker == Exited {
      forall h | h in s.held ensures h in ParentOwned(true) || h in WORKER_OWNED { SomeoneOwns(h); }
      assert forall h <- s.held :: h in s.held * ParentOwned(true) || h in s.held * WORKER_OWNED;
    } else {
      forall h | h in s.held ensures h in s.held * ParentOwned(false) { SomeoneOwns(h); }
    }
  }

  /**
   A worker that has put its port on the list never leaves its loop: from then on, in every run, it keeps its three
   pointers, so neither pipe is ever destroyed.
   */
  lemma {:induction false} PortForever(run: seq<State>, i: nat, j: nat)
    requires Run(run) && i <= j < |run| && PortRecv in run[i].held
    ensures {PortRecv, ArgsRecv, ArgsSend} <= run[j].held
    ensures run[j].recv.life == Live && run[j].send.life == Live
    decreases j
  {
    hide ThreadsOk, PipeOk, ViewOf, Step, HoldersOf;
    if i < j {
      PortForever(run, i, j - 1);
      RunKeeps(run, j - 1);
      assert Follows(run[j - 1], run[j - 1 + 1]);
      var a :| Step(run[j - 1], a) == Some(run[j]);
      PortStays(run[j - 1], a);
    }
    RunKeeps(run, j);
    PortPipesLive(run[j]);
  }

  lemma PortPipesLive(s: State)
    requires Ok(s) && PortRecv in s.held
    ensures {PortRecv, ArgsRecv, ArgsSend} <= s.held
    ensures s.recv.life == Live && s.send.life == Live
  {
    WithPort(s);
    hide ThreadsOk, PipeOk, ViewOf, HoldersOf;
    HeldIsLive(s, ArgsSend);
    HeldIsLive(s, ArgsRecv);
  }

  lemma WithPort(s: State)
    requires ThreadsOk(s) && PortRecv in s.held
    ensures {PortRecv, ArgsRecv, ArgsSend} <= s.held && (s.worker == Running || s.worker.InOp?)
  {
    hide StillAwake, NotBothDestroy, NotYetMade, ParentOk;
    assert PortRecv in s.held * WORKER_OWNED;
  }

  lemma SomeoneOwns(h: Holder)
    ensures h in ParentOwned(true) || h in WORKER_OWNED
    ensures h in ParentOwned(false) || h == PortRecv
  {
    match h
    case LocalRecv | LocalSend | DataRecv | DataSend | HandlerRecv =>
    case _ =>
  }

  lemma PortStays(s: State, a: Action)
    requires Ok(s) && PortRecv in s.held && Step(s, a).Some?
    ensures PortRecv in Step(s, a).value.held
  {
    hide Ok, ThreadsOk, AdvanceStep, ParentOwned;
    match a
    case Advance(t, ok) =>
      NotReleasingPort(s, t);
      AdvanceHolds(s, t, ok);
    case _ => CallHolds(s, a);
  }

  lemma NotReleasingPort(s: State, t: Thread)
    requires Ok(s) && PortRecv in s.held
    ensures PcOf(s, t).Free? && PcOf(s, t).todo != [] ==> PcOf(s, t).todo[0] != PortRecv
  {
    WithPort(s);
    hide PipeOk, ViewOf;
    if PcOf(s, t).Free? && PcOf(s, t).todo != [] {
      FreeOwner(s, t);
    }
  }

  lemma CallHolds(s: State, a: Action)
    requires !a.Advance? && Step(s, a).Some?
    ensures Step(s, a).value.held == s.held
  {
  }

  /** Only a release takes a pointer away, and only the one it names. */
  lemma AdvanceHolds(s: State, t: Thread, ok: bool)
    requires AdvanceStep(s, t, ok).Some?
    ensures var s' := AdvanceStep(s, t, ok).value;
      if PcOf(s, t).Free? && PcOf(s, t).todo != [] then s.held - {PcOf(s, t).todo[0]} <= s'.held
      else s.held <= s'.held
  {
    hide OpStep, Destroyed, ParentAdvance, WorkerAdvance;
    match PcOf(s, t)
    case InOp(_, _) =>
    case Free(_, _) =>
    case Destroy(_, _, _) =>
    case _ =>
      ParentHolds(s, ok);
      WorkerHolds(s, ok);
  }

  lemma ParentHolds(s: State, ok: bool)
    ensures ParentAdvance(s, ok).Some? ==> s.held <= ParentAdvance(s, ok).value.held
  {
  }

  lemma WorkerHolds(s: State, ok: bool)
    ensures WorkerAdvance(s, ok).Some? ==> s.held <= WorkerAdvance(s, ok).value.held
  {
  }

  // ---- such runs exist ----

  lemma Extends(run: seq<State>, a: Action)
    requires Run(run) && Step(run[|run| - 1], a).Some?
    ensures Run(run + [Step(run[|run| - 1], a).value])
  {
    hide Step;
    var more := run + [Step(run[|run| - 1], a).value];
    forall i | 0 <= i < |more| - 1 ensures Follows(more[i], more[i + 1]) {
      if i < |run| - 1 { assert Follows(run[i], run[i + 1]); }
    }
  }

  /** The state after some actions, each of them possible. */
  function After(s: State, actions: seq<Action>): Option<State>
    decreases |actions|
  {
    if actions == [] then Some(s)
    else match Step(s, actions[0]) case None => None case Some(next) => After(next, actions[1..])
  }

  lemma {:induction false} RunAfter(run: seq<State>, actions: seq<Action>) returns (longer: seq<State>)
    requires Run(run) && After(run[|run| - 1], actions).Some?
    ensures Run(longer) && longer[|longer| - 1] == After(run[|run| - 1], actions).value
    decreases |actions|
  {
    hide Step;
    assert run != [];
    if actions == [] {
      longer := run;
    } else {
      Extends(run, actions[0]);
      longer := RunAfter(run + [Step(run[|run| - 1], actions[0]).value], actions[1..]);
    }
  }

  /** A constructor without failures and a worker that sets up its port. */
  const SETUP: State := State(NewObject, Running,
    {LocalRecv, LocalSend, ArgsRecv, ArgsSend, PortRecv}, NEW_PIPE.(refs := 2), NEW_PIPE.(refs := 3))

  lemma SetupIsReached() returns (run: seq<State>)
    ensures Run(run) && run[|run| - 1] == SETUP
  {
    var go := Advance(Parent, true);
    var work := Advance(Worker, true);
    assert Run([INITIAL]);
    ConstructorSteps(go);
    run := RunAfter([INITIAL], [go, go, go, go, go, go]);
    WorkerSteps(work);
    run := RunAfter(run, [work, work, work, work]);
  }

  const SPAWNED: State := State(NewObject, NewRuntime,
    {LocalRecv, LocalSend, ArgsRecv, ArgsSend}, NEW_PIPE.(refs := 2), NEW_PIPE.(refs := 2))

  lemma ConstructorSteps(go: Action)
    requires go == Advance(Parent, true)
    ensures After(INITIAL, [go, go, go, go, go, go]) == Some(SPAWNED)
  {
    var s1 := Step(INITIAL, go).value;
    var s2 := Step(s1, go).value;
    var s3 := Step(s2, go).value;
    var s4 := Step(s3, go).value;
    var s5 := Step(s4, go).value;
    assert s5.held == {LocalRecv, LocalSend, ArgsRecv, ArgsSend};
    assert Step(s5, go) == Some(SPAWNED);
    AfterOne(INITIAL, go, [go, go, go, go, go]);
    AfterOne(s1, go, [go, go, go, go]);
    AfterOne(s2, go, [go, go, go]);
    AfterOne(s3, go, [go, go]);
    AfterOne(s4, go, [go]);
    AfterOne(s5, go, []);
  }

  lemma WorkerSteps(work: Action)
    requires work == Advance(Worker, true)
    ensures After(SPAWNED, [work, work, work, work]) == Some(SETUP)
  {
    var s1 := Step(SPAWNED, work).value;
    var s2 := Step(s1, work).value;
    var s3 := Step(s2, work).value;
    assert s3.held + {PortRecv} == SETUP.held;
    assert Step(s3, work) == Some(SETUP);
    AfterOne(SPAWNED, work, [work, work, work]);
    AfterOne(s1, work, [work, work]);
    AfterOne(s2, work, [work]);
    AfterOne(s3, work, []);
  }

  lemma AfterOne(s: State, a: Action, rest: seq<Action>)
    requires Step(s, a).Some?
    ensures After(s, [a] + rest) == After(Step(s, a).value, rest)
  {
    hide Step;
    assert ([a] + rest)[1..] == rest;
  }

  /** So there are runs from which on, whatever happens, neither pipe ever goes. */
  lemma LeakHappens() returns (run: seq<State>)
    ensures Run(run) && PortRecv in run[|run| - 1].held
    ensures forall more, j | Run(run + more) && |run| <= j < |run + more| ::
      (run + more)[j].recv.life == Live && (run + more)[j].send.life == Live
  {
    run := SetupIsReached();
    forall more, j | Run(run + more) && |run| <= j < |run + more|
      ensures (run + more)[j].recv.life == Live && (run + more)[j].send.life == Live
    {
      PortForever(run + more, |run| - 1, j);
    }
  }
}
