/** The asynchronous writer of containers/core/containers_io.c: a client thread fills a ring of memory areas, a
    worker thread writes them, and two counting semaphores and a latched event keep them apart.  One action is one
    step of one thread, so a sequence of actions is one interleaving. */
module AsyncIo {
  import opened Common
  import IoCache

  /** What the file receives. */
  datatype FileOp = WriteOp(data: seq<Byte>) | SeekOp(offset: nat)

  /** What the client does once the current wait is over. */
  datatype After =
    | ResumeWrite            // flush of a full area inside a write
    | SeekFlushed(to: nat)   // flush at the start of a seek
    | SeekNow(to: nat)       // second wait of a seek
    | CloseNow               // flush at the start of a close

  datatype Client =
    | Idle
    | InWrite                          // in the loop of a write with bytes still to place
    | Posted(after: After)             // queue semaphore posted, event not signalled yet
    | Signalled(after: After)          // waiting for the next area
    | TakeOne                          // async_io_wait_complete(0)
    | GiveOne
    | Collecting(k: nat, after: After) // async_io_wait_complete(1), k spares held
    | Returning(k: nat, after: After)
    | Quitting                         // quit set, event not signalled yet
    | Joining
    | Closed

  datatype Worker = Waiting | Woken | Trying | Writing | Written | Released | Exited

  datatype State = State(
    n: nat, client: Client, worker: Worker,
    areas: seq<seq<Byte>>, cur: nat, writeArea: nat,
    spare: nat, queue: nat, event: bool, quit: bool, dirty: bool,
    intended: seq<FileOp>, performed: seq<FileOp>,
    placed: seq<FileOp>,   // what the client wrote, in any pieces, and its seeks
    start: nat, pos: nat)  // where the area of the client belongs in the file, and the cursor within it

  datatype Action =
    | BeginWrite | Fill(data: seq<Byte>) | EndWrite | FlushFull | Seek(to: nat) | Close
    | Signal | NextArea | Take | Give | Join
    | Wake | CheckQuit | TryQueue | PfWrite | Release | Advance

  /** async_io_start with n areas, the stream being at an offset: one area belongs to the client, n - 1 are spare. */
  function Init(n: nat, at: nat): State
    requires n >= 2
  {
    State(n, Idle, Waiting, seq(n, _ => []), 0, 0, n - 1, 0, false, false, false, [], [], [], at, 0)
  }

  /** i areas further round the ring. */
  function Area(n: nat, base: int, i: int): int
  {
    if base + i < n then base + i else base + i - n
  }

  /** What the client has put in its area since it got it. */
  function Collected(s: State): seq<Byte>
    requires s.cur < |s.areas|
  {
    if s.dirty then s.areas[s.cur] else []
  }

  function Post(s: State, after: After): State
    requires s.cur < |s.areas|
  {
    s.(client := Posted(after), queue := s.queue + 1, intended := s.intended + [WriteOp(s.areas[s.cur])],
       start := s.start + |s.areas[s.cur]|, pos := 0)
  }

  /** The end of a flush or wait: the cache is clean. */
  function Resume(s: State, after: After): State
  {
    var t := s.(dirty := false);
    match after
    case ResumeWrite => t.(client := InWrite)
    case SeekFlushed(to) => t.(client := Collecting(0, SeekNow(to)))
    case SeekNow(to) =>
      t.(client := Idle, intended := s.intended + [SeekOp(to)], performed := s.performed + [SeekOp(to)],
         placed := s.placed + [SeekOp(to)], start := to, pos := 0)
    case CloseNow => t.(client := Quitting, quit := true)
  }

  /** Steps of the client thread while it is free to choose: outside any call, or placing bytes in a write. */
  function CallStep(s: State, a: Action): Option<State>
    requires s.cur < |s.areas|
  {
    match (s.client, a)
    case (Idle, BeginWrite) => Some(s.(client := InWrite))
    case (InWrite, Fill(data)) =>
      if data == [] then None
      else Some(s.(areas := s.areas[s.cur := Splice(Collected(s), s.pos, data)], dirty := true,
                   pos := s.pos + |data|, placed := s.placed + [WriteOp(data)]))
    case (InWrite, EndWrite) => if s.dirty then Some(s.(client := Idle)) else None
    case (InWrite, FlushFull) =>
      if s.dirty && s.pos == |s.areas[s.cur]| then Some(Post(s, ResumeWrite)) else None
    case (Idle, Seek(to)) =>
      Some(if s.start <= to < s.start + |Collected(s)| then
             s.(pos := to - s.start, placed := s.placed + [SeekOp(to)])
           else if s.dirty then Post(s, SeekFlushed(to))
           else s.(client := Collecting(0, SeekNow(to))))
    case (Idle, Close) =>
      Some(if s.dirty then Post(s, CloseNow) else s.(client := Quitting, quit := true))
    case _ => None
  }

  /** Steps of the client thread inside async_io_write, async_io_wait_complete and async_io_stop. */
  function WaitStep(s: State, a: Action): Option<State>
  {
    match (s.client, a)
    case (Posted(after), Signal) => Some(s.(client := Signalled(after), event := true))
    case (Signalled(after), NextArea) =>
      if s.spare == 0 then None
      else Some(s.(client := if after == ResumeWrite then TakeOne else Collecting(0, after),
                   spare := s.spare - 1, cur := if s.cur + 1 == s.n then 0 else s.cur + 1))
    case (TakeOne, Take) => if s.spare == 0 then None else Some(s.(client := GiveOne, spare := s.spare - 1))
    case (GiveOne, Give) => Some(Resume(s.(spare := s.spare + 1), ResumeWrite))
    case (Collecting(k, after), Take) =>
      if k + 1 >= s.n || s.spare == 0 then None
      else Some(s.(client := Collecting(k + 1, after), spare := s.spare - 1))
    case (Collecting(k, after), Give) =>
      if k + 1 != s.n then None else Some(s.(client := Returning(k, after)))
    case (Returning(k, after), Give) =>
      if k == 0 then Some(Resume(s, after))
      else Some(s.(client := Returning(k - 1, after), spare := s.spare + 1))
    case (Quitting, Signal) => Some(s.(client := Joining, event := true))
    case (Joining, Join) => if s.worker == Exited then Some(s.(client := Closed)) else None
    case _ => None
  }

  /** Steps of async_io_thread. */
  function WorkerStep(s: State, a: Action): Option<State>
    requires s.writeArea < |s.areas|
  {
    match (s.worker, a)
    case (Waiting, Wake) => if s.event then Some(s.(worker := Woken, event := false)) else None
    case (Woken, CheckQuit) => Some(s.(worker := if s.quit then Exited else Trying))
    case (Trying, TryQueue) =>
      Some(if s.queue > 0 then s.(worker := Writing, queue := s.queue - 1) else s.(worker := Waiting))
    case (Writing, PfWrite) =>
      Some(s.(worker := Written, performed := s.performed + [WriteOp(s.areas[s.writeArea])]))
    case (Written, Release) => Some(s.(worker := Released, spare := s.spare + 1))
    case (Released, Advance) =>
      Some(s.(worker := Trying, writeArea := if s.writeArea + 1 == s.n then 0 else s.writeArea + 1))
    case _ => None
  }

  predicate IsWorkerAction(a: Action)
  {
    a in {Wake, CheckQuit, TryQueue, PfWrite, Release, Advance}
  }

  function Next(s: State, a: Action): Option<State>
    requires s.cur < |s.areas| && s.writeArea < |s.areas|
  {
    if IsWorkerAction(a) then WorkerStep(s, a)
    else if s.client in {Idle, InWrite} then CallStep(s, a)
    else WaitStep(s, a)
  }

  // ---------- the invariant ----------

  /** Areas posted and not released yet. */
  function Pending(s: State): nat
  {
    s.queue + if s.worker in {Writing, Written} then 1 else 0
  }

  /** Areas posted and not written yet. */
  function Unwritten(s: State): nat
  {
    s.queue + if s.worker == Writing then 1 else 0
  }

  /** Spare areas the client has in hand. */
  function Held(s: State): nat
  {
    match s.client
    case Collecting(k, _) => k
    case Returning(k, _) => k
    case GiveOne => 1
    case _ => 0
  }

  /** Between posting its area and taking the next one, the client owns none. */
  predicate Owns(s: State)
  {
    !s.client.Posted? && !s.client.Signalled?
  }

  /** The oldest area not released. */
  function Base(s: State): int
  {
    if s.worker == Released then Area(s.n, s.writeArea, 1) else s.writeArea
  }

  /** The oldest area not written. */
  function FirstUnwritten(s: State): int
  {
    if s.worker in {Written, Released} then Area(s.n, s.writeArea, 1) else s.writeArea
  }

  ghost predicate Counting(s: State)
  {
    && s.n >= 2 && |s.areas| == s.n && s.cur < s.n && s.writeArea < s.n
    && s.spare + Held(s) + Pending(s) + (if Owns(s) then 1 else 0) == s.n
    && s.cur == Area(s.n, Base(s), if Owns(s) then Pending(s) else if Pending(s) > 0 then Pending(s) - 1 else s.n - 1)
  }

  /** Posted areas still hold what was posted, in order. */
  ghost predicate Contents(s: State)
  {
    && s.performed <= s.intended && |s.intended| == |s.performed| + Unwritten(s)
    && forall i {:trigger s.intended[i]} :: |s.performed| <= i < |s.intended| ==>
         s.intended[i] == WriteOp(AreaAt(s, i - |s.performed|))
  }

  function AreaAt(s: State, i: nat): seq<Byte>
  {
    var k := Area(s.n, FirstUnwritten(s), i);
    if 0 <= k < |s.areas| then s.areas[k] else []
  }

  /** The client is past a complete wait, so nothing is in flight. */
  predicate Drained(s: State)
  {
    match s.client
    case Idle => !s.dirty
    case Returning(_, _) => true
    case Collecting(_, SeekNow(_)) => true
    case Quitting => true
    case Joining => true
    case Closed => true
    case _ => false
  }

  ghost predicate Control(s: State)
  {
    && (Drained(s) ==> Pending(s) == 0)
    && (s.quit <==> s.client in {Quitting, Joining, Closed})
    && (s.queue > 0 && s.worker == Waiting ==> s.event || s.client.Posted?)
    && (s.worker == Exited ==> s.quit)
    && (s.client == Joining && s.worker !in {Woken, Exited} ==> s.event)
    && (s.client == Closed ==> s.worker == Exited)
    && (s.client.TakeOne? || s.client.GiveOne? || s.client.Posted? || s.client.Signalled? ==> s.dirty)
    && (s.client.Posted? || s.client.Signalled? ==> !s.client.after.SeekNow?)
    && (s.client.Collecting? ==> s.client.k < s.n && s.client.after != ResumeWrite)
    && (s.client.Returning? ==> s.client.after != ResumeWrite)
  }

  ghost predicate Inv(s: State)
  {
    Counting(s) && Contents(s) && Control(s)
  }

  lemma InitInv(n: nat, at: nat)
    requires n >= 2
    ensures Inv(Init(n, at))
  {
  }

  lemma StepInv(s: State, a: Action)
    requires Inv(s) && Next(s, a).Some?
    ensures Inv(Next(s, a).value)
  {
    hide Contents, Control;
    if IsWorkerAction(a) {
      WorkerCounting(s, a);
      WorkerContents(s, a);
      WorkerControl(s, a);
    } else if s.client in {Idle, InWrite} {
      CallCounting(s, a);
      CallContents(s, a);
      CallControl(s, a);
    } else {
      WaitCounting(s, a);
      WaitContents(s, a);
      WaitControl(s, a);
    }
  }

  lemma WorkerCounting(s: State, a: Action)
    requires Inv(s) && IsWorkerAction(a) && WorkerStep(s, a).Some?
    ensures Counting(WorkerStep(s, a).value)
  {
    hide Contents, Counting;
    if a == Advance {
      AdvanceCounting(s);
    } else if a == Release {
      ReleaseCounting(s);
    } else {
      StayCounting(s, a);
    }
  }

  lemma AdvanceCounting(s: State)
    requires Counting(s) && Control(s) && WorkerStep(s, Advance).Some?
    ensures Counting(WorkerStep(s, Advance).value)
  {
  }

  lemma ReleaseCounting(s: State)
    requires Counting(s) && Control(s) && WorkerStep(s, Release).Some?
    ensures Counting(WorkerStep(s, Release).value)
  {
  }

  /** The worker's other steps leave the areas it has where they are. */
  lemma StayCounting(s: State, a: Action)
    requires Counting(s) && Control(s) && a in {Wake, CheckQuit, TryQueue, PfWrite} && WorkerStep(s, a).Some?
    ensures Counting(WorkerStep(s, a).value)
  {
    hide Area, Control;
  }

  lemma WorkerContents(s: State, a: Action)
    requires Inv(s) && IsWorkerAction(a) && WorkerStep(s, a).Some?
    ensures Contents(WorkerStep(s, a).value)
  {
    hide Control;
    var t := WorkerStep(s, a).value;
    if a == PfWrite {
      WriteContents(s);
    } else {
      SameContents(s, t);
    }
  }

  /** pf_write stores exactly what was posted in the area. */
  lemma WriteContents(s: State)
    requires Counting(s) && Contents(s) && s.worker == Writing
    ensures Contents(WorkerStep(s, PfWrite).value)
  {
    var t := WorkerStep(s, PfWrite).value;
    assert s.intended[|s.performed|] == WriteOp(AreaAt(s, 0));
    assert t.performed == t.intended[..|t.performed|];
    forall i | |t.performed| <= i < |t.intended|
      ensures t.intended[i] == WriteOp(AreaAt(t, i - |t.performed|))
    {
      assert s.intended[i] == WriteOp(AreaAt(s, i - |s.performed|));
    }
  }

  /** Steps that neither post, nor write, nor touch an area in flight. */
  lemma SameContents(s: State, t: State)
    requires Counting(s) && Contents(s) && t.n == s.n && |t.areas| == s.n
    requires t.intended == s.intended && t.performed == s.performed
    requires FirstUnwritten(t) == FirstUnwritten(s) && Unwritten(t) == Unwritten(s)
    requires forall i :: 0 <= i < Unwritten(s) ==> AreaAt(t, i) == AreaAt(s, i)
    ensures Contents(t)
  {
    forall i | |t.performed| <= i < |t.intended|
      ensures t.intended[i] == WriteOp(AreaAt(t, i - |t.performed|))
    {
      assert s.intended[i] == WriteOp(AreaAt(s, i - |s.performed|));
    }
  }

  lemma WorkerControl(s: State, a: Action)
    requires Inv(s) && IsWorkerAction(a) && WorkerStep(s, a).Some?
    ensures Control(WorkerStep(s, a).value)
  {
    hide Contents;
  }

  lemma CallCounting(s: State, a: Action)
    requires Inv(s) && s.client in {Idle, InWrite} && CallStep(s, a).Some?
    ensures Counting(CallStep(s, a).value)
  {
    hide Contents;
  }

  lemma CallContents(s: State, a: Action)
    requires Inv(s) && s.client in {Idle, InWrite} && CallStep(s, a).Some?
    ensures Contents(CallStep(s, a).value)
  {
    hide Contents;
    var t := CallStep(s, a).value;
    if t.client.Posted? {
      PostContents(s, t.client.after);
    } else {
      if a.Fill? {
        FillKeepsFlight(s, a.data);
      }
      SameContents(s, t);
    }
  }

  lemma CallControl(s: State, a: Action)
    requires Inv(s) && s.client in {Idle, InWrite} && CallStep(s, a).Some?
    ensures Control(CallStep(s, a).value)
  {
    hide Contents;
  }

  lemma WaitCounting(s: State, a: Action)
    requires Inv(s) && WaitStep(s, a).Some?
    ensures Counting(WaitStep(s, a).value)
  {
    hide Contents, Counting, WaitStep, Drained;
    match s.client {
      case Signalled(_) => NextAreaCounting(s, a);
      case Collecting(_, _) => CollectingCounting(s, a);
      case Returning(_, _) => ReturningCounting(s, a);
      case _ => OneWaitCounting(s, a);
    }
  }

  lemma CollectingCounting(s: State, a: Action)
    requires Counting(s) && s.client.Collecting? && s.client.k < s.n && WaitStep(s, a).Some?
    ensures Counting(WaitStep(s, a).value)
  {
  }

  lemma ReturningCounting(s: State, a: Action)
    requires Counting(s) && Control(s) && s.client.Returning? && WaitStep(s, a).Some?
    ensures Counting(WaitStep(s, a).value)
  {
  }

  lemma OneWaitCounting(s: State, a: Action)
    requires Counting(s) && Control(s) && WaitStep(s, a).Some?
    requires !s.client.Signalled? && !s.client.Collecting? && !s.client.Returning?
    ensures Counting(WaitStep(s, a).value)
  {
  }

  lemma NextAreaCounting(s: State, a: Action)
    requires Counting(s) && Control(s) && s.client.Signalled? && WaitStep(s, a).Some?
    ensures Counting(WaitStep(s, a).value)
  {
  }

  lemma WaitContents(s: State, a: Action)
    requires Inv(s) && WaitStep(s, a).Some?
    ensures Contents(WaitStep(s, a).value)
  {
    hide Contents;
    var t := WaitStep(s, a).value;
    if t.intended == s.intended {
      SameContents(s, t);
    } else {
      DrainedSeek(s, t);
    }
  }

  /** With nothing in flight, a seek keeps file and intention in step. */
  lemma DrainedSeek(s: State, t: State)
    requires Contents(s) && Unwritten(s) == 0 && Unwritten(t) == 0
    requires exists op :: t.intended == s.intended + [op] && t.performed == s.performed + [op]
    ensures Contents(t)
  {
  }

  lemma WaitControl(s: State, a: Action)
    requires Inv(s) && WaitStep(s, a).Some?
    ensures Control(WaitStep(s, a).value)
  {
    hide Contents;
  }

  lemma PostContents(s: State, after: After)
    requires Counting(s) && Contents(s) && Owns(s)
    ensures Contents(Post(s, after))
  {
    var t := Post(s, after);
    forall i | |t.performed| <= i < |t.intended|
      ensures t.intended[i] == WriteOp(AreaAt(t, i - |t.performed|))
    {
      if i < |s.intended| {
        assert s.intended[i] == WriteOp(AreaAt(s, i - |s.performed|));
      }
    }
  }

  /** The area the client fills is neither queued nor being written. */
  lemma FillKeepsFlight(s: State, data: seq<Byte>)
    requires Counting(s) && Owns(s)
    ensures forall i :: 0 <= i < Pending(s) ==> Area(s.n, Base(s), i) != s.cur
    ensures forall i :: 0 <= i < Unwritten(s) ==> AreaAt(s.(areas := s.areas[s.cur := data]), i) == AreaAt(s, i)
  {
  }

  // ---------- every interleaving ----------

  /** The state after a sequence of steps, if all of them are possible. */
  function Exec(s: State, acts: seq<Action>): Option<State>
    requires Inv(s)
    decreases acts
  {
    if acts == [] then Some(s)
    else
      match Next(s, acts[0])
      case None => None
      case Some(t) => StepInv(s, acts[0]); Exec(t, acts[1..])
  }

  lemma {:induction false} ExecInv(s: State, acts: seq<Action>)
    requires Inv(s) && Exec(s, acts).Some?
    ensures Inv(Exec(s, acts).value)
    decreases acts
  {
    if acts != [] {
      StepInv(s, acts[0]);
      ExecInv(Next(s, acts[0]).value, acts[1..]);
    }
  }

  /** In every interleaving: the file receives exactly the posted areas and the seeks, once each and in the order
      the client asked for them; a completed wait has seen all of them; and after a close none is missing. */
  lemma FileInOrder(n: nat, at: nat, acts: seq<Action>)
    requires n >= 2 && (InitInv(n, at); Exec(Init(n, at), acts).Some?)
    ensures
      var s := (InitInv(n, at); Exec(Init(n, at), acts).value);
      && s.performed <= s.intended
      && (s.client.Returning? || s.client in {Quitting, Joining, Closed} ==> s.performed == s.intended)
      && (s.client == Idle && !s.dirty ==> s.performed == s.intended)
  {
    InitInv(n, at);
    ExecInv(Init(n, at), acts);
  }

  // ---------- the flat file ----------

  /** A flat file after the operations. */
  function Applied(f: IoCache.Flat, ops: seq<FileOp>): IoCache.Flat
  {
    if ops == [] then f
    else
      var g := Applied(f, ops[..|ops| - 1]);
      match ops[|ops| - 1]
      case WriteOp(d) => IoCache.FlatStep(g, IoCache.Op.Write(d)).0
      case SeekOp(to) => IoCache.FlatStep(g, IoCache.Op.Seek(to)).0
  }

  /** What the client still has to post. */
  function Unposted(s: State): seq<Byte>
    requires s.cur < |s.areas|
  {
    if s.client in {Idle, InWrite} then Collected(s) else []
  }

  /** The cursor of the stream is where its writes and seeks have taken it; it is not kept up where a seek or a close
      has flushed. */
  predicate CursorKept(s: State)
  {
    match s.client
    case Idle => true
    case InWrite => true
    case Posted(after) => after == ResumeWrite
    case Signalled(after) => after == ResumeWrite
    case TakeOne => true
    case GiveOne => true
    case _ => false
  }

  /** What was posted, with what is still to be posted, makes of a flat file what the client asked for. */
  ghost predicate Mirrors(f: IoCache.Flat, s: State)
    requires s.cur < |s.areas|
  {
    var posted, wanted := Applied(f, s.intended), Applied(f, s.placed);
    && posted.cursor == s.start && s.pos <= |Unposted(s)|
    && wanted.bytes == Splice(posted.bytes, s.start, Unposted(s))
    && (CursorKept(s) ==> wanted.cursor == s.start + s.pos)
  }

  lemma AppliedOne(f: IoCache.Flat, ops: seq<FileOp>, op: FileOp)
    ensures Applied(f, ops + [op]) ==
            IoCache.FlatStep(Applied(f, ops),
                             if op.WriteOp? then IoCache.Op.Write(op.data) else IoCache.Op.Seek(op.offset)).0
  {
    hide IoCache.FlatStep;
    assert (ops + [op])[..|ops + [op]| - 1] == ops;
  }

  /** Placing bytes in the area, over those that are there or behind them. */
  lemma FillMirrors(f: IoCache.Flat, s: State, data: seq<Byte>)
    requires s.cur < |s.areas| && s.client == InWrite && Mirrors(f, s) && data != []
    ensures Mirrors(f, CallStep(s, Fill(data)).value)
  {
    hide Applied, Splice;
    AppliedOne(f, s.placed, WriteOp(data));
    IoCache.SpliceWindow(Applied(f, s.intended).bytes, s.start, Collected(s), s.pos, data);
    SpliceLength(Collected(s), s.pos, data);
  }

  lemma SpliceLength(w: seq<Byte>, at: nat, data: seq<Byte>)
    requires data != []
    ensures at + |data| <= |Splice(w, at, data)|
  {
  }

  lemma StepMirrors(f: IoCache.Flat, s: State, a: Action)
    requires Inv(s) && Next(s, a).Some? && Mirrors(f, s)
    ensures var t := Next(s, a).value; t.cur < |t.areas| && Mirrors(f, t)
  {
    StepInv(s, a);
    hide Contents, Control, Applied, Mirrors, CallStep, WaitStep, WorkerStep;
    if IsWorkerAction(a) {
      WorkerMirrors(f, s, a);
    } else if a.Fill? {
      OnlyInWrite(s, a);
      FillMirrors(f, s, a.data);
    } else if s.client in {Idle, InWrite} {
      CallMirrors(f, s, a);
    } else if WaitStep(s, a).value.placed == s.placed {
      ReturnsLater(s);
      WaitMirrors(f, s, a);
    } else {
      SeekMirrors(f, s, a);
    }
  }

  lemma ReturnsLater(s: State)
    requires Inv(s)
    ensures s.client.Returning? ==> s.client.after != ResumeWrite
  {
    hide Contents, Counting;
  }

  lemma OnlyInWrite(s: State, a: Action)
    requires s.cur < |s.areas| && s.writeArea < |s.areas| && a.Fill? && Next(s, a).Some?
    ensures s.client == InWrite && Next(s, a) == CallStep(s, a) && a.data != []
  {
  }

  lemma WorkerMirrors(f: IoCache.Flat, s: State, a: Action)
    requires s.cur < |s.areas| && s.writeArea < |s.areas| && WorkerStep(s, a).Some? && Mirrors(f, s)
    ensures var t := WorkerStep(s, a).value; t.cur < |t.areas| && Mirrors(f, t)
  {
    hide Applied;
  }

  lemma CallMirrors(f: IoCache.Flat, s: State, a: Action)
    requires s.cur < |s.areas| && CallStep(s, a).Some? && !a.Fill? && Mirrors(f, s)
    ensures var t := CallStep(s, a).value; t.cur < |t.areas| && Mirrors(f, t)
  {
    hide Applied, Splice;
    var t := CallStep(s, a).value;
    if t.client.Posted? {
      AppliedOne(f, s.intended, WriteOp(s.areas[s.cur]));
      SpliceNothing(Applied(f, t.intended).bytes, t.start);
    } else if t.placed != s.placed {
      AppliedOne(f, s.placed, SeekOp(a.to));
    }
  }

  lemma WaitMirrors(f: IoCache.Flat, s: State, a: Action)
    requires s.cur < |s.areas| && WaitStep(s, a).Some? && WaitStep(s, a).value.placed == s.placed && Mirrors(f, s)
    requires WaitStep(s, a).value.cur < |WaitStep(s, a).value.areas|
    requires s.client.Returning? ==> s.client.after != ResumeWrite
    ensures Mirrors(f, WaitStep(s, a).value)
  {
    hide Applied, Splice;
  }

  /** The end of a seek. */
  lemma SeekMirrors(f: IoCache.Flat, s: State, a: Action)
    requires s.cur < |s.areas| && Mirrors(f, s) && WaitStep(s, a).Some? && WaitStep(s, a).value.placed != s.placed
    ensures var t := WaitStep(s, a).value; t.cur < |t.areas| && Mirrors(f, t)
  {
    hide Applied, Splice;
    var to := s.client.after.to;
    AppliedOne(f, s.placed, SeekOp(to));
    AppliedOne(f, s.intended, SeekOp(to));
    SpliceNothing(Applied(f, s.intended).bytes, s.start);
    SpliceNothing(Applied(f, s.intended).bytes, to);
  }

  lemma {:induction false} ExecMirrors(f: IoCache.Flat, s: State, acts: seq<Action>)
    requires Inv(s) && Exec(s, acts).Some? && Mirrors(f, s)
    ensures Inv(Exec(s, acts).value) && Mirrors(f, Exec(s, acts).value)
    decreases acts
  {
    if acts != [] {
      StepInv(s, acts[0]);
      StepMirrors(f, s, acts[0]);
      ExecMirrors(f, Next(s, acts[0]).value, acts[1..]);
    }
  }

  /** In every interleaving, and however writes are spread over areas and seeks go back within them: once a flush, a
      seek or a close has waited, the file is a flat file that received the client's writes and seeks. */
  lemma FlatFile(n: nat, acts: seq<Action>, f: IoCache.Flat)
    requires n >= 2 && (InitInv(n, f.cursor); Exec(Init(n, f.cursor), acts).Some?)
    ensures
      var s := (InitInv(n, f.cursor); Exec(Init(n, f.cursor), acts).value);
      && (s.client.Returning? || s.client in {Quitting, Joining, Closed} ==>
            Applied(f, s.performed).bytes == Applied(f, s.placed).bytes)
      && (s.client == Idle && !s.dirty ==> Applied(f, s.performed) == Applied(f, s.placed))
  {
    InitInv(n, f.cursor);
    InitMirrors(n, f);
    ExecMirrors(f, Init(n, f.cursor), acts);
    FileInOrder(n, f.cursor, acts);
    hide Applied, Splice;
    var s := Exec(Init(n, f.cursor), acts).value;
    SpliceNothing(Applied(f, s.intended).bytes, s.start);
  }

  lemma InitMirrors(n: nat, f: IoCache.Flat)
    requires n >= 2
    ensures Mirrors(f, Init(n, f.cursor))
  {
    hide Splice;
    SpliceNothing(f.bytes, f.cursor);
  }

  /** In every interleaving: the area the client may fill is neither queued nor being written. */
  lemma FilledAreaIsFree(n: nat, at: nat, acts: seq<Action>, i: nat)
    requires n >= 2 && (InitInv(n, at); Exec(Init(n, at), acts).Some?)
    requires
      var s := (InitInv(n, at); Exec(Init(n, at), acts).value);
      (s.client == Idle || s.client == InWrite) && i < Pending(s)
    ensures
      var s := (InitInv(n, at); Exec(Init(n, at), acts).value);
      Area(s.n, Base(s), i) != s.cur
  {
    InitInv(n, at);
    ExecInv(Init(n, at), acts);
    FillKeepsFlight(Exec(Init(n, at), acts).value, []);
  }

  // ---------- progress ----------

  /** The client is inside a flush, a wait or a close. */
  predicate InCall(s: State)
  {
    s.client !in {Idle, InWrite, Closed}
  }

  /** Steps of a call in progress and of the worker, as opposed to choices of the client. */
  predicate IsInternal(s: State, a: Action)
  {
    IsWorkerAction(a) || InCall(s)
  }

  /** No deadlock: while the client is in a call, some thread can move.  No wake-up is ever lost. */
  lemma CallCanMove(s: State) returns (a: Action)
    requires Inv(s) && InCall(s)
    ensures Next(s, a).Some?
  {
    hide Contents;
    match s.worker {
      case Woken => a := CheckQuit;
      case Trying => a := TryQueue;
      case Writing => a := PfWrite;
      case Written => a := Release;
      case Released => a := Advance;
      case Waiting => a := if s.event then Wake else ClientMove(s);
      case Exited => a := ClientMove(s);
    }
  }

  function ClientMove(s: State): Action
  {
    match s.client
    case Posted(_) => Signal
    case Quitting => Signal
    case Signalled(_) => NextArea
    case TakeOne => Take
    case Collecting(k, _) => if k + 1 == s.n then Give else Take
    case Joining => Join
    case _ => Give
  }

  /** Steps the client still has to make before its call returns. */
  function StepsLeft(s: State): int
  {
    var wait := 2 * s.n;
    match s.client
    case Posted(after) => 2 + wait + AfterSteps(s.n, after)
    case Signalled(after) => 1 + wait + AfterSteps(s.n, after)
    case TakeOne => 2
    case GiveOne => 1
    case Collecting(k, after) => wait - k + AfterSteps(s.n, after)
    case Returning(k, after) => k + 1 + AfterSteps(s.n, after)
    case Quitting => 2
    case Joining => 1
    case _ => 0
  }

  function AfterSteps(n: nat, after: After): int
  {
    match after
    case SeekFlushed(_) => 2 * n
    case CloseNow => 2
    case _ => 0
  }

  function WorkerRank(w: Worker): nat
  {
    match w
    case Exited => 0 case Waiting => 1 case Trying => 2 case Released => 3
    case Written => 4 case Writing => 5 case Woken => 6
  }

  /** What the worker can still do on its own. */
  function WorkerMeasure(s: State): nat
  {
    14 * s.queue + (if s.event then 7 else 0) + WorkerRank(s.worker)
  }

  /** An upper bound on the internal steps still possible. */
  function Measure(s: State): int
  {
    14 * ((s.n + 1) * StepsLeft(s)) + WorkerMeasure(s)
  }

  lemma InternalStepCounts(s: State, a: Action)
    requires Inv(s) && IsInternal(s, a) && Next(s, a).Some?
    ensures 0 <= Measure(Next(s, a).value) < Measure(s)
  {
    hide StepsLeft, WorkerMeasure, Contents, Control, Next;
    var t := Next(s, a).value;
    ClientStepsLeft(s, a);
    WorkerSteps(s, a);
    MeasureDrops(s.n + 1, StepsLeft(t), StepsLeft(s));
  }

  lemma MeasureDrops(m: nat, x: int, y: int)
    requires 0 <= x
    ensures 0 <= m * x
    ensures x < y ==> m * x + m <= m * y
  {
    MulOrder(m, 0, x);
    MulOrder(m, x + 1, y);
  }

  lemma WorkerSteps(s: State, a: Action)
    requires Inv(s) && IsInternal(s, a) && Next(s, a).Some?
    ensures Next(s, a).value.n == s.n
    ensures if IsWorkerAction(a) then WorkerMeasure(Next(s, a).value) < WorkerMeasure(s)
            else WorkerMeasure(Next(s, a).value) < WorkerMeasure(s) + 14 * (s.n + 1)
  {
    hide Contents, Counting;
    if !IsWorkerAction(a) {
      assert WaitStep(s, a).value.worker == s.worker;
    }
  }

  lemma ClientStepsLeft(s: State, a: Action)
    requires Inv(s) && IsInternal(s, a) && Next(s, a).Some?
    ensures 0 <= StepsLeft(Next(s, a).value)
    ensures if IsWorkerAction(a) then StepsLeft(Next(s, a).value) == StepsLeft(s)
            else StepsLeft(Next(s, a).value) < StepsLeft(s)
  {
    hide Contents, Drained, StepsLeft, WaitStep, WorkerStep;
    if IsWorkerAction(a) {
      WorkerKeepsClient(s, a);
      StepsLeftBound(s);
    } else {
      WaitStepsLeft(s, a);
    }
  }

  lemma WorkerKeepsClient(s: State, a: Action)
    requires s.writeArea < |s.areas| && WorkerStep(s, a).Some?
    ensures StepsLeft(WorkerStep(s, a).value) == StepsLeft(s)
  {
  }

  lemma StepsLeftBound(s: State)
    requires s.n >= 2 && (s.client.Collecting? ==> s.client.k < s.n)
    ensures 0 <= StepsLeft(s)
  {
  }

  lemma WaitStepsLeft(s: State, a: Action)
    requires s.n >= 2 && WaitStep(s, a).Some?
    requires s.client.Collecting? ==> s.client.k < s.n && s.client.after != ResumeWrite
    requires s.client.Returning? ==> s.client.after != ResumeWrite
    ensures 0 <= StepsLeft(WaitStep(s, a).value) < StepsLeft(s)
  {
  }

  /** All steps of the sequence are internal when their turn comes. */
  ghost predicate InternalRun(s: State, acts: seq<Action>)
    requires Inv(s) && Exec(s, acts).Some?
    decreases acts
  {
    acts != [] ==> IsInternal(s, acts[0]) && (StepInv(s, acts[0]); InternalRun(Next(s, acts[0]).value, acts[1..]))
  }

  /** No schedule of internal steps is longer than the measure: since one of them is always possible during a call,
      every flush, wait and close returns under every schedule. */
  lemma {:induction false} CallsReturn(s: State, acts: seq<Action>)
    requires Inv(s) && Exec(s, acts).Some? && InternalRun(s, acts)
    ensures |acts| <= Measure(s)
    decreases acts
  {
    if acts == [] {
      MulOrder(s.n + 1, 0, StepsLeft(s));
    } else {
      StepInv(s, acts[0]);
      InternalStepCounts(s, acts[0]);
      CallsReturn(Next(s, acts[0]).value, acts[1..]);
    }
  }
}
