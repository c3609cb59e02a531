/**
  The receive queue of c_tcp_to_can/src/dev_can.c in use: thread_can_frame_rcv inserting, any number
  of threads calling read_can_frame, one mutex, a counter and a semaphore.

  All threads work on one memory.  Each step of the list operations is one load, one store or one
  branch, and interleaves with the steps of every other thread; a thread only waits for the mutex.
  That no operation is disturbed half-way, and with it the order of the frames, is proved from that.
 */
module ReceiveQueue {
  import opened CanClient
  import opened ListPrograms

  datatype Owner = Free | ByInserter | ByReader(id: nat)

  /** Where thread_can_frame_rcv is. */
  datatype Inserter =
    | Reading
    | Got(frame: SocketFrame)
    | Waiting(msg: CanFrame)
    | Holding(msg: CanFrame)
    | Pushing(cpu: Cpu, code: Code)
    | Pushed
    | Counted
    | Posting

  /** Where a caller of read_can_frame is; Stuck is its return with the mutex still held. */
  datatype Reader = Idle | Locked | SawNone | Popping(cpu: Cpu, code: Code) | Took(node: nat) | Freed | Stuck

  /**
    `received`, `inserted`, `popped` and the two failure counts only record what happened: the frames
    read, those that got a list node, those copied out by readers, and the failed allocations.
   */
  datatype State = State(
    mem: Memory,
    owner: Owner,
    frameCnt: int,
    posts: nat,
    inserter: Inserter,
    readers: map<nat, Reader>,
    received: seq<SocketFrame>,
    inserted: seq<CanFrame>,
    popped: seq<CanFrame>,
    msgFailures: nat,
    nodeFailures: nat)

  function Pc(s: State, i: nat): Reader { if i in s.readers then s.readers[i] else Idle }

  ghost predicate Init(s: State) {
    s == State(Memory(0, 0, 0, map[]), Free, 0, 0, Reading, map[], [], [], [], 0, 0)
  }

  // ----- the inserting thread

  ghost predicate Receive(s: State, s': State, f: SocketFrame) {
    s.inserter.Reading? && s' == s.(inserter := Got(f), received := s.received + [f])
  }

  ghost predicate AllocateMsg(s: State, s': State, ok: bool) {
    && s.inserter.Got?
    && s' == if ok then s.(inserter := Waiting(Stored(s.inserter.frame)))
             else s.(inserter := Reading, msgFailures := s.msgFailures + 1)
  }

  ghost predicate Acquire(s: State, s': State) {
    s.inserter.Waiting? && s.owner.Free? && s' == s.(inserter := Holding(s.inserter.msg), owner := ByInserter)
  }

  /** The new node is any that is not in use; without one nothing is pushed. */
  ghost predicate AllocateNode(s: State, s': State, node: nat) {
    && s.inserter.Holding? && node !in s.mem.nodes
    && s' == if node == 0 then s.(inserter := Pushed, nodeFailures := s.nodeFailures + 1)
             else s.(inserter := Pushing(Cpu(node, 0), RPush()), inserted := s.inserted + [s.inserter.msg],
                     mem := s.mem.(nodes := s.mem.nodes[node := Node(0, 0, s.inserter.msg)]))
  }

  ghost predicate PushStep(s: State, s': State) {
    && s.inserter.Pushing?
    && var x, code := Config(s.mem, s.inserter.cpu), s.inserter.code;
    s' == if code.Done? then s.(inserter := Pushed)
          else s.(mem := After(x, code).mem, inserter := Pushing(After(x, code).cpu, Rest(x, code)))
  }

  ghost predicate CountFrame(s: State, s': State) {
    s.inserter.Pushed? && s' == s.(inserter := Counted, frameCnt := s.frameCnt + 1)
  }

  ghost predicate Release(s: State, s': State) {
    s.inserter.Counted? && s' == s.(inserter := Posting, owner := Free)
  }

  ghost predicate Post(s: State, s': State) {
    s.inserter.Posting? && s' == s.(inserter := Reading, posts := s.posts + 1)
  }

  ghost predicate InserterStep(s: State, s': State) {
    || (exists f :: Receive(s, s', f))
    || (exists ok :: AllocateMsg(s, s', ok))
    || Acquire(s, s')
    || (exists node :: AllocateNode(s, s', node))
    || PushStep(s, s')
    || CountFrame(s, s') || Release(s, s') || Post(s, s')
  }

  // ----- readers

  /** Where reader i is after its next step. */
  function NextPc(s: State, i: nat): Reader {
    match Pc(s, i)
    case Idle => Locked
    case Locked => if s.mem.len == 0 then SawNone else Popping(Cpu(0, 0), LPop())
    case SawNone => Idle
    case Popping(cpu, code) =>
      if !code.Done? then Popping(After(Config(s.mem, cpu), code).cpu, Rest(Config(s.mem, cpu), code))
      else if cpu.node == 0 then Stuck else Took(cpu.node)
    case Took(_) => Freed
    case Freed => Idle
    case Stuck => Stuck
  }

  function NextMem(s: State, i: nat): Memory {
    match Pc(s, i)
    case Popping(cpu, code) => if code.Done? then s.mem else After(Config(s.mem, cpu), code).mem
    case Took(node) => s.mem.(nodes := s.mem.nodes - {node})
    case _ => s.mem
  }

  /** What reader i copies out in its next step. */
  function CopiedOut(s: State, i: nat): seq<CanFrame> {
    match Pc(s, i)
    case Popping(cpu, code) => if code.Done? && cpu.node != 0 then [At(s.mem.nodes, cpu.node).val] else []
    case _ => []
  }

  /** Only the first step, which takes the mutex, has to wait; Stuck has none. */
  ghost predicate ReaderStep(s: State, s': State, i: nat) {
    && !Pc(s, i).Stuck? && (Pc(s, i).Idle? ==> s.owner.Free?)
    && s' == s.(readers := s.readers[i := NextPc(s, i)], mem := NextMem(s, i), popped := s.popped + CopiedOut(s, i),
                owner := if Pc(s, i).Idle? then ByReader(i) else if NextPc(s, i).Idle? then Free else s.owner)
  }

  ghost predicate Next(s: State, s': State) {
    InserterStep(s, s') || exists i :: ReaderStep(s, s', i)
  }

  ghost predicate Run(run: seq<State>) {
    && 0 < |run| && Init(run[0])
    && forall k :: 0 <= k < |run| - 1 ==> Next(run[k], run[k + 1])
  }

  // ----- the list, and what is being done to it

  /** The operation under way; Held is the popped node until it is freed. */
  datatype Task = Quiet | Push(cpu: Cpu, code: Code) | Pop(cpu: Cpu, code: Code) | Held(node: nat)

  function TaskOf(s: State): Task {
    match s.owner
    case Free => Quiet
    case ByInserter => if s.inserter.Pushing? then Push(s.inserter.cpu, s.inserter.code) else Quiet
    case ByReader(i) => ReaderTask(Pc(s, i))
  }

  function ReaderTask(pc: Reader): Task {
    match pc
    case Popping(cpu, code) => Pop(cpu, code)
    case Took(node) => Held(node)
    case _ => Quiet
  }

  /** Finishing the operation under way, undisturbed, leaves a proper list of the frames not yet taken. */
  ghost predicate Fits(m: Memory, t: Task, frames: seq<CanFrame>) {
    match t
    case Quiet => Listed(m, {}, frames)
    case Held(node) => Listed(m, {node}, frames)
    case Push(cpu, code) =>
      Safe(Config(m, cpu), code) && Listed(Finish(Config(m, cpu), code).mem, {}, frames)
    case Pop(cpu, code) =>
      var y := Finish(Config(m, cpu), code);
      && Safe(Config(m, cpu), code) && frames != []
      && At(y.mem.nodes, y.cpu.node).val == frames[0]
      && Listed(y.mem, {y.cpu.node}, frames[1..])
  }

  /** A step of the operation under way leaves what it will come to unchanged. */
  lemma TaskStep(m: Memory, t: Task, frames: seq<CanFrame>)
    requires (t.Push? || t.Pop?) && !t.code.Done? && Fits(m, t, frames)
    ensures var x := Config(m, t.cpu);
            && (t.code.Do? ==> Allowed(x, t.code.op))
            && Fits(After(x, t.code).mem, t.(cpu := After(x, t.code).cpu, code := Rest(x, t.code)), frames)
  {
    var y, rest := Step(Config(m, t.cpu), t.code);
    hide Finish, Safe, Exec, Rest, Allowed, Listed;
  }

  lemma StartPush(m: Memory, frames: seq<CanFrame>, n: nat, msg: CanFrame)
    requires Fits(m, Quiet, frames) && n != 0 && n !in m.nodes
    ensures Fits(m.(nodes := m.nodes[n := Node(0, 0, msg)]), Push(Cpu(n, 0), RPush()), frames + [msg])
  {
    var m1 := m.(nodes := m.nodes[n := Node(0, 0, msg)]);
    ListedAlloc(m, frames, n, msg);
    RPushAppends(Config(m1, Cpu(n, 0)), frames);
    hide Finish, Safe, Listed, RPush;
  }

  /** The length read under the lock tells whether list_lpop will find a node. */
  lemma StartPop(m: Memory, frames: seq<CanFrame>)
    requires Fits(m, Quiet, frames)
    ensures m.len == |frames|
    ensures frames != [] ==> Fits(m, Pop(Cpu(0, 0), LPop()), frames)
  {
    ListedLen(m, {}, frames);
    LPopRemoves(Config(m, Cpu(0, 0)), frames);
    hide Finish, Safe, Listed, LPop;
  }

  lemma EndPop(m: Memory, cpu: Cpu, frames: seq<CanFrame>)
    requires Fits(m, Pop(cpu, Done), frames)
    ensures cpu.node != 0 && cpu.node in m.nodes && frames != [] && At(m.nodes, cpu.node).val == frames[0]
    ensures Fits(m, Held(cpu.node), frames[1..])
  {
    ListedLen(m, {cpu.node}, frames[1..]);
    hide Listed, At;
  }

  // ----- the invariant

  function AllStored(fs: seq<SocketFrame>): seq<CanFrame> {
    seq(|fs|, k requires 0 <= k < |fs| => Stored(fs[k]))
  }

  /** The frame received but not yet on its way into the list. */
  function InFlight(s: State): seq<CanFrame> {
    match s.inserter
    case Got(f) => [Stored(f)]
    case Waiting(msg) => [msg]
    case Holding(msg) => [msg]
    case _ => []
  }

  /** The inserter, or reader i, is between taking the mutex and giving it back. */
  predicate InserterInside(s: State) { s.inserter.Holding? || s.inserter.Pushing? || s.inserter.Pushed? || s.inserter.Counted? }

  predicate ReaderInside(s: State, i: nat) { !Pc(s, i).Idle? }

  ghost predicate MutexInv(s: State) {
    && (s.owner.ByInserter? <==> InserterInside(s))
    && (forall i :: ReaderInside(s, i) <==> s.owner == ByReader(i))
  }

  /** What is in the list, or on its way in or out of it. */
  function Untaken(s: State): seq<CanFrame>
    requires s.popped <= s.inserted
  {
    s.inserted[|s.popped|..]
  }

  ghost predicate MemoryInv(s: State) {
    && s.popped <= s.inserted
    && Fits(s.mem, TaskOf(s), Untaken(s))
    && forall i :: !Pc(s, i).Stuck?
  }

  ghost predicate CountInv(s: State) {
    && s.frameCnt == s.posts + (if s.inserter.Counted? || s.inserter.Posting? then 1 else 0)
    && s.frameCnt + (if s.inserter.Pushing? || s.inserter.Pushed? then 1 else 0) == |s.inserted| + s.nodeFailures
    && |s.received| == |s.inserted| + s.nodeFailures + s.msgFailures + |InFlight(s)|
    && (s.msgFailures == 0 && s.nodeFailures == 0 ==> AllStored(s.received) == s.inserted + InFlight(s))
  }

  ghost predicate Inv(s: State) { MutexInv(s) && MemoryInv(s) && CountInv(s) }

  lemma StoredSnoc(fs: seq<SocketFrame>, f: SocketFrame)
    ensures AllStored(fs + [f]) == AllStored(fs) + [Stored(f)]
  {
  }

  lemma InserterKeepsMutex(s: State, s': State)
    requires MutexInv(s) && InserterStep(s, s')
    ensures MutexInv(s') && forall i :: Pc(s', i) == Pc(s, i)
  {
    hide Stored, After, Rest, RPush;
  }

  lemma InserterKeepsCounts(s: State, s': State)
    requires CountInv(s) && InserterStep(s, s')
    ensures CountInv(s')
  {
    if f :| Receive(s, s', f) {
      StoredSnoc(s.received, f);
    }
    hide Stored, AllStored, After, Rest, RPush;
  }

  lemma NodeKeepsMemory(s: State, s': State, node: nat)
    requires MutexInv(s) && MemoryInv(s) && AllocateNode(s, s', node)
    ensures MemoryInv(s')
  {
    hide RPush, Finish, Safe, Listed;
    assert forall i :: Pc(s', i) == Pc(s, i);
    if node != 0 {
      StartPush(s.mem, Untaken(s), node, s.inserter.msg);
      assert Untaken(s') == Untaken(s) + [s.inserter.msg];
    }
  }

  lemma PushStepKeepsMemory(s: State, s': State)
    requires MutexInv(s) && MemoryInv(s) && PushStep(s, s')
    ensures MemoryInv(s')
  {
    assert forall i :: Pc(s', i) == Pc(s, i);
    if s.inserter.code.Done? {
      hide Listed;
    } else {
      hide Fits, After, Rest;
      TaskStep(s.mem, TaskOf(s), Untaken(s));
    }
  }

  lemma OthersKeepTask(s: State, s': State)
    requires MutexInv(s) && InserterStep(s, s')
    requires !PushStep(s, s') && forall node :: !AllocateNode(s, s', node)
    ensures s'.mem == s.mem && TaskOf(s') == TaskOf(s) && s'.inserted == s.inserted && s'.popped == s.popped
  {
    hide Stored, AllocateNode, PushStep;
  }

  lemma InserterKeepsMemory(s: State, s': State)
    requires MutexInv(s) && MemoryInv(s) && InserterStep(s, s')
    ensures MemoryInv(s')
  {
    InserterKeepsMutex(s, s');
    if node :| AllocateNode(s, s', node) {
      NodeKeepsMemory(s, s', node);
    } else if PushStep(s, s') {
      PushStepKeepsMemory(s, s');
    } else {
      OthersKeepTask(s, s');
      hide InserterStep, MutexInv, Fits, TaskOf;
    }
  }

  lemma ReaderKeepsMutex(s: State, s': State, i: nat)
    requires MutexInv(s) && ReaderStep(s, s', i)
    ensures MutexInv(s')
    ensures forall j :: j != i ==> Pc(s', j) == Pc(s, j)
    ensures TaskOf(s) == ReaderTask(Pc(s, i)) && TaskOf(s') == ReaderTask(NextPc(s, i))
  {
    assert forall j :: Pc(s', j) == if j == i then NextPc(s, i) else Pc(s, j);
    assert Pc(s, i).Idle? ==> !NextPc(s, i).Idle?;
    hide NextPc, NextMem, CopiedOut;
    assert s.owner == ByReader(i) || (Pc(s, i).Idle? && s.owner.Free?);
    assert s'.owner == (if NextPc(s, i).Idle? then Free else ByReader(i));
    assert forall j :: j != i ==> !ReaderInside(s, j);
  }

  /** On the memory alone: one step of the reader that has the mutex. */
  lemma ReaderFits(s: State, i: nat, frames: seq<CanFrame>)
    requires Fits(s.mem, ReaderTask(Pc(s, i)), frames) && !Pc(s, i).Stuck?
    ensures CopiedOut(s, i) <= frames && !NextPc(s, i).Stuck?
    ensures Fits(NextMem(s, i), ReaderTask(NextPc(s, i)), frames[|CopiedOut(s, i)|..])
  {
    hide LPop, Finish, Safe, Listed, After, Rest, At;
    match Pc(s, i)
    case Locked =>
      StartPop(s.mem, frames);
    case Popping(cpu, code) =>
      if code.Done? {
        EndPop(s.mem, cpu, frames);
      } else {
        TaskStep(s.mem, Pop(cpu, code), frames);
      }
    case Took(node) =>
      ListedFree(s.mem, frames, node);
    case _ =>
  }

  lemma ReaderKeepsMemory(s: State, s': State, i: nat)
    requires MutexInv(s) && MemoryInv(s) && ReaderStep(s, s', i)
    ensures MemoryInv(s')
  {
    ReaderKeepsMutex(s, s', i);
    ReaderFits(s, i, Untaken(s));
    hide MutexInv, Fits, NextPc, NextMem, CopiedOut, ReaderTask, TaskOf;
    assert s.inserted == s.popped + Untaken(s);
    assert Untaken(s') == Untaken(s)[|CopiedOut(s, i)|..];
    forall j
      ensures !Pc(s', j).Stuck?
    {
    }
  }

  lemma {:induction false} RunInv(run: seq<State>, k: nat)
    requires Run(run) && k < |run|
    ensures Inv(run[k])
  {
    hide Next, MutexInv, MemoryInv, CountInv;
    if k > 0 {
      RunInv(run, k - 1);
      NextKeepsInv(run[k - 1], run[k]);
    } else {
      InitInv(run[0]);
    }
  }

  lemma InitInv(s: State)
    requires Init(s)
    ensures Inv(s)
  {
  }

  lemma NextKeepsInv(s: State, s': State)
    requires Inv(s) && Next(s, s')
    ensures Inv(s')
  {
    if InserterStep(s, s') {
      InserterKeepsMutex(s, s');
      InserterKeepsMemory(s, s');
      InserterKeepsCounts(s, s');
    } else {
      var i :| ReaderStep(s, s', i);
      ReaderKeepsMutex(s, s', i);
      ReaderKeepsMemory(s, s', i);
      hide NextPc, NextMem, CopiedOut, AllStored, MutexInv, MemoryInv;
    }
  }

  // ----- what every run keeps

  /** At most one thread is past the lock, and only that thread's steps touch the list or a node. */
  lemma MutualExclusion(run: seq<State>, k: nat)
    requires Run(run) && k < |run|
    ensures forall i :: !(InserterInside(run[k]) && ReaderInside(run[k], i))
    ensures forall i, j :: ReaderInside(run[k], i) && ReaderInside(run[k], j) ==> i == j
    ensures forall s' :: InserterStep(run[k], s') && s'.mem != run[k].mem ==> InserterInside(run[k])
    ensures forall s', i :: ReaderStep(run[k], s', i) && s'.mem != run[k].mem ==> ReaderInside(run[k], i)
  {
    RunInv(run, k);
    hide MemoryInv, CountInv, After, Rest, RPush, LPop, At, Stored;
  }

  /**
    No load or store goes through a null or freed address, a popped node is still there when its frame
    is copied out and when it is freed; with the mutex free all links are right in both directions and
    exactly the list's nodes are allocated.
   */
  lemma NoBadAccess(run: seq<State>, k: nat)
    requires Run(run) && k < |run|
    ensures var s, t := run[k], TaskOf(run[k]);
            && ((t.Push? || t.Pop?) && t.code.Do? ==> Allowed(Config(s.mem, t.cpu), t.code.op))
            && (t.Pop? && t.code.Done? ==> t.cpu.node != 0 && t.cpu.node in s.mem.nodes)
            && (t.Held? ==> t.node in s.mem.nodes)
            && (s.owner.Free? ==> Shape(s.mem, Chain(s.mem), {}))
  {
    RunInv(run, k);
    var s, t := run[k], TaskOf(run[k]);
    if t.Pop? && t.code.Done? {
      EndPop(s.mem, t.cpu, Untaken(s));
    }
  }

  /**
    Frames leave in the order they went in; with the mutex free, walking the list finds exactly the
    others and its length is their number; the two counters agree up to one step.
   */
  lemma QueueIsFifo(run: seq<State>, k: nat)
    requires Run(run) && k < |run|
    ensures var s := run[k];
            && s.popped <= s.inserted
            && (s.owner.Free? ==> Frames(s.mem) == s.inserted[|s.popped|..] && s.mem.len == |s.inserted| - |s.popped|)
            && 0 <= s.frameCnt - s.posts <= 1
            && (!s.inserter.Pushing? && !s.inserter.Pushed? ==> (s.frameCnt == |s.inserted| <==> s.nodeFailures == 0))
  {
    RunInv(run, k);
  }

  /**
    With the mutex free, the frames taken, listed and in flight are the frames received, stored form and in
    order, exactly when no allocation has failed.
   */
  lemma NothingLost(run: seq<State>, k: nat)
    requires Run(run) && k < |run|
    ensures var s := run[k]; var lossless := s.msgFailures == 0 && s.nodeFailures == 0;
            && (lossless ==> s.popped <= AllStored(s.received))
            && (s.owner.Free? ==> (s.popped + Frames(s.mem) + InFlight(s) == AllStored(s.received) <==> lossless))
  {
    RunInv(run, k);
    var s := run[k];
    assert s.owner.Free? ==> s.inserted == s.popped + Frames(s.mem);
  }

  /** Steps the holder of the mutex still takes at most before giving it back. */
  function StepsLeft(s: State): nat {
    match s.owner
    case Free => 0
    case ByInserter =>
      (match s.inserter
       case Holding(_) => 4 + Length(RPush())
       case Pushing(_, code) => 3 + Length(code)
       case Pushed => 2
       case _ => 1)
    case ByReader(i) =>
      match Pc(s, i)
      case Locked => 4 + Length(LPop())
      case Popping(_, code) => 3 + Length(code)
      case Took(_) => 2
      case _ => 1
  }

  ghost predicate HolderStep(s: State, s': State) {
    match s.owner
    case Free => false
    case ByInserter => InserterStep(s, s')
    case ByReader(i) => ReaderStep(s, s', i)
  }

  /**
    The mutex is always given back: its holder can always move, its next step brings the release nearer,
    and no other thread's step delays it or touches the memory.
   */
  lemma MutexIsReleased(run: seq<State>, k: nat)
    requires Run(run) && k < |run| && !run[k].owner.Free?
    ensures exists s' :: HolderStep(run[k], s')
    ensures forall s' :: HolderStep(run[k], s') ==> StepsLeft(s') < StepsLeft(run[k])
    ensures forall s' :: Next(run[k], s') && !HolderStep(run[k], s') ==>
              s'.owner == run[k].owner && s'.mem == run[k].mem && StepsLeft(s') == StepsLeft(run[k])
  {
    RunInv(run, k);
    hide Inv, Next, HolderStep, StepsLeft;
    var s := run[k];
    HolderCanStep(s);
    forall s' | HolderStep(s, s')
      ensures StepsLeft(s') < StepsLeft(s)
    {
      HolderNearer(s, s');
    }
    forall s' | Next(s, s') && !HolderStep(s, s')
      ensures s'.owner == s.owner && s'.mem == s.mem && StepsLeft(s') == StepsLeft(s)
    {
      OthersWait(s, s');
    }
  }

  lemma HolderCanStep(s: State)
    requires Inv(s) && !s.owner.Free?
    ensures exists s' :: HolderStep(s, s')
  {
    if s.owner.ByReader? {
      hide Fits, NextPc, NextMem, CopiedOut;
      var i := s.owner.id;
      assert ReaderInside(s, i);
      assert HolderStep(s, s.(readers := s.readers[i := NextPc(s, i)], mem := NextMem(s, i),
        popped := s.popped + CopiedOut(s, i), owner := if NextPc(s, i).Idle? then Free else s.owner));
    } else {
      InserterCanStep(s);
      var s' :| InserterStep(s, s');
      assert HolderStep(s, s');
    }
  }

  lemma InserterCanStep(s: State)
    requires Inv(s) && s.owner.ByInserter?
    ensures exists s' :: InserterStep(s, s')
  {
    match s.inserter
    case Holding(_) =>
      ListedLen(s.mem, {}, Untaken(s));
      hide Listed;
      var s' := s.(inserter := Pushed, nodeFailures := s.nodeFailures + 1);
      assert AllocateNode(s, s', 0);
      assert InserterStep(s, s');
    case Pushing(cpu, code) =>
      var x := Config(s.mem, cpu);
      assert InserterStep(s, if code.Done? then s.(inserter := Pushed)
                             else s.(mem := After(x, code).mem, inserter := Pushing(After(x, code).cpu, Rest(x, code))));
    case Pushed =>
      assert InserterStep(s, s.(inserter := Counted, frameCnt := s.frameCnt + 1));
    case Counted =>
      assert InserterStep(s, s.(inserter := Posting, owner := Free));
    case _ =>
      assert false;
  }

  lemma RestIsShorter(x: Config, code: Code)
    requires !code.Done?
    ensures Length(Rest(x, code)) < Length(code)
  {
  }

  lemma HolderNearer(s: State, s': State)
    requires Inv(s) && HolderStep(s, s')
    ensures StepsLeft(s') < StepsLeft(s)
  {
    hide Length, Rest, After, RPush, LPop, MemoryInv, CountInv, Stored;
    if s.owner.ByReader? {
      var i := s.owner.id;
      if Pc(s, i).Popping? && !Pc(s, i).code.Done? {
        RestIsShorter(Config(s.mem, Pc(s, i).cpu), Pc(s, i).code);
      }
      assert Pc(s', i) == NextPc(s, i) && !Pc(s, i).Idle?;
    } else if s.inserter.Pushing? && !s.inserter.code.Done? {
      RestIsShorter(Config(s.mem, s.inserter.cpu), s.inserter.code);
    }
  }

  lemma ReaderIsHolder(s: State, s': State, i: nat)
    requires MutexInv(s) && ReaderStep(s, s', i) && !s.owner.Free?
    ensures s.owner == ByReader(i)
  {
    assert ReaderInside(s, i);
  }

  lemma OthersWait(s: State, s': State)
    requires Inv(s) && Next(s, s') && !s.owner.Free? && !HolderStep(s, s')
    ensures s'.owner == s.owner && s'.mem == s.mem && StepsLeft(s') == StepsLeft(s)
  {
    if InserterStep(s, s') {
      InserterKeepsMutex(s, s');
      hide Length, Rest, After, RPush, LPop, MemoryInv, CountInv, Stored;
    } else {
      hide Length, Rest, After, RPush, LPop, MemoryInv, CountInv, NextPc, NextMem, CopiedOut;
      var i :| ReaderStep(s, s', i);
      ReaderIsHolder(s, s', i);
    }
  }

  // ----- why the mutex is needed

  /** A push on a list of one node, stopped just before it moves the tail. */
  lemma HalfPush(m: Memory, first: nat, node: nat)
    requires Shape(m, [first], {node})
    ensures var x := ConfigAfter(Config(m, Cpu(node, 0)), RPush(), 7);
            && x.mem == Memory(first, first, 1, SetNext(SetNext(SetPrev(m.nodes, node, first), node, 0), first, node))
            && x.cpu == Cpu(node, first)
    ensures CodeAfter(Config(m, Cpu(node, 0)), RPush(), 7) == Do(Store(TailCell, NODE), AddOne())
  {
    hide At, SetPrev, SetNext, ConfigAfter, CodeAfter, AddOne;
    var x, code := Count(Config(m, Cpu(node, 0)), RPush(), 7);
    x, code := Count(x, code, 6);
    x, code := Count(x, code, 5);
    x, code := Count(x, code, 4);
    x, code := Count(x, code, 3);
    x, code := Count(x, code, 2);
    x, code := Count(x, code, 1);
    CountNone(x, code);
  }

  lemma Count(x: Config, code: Code, n: nat) returns (y: Config, rest: Code)
    requires n > 0 && !code.Done?
    ensures y == After(x, code) && rest == Rest(x, code)
    ensures ConfigAfter(x, code, n) == ConfigAfter(y, rest, n - 1) && CodeAfter(x, code, n) == CodeAfter(y, rest, n - 1)
  {
    y, rest := After(x, code), Rest(x, code);
  }

  lemma CountNone(x: Config, code: Code)
    ensures ConfigAfter(x, code, 0) == x && CodeAfter(x, code, 0) == code
  {
  }

  /**
    A list of one node: a read runs between two stores of a push.  Neither touches a node it should
    not, but the list is left with length 1 and no first node, and the next read goes through NULL.
   */
  lemma WithoutMutex(m: Memory, first: nat, node: nat)
    requires Shape(m, [first], {node})
    ensures var x := ConfigAfter(Config(m, Cpu(node, 0)), RPush(), 7);
            var rest := CodeAfter(Config(m, Cpu(node, 0)), RPush(), 7);
            var y := Finish(Config(x.mem, Cpu(0, 0)), LPop());
            var z := Finish(Config(y.mem, x.cpu), rest);
            && Safe(Config(x.mem, Cpu(0, 0)), LPop()) && y.cpu.node == first && Safe(Config(y.mem, x.cpu), rest)
            && z.mem.len == 1 && z.mem.head == 0 && z.mem.tail == node
            && !Safe(Config(z.mem, Cpu(0, 0)), LPop())
  {
    assert first in Members([first]) && first != 0 && first in m.nodes;
    HalfPush(m, first, node);
    var x := ConfigAfter(Config(m, Cpu(node, 0)), RPush(), 7);
    var rest := CodeAfter(Config(m, Cpu(node, 0)), RPush(), 7);
    assert first in x.mem.nodes && 0 !in x.mem.nodes;
    hide Shape, Members, At, ConfigAfter, CodeAfter, RPush;
    PopRuns(Config(x.mem, Cpu(0, 0)));
    var y := Finish(Config(x.mem, Cpu(0, 0)), LPop());
    assert y.mem.head == y.mem.tail == y.mem.len == 0 && 0 !in y.mem.nodes;
    hide LPop, AfterPop, SetPrev, SetNext;
    var y1 := Exec(Config(y.mem, x.cpu), Store(TailCell, NODE));
    AddOneRuns(y1);
    NullHead(Finish(y1, AddOne()).mem);
  }

  lemma NullHead(m: Memory)
    requires m.len == 1 && m.head == 0 && 0 !in m.nodes
    ensures !Safe(Config(m, Cpu(0, 0)), LPop())
  {
    var y := Pop1(Config(m, Cpu(0, 0)));
  }
}
