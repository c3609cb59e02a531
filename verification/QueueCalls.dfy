/**
  Whole calls on the receive queue of c_tcp_to_can/src/dev_can.c, in any run of ReceiveQueue: what one call
  of read_can_frame takes, what one turn of thread_can_frame_rcv adds, and that frames do get through.

  A call is told from outside, by the states in which its thread is busy; nothing here looks at how the
  steps of a thread are defined, except to prove it.
 */
module QueueCalls {
  import opened CanClient
  import opened ListPrograms
  import opened ReceiveQueue

  // ----- one call of read_can_frame

  /** Where reader i is tells what it has taken since it took the mutex, `popped` and `listed` being the frames then. */
  ghost predicate ReadSoFar(s: State, i: nat, popped: seq<CanFrame>, listed: seq<CanFrame>) {
    && s.inserted == popped + listed
    && match Pc(s, i)
       case Locked => s.popped == popped
       case SawNone => s.popped == popped && listed == []
       case Popping(_, _) => s.popped == popped && listed != []
       case Took(_) => listed != [] && s.popped == popped + [listed[0]]
       case Freed => listed != [] && s.popped == popped + [listed[0]]
       case _ => false
  }

  function Head(listed: seq<CanFrame>): seq<CanFrame> { if listed == [] then [] else [listed[0]] }

  /** While reader i is inside, every step is its own or leaves the history of the queue alone. */
  lemma OthersLeaveQueue(s: State, s': State, i: nat)
    requires Inv(s) && Next(s, s') && ReaderInside(s, i) && !ReaderStep(s, s', i)
    ensures s'.inserted == s.inserted && s'.popped == s.popped && Pc(s', i) == Pc(s, i)
  {
    if InserterStep(s, s') {
      hide MemoryInv, CountInv, After, Rest, RPush, Stored;
      InserterKeepsMutex(s, s');
    } else {
      hide MemoryInv, CountInv, NextPc, NextMem, CopiedOut;
      var j :| ReaderStep(s, s', j);
      ReaderIsHolder(s, s', j);
    }
  }

  lemma OwnStep(s: State, s': State, i: nat)
    requires Inv(s) && ReaderStep(s, s', i) && ReaderInside(s, i)
    ensures s'.inserted == s.inserted && s'.popped == s.popped + CopiedOut(s, i) && Pc(s', i) == NextPc(s, i)
    ensures Fits(s.mem, ReaderTask(Pc(s, i)), Untaken(s))
  {
    ReaderKeepsMutex(s, s', i);
    hide NextPc, NextMem, CopiedOut, MutexInv, CountInv, Fits, TaskOf, ReaderTask;
  }

  lemma ReadStep(s: State, s': State, i: nat, popped: seq<CanFrame>, listed: seq<CanFrame>)
    requires Inv(s) && Next(s, s') && ReaderInside(s, i) && ReadSoFar(s, i, popped, listed)
    ensures if ReaderInside(s', i) then ReadSoFar(s', i, popped, listed) else s'.popped == popped + Head(listed)
  {
    hide Inv, Next, ReaderStep, LPop, Finish, Safe, Listed, After, Rest, At;
    if !ReaderStep(s, s', i) {
      OthersLeaveQueue(s, s', i);
      return;
    }
    OwnStep(s, s', i);
    match Pc(s, i)
    case Locked =>
      assert Untaken(s) == listed;
      StartPop(s.mem, listed);
    case Popping(cpu, code) =>
      if code.Done? {
        assert Untaken(s) == listed;
        EndPop(s.mem, cpu, listed);
      }
    case _ =>
  }

  lemma ReadStarts(s: State, s': State, i: nat)
    requires Inv(s) && Next(s, s') && !ReaderInside(s, i) && ReaderInside(s', i)
    ensures ReadSoFar(s', i, s.popped, Frames(s.mem))
  {
    if InserterStep(s, s') {
      InserterKeepsMutex(s, s');
    } else {
      var j :| ReaderStep(s, s', j);
      ReaderKeepsMutex(s, s', j);
      hide MutexInv, CountInv, NextMem, LPop;
      assert i == j && s.owner.Free?;
    }
  }

  /** Reader i is busy from l + 1 to k. */
  ghost predicate Reads(run: seq<State>, i: nat, l: nat, k: nat) {
    l < k < |run| && !ReaderInside(run[l], i) && forall m :: l < m <= k ==> ReaderInside(run[m], i)
  }

  lemma {:induction false} ReadUpTo(run: seq<State>, i: nat, l: nat, k: nat)
    requires Run(run) && Reads(run, i, l, k)
    ensures ReadSoFar(run[k], i, run[l].popped, Frames(run[l].mem))
    decreases k
  {
    hide Inv, ReadSoFar, ReaderInside, Next, Frames, Init;
    RunInv(run, k - 1);
    assert Next(run[k - 1], run[k]);
    hide Run;
    if k == l + 1 {
      ReadStarts(run[l], run[k], i);
    } else {
      assert ReaderInside(run[k - 1], i);
      ReadUpTo(run, i, l, k - 1);
      ReadStep(run[k - 1], run[k], i, run[l].popped, Frames(run[l].mem));
    }
  }

  /** A whole call of read_can_frame takes exactly the first frame in the list, and nothing from an empty one. */
  lemma ReadTakesHead(run: seq<State>, i: nat, l: nat, k: nat)
    requires Run(run) && Reads(run, i, l, k) && k + 1 < |run| && !ReaderInside(run[k + 1], i)
    ensures run[k + 1].popped == run[l].popped + if Frames(run[l].mem) == [] then [] else [Frames(run[l].mem)[0]]
  {
    RunInv(run, k);
    ReadUpTo(run, i, l, k);
    assert ReaderInside(run[k], i) && Next(run[k], run[k + 1]);
    hide Inv, ReadSoFar, ReaderInside, Next;
    ReadStep(run[k], run[k + 1], i, run[l].popped, Frames(run[l].mem));
  }

  // ----- one turn of thread_can_frame_rcv

  /** What only the receiving thread changes. */
  datatype Books = Books(received: seq<SocketFrame>, inserted: seq<CanFrame>, msgFailures: nat, nodeFailures: nat, frameCnt: int, posts: nat)

  function BooksOf(s: State): Books {
    Books(s.received, s.inserted, s.msgFailures, s.nodeFailures, s.frameCnt, s.posts)
  }

  /** The frame has got its node, or the node allocation has failed. */
  ghost predicate Entered(b: Books, b': Books, f: SocketFrame) {
    || b' == b.(received := b.received + [f], inserted := b.inserted + [Stored(f)])
    || b' == b.(received := b.received + [f], nodeFailures := b.nodeFailures + 1)
  }

  ghost predicate TurnSoFar(s: State, b: Books, f: SocketFrame) {
    var b' := BooksOf(s);
    match s.inserter
    case Reading => false
    case Got(g) => g == f && b' == b.(received := b.received + [f])
    case Waiting(msg) => msg == Stored(f) && b' == b.(received := b.received + [f])
    case Holding(msg) => msg == Stored(f) && b' == b.(received := b.received + [f])
    case Pushing(_, _) => b' == b.(received := b.received + [f], inserted := b.inserted + [Stored(f)])
    case Pushed => Entered(b, b', f)
    case Counted => b'.frameCnt == b.frameCnt + 1 && Entered(b, b'.(frameCnt := b.frameCnt), f)
    case Posting => b'.frameCnt == b.frameCnt + 1 && Entered(b, b'.(frameCnt := b.frameCnt), f)
  }

  /** A turn loses its frame with the message allocation, before anything is counted, or counts it once and posts once. */
  ghost predicate TurnDone(b: Books, b': Books, f: SocketFrame) {
    || b' == b.(received := b.received + [f], msgFailures := b.msgFailures + 1)
    || (b'.frameCnt == b.frameCnt + 1 && b'.posts == b.posts + 1 && Entered(b, b'.(frameCnt := b.frameCnt, posts := b.posts), f))
  }

  lemma BooksAreTheInserters(s: State, s': State)
    requires Next(s, s') && !InserterStep(s, s')
    ensures BooksOf(s') == BooksOf(s) && s'.inserter == s.inserter
  {
    hide InserterStep, NextPc, NextMem, CopiedOut;
  }

  lemma TurnStep(s: State, s': State, b: Books, f: SocketFrame)
    requires Next(s, s') && TurnSoFar(s, b, f)
    ensures if s'.inserter.Reading? then TurnDone(b, BooksOf(s'), f) else TurnSoFar(s', b, f)
  {
    hide Stored, After, Rest, RPush, Next;
    if !InserterStep(s, s') {
      BooksAreTheInserters(s, s');
      hide InserterStep;
    }
  }

  lemma TurnStarts(s: State, s': State) returns (f: SocketFrame)
    requires Next(s, s') && s.inserter.Reading? && !s'.inserter.Reading?
    ensures TurnSoFar(s', BooksOf(s), f)
  {
    hide Stored, NextPc, NextMem, CopiedOut;
    f :| Receive(s, s', f);
  }

  ghost predicate Turns(run: seq<State>, l: nat, k: nat) {
    l < k < |run| && run[l].inserter.Reading? && forall m :: l < m <= k ==> !run[m].inserter.Reading?
  }

  lemma {:induction false} TurnUpTo(run: seq<State>, l: nat, k: nat) returns (f: SocketFrame)
    requires Run(run) && Turns(run, l, k)
    ensures TurnSoFar(run[k], BooksOf(run[l]), f)
    decreases k
  {
    hide Next, TurnSoFar, Init;
    assert Next(run[k - 1], run[k]) && !run[k].inserter.Reading?;
    hide Run;
    if k == l + 1 {
      f := TurnStarts(run[l], run[k]);
    } else {
      f := TurnUpTo(run, l, k - 1);
      TurnStep(run[k - 1], run[k], BooksOf(run[l]), f);
    }
  }

  /**
    A whole turn of the receiving thread takes in one frame; its stored form goes in last, and is counted and
    posted once, unless an allocation fails: then it is lost, counted and posted exactly if it was the node's.
   */
  lemma TurnAddsOne(run: seq<State>, l: nat, k: nat) returns (f: SocketFrame)
    requires Run(run) && Turns(run, l, k) && k + 1 < |run| && run[k + 1].inserter.Reading?
    ensures TurnDone(BooksOf(run[l]), BooksOf(run[k + 1]), f)
  {
    f := TurnUpTo(run, l, k);
    assert Next(run[k], run[k + 1]) && !run[k].inserter.Reading?;
    hide Next, TurnSoFar, TurnDone;
    TurnStep(run[k], run[k + 1], BooksOf(run[l]), f);
  }

  // ----- what waits for what

  /** In every run a thread is held up by one thing only: the mutex, when it is about to take it and another has it. */
  lemma OnlyTheMutexBlocks(run: seq<State>, k: nat, i: nat)
    requires Run(run) && k < |run|
    ensures (exists s' :: InserterStep(run[k], s')) <==> !(run[k].inserter.Waiting? && !run[k].owner.Free?)
    ensures (exists s' :: ReaderStep(run[k], s', i)) <==> !(Pc(run[k], i).Idle? && !run[k].owner.Free?)
  {
    RunInv(run, k);
    var s := run[k];
    if !(s.inserter.Waiting? && !s.owner.Free?) {
      InserterGoesOn(s);
    }
    hide Fits, NextPc, NextMem, CopiedOut, InserterStep, CountInv, MutexInv;
    if !(Pc(s, i).Idle? && !s.owner.Free?) {
      assert ReaderStep(s, s.(readers := s.readers[i := NextPc(s, i)], mem := NextMem(s, i), popped := s.popped + CopiedOut(s, i),
        owner := if Pc(s, i).Idle? then ByReader(i) else if NextPc(s, i).Idle? then Free else s.owner), i);
    }
    if s.inserter.Waiting? && !s.owner.Free? {
      WaitingWaits(s);
    }
  }

  lemma WaitingWaits(s: State)
    requires s.inserter.Waiting? && !s.owner.Free?
    ensures !exists s' :: InserterStep(s, s')
  {
  }

  lemma InserterGoesOn(s: State)
    requires Inv(s) && (s.inserter.Waiting? ==> s.owner.Free?)
    ensures exists s' :: InserterStep(s, s')
  {
    if s.inserter.Reading? {
      var f := SocketFrame(0, 0, [0, 0, 0, 0, 0, 0, 0, 0]);
      var s' := s.(inserter := Got(f), received := s.received + [f]);
      assert Receive(s, s', f);
      assert InserterStep(s, s');
    } else if s.inserter.Got? {
      var s' := s.(inserter := Reading, msgFailures := s.msgFailures + 1);
      assert AllocateMsg(s, s', false);
      assert InserterStep(s, s');
    } else if s.inserter.Waiting? {
      assert InserterStep(s, s.(inserter := Holding(s.inserter.msg), owner := ByInserter));
    } else if s.inserter.Posting? {
      assert InserterStep(s, s.(inserter := Reading, posts := s.posts + 1));
    } else {
      hide MemoryInv, CountInv;
      assert s.owner.ByInserter?;
      InserterCanStep(s);
    }
  }

  // ----- frames get through

  /** Either allocation may fail, and a node may be given any address not in use. */
  lemma AnyAllocation(s: State, node: nat)
    ensures s.inserter.Got? ==> exists s' :: Next(s, s') && s'.msgFailures == s.msgFailures + 1
    ensures s.inserter.Holding? && node !in s.mem.nodes ==>
              exists s' :: Next(s, s') && if node == 0 then s'.nodeFailures == s.nodeFailures + 1 else s'.mem.nodes.Keys == s.mem.nodes.Keys + {node}
  {
    if s.inserter.Got? {
      var s' := s.(inserter := Reading, msgFailures := s.msgFailures + 1);
      assert AllocateMsg(s, s', false);
      assert Next(s, s');
    }
    if s.inserter.Holding? && node !in s.mem.nodes {
      var s' := if node == 0 then s.(inserter := Pushed, nodeFailures := s.nodeFailures + 1)
        else s.(inserter := Pushing(Cpu(node, 0), RPush()), inserted := s.inserted + [s.inserter.msg],
                mem := s.mem.(nodes := s.mem.nodes[node := Node(0, 0, s.inserter.msg)]));
      assert AllocateNode(s, s', node);
      assert Next(s, s');
    }
  }

  lemma Extend(run: seq<State>, s': State) returns (run': seq<State>)
    requires Run(run) && Next(run[|run| - 1], s')
    ensures run' == run + [s'] && Run(run')
  {
    run' := run + [s'];
    hide Next, Init;
    forall k | 0 <= k < |run'| - 1
      ensures Next(run'[k], run'[k + 1])
    {
      if k < |run| - 1 {
        assert Next(run[k], run[k + 1]);
      }
    }
  }

  /** One step of the holder, past its node allocation: what it leaves alone. */
  lemma HolderLeaves(s: State, s': State)
    requires Inv(s) && HolderStep(s, s') && !s.inserter.Holding?
    ensures s'.received == s.received && s'.inserted == s.inserted && s'.msgFailures == s.msgFailures && s'.nodeFailures == s.nodeFailures
    ensures s'.owner == s.owner || s'.owner.Free?
    ensures s.owner.ByReader? ==> s'.inserter == s.inserter
    ensures s.owner.ByInserter? ==> s'.popped == s.popped && !s'.inserter.Holding? && (s'.owner.Free? ==> s'.inserter.Posting?)
  {
    hide MemoryInv, CountInv, After, Rest, RPush, NextPc, NextMem, CopiedOut, Stored;
  }

  lemma HolderOnce(run: seq<State>) returns (run': seq<State>)
    requires Run(run) && !run[|run| - 1].owner.Free? && !run[|run| - 1].inserter.Holding?
    ensures Run(run') && |run'| == |run| + 1 && run'[..|run|] == run
    ensures var s, s' := run[|run| - 1], run'[|run|];
            && StepsLeft(s') < StepsLeft(s) && (s'.owner == s.owner || s'.owner.Free?)
            && s'.received == s.received && s'.inserted == s.inserted && s'.msgFailures == s.msgFailures && s'.nodeFailures == s.nodeFailures
            && (if s.owner.ByReader? then s'.inserter == s.inserter
                else s'.popped == s.popped && !s'.inserter.Holding? && (s'.owner.Free? ==> s'.inserter.Posting?))
  {
    var s := run[|run| - 1];
    RunInv(run, |run| - 1);
    hide Run, Inv, HolderStep, InserterStep, ReaderStep, StepsLeft;
    HolderCanStep(s);
    var s1 :| HolderStep(s, s1);
    HolderNearer(s, s1);
    HolderLeaves(s, s1);
    HolderIsNext(s, s1);
    run' := Extend(run, s1);
  }

  lemma HolderIsNext(s: State, s': State)
    requires HolderStep(s, s')
    ensures Next(s, s')
  {
    hide InserterStep, ReaderStep;
  }

  /** The holder runs on, alone, until it gives the mutex back. */
  lemma {:induction false} HolderRuns(run: seq<State>) returns (run': seq<State>)
    requires Run(run) && !run[|run| - 1].owner.Free? && !run[|run| - 1].inserter.Holding?
    ensures Run(run') && |run| < |run'| && run'[..|run|] == run
    ensures forall m :: |run| <= m < |run'| - 1 ==> run'[m].owner == run[|run| - 1].owner
    ensures var s, s' := run[|run| - 1], run'[|run'| - 1];
            && s'.owner.Free?
            && s'.received == s.received && s'.inserted == s.inserted && s'.msgFailures == s.msgFailures && s'.nodeFailures == s.nodeFailures
            && (if s.owner.ByReader? then s'.inserter == s.inserter else s'.inserter.Posting? && s'.popped == s.popped)
    decreases StepsLeft(run[|run| - 1])
  {
    var s := run[|run| - 1];
    hide Run, StepsLeft;
    var run1 := HolderOnce(run);
    var s1 := run1[|run|];
    if s1.owner.Free? {
      run' := run1;
    } else {
      run' := HolderRuns(run1);
      assert run'[..|run|] == run'[..|run1|][..|run|];
      assert forall m :: |run1| <= m < |run'| - 1 ==> run'[m].owner == s.owner;
      assert run'[|run|] == run'[..|run1|][|run|];
    }
  }

  lemma {:induction false} UnusedAddress(used: set<nat>) returns (n: nat)
    ensures n !in used && n > 0 && forall a :: a in used ==> a < n
    decreases used
  {
    if used == {} {
      n := 1;
    } else {
      var a :| a in used;
      n := UnusedAddress(used - {a});
      n := if n <= a then a + 1 else n;
      assert used == used - {a} + {a};
    }
  }

  ghost predicate Resting(s: State, fs: seq<SocketFrame>) {
    && s.owner.Free? && s.inserter.Reading? && s.received == fs && s.msgFailures == 0 && s.nodeFailures == 0
    && s.inserted == AllStored(fs)
  }

  /** A turn of the receiving thread whose allocations succeed. */
  lemma InsertOne(run: seq<State>, f: SocketFrame) returns (run': seq<State>)
    requires Run(run) && Resting(run[|run| - 1], run[|run| - 1].received)
    ensures Run(run') && 0 < |run'| && Resting(run'[|run'| - 1], run[|run| - 1].received + [f])
    ensures run'[|run'| - 1].popped == run[|run| - 1].popped
  {
    var s := run[|run| - 1];
    StoredSnoc(s.received, f);
    hide Stored, AllStored, RPush;
    var s1 := s.(inserter := Got(f), received := s.received + [f]);
    assert Receive(s, s1, f);
    run' := Extend(run, s1);
    var s2 := s1.(inserter := Waiting(Stored(f)));
    assert AllocateMsg(s1, s2, true);
    run' := Extend(run', s2);
    var s3 := s2.(inserter := Holding(Stored(f)), owner := ByInserter);
    assert Acquire(s2, s3);
    run' := Extend(run', s3);
    var node := UnusedAddress(s3.mem.nodes.Keys);
    var s4 := s3.(inserter := Pushing(Cpu(node, 0), RPush()), inserted := s3.inserted + [Stored(f)],
                  mem := s3.mem.(nodes := s3.mem.nodes[node := Node(0, 0, Stored(f))]));
    assert AllocateNode(s3, s4, node);
    run' := Extend(run', s4);
    hide Run, Next;
    run' := HolderRuns(run');
    var s5 := run'[|run'| - 1];
    assert Post(s5, s5.(inserter := Reading, posts := s5.posts + 1));
    assert InserterStep(s5, s5.(inserter := Reading, posts := s5.posts + 1));
    run' := PostOne(run');
  }

  lemma PostOne(run: seq<State>) returns (run': seq<State>)
    requires Run(run) && 0 < |run| && run[|run| - 1].inserter.Posting?
    ensures var s := run[|run| - 1]; run' == run + [s.(inserter := Reading, posts := s.posts + 1)] && Run(run')
  {
    var s := run[|run| - 1];
    var s' := s.(inserter := Reading, posts := s.posts + 1);
    assert Post(s, s');
    run' := Extend(run, s');
  }

  lemma InsideIsOwner(run: seq<State>, m: nat, i: nat)
    requires Run(run) && m < |run|
    ensures ReaderInside(run[m], i) <==> run[m].owner == ByReader(i)
  {
    RunInv(run, m);
    hide MemoryInv, CountInv;
  }

  lemma StartRead(run: seq<State>, i: nat) returns (run': seq<State>)
    requires Run(run) && run[|run| - 1].owner.Free?
    ensures Run(run') && |run'| == |run| + 1 && run'[..|run|] == run
    ensures var s := run[|run| - 1]; run'[|run|] == s.(readers := s.readers[i := Locked], owner := ByReader(i))
  {
    var s := run[|run| - 1];
    InsideIsOwner(run, |run| - 1, i);
    hide LPop, Run;
    var s1 := s.(readers := s.readers[i := Locked], owner := ByReader(i));
    assert s.popped + [] == s.popped;
    assert ReaderStep(s, s1, i);
    run' := Extend(run, s1);
  }

  /** A call of read_can_frame by reader i. */
  lemma ReadOne(run: seq<State>, i: nat) returns (run': seq<State>)
    requires Run(run) && Resting(run[|run| - 1], run[|run| - 1].received)
    ensures Run(run') && 0 < |run'| && Resting(run'[|run'| - 1], run[|run| - 1].received)
    ensures run'[|run'| - 1].popped == run[|run| - 1].popped + Head(Frames(run[|run| - 1].mem))
  {
    var l := |run| - 1;
    var run1 := StartRead(run, i);
    hide Run, Frames, AllStored, ReaderInside;
    run' := HolderRuns(run1);
    var k := |run'| - 2;
    assert run'[..l + 2][l] == run1[..l + 1][l] && run'[l + 1] == run1[l + 1];
    InsideIsOwner(run', l, i);
    InsideIsOwner(run', k + 1, i);
    forall m | l < m <= k
      ensures ReaderInside(run'[m], i)
    {
      InsideIsOwner(run', m, i);
    }
    ReadTakesHead(run', i, l, k);
  }

  /** Whatever frames arrive, there is a run in which reader i takes all of them, in order. */
  lemma {:induction false} Delivered(fs: seq<SocketFrame>, i: nat) returns (run: seq<State>)
    ensures Run(run) && 0 < |run|
    ensures var s := run[|run| - 1]; s.received == fs && s.popped == AllStored(fs) && s.owner.Free? && Frames(s.mem) == []
  {
    run := DeliverAll(fs, i);
    QueueIsFifo(run, |run| - 1);
  }

  lemma {:induction false} DeliverAll(fs: seq<SocketFrame>, i: nat) returns (run: seq<State>)
    ensures Run(run) && 0 < |run| && Resting(run[|run| - 1], fs) && run[|run| - 1].popped == AllStored(fs)
    decreases |fs|
  {
    if fs == [] {
      var s0 := State(Memory(0, 0, 0, map[]), Free, 0, 0, Reading, map[], [], [], [], 0, 0);
      assert Init(s0);
      run := [s0];
    } else {
      var n := |fs| - 1;
      run := DeliverAll(fs[..n], i);
      run := InsertOne(run, fs[n]);
      assert fs[..n] + [fs[n]] == fs;
      StoredSnoc(fs[..n], fs[n]);
      var s := run[|run| - 1];
      QueueIsFifo(run, |run| - 1);
      hide Run, AllStored, Stored;
      assert Frames(s.mem) == [Stored(fs[n])];
      run := ReadOne(run, i);
    }
  }
}
