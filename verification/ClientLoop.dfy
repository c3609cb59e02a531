/**
  The two threads of c_tcp_to_can/src/main.c over the shared send ring.

  pthread_loop wakes up, and while connected queues the four set-up commands once and a time-sync
  afterwards; thread_client disconnects and reconnects, and while connected takes 13 bytes at a time
  to send.  Ring accesses interleave step by step as in SharedRing.
 */
module ClientLoop {
  import opened Machine
  import opened Codec
  import opened Commands
  import opened RingBuffer
  import opened SharedRing

  const TXBUF_SIZE: nat := 2048

  /** Where pthread_loop is: asleep, at set-up command k (4 is the assignment to init_flag), or at the sync. */
  datatype LoopPc = Sleeping | SettingUp(k: nat) | Syncing(time: Payload)

  datatype Sys = Sys(ring: State, connected: bool, initFlag: bool, loop: LoopPc)

  function SetupCommand(k: nat): Command
    requires k < 4
  {
    if k == 0 then PowerOnOff(0) else if k == 1 then EnableDcModule(1) else if k == 2 then DcPower(100) else FaultClear(1)
  }

  predicate Calling(pc: LoopPc) {
    pc.Syncing? || (pc.SettingUp? && pc.k < 4)
  }

  function CommandAt(pc: LoopPc): Command
    requires Calling(pc)
  {
    if pc.Syncing? then Sync(pc.time) else SetupCommand(pc.k)
  }

  // ----- the loop body, as code

  function QueueAll(q: seq<u8>, cap: nat, cs: seq<Command>): (q': seq<u8>)
    requires |q| <= cap
    ensures |q'| <= cap
  {
    if cs == [] then q else QueueOne(QueueAll(q, cap, cs[..|cs| - 1]), cap, cs[|cs| - 1])
  }

  lemma QueueFour(q: seq<u8>, cap: nat, c0: Command, c1: Command, c2: Command, c3: Command)
    requires |q| <= cap
    ensures QueueAll(q, cap, []) == q
    ensures QueueAll(q, cap, [c0]) == QueueOne(q, cap, c0)
    ensures QueueAll(q, cap, [c0, c1, c2, c3]) == QueueOne(QueueOne(QueueOne(QueueOne(q, cap, c0), cap, c1), cap, c2), cap, c3)
  {
    hide QueueOne;
    assert [c0][..0] == [] && [c0, c1][..1] == [c0] && [c0, c1, c2][..2] == [c0, c1] && [c0, c1, c2, c3][..3] == [c0, c1, c2];
    assert QueueAll(q, cap, [c0]) == QueueOne(QueueAll(q, cap, []), cap, c0);
    assert QueueAll(q, cap, [c0, c1]) == QueueOne(QueueAll(q, cap, [c0]), cap, c1);
    assert QueueAll(q, cap, [c0, c1, c2]) == QueueOne(QueueAll(q, cap, [c0, c1]), cap, c2);
  }

  /** One turn of pthread_loop after its sleep. */
  method LoopBody(rbsend: RingBuf, isConnected: bool, initFlag: bool, time: Payload) returns (initFlag': bool)
    requires rbsend.Ready()
    modifies rbsend`rear, rbsend.buf
    ensures rbsend.Ready() && rbsend.size == old(rbsend.size) && initFlag' == (initFlag || isConnected)
    ensures |old(rbsend.Queued())| <= rbsend.size
    ensures var cs := if !isConnected then [] else if initFlag then [Sync(time)]
                      else [SetupCommand(0), SetupCommand(1), SetupCommand(2), SetupCommand(3)];
            rbsend.Queued() == QueueAll(old(rbsend.Queued()), rbsend.size, cs)
  {
    assert |rbsend.Queued()| <= rbsend.size;
    hide Valid, Contents, FrameBytes, Request, QueueAll, QueueOne, Min, SetupCommand;
    SetupCommands();
    QueueFour(rbsend.Queued(), rbsend.size, PowerOnOff(0), EnableDcModule(1), DcPower(100), FaultClear(1));
    QueueFour(rbsend.Queued(), rbsend.size, Sync(time), Sync(time), Sync(time), Sync(time));
    initFlag' := initFlag;
    if isConnected {
      if initFlag {
        var ret := LlEsCanSync(rbsend, time);
      } else {
        var ret := LlEsCanPowerOnOff(rbsend, 0);
        ret := LlEsCanEnableDcModule(rbsend, 1);
        ret := LlEsCanDcPower(rbsend, 100);
        ret := LlEsCanFaultClear(rbsend, 1);
        initFlag' := true;
      }
    }
  }

  lemma SetupCommands()
    ensures SetupCommand(0) == PowerOnOff(0) && SetupCommand(1) == EnableDcModule(1)
    ensures SetupCommand(2) == DcPower(100) && SetupCommand(3) == FaultClear(1)
  {
  }

  // ----- steps

  ghost predicate SysInit(s: Sys) {
    Initial(s.ring) && s.ring.ring.size == TXBUF_SIZE && s.connected && !s.initFlag && s.loop.Sleeping?
  }

  ghost predicate Wake(s: Sys, s': Sys, time: Payload) {
    && s.loop.Sleeping? && s.connected
    && s' == s.(loop := if s.initFlag then Syncing(time) else SettingUp(0))
  }

  ghost predicate Call(s: Sys, s': Sys) {
    && Calling(s.loop) && s' == s.(ring := s'.ring)
    && PLoad(s.ring, s'.ring, FrameBytes(Request(CommandAt(s.loop))))
  }

  ghost predicate Sending(s: Sys, s': Sys) {
    && Calling(s.loop) && s' == s.(ring := s'.ring)
    && (PClamp(s.ring, s'.ring) || exists i :: PCopy(s.ring, s'.ring, i))
  }

  ghost predicate Return(s: Sys, s': Sys) {
    && Calling(s.loop) && PPublish(s.ring, s'.ring)
    && s' == s.(ring := s'.ring, loop := if s.loop.Syncing? then Sleeping else SettingUp(s.loop.k + 1))
  }

  ghost predicate SetupDone(s: Sys, s': Sys) {
    s.loop == SettingUp(4) && s' == s.(initFlag := true, loop := Sleeping)
  }

  ghost predicate Disconnect(s: Sys, s': Sys) {
    s.ring.c.CIdle? && s.connected && s' == s.(connected := false)
  }

  ghost predicate Reconnect(s: Sys, s': Sys) {
    s.ring.c.CIdle? && !s.connected && s' == s.(connected := true)
  }

  ghost predicate Take(s: Sys, s': Sys) {
    s.connected && s' == s.(ring := s'.ring) && CLoad(s.ring, s'.ring, FRAME_SIZE)
  }

  ghost predicate Taking(s: Sys, s': Sys) {
    && s' == s.(ring := s'.ring)
    && (CClamp(s.ring, s'.ring) || (exists i :: CCopy(s.ring, s'.ring, i)) || CPublish(s.ring, s'.ring))
  }

  /** A step of pthread_loop, and of thread_client. */
  ghost predicate LoopStep(s: Sys, s': Sys) {
    (exists time :: Wake(s, s', time)) || Call(s, s') || Sending(s, s') || Return(s, s') || SetupDone(s, s')
  }

  ghost predicate ClientStep(s: Sys, s': Sys) {
    Disconnect(s, s') || Reconnect(s, s') || Take(s, s') || Taking(s, s')
  }

  ghost predicate SysNext(s: Sys, s': Sys) { LoopStep(s, s') || ClientStep(s, s') }

  ghost predicate SysRun(run: seq<Sys>) {
    && 0 < |run| && SysInit(run[0])
    && forall i :: 0 <= i < |run| - 1 ==> SysNext(run[i], run[i + 1])
  }

  lemma RingStepOrIdle(s: Sys, s': Sys)
    requires SysNext(s, s')
    ensures s'.ring == s.ring || Next(s.ring, s'.ring)
  {
  }

  // ----- what has been queued

  /** The i-th frame of a session: four set-up commands, then time-syncs. */
  ghost predicate Scripted(i: nat, f: seq<u8>) {
    if i < 4 then f == FrameBytes(Request(SetupCommand(i)))
    else exists time :: f == FrameBytes(Request(Sync(time)))
  }

  ghost predicate ScriptInv(s: Sys) {
    var puts := s.ring.puts;
    && (!s.ring.p.PIdle? ==> Calling(s.loop) && s.ring.p.data == FrameBytes(Request(CommandAt(s.loop))))
    && (if s.initFlag then |puts| >= 4 && !s.loop.SettingUp?
        else !s.loop.Syncing? && |puts| == (if s.loop.SettingUp? then s.loop.k else 0) && |puts| <= 4)
    && (forall i :: 0 <= i < |puts| ==> Scripted(i, puts[i].data))
    && (s.ring.c.CLoaded? ==> s.ring.c.want == FRAME_SIZE)
    && (s.ring.c.CCopying? ==> s.ring.c.n <= FRAME_SIZE)
  }

  lemma ReturnKeepsScript(s: Sys, s': Sys)
    requires ScriptInv(s) && Return(s, s')
    ensures ScriptInv(s')
  {
    hide FrameBytes, Request;
    var f := s.ring.p.data;
    assert Scripted(|s.ring.puts|, f) by {
      if s.loop.Syncing? {
        assert f == FrameBytes(Request(Sync(s.loop.time)));
      }
    }
  }

  lemma StepKeepsScript(s: Sys, s': Sys)
    requires ScriptInv(s) && SysNext(s, s')
    ensures ScriptInv(s')
  {
    hide FrameBytes, Request;
    if Return(s, s') {
      ReturnKeepsScript(s, s');
    }
  }

  // ----- framing

  /** Every finished send went in whole. */
  predicate Whole(puts: seq<PutEvent>) {
    forall e :: e in puts ==> e.n == FRAME_SIZE == |e.data|
  }

  lemma WholeFront(puts: seq<PutEvent>)
    requires Whole(puts) && puts != []
    ensures Whole(puts[..|puts| - 1])
    ensures Accepted(puts) == Accepted(puts[..|puts| - 1]) + puts[|puts| - 1].data
  {
  }

  lemma {:induction false} WholeBytes(puts: seq<PutEvent>, i: nat)
    requires Whole(puts) && i <= |puts|
    ensures |Accepted(puts)| == FRAME_SIZE * |puts|
    ensures i < |puts| ==> Accepted(puts)[FRAME_SIZE * i..FRAME_SIZE * i + FRAME_SIZE] == puts[i].data
    decreases |puts|
  {
    if puts != [] {
      var front, lo := puts[..|puts| - 1], FRAME_SIZE * i;
      WholeFront(puts);
      assert puts[|puts| - 1] in puts;
      hide Accepted, Whole;
      if i < |front| {
        WholeBytes(front, i);
        assert lo + FRAME_SIZE <= |Accepted(front)|;
        assert Accepted(puts)[lo..lo + FRAME_SIZE] == Accepted(front)[lo..lo + FRAME_SIZE];
      } else {
        WholeBytes(front, 0);
      }
    }
  }

  /**
    While every send so far went in whole, whole frames come out: frame i taken is frame i put, and
    whatever room or data a thread has seen is a whole number of frames (2048 = 157 * 13 + 7).
   */
  ghost predicate FramedInv(s: State) {
    Whole(s.puts) ==>
      && F(s) == FRAME_SIZE * |s.gets|
      && (forall i :: 0 <= i < |s.gets| ==> i < |s.puts| && s.gets[i] == s.puts[i].data)
      && (s.p.PLoaded? ==> Room(s.ring.size, s.p.frontSeen, s.ring.rear) % FRAME_SIZE == 7)
      && (s.p.PCopying? ==> s.p.n == 7 || s.p.n == FRAME_SIZE)
      && (s.c.CLoaded? ==> Used(s.ring.front, s.c.rearSeen) % FRAME_SIZE == 0)
      && (s.c.CCopying? ==> s.c.n == 0 || s.c.n == FRAME_SIZE)
  }

  /** The first send that does not go in whole loses exactly its last 6 bytes. */
  ghost predicate TornInv(puts: seq<PutEvent>) {
    forall m :: 0 <= m < |puts| && Whole(puts[..m]) ==> puts[m].n == 7 || puts[m].n == FRAME_SIZE
  }

  ghost predicate SysInv(s: Sys) {
    Inv(s.ring) && s.ring.ring.size == TXBUF_SIZE && ScriptInv(s) && FramedInv(s.ring) && TornInv(s.ring.puts)
  }

  lemma LoadIsFramed(s: Sys, s': Sys)
    requires SysInv(s) && (Call(s, s') || Take(s, s'))
    ensures FramedInv(s'.ring)
  {
    hide FrameBytes, Request, Wrap, Accepted, Taken;
    if Whole(s.ring.puts) {
      WholeBytes(s.ring.puts, 0);
      Distances(F(s.ring), R(s.ring), TXBUF_SIZE);
      Digit(7, 157 - |s.ring.puts| + |s.ring.gets|, FRAME_SIZE);
      Digit(0, |s.ring.puts| - |s.ring.gets|, FRAME_SIZE);
    }
  }

  lemma ClampedSize(x: u32)
    ensures x % FRAME_SIZE == 7 ==> Min(FRAME_SIZE, x) == 7 || Min(FRAME_SIZE, x) == FRAME_SIZE
    ensures x % FRAME_SIZE == 0 ==> Min(FRAME_SIZE, x) == 0 || Min(FRAME_SIZE, x) == FRAME_SIZE
  {
  }

  lemma PClampIsFramed(s: Sys, s': Sys)
    requires SysInv(s) && PClamp(s.ring, s'.ring)
    ensures FramedInv(s'.ring)
  {
    hide FrameBytes, Request, Wrap, Room, Used, Min;
    assert |s.ring.p.data| == FRAME_SIZE;
    ClampedSize(Room(s.ring.ring.size, s.ring.p.frontSeen, s.ring.ring.rear));
  }

  lemma CClampIsFramed(s: Sys, s': Sys)
    requires SysInv(s) && CClamp(s.ring, s'.ring)
    ensures FramedInv(s'.ring)
  {
    hide FrameBytes, Request, Wrap, Room, Used, Min;
    ClampedSize(Used(s.ring.ring.front, s.ring.c.rearSeen));
  }

  lemma ReturnIsFramed(s: Sys, s': Sys)
    requires SysInv(s) && PPublish(s.ring, s'.ring)
    ensures FramedInv(s'.ring) && TornInv(s'.ring.puts)
  {
    hide FrameBytes, Request, Wrap, Room, Used;
    var puts, puts' := s.ring.puts, s'.ring.puts;
    assert Whole(puts') ==> Whole(puts) by {
      assert forall e :: e in puts ==> e in puts';
    }
    forall m | 0 <= m < |puts'| && Whole(puts'[..m])
      ensures puts'[m].n == 7 || puts'[m].n == FRAME_SIZE
    {
      if m < |puts| {
        assert puts'[..m] == puts[..m];
      } else {
        assert puts'[..m] == puts;
      }
    }
  }

  lemma TakeIsFramed(s: Sys, s': Sys)
    requires SysInv(s) && CPublish(s.ring, s'.ring)
    ensures FramedInv(s'.ring)
  {
    hide FrameBytes, Request, Wrap, Accepted, Taken, Room, Used, CopiedOut;
    CPublishTakes(s.ring, s'.ring);
    if Whole(s.ring.puts) {
      WholeBytes(s.ring.puts, 0);
      if s.ring.c.n > 0 {
        WholeBytes(s.ring.puts, |s.ring.gets|);
      }
    }
  }

  lemma CopyIsFramed(s: Sys, s': Sys)
    requires FramedInv(s.ring)
    requires s'.ring == s.ring || (exists i :: PCopy(s.ring, s'.ring, i)) || (exists i :: CCopy(s.ring, s'.ring, i))
    ensures FramedInv(s'.ring)
  {
  }

  lemma StepKeepsFraming(s: Sys, s': Sys)
    requires SysInv(s) && SysNext(s, s')
    ensures FramedInv(s'.ring) && TornInv(s'.ring.puts)
  {
    hide FramedInv, TornInv, ScriptInv, Inv;
    if PPublish(s.ring, s'.ring) {
      ReturnIsFramed(s, s');
    } else {
      assert s'.ring.puts == s.ring.puts;
      if Call(s, s') || Take(s, s') {
        LoadIsFramed(s, s');
      } else if PClamp(s.ring, s'.ring) {
        PClampIsFramed(s, s');
      } else if CClamp(s.ring, s'.ring) {
        CClampIsFramed(s, s');
      } else if CPublish(s.ring, s'.ring) {
        TakeIsFramed(s, s');
      } else {
        CopyIsFramed(s, s');
      }
    }
  }

  lemma StepKeepsRing(s: Sys, s': Sys)
    requires Inv(s.ring) && SysNext(s, s')
    ensures Inv(s'.ring) && s'.ring.ring.size == s.ring.ring.size
  {
    RingStepOrIdle(s, s');
    hide Inv, SysNext;
    if s'.ring != s.ring {
      NextInv(s.ring, s'.ring);
    }
  }

  lemma StepKeepsInv(s: Sys, s': Sys)
    requires SysInv(s) && SysNext(s, s')
    ensures SysInv(s')
  {
    hide Inv, FramedInv, TornInv, ScriptInv, SysNext;
    StepKeepsRing(s, s');
    StepKeepsScript(s, s');
    StepKeepsFraming(s, s');
  }

  lemma {:induction false} RunInv(run: seq<Sys>, k: nat)
    requires SysRun(run) && k < |run|
    ensures SysInv(run[k])
  {
    if k == 0 {
      InitInv(run[0].ring);
    } else {
      RunInv(run, k - 1);
      StepKeepsInv(run[k - 1], run[k]);
    }
  }

  // ----- the room condition

  /** Every send clamped before step k saw at least 13 bytes of room. */
  ghost predicate RoomyUpTo(run: seq<Sys>, k: nat)
    requires k < |run|
  {
    forall i {:trigger run[i]} :: 0 <= i < k && PClamp(run[i].ring, run[i + 1].ring) ==>
      Room(TXBUF_SIZE, run[i].ring.p.frontSeen, run[i].ring.ring.rear) >= FRAME_SIZE
  }

  predicate WholeSoFar(s: State) {
    Whole(s.puts) && (s.p.PCopying? ==> s.p.n == FRAME_SIZE)
  }

  /** Room was always there when a send looked, exactly when every frame so far went in whole. */
  lemma {:induction false} RoomyIsWhole(run: seq<Sys>, k: nat)
    requires SysRun(run) && k < |run|
    ensures RoomyUpTo(run, k) <==> WholeSoFar(run[k].ring)
  {
    if k > 0 {
      RoomyIsWhole(run, k - 1);
      RunInv(run, k - 1);
      hide SysInv, SysNext, PClamp, Room;
      StepWhole(run[k - 1], run[k]);
    }
  }

  lemma StepWhole(s: Sys, s': Sys)
    requires SysInv(s) && SysNext(s, s')
    ensures WholeSoFar(s'.ring) <==>
              WholeSoFar(s.ring)
              && (PClamp(s.ring, s'.ring) ==> Room(TXBUF_SIZE, s.ring.p.frontSeen, s.ring.ring.rear) >= FRAME_SIZE)
  {
    hide FramedInv, TornInv, Inv, Room, FrameBytes, Request;
    if PPublish(s.ring, s'.ring) {
      var e := PutEvent(s.ring.p.data, s.ring.p.n);
      assert forall x :: x in s'.ring.puts <==> x in s.ring.puts || x == e;
    }
  }

  /** What the i-th frame taken means to its receiver: the four set-up commands, then only syncs. */
  ghost predicate CarriesCommand(i: nat, f: seq<u8>) {
    && |f| == FRAME_SIZE
    && if i < 4 then Decode(f) == Given(SetupCommand(i)) else Decode(f).Given? && Decode(f).c.Sync?
  }

  /** The same, byte for byte as sent. */
  ghost predicate ScriptBytes(i: nat, f: seq<u8>) {
    match i
    case 0 => f == [0x88, 0x01, 0x01, 0x10, 0x02, 0x01, 0, 0, 0, 0, 0, 0, 0]
    case 1 => f == [0x88, 0x01, 0x01, 0x10, 0x04, 0x07, 0, 0, 1, 0, 0, 0, 0]
    case 2 => f == [0x88, 0x01, 0x01, 0x10, 0x04, 0x75, 0, 0, 10, 0, 0, 0, 0]
    case 3 => f == [0x88, 0x00, 0x01, 0x10, 0x02, 0x02, 0, 0, 1, 0, 0, 0, 0]
    case _ => |f| == 13 && f[..7] == [0x88, 0x00, 0x00, 0x10, 0x05, 0x01, 0]
  }

  lemma ScriptedBytes(i: nat, f: seq<u8>)
    requires Scripted(i, f)
    ensures ScriptBytes(i, f)
  {
    hide FrameBytes, Request;
    if i < 4 {
      WireBytes(SetupCommand(i));
    } else {
      var time :| f == FrameBytes(Request(Sync(time)));
      WireBytes(Sync(time));
    }
  }

  lemma ScriptedCarries(i: nat, f: seq<u8>)
    requires Scripted(i, f)
    ensures CarriesCommand(i, f)
  {
    hide FrameBytes, Request, Decode;
    if i < 4 {
      CommandRoundTrip(SetupCommand(i));
      assert PowerWord(100) == 10;
    } else {
      var time :| f == FrameBytes(Request(Sync(time)));
      CommandRoundTrip(Sync(time));
    }
  }

  lemma FramesHeld(s: Sys)
    requires SysInv(s) && Whole(s.ring.puts)
    ensures |Abstract(s.ring).bytes| == FRAME_SIZE * (|s.ring.puts| - |s.ring.gets|)
    ensures |s.ring.gets| <= |s.ring.puts|
    ensures forall i :: 0 <= i < |s.ring.gets| ==> s.ring.gets[i] == s.ring.puts[i].data && Scripted(i, s.ring.gets[i])
  {
    hide FrameBytes, Request, Scripted, Wrap, Taken, Accepted;
    WholeBytes(s.ring.puts, 0);
  }

  /**
    In every run, whatever the interleaving and however often the connection drops: as long as each send
    found 13 bytes of room, the ring holds a whole number of frames, every take is one whole frame, and the
    frames taken are, in order, power-off, enable the DC module, power 100, fault clear, then only time-syncs.
   */
  lemma SessionScript(run: seq<Sys>, k: nat)
    requires SysRun(run) && k < |run| && RoomyUpTo(run, k)
    ensures var s := run[k].ring;
            && |Abstract(s).bytes| == FRAME_SIZE * (|s.puts| - |s.gets|)
            && |s.gets| <= |s.puts|
            && forall i :: 0 <= i < |s.gets| ==>
                 s.gets[i] == s.puts[i].data && ScriptBytes(i, s.gets[i]) && Scripted(i, s.gets[i]) && CarriesCommand(i, s.gets[i])
  {
    RunInv(run, k);
    RoomyIsWhole(run, k);
    FramesHeld(run[k]);
    hide SysInv, Scripted, ScriptBytes, CarriesCommand, Abstract;
    forall i | 0 <= i < |run[k].ring.gets|
      ensures ScriptBytes(i, run[k].ring.gets[i]) && CarriesCommand(i, run[k].ring.gets[i])
    {
      ScriptedBytes(i, run[k].ring.gets[i]);
      ScriptedCarries(i, run[k].ring.gets[i]);
    }
  }

  // ----- the connection

  lemma StepHeedsConnection(s: Sys, s': Sys)
    requires SysNext(s, s') && (s.connected || s.ring.c.CIdle?)
    ensures s'.connected || s'.ring.c.CIdle?
    ensures !s.connected ==>
              s'.ring.c == s.ring.c && s'.ring.gets == s.ring.gets
              && (s.loop.Sleeping? ==> s'.loop == s.loop && s'.ring == s.ring)
  {
    hide FrameBytes, Request, CopySlot, Store, Load, Room, Used, Add32, CopiedOut;
  }

  /** Only the client thread connects, disconnects and takes; only the loop thread queues and sets init_flag. */
  lemma EachItsOwn(s: Sys, s': Sys)
    ensures LoopStep(s, s') ==> s'.connected == s.connected && s'.ring.c == s.ring.c && s'.ring.gets == s.ring.gets
    ensures ClientStep(s, s') ==>
              s'.loop == s.loop && s'.initFlag == s.initFlag && s'.ring.p == s.ring.p && s'.ring.puts == s.ring.puts
  {
    hide FrameBytes, Request, CopySlot, Store, Load, Room, Used, Add32, CopiedOut;
  }

  /** No get runs while the client is disconnected. */
  lemma {:induction false} TakesOnlyConnected(run: seq<Sys>, k: nat)
    requires SysRun(run) && k < |run|
    ensures run[k].connected || run[k].ring.c.CIdle?
  {
    if k > 0 {
      TakesOnlyConnected(run, k - 1);
      assert SysNext(run[k - 1], run[k]);
      hide SysNext;
      StepHeedsConnection(run[k - 1], run[k]);
    }
  }

  /**
    While the client is disconnected nothing is taken, so nothing queued is lost; and a loop that slept when
    the connection went sleeps on and queues nothing.
   */
  lemma {:induction false} NothingTakenOffline(run: seq<Sys>, l: nat, k: nat)
    requires SysRun(run) && l <= k < |run| && forall m :: l <= m < k ==> !run[m].connected
    ensures run[k].ring.gets == run[l].ring.gets && run[k].ring.c == run[l].ring.c
    ensures run[l].loop.Sleeping? ==> run[k].loop.Sleeping? && run[k].ring == run[l].ring
  {
    if l < k {
      hide SysNext, SysInit;
      assert SysNext(run[k - 1], run[k]) && !run[k - 1].connected;
      NothingTakenOffline(run, l, k - 1);
      TakesOnlyConnected(run, k - 1);
      hide SysRun;
      StepHeedsConnection(run[k - 1], run[k]);
    }
  }

  lemma LoopCanStep(s: Sys)
    requires SysInv(s) && (s.connected || !s.loop.Sleeping?)
    ensures exists s' :: LoopStep(s, s')
  {
    hide FrameBytes, Request, CopySlot, Store, Room, Add32, FramedInv, TornInv;
    var time: Payload := [0, 0, 0, 0, 0, 0];
    if s.loop.Sleeping? {
      assert Wake(s, s.(loop := if s.initFlag then Syncing(time) else SettingUp(0)), time);
      assert LoopStep(s, s.(loop := if s.initFlag then Syncing(time) else SettingUp(0)));
    } else if !Calling(s.loop) {
      assert SetupDone(s, s.(initFlag := true, loop := Sleeping));
      assert LoopStep(s, s.(initFlag := true, loop := Sleeping));
    } else if s.ring.p.PIdle? {
      var r' := s.ring.(p := PLoaded(FrameBytes(Request(CommandAt(s.loop))), s.ring.ring.front));
      assert Call(s, s.(ring := r'));
      assert LoopStep(s, s.(ring := r'));
    } else {
      ProducerCanStep(s.ring);
      var r' :| ProducerStep(s.ring, r');
      if PPublish(s.ring, r') {
        var s' := s.(ring := r', loop := if s.loop.Syncing? then Sleeping else SettingUp(s.loop.k + 1));
        assert Return(s, s');
        assert LoopStep(s, s');
      } else {
        assert Sending(s, s.(ring := r'));
        assert LoopStep(s, s.(ring := r'));
      }
    }
  }

  lemma ClientCanStep(s: Sys)
    requires s.connected || s.ring.c.CIdle?
    ensures exists s' :: ClientStep(s, s') && (!s.connected ==> s'.connected)
  {
    hide CopySlot, Load, Used, Add32, CopiedOut;
    if !s.connected {
      assert ClientStep(s, s.(connected := true));
    } else if s.ring.c.CIdle? {
      var r' := s.ring.(c := CLoaded(FRAME_SIZE, s.ring.ring.rear));
      assert Take(s, s.(ring := r'));
      assert ClientStep(s, s.(ring := r'));
    } else {
      ConsumerCanStep(s.ring);
      var r' :| ConsumerStep(s.ring, r');
      assert Taking(s, s.(ring := r'));
      assert ClientStep(s, s.(ring := r'));
    }
  }

  /**
    Neither thread ever blocks the other: the client can always go on, if need be by reconnecting, and the loop
    whenever connected or not asleep.  A connection may drop between any two takes, and a sync carries any time.
   */
  lemma BothGoOn(run: seq<Sys>, k: nat, time: Payload)
    requires SysRun(run) && k < |run|
    ensures run[k].connected || !run[k].loop.Sleeping? ==> exists s' :: LoopStep(run[k], s')
    ensures exists s' :: ClientStep(run[k], s') && (!run[k].connected ==> s'.connected)
    ensures run[k].connected && run[k].ring.c.CIdle? ==> exists s' :: ClientStep(run[k], s') && !s'.connected
    ensures run[k].connected && run[k].loop.Sleeping? ==>
              LoopStep(run[k], run[k].(loop := if run[k].initFlag then Syncing(time) else SettingUp(0)))
  {
    if run[k].connected && run[k].ring.c.CIdle? {
      assert ClientStep(run[k], run[k].(connected := false));
    }
    if run[k].connected && run[k].loop.Sleeping? {
      assert Wake(run[k], run[k].(loop := if run[k].initFlag then Syncing(time) else SettingUp(0)), time);
    }
    RunInv(run, k);
    TakesOnlyConnected(run, k);
    hide SysInv, LoopStep, ClientStep;
    if run[k].connected || !run[k].loop.Sleeping? {
      LoopCanStep(run[k]);
    }
    ClientCanStep(run[k]);
  }

  // ----- one turn of the loop

  /** The loop is awake from l + 1 to k. */
  ghost predicate Turn(run: seq<Sys>, l: nat, k: nat) {
    l < k < |run| && run[l].loop.Sleeping? && forall m :: l < m <= k ==> !run[m].loop.Sleeping?
  }

  /** Where a turn that began with `puts` queued and init_flag as given has got to. */
  ghost predicate TurnSoFar(s: Sys, puts: seq<PutEvent>, initFlag: bool) {
    && s.initFlag == initFlag
    && (s.loop.Syncing? ==> initFlag && s.ring.puts == puts)
    && (s.loop.SettingUp? ==> !initFlag && |s.ring.puts| == |puts| + s.loop.k && s.loop.k <= 4 && puts <= s.ring.puts)
  }

  /** What a turn has queued when it ends. */
  ghost predicate TurnDone(s: Sys, puts: seq<PutEvent>, initFlag: bool) {
    s.initFlag && puts <= s.ring.puts && |s.ring.puts| == |puts| + if initFlag then 1 else 4
  }

  lemma TurnStep(s: Sys, s': Sys, puts: seq<PutEvent>, initFlag: bool)
    requires SysNext(s, s') && !s.loop.Sleeping? && TurnSoFar(s, puts, initFlag)
    ensures if s'.loop.Sleeping? then TurnDone(s', puts, initFlag) else TurnSoFar(s', puts, initFlag)
  {
    if ClientStep(s, s') {
      EachItsOwn(s, s');
      hide ClientStep, LoopStep;
    } else {
      hide FrameBytes, Request, CopySlot, Store, Room, Add32, ClientStep;
    }
  }

  lemma TurnStarts(s: Sys, s': Sys)
    requires SysNext(s, s') && s.loop.Sleeping? && !s'.loop.Sleeping?
    ensures s.connected && TurnSoFar(s', s.ring.puts, s.initFlag)
  {
    if ClientStep(s, s') {
      EachItsOwn(s, s');
      hide ClientStep, LoopStep;
    }
  }

  lemma {:induction false} TurnUpTo(run: seq<Sys>, l: nat, k: nat)
    requires SysRun(run) && Turn(run, l, k)
    ensures run[l].connected && TurnSoFar(run[k], run[l].ring.puts, run[l].initFlag)
    decreases k
  {
    hide SysNext, SysInit, TurnSoFar;
    assert SysNext(run[k - 1], run[k]) && !run[k].loop.Sleeping?;
    hide SysRun;
    if k == l + 1 {
      TurnStarts(run[l], run[k]);
    } else {
      TurnUpTo(run, l, k - 1);
      TurnStep(run[k - 1], run[k], run[l].ring.puts, run[l].initFlag);
    }
  }

  /**
    A whole turn starts connected and queues one sync if init_flag was set, else just the four set-up
    commands; whatever the client thread does meanwhile, init_flag is set at its end.
   */
  lemma TurnQueues(run: seq<Sys>, l: nat, k: nat)
    requires SysRun(run) && Turn(run, l, k) && k + 1 < |run| && run[k + 1].loop.Sleeping?
    ensures var s, s' := run[l], run[k + 1]; var n := |s.ring.puts|;
            && s.connected && s'.initFlag
            && s.ring.puts <= s'.ring.puts
            && (if s.initFlag then n >= 4 && |s'.ring.puts| == n + 1 else n == 0 && |s'.ring.puts| == 4)
            && forall i :: n <= i < |s'.ring.puts| ==> ScriptBytes(i, s'.ring.puts[i].data)
  {
    hide SysNext, SysInit, TurnSoFar, ScriptBytes, SysInv;
    assert SysNext(run[k], run[k + 1]) && !run[k].loop.Sleeping?;
    RunInv(run, l);
    RunInv(run, k + 1);
    TurnUpTo(run, l, k);
    hide SysRun;
    TurnStep(run[k], run[k + 1], run[l].ring.puts, run[l].initFlag);
    SleepCounts(run[l]);
    PutsAreScripted(run[k + 1]);
  }

  lemma SleepCounts(s: Sys)
    requires SysInv(s) && s.loop.Sleeping?
    ensures if s.initFlag then |s.ring.puts| >= 4 else |s.ring.puts| == 0
  {
  }

  lemma PutsAreScripted(s: Sys)
    requires SysInv(s)
    ensures forall i :: 0 <= i < |s.ring.puts| ==> ScriptBytes(i, s.ring.puts[i].data)
  {
    hide Scripted, ScriptBytes, Inv, FramedInv, TornInv;
    var puts := s.ring.puts;
    forall i | 0 <= i < |puts|
      ensures ScriptBytes(i, puts[i].data)
    {
      ScriptedBytes(i, puts[i].data);
    }
  }

  /** After every send the bytes accepted are a whole number of frames. */
  ghost predicate Aligned(puts: seq<PutEvent>) {
    forall m :: 0 <= m <= |puts| ==> |Accepted(puts[..m])| % FRAME_SIZE == 0
  }

  lemma {:induction false} FirstTorn(puts: seq<PutEvent>) returns (m: nat)
    requires TornInv(puts) && !Whole(puts) && forall e :: e in puts ==> |e.data| == FRAME_SIZE
    ensures m < |puts| && Whole(puts[..m]) && puts[m].n == 7
    decreases |puts|
  {
    var front := puts[..|puts| - 1];
    if Whole(front) {
      m := |puts| - 1;
      assert forall e :: e in puts ==> e in front || e == puts[m];
    } else {
      assert TornInv(front) by {
        assert forall i :: 0 <= i < |front| ==> front[..i] == puts[..i];
      }
      m := FirstTorn(front);
      assert front[..m] == puts[..m];
    }
  }

  lemma TornIsMisaligned(puts: seq<PutEvent>, m: nat)
    requires m < |puts| && Whole(puts[..m]) && puts[m].n == 7 && |puts[m].data| == FRAME_SIZE
    ensures |Accepted(puts[..m + 1])| % FRAME_SIZE == 7
  {
    WholeBytes(puts[..m], 0);
    assert puts[..m + 1] == puts[..m] + [puts[m]];
    AcceptedSnoc(puts[..m], puts[m]);
    Digit(7, m, FRAME_SIZE);
  }

  lemma WholeIsAligned(puts: seq<PutEvent>)
    requires Whole(puts)
    ensures Aligned(puts)
  {
    forall m | 0 <= m <= |puts|
      ensures |Accepted(puts[..m])| % FRAME_SIZE == 0
    {
      assert Whole(puts[..m]) by { assert forall e :: e in puts[..m] ==> e in puts; }
      WholeBytes(puts[..m], 0);
      Digit(0, m, FRAME_SIZE);
    }
  }

  /** Framing survives exactly the runs in which every send found 13 bytes of room (between sends, when none is copying). */
  lemma FramingIffRoom(run: seq<Sys>, k: nat)
    requires SysRun(run) && k < |run| && !run[k].ring.p.PCopying?
    ensures Aligned(run[k].ring.puts) <==> RoomyUpTo(run, k)
  {
    RunInv(run, k);
    RoomyIsWhole(run, k);
    var puts := run[k].ring.puts;
    if Whole(puts) {
      WholeIsAligned(puts);
    } else {
      assert forall i :: 0 <= i < |puts| ==> Scripted(i, puts[i].data) && |puts[i].data| == FRAME_SIZE;
      var m := FirstTorn(puts);
      TornIsMisaligned(puts, m);
    }
  }

  // ----- the torn frame, in a run

  /** One more step at the end of a run. */
  lemma Extend(run: seq<Sys>, s': Sys) returns (run': seq<Sys>)
    requires SysRun(run) && SysNext(run[|run| - 1], s')
    ensures run' == run + [s'] && SysRun(run')
  {
    run' := run + [s'];
    hide SysNext, SysInit;
    forall i | 0 <= i < |run'| - 1
      ensures SysNext(run'[i], run'[i + 1])
    {
      if i < |run| - 1 {
        assert run'[i] == run[i] && run'[i + 1] == run[i + 1];
      }
    }
  }

  /** The producer copies the bytes that are left, one by one. */
  lemma CopyRest(run: seq<Sys>, j: nat) returns (run': seq<Sys>)
    requires SysRun(run)
    requires var s := run[|run| - 1]; Calling(s.loop) && s.ring.p.PCopying? && j <= s.ring.p.n <= |s.ring.p.data|
                                      && forall i: nat :: i in s.ring.p.done <==> i < j
    ensures SysRun(run') && 0 < |run'|
    ensures var s, s' := run[|run| - 1], run'[|run'| - 1];
            && s' == s.(ring := s'.ring)
            && s'.ring == s.ring.(ring := s.ring.ring.(buf := s'.ring.ring.buf), p := s'.ring.p)
            && s'.ring.p.PCopying? && s'.ring.p.data == s.ring.p.data && s'.ring.p.n == s.ring.p.n
            && forall i: nat | i < s'.ring.p.n :: i in s'.ring.p.done
    decreases run[|run| - 1].ring.p.n - j
  {
    var s := run[|run| - 1];
    if j == s.ring.p.n {
      run' := run;
    } else {
      var r := s.ring;
      var r' := r.(ring := r.ring.(buf := Store(r.ring.buf, CopySlot(r.ring.size, r.ring.rear, r.p.n, j), r.p.data[j])),
                   p := r.p.(done := r.p.done + {j}));
      hide CopySlot, Store;
      assert PCopy(r, r', j);
      assert Sending(s, s.(ring := r'));
      run' := Extend(run, s.(ring := r'));
      hide SysRun, Sending, PCopy;
      run' := CopyRest(run', j + 1);
    }
  }

  lemma RunRingInv(run: seq<Sys>, k: nat)
    requires SysRun(run) && k < |run|
    ensures Inv(run[k].ring) && run[k].ring.ring.size == TXBUF_SIZE
  {
    RunInv(run, k);
  }

  lemma RoomNow(run: seq<Sys>)
    requires SysRun(run) && run[|run| - 1].ring.gets == []
    ensures var r := run[|run| - 1].ring; var held := |Accepted(r.puts)|;
            && held <= TXBUF_SIZE && r.ring.size == TXBUF_SIZE
            && Room(r.ring.size, r.ring.front, r.ring.rear) == TXBUF_SIZE - held
  {
    var r := run[|run| - 1].ring;
    RunRingInv(run, |run| - 1);
    Distances(F(r), R(r), TXBUF_SIZE);
  }

  /** The call and the clamp of a send that is due, nothing having been taken yet. */
  lemma StartSend(run: seq<Sys>) returns (run': seq<Sys>)
    requires SysRun(run)
    requires var s := run[|run| - 1]; Calling(s.loop) && s.ring.p.PIdle? && s.ring.gets == []
    ensures SysRun(run') && 0 < |run'|
    ensures var s, s' := run[|run| - 1], run'[|run'| - 1]; var held := |Accepted(s.ring.puts)|;
            && held <= TXBUF_SIZE
            && s' == s.(ring := s.ring.(p := PCopying(FrameBytes(Request(CommandAt(s.loop))), Min(FRAME_SIZE, TXBUF_SIZE - held), {})))
  {
    hide FrameBytes, Request, CommandAt, Accepted, Min, Room;
    var s := run[|run| - 1];
    RoomNow(run);
    var f := FrameBytes(Request(CommandAt(s.loop)));
    var s1 := s.(ring := s.ring.(p := PLoaded(f, s.ring.ring.front)));
    assert Call(s, s1);
    run' := Extend(run, s1);
    var s2 := s1.(ring := s1.ring.(p := PCopying(f, Min(FRAME_SIZE, TXBUF_SIZE - |Accepted(s.ring.puts)|), {})));
    assert PClamp(s1.ring, s2.ring);
    assert Sending(s1, s2);
    run' := Extend(run', s2);
  }

  /** The whole send, with the reader idle. */
  lemma SendOne(run: seq<Sys>) returns (run': seq<Sys>)
    requires SysRun(run)
    requires var s := run[|run| - 1]; Calling(s.loop) && s.ring.p.PIdle? && s.ring.gets == []
    ensures SysRun(run') && 0 < |run'|
    ensures var s, s' := run[|run| - 1], run'[|run'| - 1]; var held := |Accepted(s.ring.puts)|;
            && s' == s.(ring := s'.ring, loop := if s.loop.Syncing? then Sleeping else SettingUp(s.loop.k + 1))
            && s'.ring.p.PIdle? && s'.ring.c == s.ring.c && s'.ring.gets == [] && held <= TXBUF_SIZE
            && s'.ring.puts == s.ring.puts + [PutEvent(FrameBytes(Request(CommandAt(s.loop))), Min(FRAME_SIZE, TXBUF_SIZE - held))]
  {
    run' := StartSend(run);
    hide FrameBytes, Request, CommandAt, Accepted, Min, SysRun;
    run' := CopyRest(run', 0);
    var s := run'[|run'| - 1];
    var s' := s.(ring := s.ring.(ring := s.ring.ring.(rear := Add32(s.ring.ring.rear, s.ring.p.n)), p := PIdle,
                                 puts := s.ring.puts + [PutEvent(s.ring.p.data, s.ring.p.n)]),
                 loop := if s.loop.Syncing? then Sleeping else SettingUp(s.loop.k + 1));
    assert PPublish(s.ring, s'.ring);
    assert Return(s, s');
    run' := Extend(run', s');
  }

  /** A frame count's worth of sends with the reader idle; the last of 158 does not fit. */
  ghost predicate Filled(s: Sys, m: nat) {
    && s.connected && s.ring.p.PIdle? && s.ring.c.CIdle? && s.ring.gets == [] && |s.ring.puts| == m
    && (if m < 4 then s.loop == SettingUp(m) && !s.initFlag else s.loop.Sleeping? && s.initFlag)
    && Whole(s.ring.puts[..if m <= 157 then m else 157])
    && (m == 158 ==> s.ring.puts[157].n == 7)
  }

  lemma HeldBytes(puts: seq<PutEvent>)
    requires Whole(puts)
    ensures |Accepted(puts)| == FRAME_SIZE * |puts|
    ensures |puts| < 157 ==> Min(FRAME_SIZE, TXBUF_SIZE - FRAME_SIZE * |puts|) == FRAME_SIZE
    ensures |puts| == 157 ==> Min(FRAME_SIZE, TXBUF_SIZE - FRAME_SIZE * |puts|) == 7
  {
    WholeBytes(puts, 0);
  }

  lemma FilledBySend(s: Sys, s': Sys, m: nat, f: Frame, n: nat)
    requires Filled(s, m) && m <= 157
    requires s'.connected && s'.ring.p.PIdle? && s'.ring.c.CIdle? && s'.ring.gets == []
    requires s'.ring.puts == s.ring.puts + [PutEvent(f, n)] && n == if m < 157 then FRAME_SIZE else 7
    requires if m < 3 then s'.loop == SettingUp(m + 1) && !s'.initFlag else s'.loop.Sleeping? && s'.initFlag
    ensures Filled(s', m + 1)
  {
    var puts, puts' := s.ring.puts, s'.ring.puts;
    assert puts[..m] == puts && puts'[..m] == puts;
    assert m < 157 ==> puts'[..m + 1] == puts';
    assert forall e :: e in puts' <==> e in puts || e == PutEvent(f, n);
  }

  /** A client that has connected and is about to send its first set-up command. */
  lemma EmptyRing() returns (run: seq<Sys>)
    ensures SysRun(run) && 0 < |run| && Filled(run[|run| - 1], 0)
  {
    hide FrameBytes, Request, SetupCommand, Accepted, Min;
    var s0 := Sys(State(Ring(seq(2048, _ => 0), TXBUF_SIZE, 0, 0), PIdle, CIdle, [], []), true, false, Sleeping);
    assert IsPow2(2048) by { Times16(1); Times16(16); Twice(256); Twice(512); Twice(1024); }
    assert SysInit(s0);
    assert SysRun([s0]);
    var time: Payload := [0, 0, 0, 0, 0, 0];
    assert Wake(s0, s0.(loop := SettingUp(0)), time);
    run := Extend([s0], s0.(loop := SettingUp(0)));
  }

  /** While connected and with a reader that does not run, set-up and syncs fill the ring. */
  lemma {:induction false} FillRing(m: nat) returns (run: seq<Sys>)
    requires m <= 158
    ensures SysRun(run) && 0 < |run| && Filled(run[|run| - 1], m)
    decreases m
  {
    hide FrameBytes, Request, SetupCommand, Accepted, Min;
    if m == 0 {
      run := EmptyRing();
    } else {
      run := FillRing(m - 1);
      hide SysRun, Whole;
      var s := run[|run| - 1];
      var time: Payload := [0, 0, 0, 0, 0, 0];
      if m > 4 {
        assert Wake(s, s.(loop := Syncing(time)), time);
        run := Extend(run, s.(loop := Syncing(time)));
      }
      assert s.ring.puts[..m - 1] == s.ring.puts;
      HeldBytes(s.ring.puts);
      run := SendOne(run);
      var s1 := run[|run| - 1];
      if m == 4 {
        assert SetupDone(s1, s1.(initFlag := true, loop := Sleeping));
        run := Extend(run, s1.(initFlag := true, loop := Sleeping));
      }
      FilledBySend(s, run[|run| - 1], m - 1, s1.ring.puts[m - 1].data, s1.ring.puts[m - 1].n);
    }
  }

  /** The reader copies the bytes that are left. */
  lemma TakeRest(run: seq<Sys>, j: nat) returns (run': seq<Sys>)
    requires SysRun(run)
    requires var s := run[|run| - 1]; s.ring.c.CCopying? && j <= s.ring.c.n && forall i: nat :: i in s.ring.c.got <==> i < j
    ensures SysRun(run') && 0 < |run'|
    ensures var s, s' := run[|run| - 1], run'[|run'| - 1];
            && s' == s.(ring := s.ring.(c := s'.ring.c)) && s'.ring.c.CCopying? && s'.ring.c.n == s.ring.c.n
            && forall i: nat | i < s'.ring.c.n :: i in s'.ring.c.got
    decreases run[|run| - 1].ring.c.n - j
  {
    var s := run[|run| - 1];
    if j == s.ring.c.n {
      run' := run;
    } else {
      var r := s.ring;
      hide CopySlot, Load;
      var r' := r.(c := r.c.(got := r.c.got[j := Load(r.ring.buf, CopySlot(r.ring.size, r.ring.front, r.c.n, j))]));
      assert CCopy(r, r', j);
      assert Taking(s, s.(ring := r'));
      run' := Extend(run, s.(ring := r'));
      hide SysRun, Taking, CCopy;
      run' := TakeRest(run', j + 1);
    }
  }

  /** The load and the clamp of a take when something is queued and the client is connected. */
  lemma StartTake(run: seq<Sys>) returns (run': seq<Sys>)
    requires SysRun(run)
    requires var s := run[|run| - 1]; s.connected && s.ring.c.CIdle? && F(s.ring) < R(s.ring)
    ensures SysRun(run') && 0 < |run'|
    ensures var s, s' := run[|run| - 1], run'[|run'| - 1];
            s' == s.(ring := s.ring.(c := CCopying(Min(FRAME_SIZE, R(s.ring) - F(s.ring)), map[])))
  {
    var s := run[|run| - 1];
    RunRingInv(run, |run| - 1);
    Distances(F(s.ring), R(s.ring), TXBUF_SIZE);
    hide Accepted, Taken, Used, Min, SysRun, WindowInv, ProducerInv, ConsumerInv;
    var s1 := s.(ring := s.ring.(c := CLoaded(FRAME_SIZE, s.ring.ring.rear)));
    assert Take(s, s1);
    run' := Extend(run, s1);
    var s2 := s1.(ring := s1.ring.(c := CCopying(Min(FRAME_SIZE, R(s.ring) - F(s.ring)), map[])));
    assert CClamp(s1.ring, s2.ring);
    assert Taking(s1, s2);
    run' := Extend(run', s2);
  }

  lemma PublishTake(r: State) returns (r': State)
    requires Inv(r) && r.c.CCopying? && r.c.n > 0 && forall i: nat | i < r.c.n :: i in r.c.got
    ensures CPublish(r, r') && r'.puts == r.puts && r'.c.CIdle? && r'.p == r.p && F(r) + r.c.n <= R(r)
    ensures r'.gets == r.gets + [Accepted(r.puts)[F(r)..F(r) + r.c.n]] && F(r') == F(r) + r.c.n
  {
    r' := r.(ring := r.ring.(front := Add32(r.ring.front, r.c.n)), c := CIdle, gets := r.gets + [CopiedOut(r.c.n, r.c.got)]);
    CPublishTakes(r, r');
  }

  /** One take by a connected client. */
  lemma TakeOne(run: seq<Sys>) returns (run': seq<Sys>)
    requires SysRun(run)
    requires var s := run[|run| - 1]; s.connected && s.ring.c.CIdle? && F(s.ring) < R(s.ring)
    ensures SysRun(run') && 0 < |run'|
    ensures var s, s' := run[|run| - 1], run'[|run'| - 1]; var n := Min(FRAME_SIZE, R(s.ring) - F(s.ring));
            && s' == s.(ring := s'.ring) && s'.ring.puts == s.ring.puts && s'.ring.c.CIdle? && s'.ring.p == s.ring.p
            && s'.ring.gets == s.ring.gets + [Accepted(s.ring.puts)[F(s.ring)..F(s.ring) + n]]
            && F(s'.ring) == F(s.ring) + n
  {
    hide Accepted, Taken, Inv, SysRun, CPublish;
    run' := StartTake(run);
    run' := TakeRest(run', 0);
    RunRingInv(run', |run'| - 1);
    var s := run'[|run'| - 1];
    var r' := PublishTake(s.ring);
    assert Taking(s, s.(ring := r'));
    run' := Extend(run', s.(ring := r'));
  }

  /** k takes from a ring that holds the 157 frames and the torn one. */
  lemma {:induction false} DrainRing(run: seq<Sys>, k: nat) returns (run': seq<Sys>)
    requires SysRun(run) && k <= 158
    requires var s := run[|run| - 1]; Filled(s, 158) && R(s.ring) == TXBUF_SIZE
    ensures SysRun(run') && 0 < |run'|
    ensures var s, s' := run[|run| - 1], run'[|run'| - 1];
            && s'.connected && s'.ring.puts == s.ring.puts && s'.ring.c.CIdle? && s'.ring.p == s.ring.p && |s'.ring.gets| == k
            && F(s'.ring) == (if k < 158 then FRAME_SIZE * k else TXBUF_SIZE)
            && (k == 158 ==> s'.ring.gets[157] == Accepted(s.ring.puts)[FRAME_SIZE * 157..TXBUF_SIZE])
    decreases k
  {
    if k == 0 {
      run' := run;
    } else {
      run' := DrainRing(run, k - 1);
      hide Accepted, SysRun, Taken, Whole;
      run' := TakeOne(run');
    }
  }

  lemma FullRing(puts: seq<PutEvent>)
    requires |puts| == 158 && Whole(puts[..157]) && puts[157].n == 7 && |puts[157].data| == FRAME_SIZE
    ensures |Accepted(puts)| == TXBUF_SIZE && !Whole(puts)
    ensures Accepted(puts)[FRAME_SIZE * 157..TXBUF_SIZE] == puts[157].data[..7]
  {
    assert puts == puts[..157] + [puts[157]];
    AcceptedSnoc(puts[..157], puts[157]);
    WholeBytes(puts[..157], 0);
    assert puts[157] in puts;
  }

  /**
    There is a run in which framing breaks: while the reader does not run, the set-up commands and 154 syncs are
    queued; the 158th frame finds 7 bytes of room, and the reader is later handed those 7 bytes as a frame.
   */
  lemma TornFrame() returns (run: seq<Sys>)
    ensures SysRun(run) && 0 < |run| && !RoomyUpTo(run, |run| - 1)
    ensures var s := run[|run| - 1].ring;
            && |s.puts| == |s.gets| == 158 && Whole(s.puts[..157]) && s.puts[157].n == 7 && |s.puts[157].data| == FRAME_SIZE
            && s.gets[157] == s.puts[157].data[..7]
  {
    run := FillRing(158);
    RunInv(run, |run| - 1);
    var puts := run[|run| - 1].ring.puts;
    assert Scripted(157, puts[157].data);
    FullRing(puts);
    hide SysRun, Whole, Accepted, SysInv;
    run := DrainRing(run, 158);
    RoomyIsWhole(run, |run| - 1);
  }
}
