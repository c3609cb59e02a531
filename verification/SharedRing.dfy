/**
  The ring of c_tcp_to_can/src/ringbuffer.c between two threads that take no lock.

  One thread runs ring_buf_put and one runs ring_buf_get.  Each call is cut into its accesses to
  shared memory: load the other side's counter, clamp, copy the bytes one at a time (in any order, as
  memcpy may), publish the own counter.  Steps of the two threads interleave freely; memory is
  sequentially consistent.  `puts` and `gets` record the finished calls.
 */
module SharedRing {
  import opened Machine
  import opened RingBuffer

  /** A finished ring_buf_put: what was offered and how much of it was accepted. */
  datatype PutEvent = PutEvent(data: Bytes, n: nat)

  datatype Producer =
    | PIdle
    | PLoaded(data: Bytes, frontSeen: u32)
    | PCopying(data: Bytes, n: u32, done: set<nat>)

  datatype Consumer =
    | CIdle
    | CLoaded(want: u32, rearSeen: u32)
    | CCopying(n: u32, got: map<nat, u8>)

  datatype State = State(ring: Ring, p: Producer, c: Consumer, puts: seq<PutEvent>, gets: seq<seq<u8>>)

  // ----- steps

  /** The slot of byte i in a transfer of n bytes that starts at counter `index`: the two memcpy calls. */
  function CopySlot(size: u32, index: u32, n: u32, i: nat): nat {
    var at := Slot(size, index);
    var first := FirstPart(size, at, n);
    if i < first then at + i else i - first
  }

  /** A write or read outside the storage has no defined effect; InBounds below shows there is none. */
  function Store(buf: seq<u8>, x: nat, v: u8): seq<u8> {
    if x < |buf| then buf[x := v] else buf
  }

  function Load(buf: seq<u8>, x: nat): u8 {
    if x < |buf| then buf[x] else 0
  }

  ghost predicate Initial(s: State) {
    && IsPow2(s.ring.size) && |s.ring.buf| == s.ring.size
    && s.ring.front == s.ring.rear == 0
    && s.p.PIdle? && s.c.CIdle? && s.puts == [] && s.gets == []
  }

  ghost predicate PLoad(s: State, s': State, data: Bytes) {
    s.p.PIdle? && s' == s.(p := PLoaded(data, s.ring.front))
  }

  ghost predicate PClamp(s: State, s': State) {
    && s.p.PLoaded?
    && s' == s.(p := PCopying(s.p.data, Min(|s.p.data|, Room(s.ring.size, s.p.frontSeen, s.ring.rear)), {}))
  }

  ghost predicate PCopy(s: State, s': State, i: nat) {
    && s.p.PCopying? && i < Min(s.p.n, |s.p.data|) && i !in s.p.done
    && s' == s.(ring := s.ring.(buf := Store(s.ring.buf, CopySlot(s.ring.size, s.ring.rear, s.p.n, i), s.p.data[i])),
                p := s.p.(done := s.p.done + {i}))
  }

  ghost predicate PPublish(s: State, s': State) {
    && s.p.PCopying? && (forall i: nat | i < s.p.n :: i in s.p.done)
    && s' == s.(ring := s.ring.(rear := Add32(s.ring.rear, s.p.n)), p := PIdle, puts := s.puts + [PutEvent(s.p.data, s.p.n)])
  }

  ghost predicate CLoad(s: State, s': State, want: u32) {
    s.c.CIdle? && s' == s.(c := CLoaded(want, s.ring.rear))
  }

  ghost predicate CClamp(s: State, s': State) {
    && s.c.CLoaded?
    && s' == s.(c := CCopying(Min(s.c.want, Used(s.ring.front, s.c.rearSeen)), map[]))
  }

  ghost predicate CCopy(s: State, s': State, i: nat) {
    && s.c.CCopying? && i < s.c.n && i !in s.c.got
    && s' == s.(c := s.c.(got := s.c.got[i := Load(s.ring.buf, CopySlot(s.ring.size, s.ring.front, s.c.n, i))]))
  }

  function CopiedOut(n: nat, got: map<nat, u8>): seq<u8> {
    seq(n, i => if i in got then got[i] else 0)
  }

  /** A call that found nothing returns 0 and is not recorded as a take. */
  ghost predicate CPublish(s: State, s': State) {
    && s.c.CCopying? && (forall i: nat | i < s.c.n :: i in s.c.got)
    && s' == s.(ring := s.ring.(front := Add32(s.ring.front, s.c.n)), c := CIdle,
                gets := if s.c.n == 0 then s.gets else s.gets + [CopiedOut(s.c.n, s.c.got)])
  }

  ghost predicate ProducerStep(s: State, s': State) {
    || (exists data :: PLoad(s, s', data))
    || PClamp(s, s')
    || (exists i :: PCopy(s, s', i))
    || PPublish(s, s')
  }

  ghost predicate ConsumerStep(s: State, s': State) {
    || (exists want :: CLoad(s, s', want))
    || CClamp(s, s')
    || (exists i :: CCopy(s, s', i))
    || CPublish(s, s')
  }

  ghost predicate Next(s: State, s': State) {
    ProducerStep(s, s') || ConsumerStep(s, s')
  }

  /** Any interleaving, of any length, from an initialised ring. */
  ghost predicate Execution(run: seq<State>) {
    && 0 < |run| && Initial(run[0])
    && forall i :: 0 <= i < |run| - 1 ==> Next(run[i], run[i + 1])
  }

  // ----- what was accepted and what was taken

  function Accepted(puts: seq<PutEvent>): seq<u8> {
    if puts == [] then []
    else
      var e := puts[|puts| - 1];
      Accepted(puts[..|puts| - 1]) + e.data[..Min(e.n, |e.data|)]
  }

  function Taken(gets: seq<seq<u8>>): seq<u8> {
    if gets == [] then [] else Taken(gets[..|gets| - 1]) + gets[|gets| - 1]
  }

  lemma AcceptedSnoc(puts: seq<PutEvent>, e: PutEvent)
    ensures Accepted(puts + [e]) == Accepted(puts) + e.data[..Min(e.n, |e.data|)]
  {
  }

  lemma TakenSnoc(gets: seq<seq<u8>>, g: seq<u8>)
    ensures Taken(gets + [g]) == Taken(gets) + g
  {
  }

  // ----- the invariant

  /** Byte counts since initialisation; the counters in memory are these modulo 2^32. */
  function F(s: State): nat { |Taken(s.gets)| }

  function R(s: State): nat { |Accepted(s.puts)| }

  ghost predicate CountersInv(s: State) {
    && IsPow2(s.ring.size) && |s.ring.buf| == s.ring.size
    && s.ring.front == Wrap(F(s)) && s.ring.rear == Wrap(R(s))
    && F(s) <= R(s) <= F(s) + s.ring.size
  }

  /** Every byte accepted and not yet given up by the consumer is still in its slot. */
  ghost predicate WindowInv(s: State)
    requires CountersInv(s)
  {
    && Taken(s.gets) <= Accepted(s.puts)
    && forall j :: F(s) <= j < R(s) ==> s.ring.buf[j % s.ring.size] == Accepted(s.puts)[j]
  }

  /** The producer may only under-estimate the room; what it has copied waits beyond `rear`. */
  ghost predicate ProducerInv(s: State)
    requires CountersInv(s)
  {
    match s.p
    case PIdle => true
    case PLoaded(_, seen) => Room(s.ring.size, seen, s.ring.rear) <= s.ring.size - (R(s) - F(s))
    case PCopying(data, n, done) =>
      && n <= |data| && n <= s.ring.size - (R(s) - F(s))
      && forall i :: i in done ==> i < n && s.ring.buf[(R(s) + i) % s.ring.size] == data[i]
  }

  /** The consumer may only under-estimate what is queued. */
  ghost predicate ConsumerInv(s: State)
    requires CountersInv(s)
  {
    match s.c
    case CIdle => true
    case CLoaded(_, seen) => Used(s.ring.front, seen) <= R(s) - F(s)
    case CCopying(n, got) =>
      && n <= R(s) - F(s)
      && forall i :: i in got ==> i < n && got[i] == Accepted(s.puts)[F(s) + i]
  }

  ghost predicate Inv(s: State) {
    CountersInv(s) && WindowInv(s) && ProducerInv(s) && ConsumerInv(s)
  }

  /** Counters that wrapped any number of times still give the exact distance. */
  lemma Distances(f: nat, r: nat, size: u32)
    requires f <= r <= f + size
    ensures Used(Wrap(f), Wrap(r)) == r - f && Room(size, Wrap(f), Wrap(r)) == size - (r - f)
  {
  }

  /** The split copy of a thread whose counter stands for `count` touches slot (count + i) mod size. */
  lemma CopySlotIs(size: u32, count: nat, n: u32, i: nat)
    requires IsPow2(size) && i < n <= size
    ensures CopySlot(size, Wrap(count), n, i) == (count + i) % size < size
  {
    SlotIsMod(size, count);
    WrapOnce(count, i, size);
  }

  lemma InitInv(s: State)
    requires Initial(s)
    ensures Inv(s)
  {
  }

  lemma PLoadInv(s: State, s': State, data: Bytes)
    requires Inv(s) && PLoad(s, s', data)
    ensures Inv(s')
  {
    Distances(F(s), R(s), s.ring.size);
  }

  lemma PClampInv(s: State, s': State)
    requires Inv(s) && PClamp(s, s')
    ensures Inv(s')
  {
  }

  lemma PCopyInv(s: State, s': State, i: nat)
    requires Inv(s) && PCopy(s, s', i)
    ensures Inv(s')
  {
    hide Wrap, CopySlot;
    var size := s.ring.size;
    CopySlotIs(size, R(s), s.p.n, i);
    forall j | F(s) <= j < R(s)
      ensures j % size != (R(s) + i) % size
    {
      SlotsDiffer(j, R(s) + i, size);
    }
    forall j | j in s.p.done
      ensures (R(s) + j) % size != (R(s) + i) % size
    {
      SlotsDiffer(R(s) + (if i < j then i else j), R(s) + (if i < j then j else i), size);
    }
  }

  lemma PPublishInv(s: State, s': State)
    requires Inv(s) && PPublish(s, s')
    ensures Inv(s')
  {
    hide Wrap;
    AcceptedSnoc(s.puts, PutEvent(s.p.data, s.p.n));
    WrapAdd(R(s), s.p.n);
    forall j | R(s) <= j < R(s')
      ensures s'.ring.buf[j % s.ring.size] == Accepted(s'.puts)[j]
    {
      var i := j - R(s);
      assert i in s.p.done;
    }
  }

  lemma CLoadInv(s: State, s': State, want: u32)
    requires Inv(s) && CLoad(s, s', want)
    ensures Inv(s')
  {
    Distances(F(s), R(s), s.ring.size);
  }

  lemma CClampInv(s: State, s': State)
    requires Inv(s) && CClamp(s, s')
    ensures Inv(s')
  {
  }

  lemma CopiesQueued(s: State, i: nat)
    requires Inv(s) && s.c.CCopying? && i < s.c.n
    ensures Load(s.ring.buf, CopySlot(s.ring.size, s.ring.front, s.c.n, i)) == Accepted(s.puts)[F(s) + i]
  {
    hide Wrap, CopySlot, ProducerInv, Accepted, Taken;
    CopySlotIs(s.ring.size, F(s), s.c.n, i);
  }

  /** A step that only moves the consumer's place leaves the rest of the invariant alone. */
  lemma ConsumerMoves(s: State, s': State)
    requires CountersInv(s) && WindowInv(s) && ProducerInv(s) && s' == s.(c := s'.c)
    ensures CountersInv(s') && WindowInv(s') && ProducerInv(s')
  {
    hide Wrap, Accepted, Taken, IsPow2;
  }

  lemma CCopyInv(s: State, s': State, i: nat)
    requires Inv(s) && CCopy(s, s', i)
    ensures Inv(s')
  {
    hide Wrap, CopySlot, CountersInv, WindowInv, ProducerInv, Accepted, Taken;
    CopiesQueued(s, i);
    ConsumerMoves(s, s');
  }

  lemma CPublishTakes(s: State, s': State)
    requires Inv(s) && CPublish(s, s')
    ensures Taken(s'.gets) == Taken(s.gets) + Accepted(s.puts)[F(s)..F(s) + s.c.n]
    ensures s.c.n > 0 ==> s'.gets == s.gets + [Accepted(s.puts)[F(s)..F(s) + s.c.n]]
  {
    var g := CopiedOut(s.c.n, s.c.got);
    assert g == Accepted(s.puts)[F(s)..F(s) + s.c.n];
    TakenSnoc(s.gets, g);
  }

  lemma CPublishInv(s: State, s': State)
    requires Inv(s) && CPublish(s, s')
    ensures Inv(s')
  {
    hide Wrap, Taken, Accepted, CopiedOut;
    CPublishTakes(s, s');
    WrapAdd(F(s), s.c.n);
  }

  lemma NextInv(s: State, s': State)
    requires Inv(s) && Next(s, s')
    ensures Inv(s')
  {
    if ProducerStep(s, s') {
      if data :| PLoad(s, s', data) {
        PLoadInv(s, s', data);
      } else if PClamp(s, s') {
        PClampInv(s, s');
      } else if i :| PCopy(s, s', i) {
        PCopyInv(s, s', i);
      } else {
        PPublishInv(s, s');
      }
    } else {
      if want :| CLoad(s, s', want) {
        CLoadInv(s, s', want);
      } else if CClamp(s, s') {
        CClampInv(s, s');
      } else if i :| CCopy(s, s', i) {
        CCopyInv(s, s', i);
      } else {
        CPublishInv(s, s');
      }
    }
  }

  lemma {:induction false} ExecutionInv(run: seq<State>, k: nat)
    requires Execution(run) && k < |run|
    ensures Inv(run[k])
  {
    if k == 0 {
      InitInv(run[0]);
    } else {
      ExecutionInv(run, k - 1);
      NextInv(run[k - 1], run[k]);
    }
  }

  // ----- safety of every interleaving

  /** Bytes the consumer holds: those of finished calls, then the ones it has copied so far of the current call. */
  ghost predicate TakesInOrder(s: State) {
    && Taken(s.gets) <= Accepted(s.puts)
    && (s.c.CCopying? ==>
          forall i :: i in s.c.got ==> F(s) + i < R(s) && s.c.got[i] == Accepted(s.puts)[F(s) + i])
  }

  /** No slot still to be written by the running put holds a byte that has not been given up by the consumer. */
  ghost predicate NeverOverwrites(s: State) {
    s.p.PCopying? ==>
      forall i: nat, j: nat ::
        i < s.p.n && j < R(s) - F(s) ==> CopySlot(s.ring.size, s.ring.rear, s.p.n, i) != Slot(s.ring.size, Add32(s.ring.front, Wrap(j)))
  }

  ghost predicate InBounds(s: State) {
    && (s.p.PCopying? ==> forall i: nat :: i < s.p.n ==> CopySlot(s.ring.size, s.ring.rear, s.p.n, i) < |s.ring.buf|)
    && (s.c.CCopying? ==> forall i: nat :: i < s.c.n ==> CopySlot(s.ring.size, s.ring.front, s.c.n, i) < |s.ring.buf|)
  }

  lemma DistinctSlots(s: State, i: nat, j: nat)
    requires Inv(s) && s.p.PCopying? && i < s.p.n && j < R(s) - F(s)
    ensures CopySlot(s.ring.size, s.ring.rear, s.p.n, i) != Slot(s.ring.size, Add32(s.ring.front, Wrap(j)))
  {
    hide Wrap, CopySlot, Slot;
    CopySlotIs(s.ring.size, R(s), s.p.n, i);
    assert Wrap(j) == j by { ModSmall(j); }
    WrapAdd(F(s), j);
    SlotIsMod(s.ring.size, F(s) + j);
    SlotsDiffer(F(s) + j, R(s) + i, s.ring.size);
  }

  lemma InvInBounds(s: State)
    requires Inv(s)
    ensures InBounds(s)
  {
  }

  lemma InvIsSafe(s: State)
    requires Inv(s)
    ensures TakesInOrder(s) && NeverOverwrites(s) && InBounds(s)
  {
    hide Wrap, CopySlot, Slot;
    InvInBounds(s);
    if s.p.PCopying? {
      forall i: nat, j: nat | i < s.p.n && j < R(s) - F(s)
        ensures CopySlot(s.ring.size, s.ring.rear, s.p.n, i) != Slot(s.ring.size, Add32(s.ring.front, Wrap(j)))
      {
        DistinctSlots(s, i, j);
      }
    }
  }

  /** In every interleaving the bytes taken are a prefix of the bytes accepted, and no unread slot is ever written. */
  lemma ConcurrentSafety(run: seq<State>, k: nat)
    requires Execution(run) && k < |run|
    ensures TakesInOrder(run[k]) && NeverOverwrites(run[k]) && InBounds(run[k])
  {
    ExecutionInv(run, k);
    InvIsSafe(run[k]);
  }

  // ----- refinement of an atomic queue

  /** Accepted bytes not yet taken. */
  function Abstract(s: State): Queue {
    var a := Accepted(s.puts);
    Queue(if F(s) <= |a| then a[F(s)..] else [], s.ring.size)
  }

  /** An atomic put may be offered less room than there is, never more; it appends a prefix of its data. */
  ghost predicate AtomicPut(q: Queue, q': Queue, e: PutEvent) {
    && e.n <= |e.data| && |q.bytes| + e.n <= q.cap
    && q' == q.(bytes := q.bytes + e.data[..e.n])
  }

  ghost predicate AtomicGet(q: Queue, q': Queue, out: seq<u8>) {
    out <= q.bytes && q' == q.(bytes := q.bytes[|out|..])
  }

  /** A put takes effect when `rear` is published, a get when `front` is; every other step changes nothing. */
  ghost predicate RefinesAtomic(s: State, s': State) {
    || (&& s'.gets == s.gets && |s'.puts| == |s.puts| + 1 && s.puts == s'.puts[..|s.puts|]
        && AtomicPut(Abstract(s), Abstract(s'), s'.puts[|s.puts|]))
    || (&& s'.puts == s.puts && |s'.gets| == |s.gets| + 1 && s.gets == s'.gets[..|s.gets|]
        && AtomicGet(Abstract(s), Abstract(s'), s'.gets[|s.gets|]))
    || (s'.puts == s.puts && s'.gets == s.gets && Abstract(s') == Abstract(s))
  }

  lemma PublishedPut(s: State, s': State)
    requires Inv(s) && PPublish(s, s')
    ensures RefinesAtomic(s, s')
  {
    var a, more := Accepted(s.puts), s.p.data[..s.p.n];
    AcceptedSnoc(s.puts, PutEvent(s.p.data, s.p.n));
    assert (a + more)[F(s)..] == a[F(s)..] + more;
  }

  lemma PublishedGet(s: State, s': State)
    requires Inv(s) && CPublish(s, s')
    ensures RefinesAtomic(s, s')
  {
    hide Wrap, Taken, Accepted, CopiedOut;
    CPublishTakes(s, s');
    if s.c.n > 0 {
      var a := Accepted(s.puts);
      assert a[F(s)..][..s.c.n] == a[F(s)..F(s) + s.c.n];
      assert a[F(s)..][s.c.n..] == a[F(s) + s.c.n..];
    }
  }

  lemma StepRefinesAtomic(s: State, s': State)
    requires Inv(s) && Next(s, s')
    ensures RefinesAtomic(s, s')
  {
    if PPublish(s, s') {
      PublishedPut(s, s');
    } else if CPublish(s, s') {
      PublishedGet(s, s');
    } else {
      assert s'.puts == s.puts && s'.gets == s.gets && s'.ring.size == s.ring.size;
    }
  }

  function FreeOf(q: Queue): nat { if |q.bytes| <= q.cap then q.cap - |q.bytes| else 0 }

  /** One and the same put, or get, is running from l + 1 to k. */
  ghost predicate Putting(run: seq<State>, l: nat, k: nat)
    requires k < |run|
  {
    forall m :: l < m <= k ==> !run[m].p.PIdle?
  }

  ghost predicate Getting(run: seq<State>, l: nat, k: nat)
    requires k < |run|
  {
    forall m :: l < m <= k ==> !run[m].c.CIdle?
  }

  /** The put running at k loaded `front` at step l, and what it may move is what was free then. */
  ghost predicate PutFrom(run: seq<State>, k: nat, l: nat)
    requires l < k < |run| && !run[k].p.PIdle?
  {
    var s, q := run[k], Abstract(run[l]);
    && PLoad(run[l], run[l + 1], s.p.data) && s.puts == run[l].puts && Putting(run, l, k)
    && (s.p.PLoaded? ==> Room(s.ring.size, s.p.frontSeen, s.ring.rear) == FreeOf(q))
    && (s.p.PCopying? ==> s.p.n == Min(|s.p.data|, FreeOf(q)))
  }

  /** The get running at k was asked for `want` bytes and loaded `rear` at step l. */
  ghost predicate GetFrom(run: seq<State>, k: nat, l: nat, want: u32)
    requires l < k < |run|
  {
    var s, q := run[k], Abstract(run[l]);
    && CLoad(run[l], run[l + 1], want) && s.gets == run[l].gets && Getting(run, l, k)
    && (s.c.CLoaded? ==> s.c.want == want && Used(s.ring.front, s.c.rearSeen) == |q.bytes|)
    && (s.c.CCopying? ==> s.c.n == Min(want, |q.bytes|))
  }

  lemma PutStays(s: State, s': State)
    requires Next(s, s') && !s.p.PIdle? && !s'.p.PIdle?
    ensures s'.puts == s.puts && s'.ring.rear == s.ring.rear && s'.ring.size == s.ring.size && s'.p.data == s.p.data
    ensures s'.p.PLoaded? ==> s'.p == s.p
    ensures s'.p.PCopying? ==>
      s'.p.n == if s.p.PCopying? then s.p.n else Min(|s.p.data|, Room(s.ring.size, s.p.frontSeen, s.ring.rear))
  {
    hide CopySlot, Store, Load, Add32, CopiedOut;
  }

  lemma GetStays(s: State, s': State)
    requires Next(s, s') && !s.c.CIdle? && !s'.c.CIdle?
    ensures s'.gets == s.gets && s'.ring.front == s.ring.front
    ensures s'.c.CLoaded? ==> s'.c == s.c
    ensures s'.c.CCopying? ==> s'.c.n == if s.c.CCopying? then s.c.n else Min(s.c.want, Used(s.ring.front, s.c.rearSeen))
  {
    hide CopySlot, Store, Load, Add32, CopiedOut;
  }

  lemma PutOpens(s: State, s': State)
    requires Inv(s) && Next(s, s') && s.p.PIdle? && !s'.p.PIdle?
    ensures s'.p.PLoaded? && PLoad(s, s', s'.p.data)
    ensures Room(s'.ring.size, s'.p.frontSeen, s'.ring.rear) == FreeOf(Abstract(s))
  {
    Distances(F(s), R(s), s.ring.size);
    hide CopySlot, Store, Load, Add32, CopiedOut, Wrap, Room;
  }

  lemma GetOpens(s: State, s': State)
    requires Inv(s) && Next(s, s') && s.c.CIdle? && !s'.c.CIdle?
    ensures s'.c.CLoaded? && CLoad(s, s', s'.c.want)
    ensures Used(s'.ring.front, s'.c.rearSeen) == |Abstract(s).bytes|
  {
    Distances(F(s), R(s), s.ring.size);
    hide CopySlot, Store, Load, Add32, CopiedOut, Wrap, Used;
  }

  lemma {:induction false} PutOrigin(run: seq<State>, k: nat) returns (l: nat)
    requires Execution(run) && k < |run| && !run[k].p.PIdle?
    ensures l < k && PutFrom(run, k, l)
  {
    hide Next, Room, Abstract, Inv;
    assert k > 0 && Next(run[k - 1], run[k]);
    ExecutionInv(run, k - 1);
    if run[k - 1].p.PIdle? {
      l := k - 1;
      PutOpens(run[l], run[k]);
    } else {
      l := PutOrigin(run, k - 1);
      PutStays(run[k - 1], run[k]);
    }
  }

  lemma {:induction false} GetOrigin(run: seq<State>, k: nat) returns (l: nat, want: u32)
    requires Execution(run) && k < |run| && !run[k].c.CIdle?
    ensures l < k && GetFrom(run, k, l, want)
  {
    hide Next, Used, Abstract, Inv;
    assert k > 0 && Next(run[k - 1], run[k]);
    ExecutionInv(run, k - 1);
    if run[k - 1].c.CIdle? {
      l := k - 1;
      GetOpens(run[l], run[k]);
      want := run[k].c.want;
    } else {
      l, want := GetOrigin(run, k - 1);
      GetStays(run[k - 1], run[k]);
    }
  }

  /** Every interleaving behaves like a run of atomic puts and gets on one byte queue. */
  lemma ExecutionRefinesAtomic(run: seq<State>)
    requires Execution(run)
    ensures Abstract(run[0]).bytes == []
    ensures forall k :: 0 <= k < |run| - 1 ==> RefinesAtomic(run[k], run[k + 1])
  {
    forall k | 0 <= k < |run| - 1
      ensures RefinesAtomic(run[k], run[k + 1])
    {
      ExecutionInv(run, k);
      StepRefinesAtomic(run[k], run[k + 1]);
    }
  }

  /**
    How much each call moves: a put as many of its bytes as were free, and a get as many bytes as were
    queued and asked for, at the step in which this very call loaded the other side's counter.
   */
  lemma ExactCounts(run: seq<State>, k: nat)
    requires Execution(run) && k < |run| - 1
    ensures PPublish(run[k], run[k + 1]) ==>
              exists l :: 0 <= l < k && PLoad(run[l], run[l + 1], run[k].p.data) && Putting(run, l, k)
                && run[k + 1].puts == run[l].puts + [PutEvent(run[k].p.data, Min(|run[k].p.data|, FreeOf(Abstract(run[l]))))]
    ensures CPublish(run[k], run[k + 1]) ==>
              exists l, want: u32 :: 0 <= l < k && CLoad(run[l], run[l + 1], want) && Getting(run, l, k)
                && run[l].gets == run[k].gets && run[k].c.n == Min(want, |Abstract(run[l]).bytes|)
                && |Taken(run[k + 1].gets)| == |Taken(run[l].gets)| + Min(want, |Abstract(run[l]).bytes|)
  {
    ExecutionInv(run, k);
    if PPublish(run[k], run[k + 1]) {
      var l := PutOrigin(run, k);
      assert PLoad(run[l], run[l + 1], run[k].p.data);
    }
    if CPublish(run[k], run[k + 1]) {
      var l, want := GetOrigin(run, k);
      CPublishTakes(run[k], run[k + 1]);
      assert CLoad(run[l], run[l + 1], want);
    }
  }

  /** A stale counter never over-states room or data, and is exact precisely when the other side has not moved it. */
  lemma StaleIsCautious(run: seq<State>, k: nat)
    requires Execution(run) && k < |run|
    ensures var s := run[k]; var q := Abstract(s);
            && (s.p.PLoaded? ==>
                  var room := Room(s.ring.size, s.p.frontSeen, s.ring.rear);
                  room <= q.cap - |q.bytes| && (room == q.cap - |q.bytes| <==> s.p.frontSeen == s.ring.front))
            && (s.c.CLoaded? ==>
                  var used := Used(s.ring.front, s.c.rearSeen);
                  used <= |q.bytes| && (used == |q.bytes| <==> s.c.rearSeen == s.ring.rear))
  {
    ExecutionInv(run, k);
    var s := run[k];
    Distances(F(s), R(s), s.ring.size);
  }

  // ----- neither thread ever waits

  /** How many of the first n bytes are still to be copied. */
  function Missing(n: nat, done: set<nat>): nat {
    if n == 0 then 0 else Missing(n - 1, done) + if n - 1 in done then 0 else 1
  }

  lemma {:induction false} CopyFillsOne(n: nat, done: set<nat>, i: nat)
    requires i < n && i !in done
    ensures Missing(n, done + {i}) + 1 == Missing(n, done)
  {
    if i < n - 1 {
      CopyFillsOne(n - 1, done, i);
    } else {
      OnlyBelow(n - 1, done, i);
    }
  }

  lemma {:induction false} OnlyBelow(n: nat, done: set<nat>, i: nat)
    requires n <= i
    ensures Missing(n, done + {i}) == Missing(n, done) <= n
  {
    if n > 0 {
      OnlyBelow(n - 1, done, i);
    }
  }

  lemma {:induction false} FirstMissing(n: nat, done: set<nat>) returns (i: nat)
    ensures i <= n && (i < n ==> i !in done) && (i == n ==> forall j: nat :: j < n ==> j in done)
  {
    i := 0;
    if n > 0 {
      i := FirstMissing(n - 1, done);
      if i == n - 1 && i in done {
        i := n;
      }
    }
  }

  /** Steps a call has left: a clamp, its copies and the publish. */
  function PutStepsLeft(p: Producer): nat {
    match p
    case PIdle => 0
    case PLoaded(data, _) => |data| + 2
    case PCopying(_, n, done) => Missing(n, done) + 1
  }

  function GetStepsLeft(c: Consumer): nat {
    match c
    case CIdle => 0
    case CLoaded(want, _) => want + 2
    case CCopying(n, got) => Missing(n, got.Keys) + 1
  }

  lemma ProducerCanStep(s: State)
    requires !s.p.PIdle? && (s.p.PCopying? ==> s.p.n <= |s.p.data|)
    ensures exists s' :: ProducerStep(s, s')
  {
    hide CopySlot, Store, Room, Add32;
    if s.p.PLoaded? {
      var s' := s.(p := PCopying(s.p.data, Min(|s.p.data|, Room(s.ring.size, s.p.frontSeen, s.ring.rear)), {}));
      assert PClamp(s, s');
      assert ProducerStep(s, s');
    } else {
      var i := FirstMissing(s.p.n, s.p.done);
      var s' := if i < s.p.n
        then s.(ring := s.ring.(buf := Store(s.ring.buf, CopySlot(s.ring.size, s.ring.rear, s.p.n, i), s.p.data[i])),
                p := s.p.(done := s.p.done + {i}))
        else s.(ring := s.ring.(rear := Add32(s.ring.rear, s.p.n)), p := PIdle, puts := s.puts + [PutEvent(s.p.data, s.p.n)]);
      assert PCopy(s, s', i) || PPublish(s, s');
      assert ProducerStep(s, s');
    }
  }

  lemma ConsumerCanStep(s: State)
    requires !s.c.CIdle?
    ensures exists s' :: ConsumerStep(s, s')
  {
    hide CopySlot, Load, Used, Add32, CopiedOut;
    if s.c.CLoaded? {
      var s' := s.(c := CCopying(Min(s.c.want, Used(s.ring.front, s.c.rearSeen)), map[]));
      assert CClamp(s, s');
      assert ConsumerStep(s, s');
    } else {
      var i := FirstMissing(s.c.n, s.c.got.Keys);
      var s' := if i < s.c.n
        then s.(c := s.c.(got := s.c.got[i := Load(s.ring.buf, CopySlot(s.ring.size, s.ring.front, s.c.n, i))]))
        else s.(ring := s.ring.(front := Add32(s.ring.front, s.c.n)), c := CIdle,
                gets := if s.c.n == 0 then s.gets else s.gets + [CopiedOut(s.c.n, s.c.got)]);
      assert CCopy(s, s', i) || CPublish(s, s');
      assert ConsumerStep(s, s');
    }
  }

  lemma PutNearer(s: State, s': State)
    requires ProducerStep(s, s') && !s.p.PIdle? && (s.p.PCopying? ==> s.p.n <= |s.p.data|)
    ensures PutStepsLeft(s'.p) < PutStepsLeft(s.p) && s'.c == s.c
  {
    hide CopySlot, Store, Room, Add32;
    if i :| PCopy(s, s', i) {
      CopyFillsOne(s.p.n, s.p.done, i);
    } else if s.p.PLoaded? {
      OnlyBelow(s'.p.n, {}, s'.p.n);
    }
  }

  lemma GetNearer(s: State, s': State)
    requires ConsumerStep(s, s') && !s.c.CIdle?
    ensures GetStepsLeft(s'.c) < GetStepsLeft(s.c) && s'.p == s.p
  {
    hide CopySlot, Load, Used, Add32, CopiedOut;
    if i :| CCopy(s, s', i) {
      CopyFillsOne(s.c.n, s.c.got.Keys, i);
      assert s'.c.got.Keys == s.c.got.Keys + {i};
    } else if s.c.CLoaded? {
      OnlyBelow(s'.c.n, {}, s'.c.n);
      assert s'.c.got.Keys == {};
    }
  }

  /**
    In every interleaving an idle thread can begin any call, a busy one can always go on, and each of its own
    steps brings its call nearer to the end, which the other thread's steps neither delay nor block.
   */
  lemma NeitherWaits(run: seq<State>, k: nat, data: Bytes, want: u32)
    requires Execution(run) && k < |run|
    ensures var s := run[k];
            && (if s.p.PIdle? then exists s' :: PLoad(s, s', data) else exists s' :: ProducerStep(s, s'))
            && (if s.c.CIdle? then exists s' :: CLoad(s, s', want) else exists s' :: ConsumerStep(s, s'))
            && (forall s' :: ProducerStep(s, s') ==> s'.c == s.c && (s.p.PIdle? || PutStepsLeft(s'.p) < PutStepsLeft(s.p)))
            && (forall s' :: ConsumerStep(s, s') ==> s'.p == s.p && (s.c.CIdle? || GetStepsLeft(s'.c) < GetStepsLeft(s.c)))
  {
    ExecutionInv(run, k);
    var s := run[k];
    assert s.p.PCopying? ==> s.p.n <= |s.p.data|;
    hide Inv, ProducerStep, ConsumerStep, PutStepsLeft, GetStepsLeft;
    if s.p.PIdle? {
      assert PLoad(s, s.(p := PLoaded(data, s.ring.front)), data);
    } else {
      ProducerCanStep(s);
    }
    if s.c.CIdle? {
      assert CLoad(s, s.(c := CLoaded(want, s.ring.rear)), want);
    } else {
      ConsumerCanStep(s);
    }
    forall s' | ProducerStep(s, s')
      ensures s'.c == s.c && (s.p.PIdle? || PutStepsLeft(s'.p) < PutStepsLeft(s.p))
    {
      if s.p.PIdle? {
        StepsApart(s, s');
      } else {
        PutNearer(s, s');
      }
    }
    forall s' | ConsumerStep(s, s')
      ensures s'.p == s.p && (s.c.CIdle? || GetStepsLeft(s'.c) < GetStepsLeft(s.c))
    {
      if s.c.CIdle? {
        StepsApart(s, s');
      } else {
        GetNearer(s, s');
      }
    }
  }

  lemma StepsApart(s: State, s': State)
    ensures ProducerStep(s, s') ==> s'.c == s.c
    ensures ConsumerStep(s, s') ==> s'.p == s.p
  {
  }

  // ----- a thread left alone

  /** How far slot x lies past slot `at` around the ring. */
  function Offset(size: u32, at: u32, x: nat): int { if at <= x then x - at else x - at + size }

  lemma CopySlotOffset(size: u32, index: u32, n: u32, i: nat, x: nat)
    requires IsPow2(size) && i < n <= size && x < size
    ensures CopySlot(size, index, n, i) < size
    ensures CopySlot(size, index, n, i) == x <==> Offset(size, Slot(size, index), x) == i
  {
    SlotOfCounter(size, index);
  }

  /** A put under way with the consumer idle: the slots of the copied bytes hold them, all others are as they were. */
  ghost predicate PutUnderWay(r: Ring, s: State, data: Bytes) {
    && s.p.PCopying? && s.p.data == data && s.p.n == Min(|data|, Room(r.size, r.front, r.rear))
    && |s.ring.buf| == |r.buf| && s.ring == r.(buf := s.ring.buf)
    && (forall i :: i in s.p.done ==> i < s.p.n)
    && forall x :: 0 <= x < |r.buf| ==>
         var j := Offset(r.size, Slot(r.size, r.rear), x);
         s.ring.buf[x] == if 0 <= j < |data| && j in s.p.done then data[j] else r.buf[x]
  }

  ghost predicate CopiesOne(s: State, s': State) {
    exists i :: PCopy(s, s', i)
  }

  ghost predicate PutAlone(run: seq<State>, data: Bytes) {
    && 3 < |run| && PLoad(run[0], run[1], data) && PClamp(run[1], run[2])
    && (forall k :: 2 <= k < |run| - 2 ==> CopiesOne(run[k], run[k + 1]))
    && PPublish(run[|run| - 2], run[|run| - 1])
  }

  lemma CopyStays(r: Ring, s: State, s': State, data: Bytes, i: nat)
    requires Valid(r) && IsPow2(r.size) && PutUnderWay(r, s, data) && PCopy(s, s', i)
    ensures PutUnderWay(r, s', data)
  {
    RoomIsFree(r);
    hide CopySlot, Slot, Room;
    forall x | 0 <= x < |r.buf|
      ensures CopySlot(r.size, r.rear, s.p.n, i) < |r.buf|
      ensures CopySlot(r.size, r.rear, s.p.n, i) == x <==> Offset(r.size, Slot(r.size, r.rear), x) == i
    {
      CopySlotOffset(r.size, r.rear, s.p.n, i, x);
    }
  }

  lemma {:induction false} CopiesStay(run: seq<State>, data: Bytes, k: nat)
    requires PutAlone(run, data) && Valid(run[0].ring) && IsPow2(run[0].ring.size) && 2 <= k < |run| - 1
    ensures PutUnderWay(run[0].ring, run[k], data)
  {
    if k > 2 {
      CopiesStay(run, data, k - 1);
      var i :| PCopy(run[k - 1], run[k], i);
      CopyStays(run[0].ring, run[k - 1], run[k], data, i);
    }
  }

  lemma FinishedSlot(r: Ring, s: State, data: Bytes, x: nat)
    requires Valid(r) && IsPow2(r.size) && x < r.size
    requires PutUnderWay(r, s, data) && forall i: nat | i < s.p.n :: i in s.p.done
    ensures s.ring.buf[x] == PutState(r, data).buf[x]
  {
    RoomIsFree(r);
    PutStores(r, data, x);
    SlotOfCounter(r.size, r.rear);
    hide Slot, Room, PutState, Contents;
    assert Offset(r.size, Slot(r.size, r.rear), x) in s.p.done <==> Offset(r.size, Slot(r.size, r.rear), x) < s.p.n;
  }

  /** The steps of a put that no consumer step interrupts do, in whatever order memcpy works, what ring_buf_put does. */
  lemma PutAloneIsSequential(run: seq<State>, data: Bytes)
    requires PutAlone(run, data) && Valid(run[0].ring) && IsPow2(run[0].ring.size)
    ensures run[|run| - 1].ring == PutState(run[0].ring, data)
  {
    var r, last := run[0].ring, run[|run| - 2];
    CopiesStay(run, data, |run| - 2);
    PutCounts(r, data);
    forall x | 0 <= x < |r.buf|
      ensures last.ring.buf[x] == PutState(r, data).buf[x]
    {
      FinishedSlot(r, last, data, x);
    }
    assert PutState(r, data) == r.(buf := PutState(r, data).buf, rear := Add32(r.rear, last.p.n));
    hide Slot, Room, PutState, Valid;
    assert last.ring.buf == PutState(r, data).buf;
  }

  /** A get under way with the producer idle: the ring is untouched and each byte held came from its slot. */
  ghost predicate GetUnderWay(r: Ring, s: State, want: u32) {
    && s.c.CCopying? && s.ring == r && s.c.n == GetCount(r, want)
    && forall i :: i in s.c.got ==> i < s.c.n && s.c.got[i] == Load(r.buf, CopySlot(r.size, r.front, s.c.n, i))
  }

  ghost predicate TakesOne(s: State, s': State) {
    exists i :: CCopy(s, s', i)
  }

  ghost predicate GetAlone(run: seq<State>, want: u32) {
    && 3 < |run| && CLoad(run[0], run[1], want) && CClamp(run[1], run[2])
    && (forall k :: 2 <= k < |run| - 2 ==> TakesOne(run[k], run[k + 1]))
    && CPublish(run[|run| - 2], run[|run| - 1])
  }

  lemma {:induction false} TakesStay(run: seq<State>, want: u32, k: nat)
    requires GetAlone(run, want) && 2 <= k < |run| - 1
    ensures GetUnderWay(run[0].ring, run[k], want) && run[k].gets == run[0].gets
  {
    if k > 2 {
      TakesStay(run, want, k - 1);
      assert TakesOne(run[k - 1], run[k]);
    }
  }

  lemma GetBytesBySlot(r: Ring, want: u32, i: nat)
    requires Valid(r) && IsPow2(r.size) && i < GetCount(r, want)
    ensures |GetBytes(r, want)| == GetCount(r, want)
    ensures GetBytes(r, want)[i] == Load(r.buf, CopySlot(r.size, r.front, GetCount(r, want), i))
  {
    GetCounts(r, want);
    SplitInBounds(r, r.front, GetCount(r, want));
  }

  /** The steps of a get that no producer step interrupts do what ring_buf_get does. */
  lemma GetAloneIsSequential(run: seq<State>, want: u32)
    requires GetAlone(run, want) && Valid(run[0].ring) && IsPow2(run[0].ring.size)
    ensures run[|run| - 1].ring == GetState(run[0].ring, want)
    ensures run[|run| - 1].gets == run[0].gets + if GetCount(run[0].ring, want) == 0 then [] else [GetBytes(run[0].ring, want)]
  {
    var r, last := run[0].ring, run[|run| - 2];
    TakesStay(run, want, |run| - 2);
    GetCounts(r, want);
    hide CopySlot, GetBytes, GetCount;
    forall i | 0 <= i < last.c.n
      ensures CopiedOut(last.c.n, last.c.got)[i] == GetBytes(r, want)[i]
    {
      GetBytesBySlot(r, want, i);
    }
    assert CopiedOut(last.c.n, last.c.got) == GetBytes(r, want);
  }
}
