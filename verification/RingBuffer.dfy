/**
  The byte ring of c_tcp_to_can/src/ringbuffer.c.

  `front` and `rear` run freely and wrap at 2^32; a slot is found by masking with `size - 1`, and
  every copy is split in two where the storage ends.  The class works in place as the C code does;
  each of its methods is tied to a function on `Ring` values, and those functions are shown to be a
  bounded byte queue.
 */
module RingBuffer {
  import opened Machine

  type Bytes = s: seq<u8> | |s| < TWO32

  /** The fields of a ring_buf_t, with the bytes its `buf` points to. */
  datatype Ring = Ring(buf: seq<u8>, size: u32, front: u32, rear: u32)

  /** The lengths that ring_buf_init answers true for. */
  predicate AcceptedSize(size: u32) {
    size == 0 || IsPow2(size)
  }

  // ----- index arithmetic

  function Used(front: u32, rear: u32): u32 { Sub32(rear, front) }

  function Room(size: u32, front: u32, rear: u32): u32 { Sub32(Add32(size, front), rear) }

  function Slot(size: u32, index: u32): u32 { BitAnd(index, Sub32(size, 1)) }

  /** How many of n bytes fit between slot `at` and the end of the storage. */
  function FirstPart(size: u32, at: u32, n: u32): (i: u32)
    ensures i <= n
  {
    Min(n, Sub32(size, at))
  }

  lemma SlotIsMod(size: u32, x: nat)
    requires IsPow2(size)
    ensures Slot(size, Wrap(x)) == x % size
  {
    assert Sub32(size, 1) == size - 1;
    WrappedMask(x, size);
  }

  lemma SlotOfCounter(size: u32, index: u32)
    requires IsPow2(size)
    ensures Slot(size, index) == index % size < size
  {
    assert Wrap(index) == index;
    SlotIsMod(size, index);
  }

  /** Advancing a counter by k < size moves its slot k places around the ring. */
  lemma SlotAfter(size: u32, index: u32, k: nat)
    requires IsPow2(size) && k < size
    ensures var at := Slot(size, index);
            at < size && Slot(size, Add32(index, k)) == if at + k < size then at + k else at + k - size
  {
    SlotOfCounter(size, index);
    SlotIsMod(size, index + k);
    assert Wrap(index) == index;
    WrapAdd(index, k);
    WrapOnce(index, k, size);
  }

  /** A length that is no power of two leaves a bit of its mask clear below the top one. */
  lemma {:induction false} ClearBit(m: nat) returns (v: nat)
    requires m > 0 && !IsPow2(m + 1)
    ensures 0 < v <= m && BitAnd(v, m) == 0
  {
    if m % 2 == 0 {
      v := 1;
      assert BitAnd(0, m / 2) == 0;
    } else {
      assert (m + 1) / 2 == m / 2 + 1;
      v := ClearBit(m / 2);
      v := 2 * v;
    }
  }

  ghost predicate SlotsDistinct(size: u32) {
    forall i: u32, j: u32 :: i < j < size ==> Slot(size, i) != Slot(size, j)
  }

  /** Masking gives `size` consecutive counters different slots exactly when the length is a power of two. */
  lemma OnlyPowersOfTwoWork(size: u32)
    requires size > 0
    ensures SlotsDistinct(size) <==> IsPow2(size)
  {
    if IsPow2(size) {
      forall i: u32, j: u32 | i < j < size
        ensures Slot(size, i) != Slot(size, j)
      {
        SlotOfCounter(size, i);
        SlotOfCounter(size, j);
        SlotsDiffer(i, j, size);
      }
    } else {
      assert size > 1;
      var v := ClearBit(size - 1);
      assert Slot(size, v) == 0 == Slot(size, 0);
    }
  }

  // ----- a ring value and the queue it stands for

  predicate Valid(r: Ring) {
    && AcceptedSize(r.size)
    && |r.buf| == r.size
    && Used(r.front, r.rear) <= r.size
    && (r.size == 0 ==> r.rear == 0)
  }

  function ByteAt(r: Ring, k: nat): u8
    requires Valid(r) && k < Used(r.front, r.rear)
  {
    SlotAfter(r.size, r.front, k);
    r.buf[Slot(r.size, Add32(r.front, k))]
  }

  /** The bytes put and not yet taken, oldest first. */
  function Contents(r: Ring): (q: seq<u8>)
    requires Valid(r)
    ensures |q| == Used(r.front, r.rear)
  {
    seq(Used(r.front, r.rear), k requires 0 <= k < Used(r.front, r.rear) => ByteAt(r, k))
  }

  lemma ContentsAt(r: Ring, k: nat)
    requires Valid(r) && k < |Contents(r)|
    ensures var x := Slot(r.size, Add32(r.front, k)); x < |r.buf| == r.size && Contents(r)[k] == r.buf[x]
  {
  }

  lemma RoomIsFree(r: Ring)
    requires Valid(r)
    ensures Room(r.size, r.front, r.rear) == r.size - |Contents(r)|
  {
  }

  // ----- the operations on ring values

  /** memcpy of src onto dst at offset `at`. */
  function Overwrite(dst: seq<u8>, at: nat, src: seq<u8>): (d: seq<u8>)
    requires at + |src| <= |dst|
    ensures |d| == |dst|
    ensures forall x :: 0 <= x < |d| ==> d[x] == if at <= x < at + |src| then src[x - at] else dst[x]
  {
    dst[..at] + src + dst[at + |src|..]
  }

  /** The two memcpy calls of ring_buf_put: the first i bytes at `at`, the others at the start of the storage. */
  function SplitCopy(buf: seq<u8>, at: nat, i: nat, src: seq<u8>): (d: seq<u8>)
    requires i <= |src| <= |buf| && at + i <= |buf| && |src| - i <= at && (i < |src| ==> at + i == |buf|)
    ensures |d| == |buf|
    ensures forall x :: 0 <= x < |d| ==>
              var j := if at <= x then x - at else x - at + |buf|; d[x] == if j < |src| then src[j] else buf[x]
  {
    Overwrite(Overwrite(buf, at, src[..i]), 0, src[i..])
  }

  lemma SplitInBounds(r: Ring, index: u32, n: u32)
    requires Valid(r) && n <= r.size && (r.size == 0 ==> index == 0)
    ensures var at := Slot(r.size, index); var i := FirstPart(r.size, at, n);
            at <= r.size && i <= n && at + i <= r.size && n - i <= at && (i < n ==> at + i == r.size)
  {
  }

  function PutState(r: Ring, data: Bytes): Ring
    requires Valid(r)
  {
    var n := Min(|data|, Room(r.size, r.front, r.rear));
    var at := Slot(r.size, r.rear);
    RoomIsFree(r);
    SplitInBounds(r, r.rear, n);
    r.(buf := SplitCopy(r.buf, at, FirstPart(r.size, at, n), data[..n]), rear := Add32(r.rear, n))
  }

  lemma PutCounts(r: Ring, data: Bytes)
    requires Valid(r)
    ensures var r' := PutState(r, data);
            && Valid(r') && r'.size == r.size && r'.front == r.front
            && |Contents(r')| == |Contents(r)| + Min(|data|, r.size - |Contents(r)|)
  {
  }

  function GetCount(r: Ring, len: u32): u32 { Min(len, Used(r.front, r.rear)) }

  function GetState(r: Ring, len: u32): Ring {
    r.(front := Add32(r.front, GetCount(r, len)))
  }

  function GetBytes(r: Ring, len: u32): seq<u8>
    requires Valid(r)
  {
    var n := GetCount(r, len);
    var at := Slot(r.size, r.front);
    var i := FirstPart(r.size, at, n);
    assert r.size == 0 ==> r.front == 0;
    SplitInBounds(r, r.front, n);
    r.buf[at..at + i] + r.buf[..n - i]
  }

  /** Where the k-th byte of the new queue lies in the storage, as an offset from the old ends. */
  lemma RearSlot(r: Ring)
    requires Valid(r) && Used(r.front, r.rear) < r.size
    ensures var a := Slot(r.size, r.front); var u := Used(r.front, r.rear);
            Slot(r.size, r.rear) == if a + u < r.size then a + u else a + u - r.size
  {
    assert Add32(r.front, Used(r.front, r.rear)) == r.rear;
    SlotAfter(r.size, r.front, Used(r.front, r.rear));
  }

  /** The k-th byte from `front` lies k - used places past `rear`, counting around the ring. */
  lemma OffsetFromRear(r: Ring, k: nat)
    requires Valid(r) && k < r.size && |Contents(r)| < r.size
    ensures var u := |Contents(r)|; var at := Slot(r.size, r.rear); var x := Slot(r.size, Add32(r.front, k));
            x < r.size && (if at <= x then x - at else x - at + r.size) == if u <= k then k - u else k - u + r.size
  {
    SlotAfter(r.size, r.front, k);
    RearSlot(r);
  }

  /** ring_buf_put writes byte j at offset j past `rear` around the ring, and no other slot. */
  lemma PutStores(r: Ring, data: Bytes, x: nat)
    requires Valid(r) && x < r.size
    ensures var at := Slot(r.size, r.rear); var j := if at <= x then x - at else x - at + r.size;
            j >= 0 && PutState(r, data).buf[x] == if j < Min(|data|, r.size - |Contents(r)|) then data[j] else r.buf[x]
  {
    hide Slot, IsPow2;
    RoomIsFree(r);
    SplitInBounds(r, r.rear, Min(|data|, r.size - |Contents(r)|));
  }

  lemma PutByte(r: Ring, data: Bytes, k: nat)
    requires Valid(r) && k < |Contents(r)| + Min(|data|, r.size - |Contents(r)|)
    ensures Valid(PutState(r, data)) && k < |Contents(PutState(r, data))|
    ensures Contents(PutState(r, data))[k] == if k < |Contents(r)| then Contents(r)[k] else data[k - |Contents(r)|]
  {
    hide PutState, Contents, Valid, Slot, Add32;
    PutCounts(r, data);
    ContentsAt(PutState(r, data), k);
    PutStores(r, data, Slot(r.size, Add32(r.front, k)));
    if k < |Contents(r)| {
      ContentsAt(r, k);
    }
    if |Contents(r)| < r.size {
      OffsetFromRear(r, k);
    }
  }

  /** ring_buf_put appends as many bytes as there is room for; nothing already queued moves or changes. */
  lemma PutAppends(r: Ring, data: Bytes)
    requires Valid(r)
    ensures var r' := PutState(r, data);
            var n := Min(|data|, r.size - |Contents(r)|);
            Valid(r') && Contents(r') == Contents(r) + data[..n]
  {
    PutCounts(r, data);
    hide PutState, Contents;
    forall k | 0 <= k < |Contents(PutState(r, data))|
      ensures Contents(PutState(r, data))[k] == (Contents(r) + data[..Min(|data|, r.size - |Contents(r)|)])[k]
    {
      PutByte(r, data, k);
    }
  }

  lemma GetByte(r: Ring, len: u32, k: nat)
    requires Valid(r) && k < GetCount(r, len)
    ensures |GetBytes(r, len)| == GetCount(r, len) && GetBytes(r, len)[k] == Contents(r)[k]
  {
    SlotAfter(r.size, r.front, k);
    SplitInBounds(r, r.front, GetCount(r, len));
  }

  lemma LeftByte(r: Ring, len: u32, k: nat)
    requires Valid(r) && GetCount(r, len) + k < |Contents(r)|
    ensures Valid(GetState(r, len)) && k < |Contents(GetState(r, len))|
    ensures Contents(GetState(r, len))[k] == Contents(r)[GetCount(r, len) + k]
  {
  }

  lemma GetCounts(r: Ring, len: u32)
    requires Valid(r)
    ensures GetCount(r, len) == Min(len, |Contents(r)|) == |GetBytes(r, len)|
    ensures Valid(GetState(r, len)) && |Contents(GetState(r, len))| == |Contents(r)| - GetCount(r, len)
  {
  }

  /** ring_buf_get hands out the oldest bytes in order and leaves the rest queued. */
  lemma GetRemoves(r: Ring, len: u32)
    requires Valid(r)
    ensures var r' := GetState(r, len);
            var n := Min(len, |Contents(r)|);
            Valid(r') && GetBytes(r, len) == Contents(r)[..n] && Contents(r') == Contents(r)[n..]
  {
    hide Slot, ByteAt;
    GetCounts(r, len);
    var n := GetCount(r, len);
    forall k | 0 <= k < n
      ensures GetBytes(r, len)[k] == Contents(r)[k]
    {
      GetByte(r, len, k);
    }
    forall k | 0 <= k < |Contents(r)| - n
      ensures Contents(GetState(r, len))[k] == Contents(r)[n..][k]
    {
      LeftByte(r, len, k);
    }
  }

  // ----- whole call sequences

  /** A byte queue that holds at most `cap` bytes: what the ring is meant to be. */
  datatype Queue = Queue(bytes: seq<u8>, cap: nat)

  datatype Op = Init(buf: Bytes) | Clear | Put(data: Bytes) | Get(len: u32)

  /** What a call returns: nothing, a count, or the bytes it copied out. */
  datatype Reply = Done | Count(n: nat) | Out(bytes: seq<u8>)

  function RingStep(r: Ring, op: Op): (Ring, Reply)
    requires Valid(r)
  {
    match op
    case Init(buf) => (Ring(buf, |buf|, 0, 0), Done)
    case Clear => (r.(front := 0, rear := 0), Done)
    case Put(data) => (PutState(r, data), Count(Min(|data|, Room(r.size, r.front, r.rear))))
    case Get(len) => (GetState(r, len), Out(GetBytes(r, len)))
  }

  function QueueStep(q: Queue, op: Op): (result: (Queue, Reply))
    requires |q.bytes| <= q.cap
    ensures |result.0.bytes| <= result.0.cap
  {
    match op
    case Init(buf) => (Queue([], |buf|), Done)
    case Clear => (q.(bytes := []), Done)
    case Put(data) =>
      var n := Min(|data|, q.cap - |q.bytes|);
      (q.(bytes := q.bytes + data[..n]), Count(n))
    case Get(len) =>
      var n := Min(len, |q.bytes|);
      (q.(bytes := q.bytes[n..]), Out(q.bytes[..n]))
  }

  function View(r: Ring): (q: Queue)
    requires Valid(r)
    ensures |q.bytes| <= q.cap
  {
    Queue(Contents(r), r.size)
  }

  /** Initialisation is only relied on for the sizes that ring_buf_init accepts. */
  predicate WithAcceptedSize(op: Op) {
    op.Init? ==> AcceptedSize(|op.buf|)
  }

  lemma StepRefines(r: Ring, op: Op)
    requires Valid(r) && WithAcceptedSize(op)
    ensures var (r', reply) := RingStep(r, op);
            Valid(r') && QueueStep(View(r), op) == (View(r'), reply)
  {
    match op
    case Init(buf) =>
    case Clear =>
    case Put(data) => PutAppends(r, data); RoomIsFree(r);
    case Get(len) => GetRemoves(r, len);
  }

  function QueueRun(q: Queue, ops: seq<Op>): (result: (Queue, seq<Reply>))
    requires |q.bytes| <= q.cap
    ensures |result.0.bytes| <= result.0.cap
    decreases |ops|
  {
    if ops == [] then (q, [])
    else
      var (q1, first) := QueueStep(q, ops[0]);
      var (q2, rest) := QueueRun(q1, ops[1..]);
      (q2, [first] + rest)
  }

  function RunRing(r: Ring, ops: seq<Op>): (result: (Ring, seq<Reply>))
    requires Valid(r) && forall op :: op in ops ==> WithAcceptedSize(op)
    ensures Valid(result.0)
    decreases |ops|
  {
    if ops == [] then (r, [])
    else
      StepRefines(r, ops[0]);
      var (r1, first) := RingStep(r, ops[0]);
      var (r2, rest) := RunRing(r1, ops[1..]);
      (r2, [first] + rest)
  }

  /**
    From any counters, including ones about to pass 2^32, every sequence of calls on the ring returns
    what the byte queue returns and leaves what the byte queue holds.
   */
  lemma {:induction false} RunRefinesQueue(r: Ring, ops: seq<Op>)
    requires Valid(r) && forall op :: op in ops ==> WithAcceptedSize(op)
    ensures QueueRun(View(r), ops) == (View(RunRing(r, ops).0), RunRing(r, ops).1)
    decreases |ops|
  {
    if ops != [] {
      StepRefines(r, ops[0]);
      RunRefinesQueue(RingStep(r, ops[0]).0, ops[1..]);
    }
  }

  // ----- the code, working in place

  /** memcpy of n bytes between two distinct objects. */
  method Memcpy(dst: array<u8>, at: nat, src: array<u8>, from: nat, n: nat)
    requires dst != src && at + n <= dst.Length && from + n <= src.Length
    modifies dst
    ensures dst[..] == Overwrite(old(dst[..]), at, old(src[..])[from..from + n])
  {
    forall k | 0 <= k < n { dst[at + k] := src[from + k]; }
  }

  /** What the two copies of ring_buf_put leave, stated over the values the code computes. */
  lemma PutInCopies(r: Ring, data: Bytes)
    requires Valid(r)
    ensures var n := Min(|data|, Room(r.size, r.front, r.rear)); var at := Slot(r.size, r.rear);
            var i := FirstPart(r.size, at, n);
            && n == Min(|data|, r.size - |Contents(r)|) && i <= n && at + i <= |r.buf| && n - i <= |r.buf|
            && PutState(r, data) == r.(buf := Overwrite(Overwrite(r.buf, at, data[..i]), 0, data[i..n]), rear := Add32(r.rear, n))
            && Valid(PutState(r, data)) && Contents(PutState(r, data)) == Contents(r) + data[..n]
  {
    var n := Min(|data|, Room(r.size, r.front, r.rear));
    var i := FirstPart(r.size, Slot(r.size, r.rear), n);
    RoomIsFree(r);
    PutAppends(r, data);
    SplitInBounds(r, r.rear, n);
    assert data[..n][..i] == data[..i] && data[..n][i..] == data[i..n];
  }

  /** What the two copies of ring_buf_get read. */
  lemma GetInCopies(r: Ring, len: u32)
    requires Valid(r)
    ensures var n := Min(len, Used(r.front, r.rear)); var at := Slot(r.size, r.front);
            var i := FirstPart(r.size, at, n);
            && n == Min(len, |Contents(r)|) <= |Contents(r)| && i <= n && at + i <= |r.buf| && n - i <= |r.buf|
            && r.buf[at..at + i] + r.buf[0..0 + (n - i)] == Contents(r)[..n]
            && GetState(r, len) == r.(front := Add32(r.front, n)) && Valid(GetState(r, len))
            && Contents(GetState(r, len)) == Contents(r)[n..]
  {
    hide Slot, ByteAt, Contents;
    GetRemoves(r, len);
    GetCounts(r, len);
    assert r.size == 0 ==> r.front == 0;
    SplitInBounds(r, r.front, GetCount(r, len));
  }

  lemma Slices(s: seq<u8>, len: nat, n: nat, i: nat)
    requires i <= n <= len <= |s|
    ensures s[..len][..n] == s[..n] && s[..len][..i] == s[0..0 + i] && s[..len][i..n] == s[i..i + (n - i)]
  {
  }

  lemma TwoCopies(dst: seq<u8>, head: seq<u8>, rest: seq<u8>)
    requires |head| + |rest| <= |dst|
    ensures var d := Overwrite(Overwrite(dst, 0, head), |head|, rest);
            d[..|head| + |rest|] == head + rest && d[|head| + |rest|..] == dst[|head| + |rest|..]
  {
  }

  /** A ring_buf_t. */
  class RingBuf {
    var buf: array?<u8>
    var size: u32
    var front: u32
    var rear: u32

    ghost function State(): Ring
      reads this, buf
    {
      Ring(if buf == null then [] else buf[..], size, front, rear)
    }

    ghost predicate Ready()
      reads this, buf
    {
      buf != null && Valid(State())
    }

    ghost function Queued(): seq<u8>
      reads this, buf
      requires Ready()
    {
      Contents(State())
    }

    /** Answers whether the storage is there and its length is zero or a power of two; the fields are set regardless. */
    method Init(storage: array?<u8>, len: u32) returns (ok: bool)
      requires storage != null ==> storage.Length == len
      modifies this
      ensures buf == storage && size == len && front == rear == 0
      ensures ok <==> storage != null && AcceptedSize(len)
      ensures ok ==> Ready() && Queued() == []
    {
      buf := storage;
      size := len;
      front, rear := 0, 0;
      PowerOfTwoTest(len);
      ok := buf != null && BitAnd(len, Sub32(len, 1)) == 0;
    }

    method Clear()
      requires Ready()
      modifies this`front, this`rear
      ensures Ready() && Queued() == []
    {
      front, rear := 0, 0;
    }

    method Len() returns (n: u32)
      requires Ready()
      ensures n == |Queued()|
    {
      n := Sub32(rear, front);
    }

    method FreeSpace() returns (n: u32)
      requires Ready()
      ensures n == size - |Queued()|
    {
      n := Sub32(size, Sub32(rear, front));
    }

    method Put(data: array<u8>, len: u32) returns (n: u32)
      requires Ready() && len <= data.Length && data != buf
      modifies this`rear, buf
      ensures Ready() && State() == PutState(old(State()), data[..len])
      ensures n == Min(len, size - |old(Queued())|)
      ensures Queued() == old(Queued()) + data[..n]
    {
      hide Min, Room, Slot, FirstPart, Add32, Sub32, Overwrite, Contents, Valid, PutState;
      ghost var was, given := State(), data[..];
      n := Min(len, Room(size, front, rear));
      var at: nat := Slot(size, rear);
      var i: nat := FirstPart(size, at, n);
      assert data[..len] == given[..len];
      PutInCopies(was, given[..len]);
      Slices(given, len, n, i);
      Memcpy(buf, at, data, 0, i);
      Memcpy(buf, 0, data, i, n - i);
      assert data[..] == given;
      rear := Add32(rear, n);
    }

    /** The caller's buffer past the n bytes copied out is left alone. */
    method Get(out: array<u8>, len: u32) returns (n: u32)
      requires Ready() && len <= out.Length && out != buf
      modifies this`front, out
      ensures Ready() && State() == GetState(old(State()), len)
      ensures n == Min(len, |old(Queued())|)
      ensures out[..n] == old(Queued())[..n] && out[n..] == old(out[n..])
      ensures Queued() == old(Queued())[n..]
    {
      hide Min, Slot, FirstPart, Used, Add32, Sub32, Overwrite, Contents, Valid, GetBytes, GetState;
      ghost var was, outWas := State(), out[..];
      n := Min(len, Used(front, rear));
      var at: nat := Slot(size, front);
      var i: nat := FirstPart(size, at, n);
      GetInCopies(was, len);
      ghost var head, rest := buf[..][at..at + i], buf[..][0..0 + (n - i)];
      Memcpy(out, 0, buf, at, i);
      Memcpy(out, i, buf, 0, n - i);
      TwoCopies(outWas, head, rest);
      assert out[..n] == out[..][..n] && out[n..] == out[..][n..] && outWas[n..] == old(out[n..]);
      front := Add32(front, n);
    }
  }
}
