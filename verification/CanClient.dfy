/**
  The receive and send queues of c_tcp_to_can/src/dev_can.c: lists of frames under a mutex each.

  Each method is one call of the C function run under its lock; ReceiveQueue interleaves the calls.
  A mutex is a flag that a call may only take when it is clear.  `alloc` arguments say whether an
  allocation succeeds.
 */
module CanClient {
  import opened Machine
  import opened Codec
  import opened CanList

  type Data8 = s: seq<u8> | |s| == 8 witness [0, 0, 0, 0, 0, 0, 0, 0]

  /** can_frame_t, 12 bytes, and socket_frame_t, 13 bytes. */
  datatype CanFrame = CanFrame(canId: u32, data: Data8)

  datatype SocketFrame = SocketFrame(head: u8, canId: u32, data: Data8)

  /** What insert_can_frame_recv_list keeps of a frame. */
  function Stored(f: SocketFrame): CanFrame { CanFrame(StoredId(f.canId), f.data) }

  /** The data is kept, and of the identifier 29 bits if it carries the extended flag, its top bit, else 11. */
  lemma StoredKeeps(f: SocketFrame)
    ensures Stored(f).data == f.data
    ensures Stored(f).canId == if f.canId >= 0x8000_0000 then f.canId % 0x2000_0000 else f.canId % 0x800
  {
    hide BitAnd;
    CanMasks(f.canId);
  }

  /**
    What read_can_frame copies out: the 12 stored bytes and the byte behind them, read as a 13-byte
    socket_frame_t.  `beyond` is that last byte, which the allocation does not hold.
   */
  function ReadAs13(f: CanFrame, beyond: u8): SocketFrame {
    var b := Le32(f.canId) + f.data + [beyond];
    SocketFrame(b[0], FromLe32(b[1], b[2], b[3], b[4]), b[5..13])
  }

  lemma ShiftedWord(b0: u8, b1: u8, b2: u8, b3: u8, b4: u8)
    ensures var w := FromLe32(b1, b2, b3, b4);
            FromLe32(b0, b1, b2, b3) == b0 + 0x100 * (w % 0x100_0000) && w / 0x100_0000 == b4
  {
  }

  /** Every byte comes out one field early; the stored frame can still be told from the copy. */
  lemma ReadAs13Shifts(f: CanFrame, beyond: u8)
    ensures var out := ReadAs13(f, beyond);
            && f.canId == out.head + 0x100 * (out.canId % 0x100_0000)
            && f.data == [out.canId / 0x100_0000] + out.data[..7]
            && out.data[7] == beyond
  {
    hide Le32, FromLe32;
    var w := Le32(f.canId);
    Le32Length(f.canId);
    Le32RoundTrip(f.canId);
    ShiftedWord(w[0], w[1], w[2], w[3], f.data[0]);
    assert f.data == [f.data[0]] + f.data[1..];
    assert ReadAs13(f, beyond).data[..7] == f.data[1..];
  }

  lemma SameBytes(x: u32, b0: u8, b1: u8, b2: u8, b3: u8)
    ensures Le32(x) == [b0, b1, b2, b3] <==> x == FromLe32(b0, b1, b2, b3)
  {
    hide Le32, FromLe32;
    FromLe32RoundTrip(b0, b1, b2, b3);
    Le32Length(x);
    Le32RoundTrip(x);
    assert Le32(x) == [Le32(x)[0], Le32(x)[1], Le32(x)[2], Le32(x)[3]];
  }

  /**
    When a read returns what was stored: the identifier when its four bytes and the first data byte are
    equal, the data when all eight bytes equal the byte behind them; both only for thirteen equal bytes.
   */
  lemma ReadAs13Exact(f: CanFrame, beyond: u8)
    ensures var out := ReadAs13(f, beyond);
            && (out.canId == f.canId <==> f.canId == 0x0101_0101 * (f.data[0] as int))
            && (out.data == f.data <==> forall i :: 0 <= i < 8 ==> f.data[i] == beyond)
            && (out.canId == f.canId && out.data == f.data <==>
                  f.canId == 0x0101_0101 * (beyond as int) && forall i :: 0 <= i < 8 ==> f.data[i] == beyond)
  {
    IdReadExact(f, beyond);
    DataReadExact(f, beyond);
    hide ReadAs13;
  }

  lemma IdReadExact(f: CanFrame, beyond: u8)
    ensures ReadAs13(f, beyond).canId == f.canId <==> f.canId == 0x0101_0101 * (f.data[0] as int)
  {
    var w, d := Le32(f.canId), f.data[0];
    Le32Length(f.canId);
    SameBytes(f.canId, w[1], w[2], w[3], d);
    SameBytes(f.canId, d, d, d, d);
    assert FromLe32(d, d, d, d) == 0x0101_0101 * (d as int);
    hide Le32, FromLe32;
    assert w == [w[0], w[1], w[2], w[3]];
  }

  lemma DataReadExact(f: CanFrame, beyond: u8)
    ensures ReadAs13(f, beyond).data == f.data <==> forall i :: 0 <= i < 8 ==> f.data[i] == beyond
  {
    Le32Length(f.canId);
    hide Le32, FromLe32;
    var d := f.data;
    assert ReadAs13(f, beyond).data == d[1..] + [beyond];
    if d[1..] + [beyond] == d {
      assert forall i :: 0 <= i < 7 ==> (d[1..] + [beyond])[i] == d[i + 1];
      assert d[7] == beyond && d[6] == beyond && d[5] == beyond && d[4] == beyond;
    }
  }

  class Client {
    const recv: List<CanFrame>
    const send: List<SocketFrame>
    var frameCnt: int
    var posts: nat
    var recvLocked: bool
    var sendLocked: bool

    ghost predicate Valid()
      reads this, recv, recv.nodes, send, send.nodes
    {
      recv.Valid() && send.Valid()
    }

    constructor ()
      ensures Valid() && recv.Vals() == [] && send.Vals() == []
      ensures frameCnt == 0 && posts == 0 && !recvLocked && !sendLocked
      ensures fresh(recv) && fresh(send) && recv.nodes == [] && send.nodes == []
    {
      recv := new List<CanFrame>(NoMatch);
      send := new List<SocketFrame>(NoMatch);
      frameCnt, posts, recvLocked, sendLocked := 0, 0, false, false;
    }

    /** A failed node allocation still counts the frame and posts, but loses it. */
    method InsertCanFrameRecvList(frame: SocketFrame, msgAlloc: bool, nodeAlloc: bool) returns (ret: int)
      requires Valid() && !recvLocked && |recv.nodes| < 0xFFFF_FFFF
      modifies this, recv, recv.nodes
      ensures Valid() && !recvLocked && sendLocked == old(sendLocked)
      ensures ret == if msgAlloc then 8 else -1
      ensures forall i :: 0 <= i < |recv.nodes| ==> recv.nodes[i] in old(recv.nodes) || fresh(recv.nodes[i])
      ensures recv.Vals() == old(recv.Vals()) + if msgAlloc && nodeAlloc then [Stored(frame)] else []
      ensures msgAlloc && nodeAlloc ==>
                var kept := recv.Vals()[|old(recv.Vals())|];
                && kept.data == frame.data
                && kept.canId == if frame.canId >= 0x8000_0000 then frame.canId % 0x2000_0000 else frame.canId % 0x800
      ensures frameCnt == old(frameCnt) + (if msgAlloc then 1 else 0) && posts == old(posts) + if msgAlloc then 1 else 0
    {
      hide List<CanFrame>.Valid, List<CanFrame>.Vals, StoredId;
      if !msgAlloc {
        return -1;
      }
      var msg := CanFrame(StoredId(frame.canId), frame.data);
      StoredKeeps(frame);
      recvLocked := true;
      if nodeAlloc {
        var node := new ListNode<CanFrame>(msg);
        var _ := recv.RPush(node);
      }
      frameCnt := frameCnt + 1;
      recvLocked := false;
      posts := posts + 1;
      return 8;
    }

    /** Takes the oldest frame, or answers -2; the lock is given back either way. */
    method ReadCanFrame(beyond: u8) returns (ret: int, out: SocketFrame)
      requires Valid() && !recvLocked
      modifies this`recvLocked, recv, recv.nodes
      ensures Valid() && !recvLocked
      ensures ret == if old(recv.Vals()) == [] then -2 else 8
      ensures old(recv.Vals()) == [] ==> recv.Vals() == []
      ensures old(recv.Vals()) != [] ==>
                recv.Vals() == old(recv.Vals())[1..] && out == ReadAs13(old(recv.Vals())[0], beyond)
    {
      out := SocketFrame(0, 0, seq(8, _ => 0));
      recvLocked := true;
      if recv.len == 0 {
        recvLocked := false;
        return -2, out;
      }
      var node := recv.LPop();
      if node == null {
        assert false;
        return -1, out;
      }
      out := ReadAs13(node.val, beyond);
      recvLocked := false;
      return 8, out;
    }

    /**
      The emptiness test looks at the receive list but the frame comes from the send list, and the
      failure return keeps the lock: it is still held on return exactly when the receive list has
      something and the send list has nothing.
     */
    method GetSendFrame() returns (ret: int, out: SocketFrame)
      requires Valid() && !sendLocked
      modifies this`sendLocked, send, send.nodes
      ensures Valid()
      ensures sendLocked <==> old(recv.Vals()) != [] && old(send.Vals()) == []
      ensures ret == if old(recv.Vals()) == [] || old(send.Vals()) == [] then -1 else 8
      ensures ret == -1 ==> send.Vals() == old(send.Vals())
      ensures ret == 8 ==> send.Vals() == old(send.Vals())[1..] && out == old(send.Vals())[0]
    {
      out := SocketFrame(0, 0, seq(8, _ => 0));
      sendLocked := true;
      if recv.len == 0 {
        sendLocked := false;
        return -1, out;
      }
      var node := send.LPop();
      if node != null {
        out := node.val;
      } else {
        return -1, out;
      }
      sendLocked := false;
      return 8, out;
    }
  }

  /** The stuck state is reached from a fresh client by one received frame and one call. */
  method StuckSender(frame: SocketFrame) returns (c: Client)
    ensures c.Valid() && c.sendLocked && !c.recvLocked && c.recv.Vals() == [Stored(frame)]
  {
    c := new Client();
    var inserted := c.InsertCanFrameRecvList(frame, true, true);
    var ret, out := c.GetSendFrame();
  }

  /** A frame that comes out wrong: identifier 0x123 with data 1 to 8, inserted into a fresh client and read. */
  method MisreadFrame(beyond: u8) returns (ret: int, out: SocketFrame)
    ensures ret == 8 && out == SocketFrame(0x23, 0x0100_0001, [2, 3, 4, 5, 6, 7, 8, beyond])
    ensures out.canId != 0x123 && out.data != [1, 2, 3, 4, 5, 6, 7, 8]
  {
    hide StoredId, ReadAs13;
    var frame := SocketFrame(FRAME_HEAD, 0x123, [1, 2, 3, 4, 5, 6, 7, 8]);
    var c := new Client();
    var inserted := c.InsertCanFrameRecvList(frame, true, true);
    ret, out := c.ReadCanFrame(beyond);
    StandardFrameLosesHeader(0x123);
    MisreadBytes(beyond);
  }

  lemma MisreadBytes(beyond: u8)
    ensures ReadAs13(CanFrame(0x123, [1, 2, 3, 4, 5, 6, 7, 8]), beyond) == SocketFrame(0x23, 0x0100_0001, [2, 3, 4, 5, 6, 7, 8, beyond])
  {
    assert Le32(0x123) == [0x23, 0x01, 0, 0] && FromLe32(0x01, 0, 0, 0x01) == 0x0100_0001;
    hide Le32, FromLe32;
    var b: seq<u8> := [0x23, 0x01, 0, 0] + [1, 2, 3, 4, 5, 6, 7, 8] + [beyond];
    assert b == [0x23, 0x01, 0, 0, 1, 2, 3, 4, 5, 6, 7, 8, beyond];
  }
}
