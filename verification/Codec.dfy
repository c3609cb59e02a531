/**
  Messages on the wire: the seven bit-fields of a CAN identifier, the 13-byte socket frame, the
  identifier rewriting of the CAN device layer, and big-endian values.

  The platform is little-endian GCC: bit-fields fill a word from its low end (section 6.7.2.1 of
  ISO C11) and a right shift of a negative value is arithmetic (section 6.5.7).
 */
module Codec {
  import opened Machine

  type u1 = x: int | 0 <= x < 2
  type u4 = x: int | 0 <= x < 16
  type u6 = x: int | 0 <= x < 64
  type u7 = x: int | 0 <= x < 128

  // ----- identifier

  /** The struct view of _msg_canid, low field first. */
  datatype MsgId = MsgId(desId: u6, desDevice: u4, groupNum: u4, srcId: u6, srcDevice: u4, broadcast: u1, msgClass: u7)

  /** The uint32_t view of the same union. */
  function IdOf(m: MsgId): u32 {
    m.desId + 0x40 * (m.desDevice + 0x10 * (m.groupNum + 0x10 * (m.srcId + 0x40 * (m.srcDevice + 0x10 * (m.broadcast + 2 * m.msgClass)))))
  }

  function FieldsOf(id: u32): MsgId {
    var a := id / 0x40;
    var b := a / 0x10;
    var c := b / 0x10;
    var d := c / 0x40;
    var e := d / 0x10;
    MsgId(id % 0x40, a % 0x10, b % 0x10, c % 0x40, d % 0x10, e % 2, e / 2)
  }

  /** The two views of the union are in bijection. */
  lemma IdRoundTrip(m: MsgId)
    ensures FieldsOf(IdOf(m)) == m
  {
    var e := m.broadcast + 2 * m.msgClass;
    var d := m.srcDevice + 0x10 * e;
    var c := m.srcId + 0x40 * d;
    var b := m.groupNum + 0x10 * c;
    var a := m.desDevice + 0x10 * b;
    Digit(m.desId, a, 0x40);
    Digit(m.desDevice, b, 0x10);
    Digit(m.groupNum, c, 0x10);
    Digit(m.srcId, d, 0x40);
    Digit(m.srcDevice, e, 0x10);
    Digit(m.broadcast, m.msgClass, 2);
  }

  /** Where each field lies: from bits 0, 6, 10, 14, 20, 24 and 25 up. */
  lemma FieldsLie(id: u32)
    ensures var m := FieldsOf(id);
            && m.desId == id % 64 && m.desDevice == id / 0x40 % 16 && m.groupNum == id / 0x400 % 16
            && m.srcId == id / 0x4000 % 64 && m.srcDevice == id / 0x10_0000 % 16
            && m.broadcast == id / 0x100_0000 % 2 && m.msgClass == id / 0x200_0000
  {
    assert id / 0x40 / 0x10 == id / 0x400;
    assert id / 0x400 / 0x10 == id / 0x4000;
    assert id / 0x4000 / 0x40 == id / 0x10_0000;
    assert id / 0x10_0000 / 0x10 == id / 0x100_0000;
  }

  lemma FieldsRoundTrip(id: u32)
    ensures IdOf(FieldsOf(id)) == id
  {
  }

  // ----- frame

  type Payload = s: seq<u8> | |s| == 6 witness [0, 0, 0, 0, 0, 0]

  type Frame = s: seq<u8> | |s| == 13 witness [0, 0, 0, 0, 0, 0, 0, 0, 0, 0, 0, 0, 0]

  const FRAME_SIZE: nat := 13
  const FRAME_HEAD: u8 := 0x88

  /** A CAN_UserMsg_t. */
  datatype Message = Message(id: MsgId, parAddr: u8, srcDesFrame: u8, data: Payload)

  /** Little-endian storage of a 32-bit word. */
  function Le32(x: u32): seq<u8> {
    [x % 0x100, x / 0x100 % 0x100, x / 0x100 / 0x100 % 0x100, x / 0x100 / 0x100 / 0x100]
  }

  function FromLe32(b0: u8, b1: u8, b2: u8, b3: u8): u32 {
    b0 + 0x100 * (b1 + 0x100 * (b2 + 0x100 * b3))
  }

  /** The bytes of the packed socket_frame_t that pack_msg_to_frame fills in. */
  function FrameBytes(m: Message): Frame {
    [FRAME_HEAD] + Le32(IdOf(m.id)) + [m.parAddr, m.srcDesFrame] + m.data
  }

  /** The layout of socket_frame_t, byte by byte. */
  lemma FrameLies(m: Message)
    ensures var f := FrameBytes(m); var id := IdOf(m.id);
            && f[0] == 0x88
            && f[1] == id % 0x100 && f[2] == id / 0x100 % 0x100 && f[3] == id / 0x1_0000 % 0x100 && f[4] == id / 0x100_0000
            && f[5] == m.parAddr && f[6] == m.srcDesFrame && forall i :: 0 <= i < 6 ==> f[7 + i] == m.data[i]
  {
  }

  /** What thread_client makes of 13 received bytes; the head byte is not looked at. */
  function ParseFrame(f: Frame): Message {
    Message(FieldsOf(FromLe32(f[1], f[2], f[3], f[4])), f[5], f[6], f[7..])
  }

  /** The bytes one successful read of up to 13 delivers. */
  type Read = s: seq<u8> | 0 < |s| <= 13 witness [0]

  /** recv_frame after a read: a short one leaves the tail of the frame before it. */
  function Overlay(read: Read, before: Frame): Frame { read + before[|read|..] }

  lemma Le32RoundTrip(x: u32)
    ensures FromLe32(Le32(x)[0], Le32(x)[1], Le32(x)[2], Le32(x)[3]) == x
  {
  }

  lemma FromLe32RoundTrip(b0: u8, b1: u8, b2: u8, b3: u8)
    ensures Le32(FromLe32(b0, b1, b2, b3)) == [b0, b1, b2, b3]
  {
    Digit(b0, b1 + 0x100 * (b2 + 0x100 * b3), 0x100);
    Digit(b1, b2 + 0x100 * b3, 0x100);
    Digit(b2, b3, 0x100);
  }

  /** Sending and receiving a message gives the message back. */
  lemma FrameRoundTrip(m: Message)
    ensures ParseFrame(FrameBytes(m)) == m
  {
    hide IdOf, FieldsOf, Le32, FromLe32;
    var id := IdOf(m.id);
    assert |Le32(id)| == 4 by { Le32Length(id); }
    assert FrameBytes(m)[1..5] == Le32(id);
    assert forall i :: 1 <= i < 5 ==> FrameBytes(m)[i] == Le32(id)[i - 1];
    Le32RoundTrip(id);
    IdRoundTrip(m.id);
  }

  lemma Le32Length(x: u32)
    ensures |Le32(x)| == 4
  {
  }

  /** A received frame is the image of the message read from it exactly when it starts with the head byte. */
  lemma ParseRoundTrip(f: Frame)
    ensures FrameBytes(ParseFrame(f)) == f <==> f[0] == FRAME_HEAD
  {
    hide IdOf, FieldsOf, Le32, FromLe32;
    FieldsRoundTrip(FromLe32(f[1], f[2], f[3], f[4]));
    FromLe32RoundTrip(f[1], f[2], f[3], f[4]);
    var g := [FRAME_HEAD] + [f[1], f[2], f[3], f[4]] + [f[5], f[6]] + f[7..];
    assert FrameBytes(ParseFrame(f)) == g;
    assert g == [FRAME_HEAD] + f[1..];
    assert f == [f[0]] + f[1..];
  }

  // ----- identifier rewriting in the CAN device layer

  const EFF_FLAG: u32 := 0x8000_0000
  const EFF_MASK: u32 := 0x1FFF_FFFF
  const SFF_MASK: u32 := 0x7FF

  /** write_can_frame marks every frame as an extended one. */
  function WrittenId(id: u32): nat { BitOr(BitAnd(id, EFF_MASK), EFF_FLAG) }

  /** insert_can_frame_recv_list strips the flags. */
  function StoredId(id: nat): u32 {
    if BitAnd(id, EFF_FLAG) != 0 then BitAnd(id, EFF_MASK) else BitAnd(id, SFF_MASK)
  }

  lemma MaskWidths()
    ensures IsPow2(0x800) && IsPow2(0x2000_0000) && IsPow2(0x8000_0000)
  {
    assert IsPow2(1);
    hide IsPow2;
    Times16(0x1);
    Times16(0x10);
    Twice(0x100);
    Twice(0x200);
    Twice(0x400);
    Times16(0x100);
    Times16(0x1000);
    Times16(0x1_0000);
    Times16(0x10_0000);
    Times16(0x100_0000);
    Twice(0x1000_0000);
    Twice(0x2000_0000);
    Twice(0x4000_0000);
  }

  lemma CanMasks(id: nat)
    requires id < TWO32
    ensures BitAnd(id, EFF_MASK) == id % 0x2000_0000
    ensures BitAnd(id, SFF_MASK) == id % 0x800
    ensures BitAnd(id, EFF_FLAG) != 0 <==> id >= 0x8000_0000
  {
    MaskWidths();
    MaskIsMod(id, 0x2000_0000);
    MaskIsMod(id, 0x800);
    AndBit(id, 0x8000_0000);
  }

  lemma WrittenIdIs(id: u32)
    ensures WrittenId(id) == id % 0x2000_0000 + EFF_FLAG < TWO32
  {
    CanMasks(id);
    MaskWidths();
    OrBit(id % 0x2000_0000, EFF_FLAG);
  }

  /**
    Writing a frame and storing it on arrival keeps every header field, the message class modulo 16;
    doing it again changes nothing more.
   */
  lemma RewriteKeepsHeader(id: u32)
    ensures var stored := StoredId(WrittenId(id)); var m := FieldsOf(id);
            && FieldsOf(stored) == m.(msgClass := m.msgClass % 16)
            && StoredId(WrittenId(stored)) == stored
            && (stored == id <==> m.msgClass < 16)
  {
    hide FieldsOf, IdOf, StoredId, WrittenId;
    RewriteIsMod(id);
    RewriteIsMod(id % 0x2000_0000);
    ReducedFields(id);
  }

  lemma RewriteIsMod(id: u32)
    ensures StoredId(WrittenId(id)) == id % 0x2000_0000
  {
    WrittenIdIs(id);
    CanMasks(WrittenId(id));
    Digit(id % 0x2000_0000, 4, 0x2000_0000);
  }

  lemma ReducedFields(id: u32)
    ensures var m := FieldsOf(id);
            FieldsOf(id % 0x2000_0000) == m.(msgClass := m.msgClass % 16) && (id < 0x2000_0000 <==> m.msgClass < 16)
  {
    var m := FieldsOf(id);
    var k := m.(msgClass := m.msgClass % 16);
    FieldsRoundTrip(id);
    Digit(IdOf(k), m.msgClass / 16, 0x2000_0000);
    IdRoundTrip(k);
  }

  lemma ElevenBits(id: u32)
    ensures var m := FieldsOf(id);
            FieldsOf(id % 0x800) == MsgId(m.desId, m.desDevice, m.groupNum % 2, 0, 0, 0, 0)
  {
    var m := FieldsOf(id);
    var k := MsgId(m.desId, m.desDevice, m.groupNum % 2, 0, 0, 0, 0);
    var rest := m.groupNum / 2 + 8 * (m.srcId + 0x40 * (m.srcDevice + 0x10 * (m.broadcast + 2 * m.msgClass)));
    FieldsRoundTrip(id);
    assert id == IdOf(k) + 0x800 * rest;
    Digit(IdOf(k), rest, 0x800);
    IdRoundTrip(k);
  }

  /** A frame that arrives without the extended flag keeps 11 bits of its identifier: no class, source or broadcast bit. */
  lemma StandardFrameLosesHeader(id: u32)
    requires id < EFF_FLAG
    ensures StoredId(id) == id <==> id <= SFF_MASK
    ensures var m := FieldsOf(id);
            FieldsOf(StoredId(id)) == MsgId(m.desId, m.desDevice, m.groupNum % 2, 0, 0, 0, 0)
  {
    hide FieldsOf, IdOf, BitAnd;
    CanMasks(id);
    ElevenBits(id);
  }

  // ----- big-endian values

  /** The two bytes an encoder stores for a value: `(uint8_t)(v >> 8)` and `(uint8_t)(v & 0xff)`. */
  function HighByte(v: int): u8 { v / 0x100 % 0x100 }

  function LowByte(v: int): u8 { v % 0x100 }

  /** `(uint16_t)((b[0] << 8) | b[1])`. */
  function ShiftForm(b0: u8, b1: u8): u16 { 0x100 * b0 + b1 }

  /** bswap_16 of the 16-bit word loaded from the two bytes. */
  function Swap16(w: u16): u16 { w % 0x100 * 0x100 + w / 0x100 }

  function SwapForm(b0: u8, b1: u8): u16 { Swap16(b0 + 0x100 * b1) }

  lemma FormsAgree(b0: u8, b1: u8)
    ensures SwapForm(b0, b1) == ShiftForm(b0, b1)
  {
  }

  lemma TwoBytes(v: int)
    ensures ShiftForm(HighByte(v), LowByte(v)) == v % TWO16
  {
  }

  lemma Narrowed16(v: i16)
    ensures ToInt16(v % TWO16) == v
  {
  }

  /** Encoding then decoding gives back every 16-bit value, read as unsigned or as signed. */
  lemma Words16(v: int)
    ensures var w := SwapForm(HighByte(v), LowByte(v));
            && w == v % TWO16
            && (0 <= v < TWO16 ==> w == v)
            && (-0x8000 <= v < 0x8000 ==> ToInt16(w) == v)
  {
    hide ShiftForm, SwapForm, HighByte, LowByte, ToInt16;
    FormsAgree(HighByte(v), LowByte(v));
    TwoBytes(v);
    if -0x8000 <= v < 0x8000 {
      Narrowed16(v);
    }
  }

  /** `(bswap_16(p[0]) << 16) | bswap_16(p[1])` as an int32_t. */
  function TwoWords(hi: u16, lo: u16): i32 { ToInt32(0x1_0000 * hi + lo) }

  /** A 32-bit value sent as two big-endian words is read back. */
  lemma Words32(v: i32)
    ensures TwoWords(SwapForm(HighByte(v / TWO16), LowByte(v / TWO16)), SwapForm(HighByte(v), LowByte(v))) == v
  {
    hide ShiftForm, SwapForm, HighByte, LowByte;
    var h := v / TWO16;
    Words16(h);
    Words16(v);
    Digit(v + 0x8000_0000, -(h / TWO16), TWO32);
  }

  /** Decoding then encoding gives the bytes back. */
  lemma Bytes16(b0: u8, b1: u8)
    ensures HighByte(ToInt16(SwapForm(b0, b1))) == b0 && LowByte(ToInt16(SwapForm(b0, b1))) == b1
  {
    FormsAgree(b0, b1);
    var w: int := ShiftForm(b0, b1);
    assert ToInt16(w) == if w < 0x8000 then w else w - 0x1_0000;
    hide ToInt16, SwapForm;
    Digit(b1, b0, 0x100);
    Digit(b1, b0 - 0x100, 0x100);
  }
}
