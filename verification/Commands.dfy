/**
  The commands of c_tcp_to_can/src/ll_es_can_pro.c and the way main.c queues them.

  `Request` is the table of what goes on the wire for each command; the methods are the code, and
  each of them is tied to the table and to the ring it puts the frame into.
 */
module Commands {
  import opened Machine
  import opened Codec
  import opened RingBuffer

  const REMOTE_CONTROL: u8 := 0x01
  const REMOTE_SETUP: u8 := 0x02
  const DEV_ALL: u8 := 0x00
  const DEV_MONITOR: u4 := 0x01
  const DEV_DCDC: u8 := 0x04

  /** One constructor for each encoder function, with its arguments. */
  datatype Command =
    | Sync(time: Payload)
    | PowerOnOff(onOff: u16)
    | FaultClear(clear: u16)
    | OnOffGrid(mode: u16)
    | OffGridVset(offGridVol: u16)
    | EnableDcModule(dcFlag: u16)
    | EnableBmsModule(bmsFlag: u16)
    | BatChgVset(chgVol: i16)
    | MaxChgCurrent(chgCurrent: u16)
    | MaxDischCurrent(dischCurrent: u16)
    | UpLimitedVset(upVol: i16)
    | DownLimitedVset(downVol: i16)
    | DcPower(pwSet: i32)
    | Eod(eodVol: u16)
    | OnGridDod(onGridVol: u16)
    | OffGridDod(offGridDodVol: u16)
    | SetSysState(hgcmd: u16)

  // ----- the wire format

  /** The message ll_socket_send builds: each argument is stored in its bit-field modulo the field's width. */
  function MessageOf(msgClass: u8, broadcast: u8, desDevice: u8, desId: u8, parAddr: u8, data: Payload): Message {
    Message(MsgId(desId % 0x40, desDevice % 0x10, 0, 0, DEV_MONITOR, broadcast % 2, msgClass % 0x80), parAddr, 0, data)
  }

  /** The header as one word: destination, source monitor, broadcast bit and class, each cut to its width. */
  lemma HeaderWord(msgClass: u8, broadcast: u8, desDevice: u8, desId: u8, parAddr: u8, data: Payload)
    ensures var m := MessageOf(msgClass, broadcast, desDevice, desId, parAddr, data);
            && IdOf(m.id) == desId % 64 + 0x40 * (desDevice % 16) + 0x10_0000 + 0x100_0000 * (broadcast % 2) + 0x200_0000 * (msgClass % 128)
            && m.parAddr == parAddr && m.srcDesFrame == 0 && m.data == data
  {
  }

  function Word(v: int): Payload { [HighByte(v), LowByte(v), 0, 0, 0, 0] }

  function Setup(parAddr: u8, v: int): Message { MessageOf(REMOTE_SETUP, 0, DEV_DCDC, 1, parAddr, Word(v)) }

  /** The 16-bit power actually sent: tenths dropped, then narrowed. */
  function PowerWord(pwSet: i32): i16 { ToInt16(TruncDiv(pwSet, 10)) }

  function Request(c: Command): Message {
    match c
    case Sync(time) => MessageOf(REMOTE_SETUP, 1, DEV_ALL, 0, 0x01, time)
    case PowerOnOff(v) => MessageOf(REMOTE_CONTROL, 0, DEV_DCDC, 1, 0x01, Word(v))
    case FaultClear(v) => MessageOf(REMOTE_CONTROL, 0, DEV_DCDC, 0, 0x02, Word(v))
    case OnOffGrid(v) => MessageOf(REMOTE_CONTROL, 0, DEV_ALL, 0, 0x03, Word(v))
    case OffGridVset(v) => Setup(0x05, v)
    case EnableDcModule(v) => Setup(0x07, v)
    case EnableBmsModule(v) => Setup(0x0b, v)
    case BatChgVset(v) => Setup(0x70, v)
    case MaxChgCurrent(v) => Setup(0x71, v)
    case MaxDischCurrent(v) => Setup(0x72, v)
    case UpLimitedVset(v) => Setup(0x73, v)
    case DownLimitedVset(v) => Setup(0x74, v)
    case DcPower(pw) => Setup(0x75, PowerWord(pw))
    case Eod(v) => Setup(0x76, v)
    case OnGridDod(v) => Setup(0x77, v)
    case OffGridDod(v) => Setup(0x78, v)
    case SetSysState(v) => Setup(0x83, v)
  }

  /** A 16-bit argument as it lies in the data bytes, negative ones in two's complement. */
  function ArgumentBytes(v: int): seq<u8> { [v % 0x1_0000 / 0x100, v % 0x100, 0, 0, 0, 0] }

  /** A tenth, rounded toward zero. */
  function Tenths(v: int): int { if v >= 0 then v / 10 else -(-v / 10) }

  /** The command table in the bytes of the frames: head, identifier from its low byte up, parameter, frame byte, data. */
  lemma WireBytes(c: Command)
    ensures FrameBytes(Request(c)) == match c
              case Sync(time) => [0x88, 0x00, 0x00, 0x10, 0x05, 0x01, 0x00] + time
              case PowerOnOff(v) => [0x88, 0x01, 0x01, 0x10, 0x02, 0x01, 0x00] + ArgumentBytes(v)
              case FaultClear(v) => [0x88, 0x00, 0x01, 0x10, 0x02, 0x02, 0x00] + ArgumentBytes(v)
              case OnOffGrid(v) => [0x88, 0x00, 0x00, 0x10, 0x02, 0x03, 0x00] + ArgumentBytes(v)
              case OffGridVset(v) => [0x88, 0x01, 0x01, 0x10, 0x04, 0x05, 0x00] + ArgumentBytes(v)
              case EnableDcModule(v) => [0x88, 0x01, 0x01, 0x10, 0x04, 0x07, 0x00] + ArgumentBytes(v)
              case EnableBmsModule(v) => [0x88, 0x01, 0x01, 0x10, 0x04, 0x0b, 0x00] + ArgumentBytes(v)
              case BatChgVset(v) => [0x88, 0x01, 0x01, 0x10, 0x04, 0x70, 0x00] + ArgumentBytes(v)
              case MaxChgCurrent(v) => [0x88, 0x01, 0x01, 0x10, 0x04, 0x71, 0x00] + ArgumentBytes(v)
              case MaxDischCurrent(v) => [0x88, 0x01, 0x01, 0x10, 0x04, 0x72, 0x00] + ArgumentBytes(v)
              case UpLimitedVset(v) => [0x88, 0x01, 0x01, 0x10, 0x04, 0x73, 0x00] + ArgumentBytes(v)
              case DownLimitedVset(v) => [0x88, 0x01, 0x01, 0x10, 0x04, 0x74, 0x00] + ArgumentBytes(v)
              case DcPower(pw) =>
                [0x88, 0x01, 0x01, 0x10, 0x04, 0x75, 0x00] + ArgumentBytes(Tenths(pw))
              case Eod(v) => [0x88, 0x01, 0x01, 0x10, 0x04, 0x76, 0x00] + ArgumentBytes(v)
              case OnGridDod(v) => [0x88, 0x01, 0x01, 0x10, 0x04, 0x77, 0x00] + ArgumentBytes(v)
              case OffGridDod(v) => [0x88, 0x01, 0x01, 0x10, 0x04, 0x78, 0x00] + ArgumentBytes(v)
              case SetSysState(v) => [0x88, 0x01, 0x01, 0x10, 0x04, 0x83, 0x00] + ArgumentBytes(v)
  {
    hide Word, ArgumentBytes, PowerWord, IdOf, Le32, Tenths;
    WordLies(Argument(c));
    IdBytes();
    if c.DcPower? {
      PowerLies(c.pwSet);
    }
    var m := Request(c);
    assert FrameBytes(m) == [0x88] + Le32(IdOf(m.id)) + [m.parAddr, 0] + m.data;
  }

  /** The identifiers in use, low byte first. */
  lemma IdBytes()
    ensures Le32(IdOf(MsgId(0, 0, 0, 0, 1, 1, 2))) == [0x00, 0x00, 0x10, 0x05]
    ensures Le32(IdOf(MsgId(1, 4, 0, 0, 1, 0, 1))) == [0x01, 0x01, 0x10, 0x02]
    ensures Le32(IdOf(MsgId(0, 4, 0, 0, 1, 0, 1))) == [0x00, 0x01, 0x10, 0x02]
    ensures Le32(IdOf(MsgId(0, 0, 0, 0, 1, 0, 1))) == [0x00, 0x00, 0x10, 0x02]
    ensures Le32(IdOf(MsgId(1, 4, 0, 0, 1, 0, 2))) == [0x01, 0x01, 0x10, 0x04]
  {
  }

  lemma WordLies(v: int)
    ensures Word(v) == ArgumentBytes(v)
  {
    var q, r := v / 0x1_0000, v % 0x1_0000;
    assert v / 0x100 == 0x100 * q + r / 0x100;
    Digit(r / 0x100, q, 0x100);
  }

  lemma PowerLies(pw: i32)
    ensures ArgumentBytes(PowerWord(pw)) == ArgumentBytes(Tenths(pw))
  {
    assert TruncDiv(pw, 10) == Tenths(pw);
    NarrowedBytes(Tenths(pw));
    hide ArgumentBytes;
  }

  lemma LowWord(v: int, q: int)
    ensures (v + 0x1_0000 * q) % 0x1_0000 == v % 0x1_0000 && (v + 0x1_0000 * q) % 0x100 == v % 0x100
  {
    Digit(v % 0x1_0000, v / 0x1_0000 + q, 0x1_0000);
    Digit(v % 0x100, v / 0x100 + 0x100 * q, 0x100);
  }

  lemma NarrowedBytes(v: int)
    ensures ArgumentBytes(ToInt16(v)) == ArgumentBytes(v)
  {
    var q := (v + 0x8000) / 0x1_0000;
    assert ToInt16(v) == v - 0x1_0000 * q;
    hide ToInt16;
    LowWord(v, -q);
  }

  /** What m says if it is a command: class and parameter name it, the first two data bytes are its argument. */
  function Candidate(m: Message): Command {
    var w := ShiftForm(m.data[0], m.data[1]);
    if m.id.msgClass == REMOTE_CONTROL then
      if m.parAddr == 0x01 then PowerOnOff(w) else if m.parAddr == 0x02 then FaultClear(w) else OnOffGrid(w)
    else
      match m.parAddr
      case 0x01 => Sync(m.data)
      case 0x05 => OffGridVset(w)
      case 0x07 => EnableDcModule(w)
      case 0x0b => EnableBmsModule(w)
      case 0x70 => BatChgVset(ToInt16(w))
      case 0x71 => MaxChgCurrent(w)
      case 0x72 => MaxDischCurrent(w)
      case 0x73 => UpLimitedVset(ToInt16(w))
      case 0x74 => DownLimitedVset(ToInt16(w))
      case 0x75 => DcPower(10 * ToInt16(w))
      case 0x76 => Eod(w)
      case 0x77 => OnGridDod(w)
      case 0x78 => OffGridDod(w)
      case _ => SetSysState(w)
  }

  /** The value a 16-bit argument has after the trip; i16 arguments come back signed. */
  lemma WordRead(v: int)
    ensures var w := ShiftForm(Word(v)[0], Word(v)[1]);
            && w == v % TWO16
            && (0 <= v < TWO16 ==> w == v)
            && (-0x8000 <= v < 0x8000 ==> ToInt16(w) == v)
  {
    Words16(v);
    FormsAgree(HighByte(v), LowByte(v));
  }

  function Argument(c: Command): int {
    match c
    case Sync(_) => 0
    case PowerOnOff(v) => v
    case FaultClear(v) => v
    case OnOffGrid(v) => v
    case OffGridVset(v) => v
    case EnableDcModule(v) => v
    case EnableBmsModule(v) => v
    case BatChgVset(v) => v
    case MaxChgCurrent(v) => v
    case MaxDischCurrent(v) => v
    case UpLimitedVset(v) => v
    case DownLimitedVset(v) => v
    case DcPower(pw) => PowerWord(pw)
    case Eod(v) => v
    case OnGridDod(v) => v
    case OffGridDod(v) => v
    case SetSysState(v) => v
  }

  /** A power that is sent in the same word, in whole tens; every other command as it is. */
  function Normal(c: Command): Command {
    match c
    case DcPower(pw) => DcPower(10 * PowerWord(pw))
    case _ => c
  }

  datatype Decoded = NoCommand | Given(c: Command)

  /** A broadcast carries six bytes; every other command one word, in the first two of them. */
  predicate IsCommand(m: Message) {
    var id, p := m.id, m.parAddr;
    && id.groupNum == 0 && id.srcId == 0 && id.srcDevice == DEV_MONITOR && m.srcDesFrame == 0
    && if id.broadcast == 1 then id.msgClass == REMOTE_SETUP && p == 0x01 && id.desDevice == DEV_ALL && id.desId == 0
       else
         && m.data[2..] == [0, 0, 0, 0]
         && ((id.msgClass == REMOTE_CONTROL && p == 0x01 && id.desDevice == DEV_DCDC && id.desId == 1)
             || (id.msgClass == REMOTE_CONTROL && p == 0x02 && id.desDevice == DEV_DCDC && id.desId == 0)
             || (id.msgClass == REMOTE_CONTROL && p == 0x03 && id.desDevice == DEV_ALL && id.desId == 0)
             || (id.msgClass == REMOTE_SETUP && id.desDevice == DEV_DCDC && id.desId == 1
                 && (p == 0x05 || p == 0x07 || p == 0x0b || 0x70 <= p <= 0x78 || p == 0x83)))
  }

  /**
    The meaning of a frame, as a specification of what a receiving device is told; the repository holds
    no such decoder.  It tests the received fields and bytes and knows nothing of how commands are built.
   */
  function Decode(f: Frame): Decoded {
    var m := ParseFrame(f);
    if f[0] == FRAME_HEAD && IsCommand(m) then Given(Candidate(m)) else NoCommand
  }

  lemma TensBack(x: i16)
    ensures PowerWord(10 * x) == x
  {
    assert TruncDiv(10 * x, 10) == x;
  }

  lemma CandidateIs(c: Command)
    ensures Candidate(Request(c)) == Normal(c) && Request(Normal(c)) == Request(c)
  {
    hide ShiftForm, HighByte, LowByte, ToInt16, PowerWord, TruncDiv;
    WordRead(Argument(c));
    if c.DcPower? {
      TensBack(PowerWord(c.pwSet));
    }
  }

  /** The frame of any command means that command, power in whole tens. */
  lemma CommandRoundTrip(c: Command)
    ensures Decode(FrameBytes(Request(c))) == Given(Normal(c))
  {
    RequestIsCommand(c);
    hide Candidate, IsCommand, Request, ParseFrame;
    FrameRoundTrip(Request(c));
    CandidateIs(c);
  }

  lemma RequestIsCommand(c: Command)
    ensures IsCommand(Request(c))
  {
    hide HighByte, LowByte, PowerWord;
  }

  lemma WordFrom(v: int, data: Payload)
    requires data[2..] == [0, 0, 0, 0] && HighByte(v) == data[0] && LowByte(v) == data[1]
    ensures Word(v) == data
  {
    assert data == [data[0], data[1]] + data[2..];
  }

  lemma UnsignedBytes(b0: u8, b1: u8)
    ensures HighByte(ShiftForm(b0, b1)) == b0 && LowByte(ShiftForm(b0, b1)) == b1
  {
  }

  /** The word in the first two bytes, read with or without its sign, is sent as the same two bytes. */
  lemma WordBytes(data: Payload)
    requires data[2..] == [0, 0, 0, 0]
    ensures var w := ShiftForm(data[0], data[1]);
            Word(w) == data && Word(ToInt16(w)) == data && PowerWord(10 * ToInt16(w)) == ToInt16(w)
  {
    hide ShiftForm, SwapForm, ToInt16, HighByte, LowByte, Word, PowerWord;
    var w := ShiftForm(data[0], data[1]);
    FormsAgree(data[0], data[1]);
    Bytes16(data[0], data[1]);
    UnsignedBytes(data[0], data[1]);
    WordFrom(w, data);
    WordFrom(ToInt16(w), data);
    TensBack(ToInt16(w));
  }

  lemma SetupIsRequest(m: Message)
    requires m == Setup(m.parAddr, 0).(data := m.data) && (m.parAddr in [0x05, 0x07, 0x0b, 0x83] || 0x70 <= m.parAddr <= 0x78)
    requires var w := ShiftForm(m.data[0], m.data[1]);
             Word(w) == m.data && Word(ToInt16(w)) == m.data && PowerWord(10 * ToInt16(w)) == ToInt16(w)
    ensures Request(Candidate(m)) == m
  {
    hide ShiftForm, ToInt16, Word, PowerWord;
  }

  /** Whatever passes the tests is what the encoder of the command read from it builds. */
  lemma CommandIsRequest(m: Message)
    requires IsCommand(m)
    ensures Request(Candidate(m)) == m
  {
    hide ShiftForm, ToInt16, HighByte, LowByte, PowerWord;
    if m.id.broadcast != 1 {
      WordBytes(m.data);
      hide Word;
      if m.id.msgClass == REMOTE_SETUP {
        assert m == Setup(m.parAddr, 0).(data := m.data);
        SetupIsRequest(m);
      }
    }
  }

  /** A frame means a command only if it is, byte for byte, the frame of that command. */
  lemma DecodeIsExact(f: Frame)
    ensures Decode(f).Given? ==> f == FrameBytes(Request(Decode(f).c))
    ensures Decode(f).Given? <==> exists c :: f == FrameBytes(Request(c))
  {
    hide Candidate, IsCommand, Request, FrameBytes, ParseFrame;
    ParseRoundTrip(f);
    if Decode(f).Given? {
      CommandIsRequest(ParseFrame(f));
    }
    if c :| f == FrameBytes(Request(c)) {
      CommandRoundTrip(c);
    }
  }

  /** Different commands never share a frame, except two powers that narrow to the same word. */
  lemma CommandsDistinct(c1: Command, c2: Command)
    requires FrameBytes(Request(c1)) == FrameBytes(Request(c2))
    ensures c1 == c2 || (c1.DcPower? && c2.DcPower? && PowerWord(c1.pwSet) == PowerWord(c2.pwSet))
  {
    CommandRoundTrip(c1);
    CommandRoundTrip(c2);
  }

  function Abs(x: int): nat { if x < 0 then -x else x }

  /** The power read back is within 9 of the power asked for and never larger in size, exactly for these arguments. */
  lemma PowerQuantised(pw: i32)
    ensures var back := 10 * PowerWord(pw);
            Abs(pw - back) <= 9 && Abs(back) <= Abs(pw) <==> -327689 <= pw <= 327679
  {
  }

  // ----- the code

  /** Fills in the 13 bytes of a socket_frame_t. */
  method PackMsgToFrame(frame: array<u8>, msg: Message)
    requires frame.Length == FRAME_SIZE
    modifies frame
    ensures frame[..] == FrameBytes(msg)
  {
    hide IdOf, Le32;
    Le32Length(IdOf(msg.id));
    var canId := Le32(IdOf(msg.id));
    frame[1], frame[2], frame[3], frame[4] := canId[0], canId[1], canId[2], canId[3];
    frame[0] := 0x88;
    assert frame[..5] == [FRAME_HEAD] + canId;
    frame[5] := msg.parAddr;
    frame[6] := msg.srcDesFrame;
    assert frame[..7] == [FRAME_HEAD] + canId + [msg.parAddr, msg.srcDesFrame];
    forall i | 0 <= i < 6 { frame[7 + i] := msg.data[i]; }
    assert frame[7..13] == msg.data;
    assert frame[..] == frame[..7] + frame[7..13];
  }

  /** The receive half of thread_client: any positive count is taken for a whole frame. */
  method ReceiveMessage(recvFrame: array<u8>, read: Read) returns (msg: Message)
    requires recvFrame.Length == FRAME_SIZE
    modifies recvFrame
    ensures recvFrame[..] == Overlay(read, old(recvFrame[..])) && msg == ParseFrame(recvFrame[..])
  {
    forall i | 0 <= i < |read| { recvFrame[i] := read[i]; }
    var id := FromLe32(recvFrame[1], recvFrame[2], recvFrame[3], recvFrame[4]);
    msg := Message(FieldsOf(id), recvFrame[5], recvFrame[6], recvFrame[7..13]);
  }

  /** Queues one frame; when the ring has less than 13 bytes of room only that many bytes of it go in. */
  method LlSocketSend(rbsend: RingBuf, msgClass: u8, broadcast: u8, desDevice: u8, desId: u8, parAddr: u8, bufIn: array<u8>)
    returns (ret: u32)
    requires rbsend.Ready() && bufIn.Length == 6 && bufIn != rbsend.buf
    modifies rbsend`rear, rbsend.buf
    ensures rbsend.Ready() && rbsend.buf == old(rbsend.buf) && rbsend.size == old(rbsend.size)
    ensures ret == Min(FRAME_SIZE, rbsend.size - |old(rbsend.Queued())|)
    ensures rbsend.Queued() == old(rbsend.Queued())
                               + FrameBytes(MessageOf(msgClass, broadcast, desDevice, desId, parAddr, old(bufIn[..])))[..ret]
  {
    var id := MsgId(desId % 0x40, desDevice % 0x10, 0, 0, DEV_MONITOR, broadcast % 2, msgClass % 0x80);
    var usrMsg := Message(id, parAddr, 0, bufIn[..]);
    var sframe := new u8[FRAME_SIZE];
    PackMsgToFrame(sframe, usrMsg);
    ret := rbsend.Put(sframe, 13);
  }

  /** A command's frame goes in as far as there is room. */
  function QueueOne(q: seq<u8>, cap: nat, c: Command): (q': seq<u8>)
    requires |q| <= cap
    ensures |q'| <= cap
  {
    q + FrameBytes(Request(c))[..Min(FRAME_SIZE, cap - |q|)]
  }

  /** The ring has gained the first `ret` bytes of the command's frame: all 13 when there was room for them. */
  twostate predicate Queues(rbsend: RingBuf, c: Command, ret: u32)
    reads rbsend, rbsend.buf
  {
    && old(rbsend.Ready()) && rbsend.Ready() && rbsend.buf == old(rbsend.buf) && rbsend.size == old(rbsend.size)
    && |old(rbsend.Queued())| <= rbsend.size
    && rbsend.Queued() == QueueOne(old(rbsend.Queued()), rbsend.size, c)
    && ret == Min(FRAME_SIZE, rbsend.size - |old(rbsend.Queued())|)
  }

  method LlEsCanSync(rbsend: RingBuf, time: Payload) returns (ret: u32)
    requires rbsend.Ready()
    modifies rbsend`rear, rbsend.buf
    ensures Queues(rbsend, Sync(time), ret)
  {
    hide Valid, Contents, FrameBytes, Min;
    var databuf := new u8[6](i requires 0 <= i < 6 => time[i]);
    assert databuf[..] == time;
    ret := LlSocketSend(rbsend, REMOTE_SETUP, 1, DEV_ALL, 0, 0x01, databuf);
  }

  method LlEsCanPowerOnOff(rbsend: RingBuf, modOnOff: u16) returns (ret: u32)
    requires rbsend.Ready()
    modifies rbsend`rear, rbsend.buf
    ensures Queues(rbsend, PowerOnOff(modOnOff), ret)
  {
    hide Valid, Contents, FrameBytes, Min;
    var databuf := new u8[6](_ => 0);
    databuf[0] := modOnOff / 0x100;
    databuf[1] := modOnOff % 0x100;
    assert databuf[..] == Word(modOnOff);
    ret := LlSocketSend(rbsend, REMOTE_CONTROL, 0, DEV_DCDC, 1, 0x01, databuf);
  }

  method LlEsCanFaultClear(rbsend: RingBuf, flag: u16) returns (ret: u32)
    requires rbsend.Ready()
    modifies rbsend`rear, rbsend.buf
    ensures Queues(rbsend, FaultClear(flag), ret)
  {
    hide Valid, Contents, FrameBytes, Min;
    var databuf := new u8[6](_ => 0);
    databuf[0] := flag / 0x100;
    databuf[1] := flag % 0x100;
    assert databuf[..] == Word(flag);
    ret := LlSocketSend(rbsend, REMOTE_CONTROL, 0, DEV_DCDC, 0, 0x02, databuf);
  }

  method LlEsCanEnableDcModule(rbsend: RingBuf, flag: u16) returns (ret: u32)
    requires rbsend.Ready()
    modifies rbsend`rear, rbsend.buf
    ensures Queues(rbsend, EnableDcModule(flag), ret)
  {
    hide Valid, Contents, FrameBytes, Min;
    var databuf := new u8[6](_ => 0);
    databuf[0] := flag / 0x100;
    databuf[1] := flag % 0x100;
    assert databuf[..] == Word(flag);
    ret := LlSocketSend(rbsend, REMOTE_SETUP, 0, DEV_DCDC, 1, 0x07, databuf);
  }

  /** A signed argument: `vol >> 8` keeps the sign, the byte cast keeps the low 8 bits. */
  method LlEsCanBatChgVset(rbsend: RingBuf, vol: i16) returns (ret: u32)
    requires rbsend.Ready()
    modifies rbsend`rear, rbsend.buf
    ensures Queues(rbsend, BatChgVset(vol), ret)
  {
    hide Valid, Contents, FrameBytes, Min;
    var databuf := new u8[6](_ => 0);
    databuf[0] := vol / 0x100 % 0x100;
    databuf[1] := vol % 0x100;
    assert databuf[..] == Word(vol);
    ret := LlSocketSend(rbsend, REMOTE_SETUP, 0, DEV_DCDC, 1, 0x70, databuf);
  }

  method LlEsCanDcPower(rbsend: RingBuf, pwSet: i32) returns (ret: u32)
    requires rbsend.Ready()
    modifies rbsend`rear, rbsend.buf
    ensures Queues(rbsend, DcPower(pwSet), ret)
  {
    hide Valid, Contents, FrameBytes, Min;
    var databuf := new u8[6](_ => 0);
    var power: i16 := ToInt16(TruncDiv(pwSet, 10));
    databuf[0] := power / 0x100 % 0x100;
    databuf[1] := power % 0x100;
    assert databuf[..] == Word(power);
    ret := LlSocketSend(rbsend, REMOTE_SETUP, 0, DEV_DCDC, 1, 0x75, databuf);
  }

  method LlEsCanOnOffGrid(rbsend: RingBuf, flag: u16) returns (ret: u32)
    requires rbsend.Ready()
    modifies rbsend`rear, rbsend.buf
    ensures Queues(rbsend, OnOffGrid(flag), ret)
  {
    hide Valid, Contents, FrameBytes, Min;
    var databuf := new u8[6](_ => 0);
    databuf[0] := flag / 0x100;
    databuf[1] := flag % 0x100;
    assert databuf[..] == Word(flag);
    ret := LlSocketSend(rbsend, REMOTE_CONTROL, 0, DEV_ALL, 0, 0x03, databuf);
  }

  method LlEsCanOffGirdVset(rbsend: RingBuf, vol: u16) returns (ret: u32)
    requires rbsend.Ready()
    modifies rbsend`rear, rbsend.buf
    ensures Queues(rbsend, OffGridVset(vol), ret)
  {
    hide Valid, Contents, FrameBytes, Min;
    var databuf := new u8[6](_ => 0);
    databuf[0] := vol / 0x100;
    databuf[1] := vol % 0x100;
    assert databuf[..] == Word(vol);
    ret := LlSocketSend(rbsend, REMOTE_SETUP, 0, DEV_DCDC, 1, 0x05, databuf);
  }

  method LlEsCanEnableBmsModule(rbsend: RingBuf, flag: u16) returns (ret: u32)
    requires rbsend.Ready()
    modifies rbsend`rear, rbsend.buf
    ensures Queues(rbsend, EnableBmsModule(flag), ret)
  {
    hide Valid, Contents, FrameBytes, Min;
    var databuf := new u8[6](_ => 0);
    databuf[0] := flag / 0x100;
    databuf[1] := flag % 0x100;
    assert databuf[..] == Word(flag);
    ret := LlSocketSend(rbsend, REMOTE_SETUP, 0, DEV_DCDC, 1, 0x0b, databuf);
  }

  method LlEsCanMaxChgCurrent(rbsend: RingBuf, current: u16) returns (ret: u32)
    requires rbsend.Ready()
    modifies rbsend`rear, rbsend.buf
    ensures Queues(rbsend, MaxChgCurrent(current), ret)
  {
    hide Valid, Contents, FrameBytes, Min;
    var databuf := new u8[6](_ => 0);
    databuf[0] := current / 0x100;
    databuf[1] := current % 0x100;
    assert databuf[..] == Word(current);
    ret := LlSocketSend(rbsend, REMOTE_SETUP, 0, DEV_DCDC, 1, 0x71, databuf);
  }

  method LlEsCanMaxDischCurrent(rbsend: RingBuf, current: u16) returns (ret: u32)
    requires rbsend.Ready()
    modifies rbsend`rear, rbsend.buf
    ensures Queues(rbsend, MaxDischCurrent(current), ret)
  {
    hide Valid, Contents, FrameBytes, Min;
    var databuf := new u8[6](_ => 0);
    databuf[0] := current / 0x100;
    databuf[1] := current % 0x100;
    assert databuf[..] == Word(current);
    ret := LlSocketSend(rbsend, REMOTE_SETUP, 0, DEV_DCDC, 1, 0x72, databuf);
  }

  method LlEsCanUpLimitedVset(rbsend: RingBuf, vol: i16) returns (ret: u32)
    requires rbsend.Ready()
    modifies rbsend`rear, rbsend.buf
    ensures Queues(rbsend, UpLimitedVset(vol), ret)
  {
    hide Valid, Contents, FrameBytes, Min;
    var databuf := new u8[6](_ => 0);
    databuf[0] := vol / 0x100 % 0x100;
    databuf[1] := vol % 0x100;
    assert databuf[..] == Word(vol);
    ret := LlSocketSend(rbsend, REMOTE_SETUP, 0, DEV_DCDC, 1, 0x73, databuf);
  }

  method LlEsCanDownLimitedVset(rbsend: RingBuf, vol: i16) returns (ret: u32)
    requires rbsend.Ready()
    modifies rbsend`rear, rbsend.buf
    ensures Queues(rbsend, DownLimitedVset(vol), ret)
  {
    hide Valid, Contents, FrameBytes, Min;
    var databuf := new u8[6](_ => 0);
    databuf[0] := vol / 0x100 % 0x100;
    databuf[1] := vol % 0x100;
    assert databuf[..] == Word(vol);
    ret := LlSocketSend(rbsend, REMOTE_SETUP, 0, DEV_DCDC, 1, 0x74, databuf);
  }

  method LlEsCanEod(rbsend: RingBuf, vol: u16) returns (ret: u32)
    requires rbsend.Ready()
    modifies rbsend`rear, rbsend.buf
    ensures Queues(rbsend, Eod(vol), ret)
  {
    hide Valid, Contents, FrameBytes, Min;
    var databuf := new u8[6](_ => 0);
    databuf[0] := vol / 0x100;
    databuf[1] := vol % 0x100;
    assert databuf[..] == Word(vol);
    ret := LlSocketSend(rbsend, REMOTE_SETUP, 0, DEV_DCDC, 1, 0x76, databuf);
  }

  method LlEsCanOnGridDod(rbsend: RingBuf, vol: u16) returns (ret: u32)
    requires rbsend.Ready()
    modifies rbsend`rear, rbsend.buf
    ensures Queues(rbsend, OnGridDod(vol), ret)
  {
    hide Valid, Contents, FrameBytes, Min;
    var databuf := new u8[6](_ => 0);
    databuf[0] := vol / 0x100;
    databuf[1] := vol % 0x100;
    assert databuf[..] == Word(vol);
    ret := LlSocketSend(rbsend, REMOTE_SETUP, 0, DEV_DCDC, 1, 0x77, databuf);
  }

  /** The count is dropped: the answer is -1 even when the whole frame went in. */
  method LlEsCanOffGridDod(rbsend: RingBuf, vol: u16) returns (ret: int, ghost stored: u32)
    requires rbsend.Ready()
    modifies rbsend`rear, rbsend.buf
    ensures ret == -1 && Queues(rbsend, OffGridDod(vol), stored)
  {
    hide Valid, Contents, FrameBytes, Min;
    var databuf := new u8[6](_ => 0);
    databuf[0] := vol / 0x100;
    databuf[1] := vol % 0x100;
    assert databuf[..] == Word(vol);
    var count := LlSocketSend(rbsend, REMOTE_SETUP, 0, DEV_DCDC, 1, 0x78, databuf);
    ret, stored := -1, count;
  }

  method LlEsCanSetSysState(rbsend: RingBuf, hgcmd: u16) returns (ret: u32)
    requires rbsend.Ready()
    modifies rbsend`rear, rbsend.buf
    ensures Queues(rbsend, SetSysState(hgcmd), ret)
  {
    hide Valid, Contents, FrameBytes, Min;
    var databuf := new u8[6](_ => 0);
    databuf[0] := hgcmd / 0x100;
    databuf[1] := hgcmd % 0x100;
    assert databuf[..] == Word(hgcmd);
    ret := LlSocketSend(rbsend, REMOTE_SETUP, 0, DEV_DCDC, 1, 0x83, databuf);
  }
}
