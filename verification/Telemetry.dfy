/**
  The telemetry record of c_tcp_to_can/src/fml_can_device.c and its dispatcher.

  Each field of the record is named together with the place in the protocol that fills it: message
  class, device, parameter, first 16-bit word of the payload and type.  That table is the reference;
  the code is proved against it.
 */
module Telemetry {
  import opened Machine
  import opened Codec
  import Commands

  const SIGNAL: u7 := 0x03
  const METER: u7 := 0x04
  const DCDC: u4 := 0x04
  const BMS: u4 := 0x08

  // ----- the table

  datatype Kind = U16 | S16 | S32

  /** A field of DEV_DCDC_CanDataT; no message fills a Never field. */
  datatype Field = Never(n: nat) | At(msgClass: u7, device: u4, par: u8, word: nat, kind: Kind)

  const DEV_ONLINE := Never(0)
  const DCDC_STATE1 := At(SIGNAL, DCDC, 0x02, 0, U16)
  const DCDC_ALARM1 := At(SIGNAL, DCDC, 0x03, 0, U16)
  const DCDC_ALARM2 := Never(1)
  const DCDC_ALRAM3 := Never(2)
  const DCDC_FAULT1 := At(SIGNAL, DCDC, 0x04, 0, U16)
  const DCDC_FAULT2 := At(SIGNAL, DCDC, 0x04, 1, U16)
  const BMS_STATE1 := At(SIGNAL, BMS, 0x01, 0, U16)
  const BMS_ALARM1 := At(SIGNAL, BMS, 0x02, 0, U16)
  const BMS_PROTECT1 := At(SIGNAL, BMS, 0x03, 0, U16)
  const BMS_FAULT1 := At(SIGNAL, BMS, 0x04, 0, U16)
  const PVERSION := At(METER, DCDC, 0x02, 0, U16)
  const SVERSION := At(METER, DCDC, 0x02, 1, U16)
  const VVERSION := At(METER, DCDC, 0x02, 2, U16)
  const AVERSION := At(METER, DCDC, 0x03, 0, U16)
  const DVERSION := At(METER, DCDC, 0x03, 1, U16)
  const HARD_WARE_VERSION := At(METER, DCDC, 0x03, 2, U16)
  const HEARTBEAT := At(METER, DCDC, 0x05, 0, U16)
  const BAT_VOLTAGE := At(METER, DCDC, 0x10, 0, S16)
  const BAT_CURRENT := At(METER, DCDC, 0x10, 1, S16)
  const BAT_POWER := At(METER, DCDC, 0x10, 2, S16)
  const BUS_VOLTAGE := At(METER, DCDC, 0x11, 0, S16)
  const BUS_CURRENT := At(METER, DCDC, 0x11, 1, S16)
  const BUS_POWER := At(METER, DCDC, 0x11, 2, S16)
  const BAK1 := Never(3)
  const ENERGR_FOR_CHG := At(METER, DCDC, 0x14, 0, S32)
  const ENERGR_FOR_DISCH := At(METER, DCDC, 0x15, 0, S32)
  const ENV_TEMP := At(METER, DCDC, 0x16, 0, S16)
  const FAN_SPEED := At(METER, DCDC, 0x16, 1, S16)
  const HEATSINK_TEMP1 := At(METER, DCDC, 0x17, 0, S16)
  const HEATSINK_TEMP2 := At(METER, DCDC, 0x17, 1, S16)
  const HEATSINK_TEMP3 := At(METER, DCDC, 0x17, 2, S16)
  const HEATSINK_TEMP4 := At(METER, DCDC, 0x18, 0, S16)
  const HEATSINK_TEMP5 := At(METER, DCDC, 0x18, 1, S16)
  const HEATSINK_TEMP6 := At(METER, DCDC, 0x18, 2, S16)
  const HEATSINK_TEMP7 := At(METER, DCDC, 0x19, 0, S16)
  const HEATSINK_TEMP8 := At(METER, DCDC, 0x19, 1, S16)
  const HEATSINK_TEMP9 := At(METER, DCDC, 0x19, 2, S16)
  const BMS_BAT_TOTALVOL := At(METER, BMS, 0x03, 0, S16)
  const BMS_BAT_TOTALCUR := At(METER, BMS, 0x03, 1, S32)
  const BMS_SOC := At(METER, BMS, 0x04, 0, S16)
  const BMS_SOH := At(METER, BMS, 0x04, 1, S16)
  const BMS_ENV_TEMP := At(METER, BMS, 0x04, 2, S16)
  const BMS_SIGLE_MIN_VOL := At(METER, BMS, 0x05, 0, S16)
  const BMS_SIGLE_MIN_VOL_NUM := At(METER, BMS, 0x05, 1, S16)
  const BMS_SIGLE_MAX_VOL := At(METER, BMS, 0x06, 0, S16)
  const BMS_SIGLE_MAX_VOL_NUM := At(METER, BMS, 0x06, 1, S16)
  const BMS_SIGLE_MIN_TEMP := At(METER, BMS, 0x07, 0, S16)
  const BMS_SIGLE_MIN_TEMP_NUM := At(METER, BMS, 0x07, 1, S16)
  const BMS_SIGLE_MAX_TEMP := At(METER, BMS, 0x08, 0, S16)
  const BMS_SIGLE_MAX_TEMP_NUM := At(METER, BMS, 0x08, 1, S16)
  const BMS_VOLDIFF := At(METER, BMS, 0x0B, 0, S16)
  const BMS_TEMPDIFF := At(METER, BMS, 0x0B, 1, S16)
  const BMS_CHG_VOL_LIMIT := At(METER, BMS, 0x0C, 0, S16)
  const BMS_DISCHG_VOL_LIMIT := At(METER, BMS, 0x0C, 1, S16)
  const BMS_CHGCURRENT_LIMIT := At(METER, BMS, 0x0D, 0, S16)
  const BMS_DISCHGCURRENT_LIMIT := At(METER, BMS, 0x0D, 1, S16)

  /** The same table by message. */
  function FieldsOfMessage(msgClass: u7, device: u4, par: u8): seq<Field> {
    if msgClass == SIGNAL && device == DCDC then
      match par
      case 0x02 => [DCDC_STATE1]
      case 0x03 => [DCDC_ALARM1]
      case 0x04 => [DCDC_FAULT1, DCDC_FAULT2]
      case _ => []
    else if msgClass == SIGNAL && device == BMS then
      match par
      case 0x01 => [BMS_STATE1]
      case 0x02 => [BMS_ALARM1]
      case 0x03 => [BMS_PROTECT1]
      case 0x04 => [BMS_FAULT1]
      case _ => []
    else if msgClass == METER && device == DCDC then
      match par
      case 0x02 => [PVERSION, SVERSION, VVERSION]
      case 0x03 => [AVERSION, DVERSION, HARD_WARE_VERSION]
      case 0x05 => [HEARTBEAT]
      case 0x10 => [BAT_VOLTAGE, BAT_CURRENT, BAT_POWER]
      case 0x11 => [BUS_VOLTAGE, BUS_CURRENT, BUS_POWER]
      case 0x14 => [ENERGR_FOR_CHG]
      case 0x15 => [ENERGR_FOR_DISCH]
      case 0x16 => [ENV_TEMP, FAN_SPEED]
      case 0x17 => [HEATSINK_TEMP1, HEATSINK_TEMP2, HEATSINK_TEMP3]
      case 0x18 => [HEATSINK_TEMP4, HEATSINK_TEMP5, HEATSINK_TEMP6]
      case 0x19 => [HEATSINK_TEMP7, HEATSINK_TEMP8, HEATSINK_TEMP9]
      case _ => []
    else if msgClass == METER && device == BMS then
      match par
      case 0x03 => [BMS_BAT_TOTALVOL, BMS_BAT_TOTALCUR]
      case 0x04 => [BMS_SOC, BMS_SOH, BMS_ENV_TEMP]
      case 0x05 => [BMS_SIGLE_MIN_VOL, BMS_SIGLE_MIN_VOL_NUM]
      case 0x06 => [BMS_SIGLE_MAX_VOL, BMS_SIGLE_MAX_VOL_NUM]
      case 0x07 => [BMS_SIGLE_MIN_TEMP, BMS_SIGLE_MIN_TEMP_NUM]
      case 0x08 => [BMS_SIGLE_MAX_TEMP, BMS_SIGLE_MAX_TEMP_NUM]
      case 0x0B => [BMS_VOLDIFF, BMS_TEMPDIFF]
      case 0x0C => [BMS_CHG_VOL_LIMIT, BMS_DISCHG_VOL_LIMIT]
      case 0x0D => [BMS_CHGCURRENT_LIMIT, BMS_DISCHGCURRENT_LIMIT]
      case _ => []
    else []
  }

  function Words(f: Field): nat { if f.At? && f.kind.S32? then 2 else 1 }

  /** Each message's fields are filed under that message and lie one after the other from word 0, within the three words. */
  lemma FieldsArePacked(msgClass: u7, device: u4, par: u8, i: nat)
    requires i < |FieldsOfMessage(msgClass, device, par)|
    ensures var fs := FieldsOfMessage(msgClass, device, par); var f := fs[i];
            && f.At? && f.msgClass == msgClass && f.device == device && f.par == par
            && f.word == (if i == 0 then 0 else if fs[i - 1].At? then fs[i - 1].word + Words(fs[i - 1]) else 0)
            && f.word + Words(f) <= 3
  {
  }

  predicate IsField(f: Field) {
    f.At? ==> f in FieldsOfMessage(f.msgClass, f.device, f.par)
  }

  /** A message writes the fields filed under it; battery parameter 0x0C also writes those of 0x0D. */
  predicate Writes(msgClass: u7, device: u4, par: u8, f: Field) {
    && f.At? && f.msgClass == msgClass && f.device == device
    && (f.par == par || (msgClass == METER && device == BMS && par == 0x0C && f.par == 0x0D))
  }

  function BeWord(b: Payload, w: nat): u16 {
    if w < 3 then ShiftForm(b[2 * w], b[2 * w + 1]) else 0
  }

  /** The big-endian value that a payload holds for f. */
  function Value(b: Payload, f: Field): int {
    if f.Never? then 0
    else match f.kind
         case U16 => BeWord(b, f.word)
         case S16 => ToInt16(BeWord(b, f.word))
         case S32 => TwoWords(BeWord(b, f.word), BeWord(b, f.word + 1))
  }

  // ----- the fields by their C types

  /** The uint16_t, int16_t and int32_t members of the record that some message fills. */
  predicate IsUnsigned(f: Field) {
    f == DCDC_STATE1 || f == DCDC_ALARM1 || f == DCDC_FAULT1 || f == DCDC_FAULT2 || f == BMS_STATE1
    || f == BMS_ALARM1 || f == BMS_PROTECT1 || f == BMS_FAULT1 || f == PVERSION || f == SVERSION
    || f == VVERSION || f == AVERSION || f == DVERSION || f == HARD_WARE_VERSION || f == HEARTBEAT
  }

  predicate IsSigned(f: Field) {
    f == BAT_VOLTAGE || f == BAT_CURRENT || f == BAT_POWER || f == BUS_VOLTAGE || f == BUS_CURRENT
    || f == BUS_POWER || f == ENV_TEMP || f == FAN_SPEED || f == HEATSINK_TEMP1 || f == HEATSINK_TEMP2
    || f == HEATSINK_TEMP3 || f == HEATSINK_TEMP4 || f == HEATSINK_TEMP5 || f == HEATSINK_TEMP6
    || f == HEATSINK_TEMP7 || f == HEATSINK_TEMP8 || f == HEATSINK_TEMP9 || f == BMS_BAT_TOTALVOL
    || f == BMS_SOC || f == BMS_SOH || f == BMS_ENV_TEMP || f == BMS_SIGLE_MIN_VOL || f == BMS_SIGLE_MIN_VOL_NUM
    || f == BMS_SIGLE_MAX_VOL || f == BMS_SIGLE_MAX_VOL_NUM || f == BMS_SIGLE_MIN_TEMP
    || f == BMS_SIGLE_MIN_TEMP_NUM || f == BMS_SIGLE_MAX_TEMP || f == BMS_SIGLE_MAX_TEMP_NUM || f == BMS_VOLDIFF
    || f == BMS_TEMPDIFF || f == BMS_CHG_VOL_LIMIT || f == BMS_DISCHG_VOL_LIMIT || f == BMS_CHGCURRENT_LIMIT
    || f == BMS_DISCHGCURRENT_LIMIT
  }

  predicate IsLong(f: Field) {
    f == ENERGR_FOR_CHG || f == ENERGR_FOR_DISCH || f == BMS_BAT_TOTALCUR
  }

  /** The unsigned number whose big-endian bytes are the n bytes of b from `from` on. */
  function BigEndian(b: Payload, from: nat, n: nat): nat {
    if n == 0 then 0
    else 0x100 * BigEndian(b, from, n - 1) + if from + n - 1 < 6 then b[from + n - 1] else 0
  }

  /** The payload carries v, a value of the field's C type, at the field's place. */
  predicate Carries(b: Payload, f: Field, v: int) {
    f.At? &&
    (|| (IsUnsigned(f) && 0 <= v < 0x1_0000 && BigEndian(b, 2 * f.word, 2) == v)
     || (IsSigned(f) && -0x8000 <= v < 0x8000 && BigEndian(b, 2 * f.word, 2) == v % 0x1_0000)
     || (IsLong(f) && -0x8000_0000 <= v < 0x8000_0000 && BigEndian(b, 2 * f.word, 4) == v % 0x1_0000_0000))
  }

  /** These are just the fields that messages fill. */
  lemma EveryFieldHasType(f: Field)
    ensures f.At? && IsField(f) <==> IsUnsigned(f) || IsSigned(f) || IsLong(f)
  {
    if f.At? && IsField(f) {
      if f.msgClass == SIGNAL {
        SignalType(f);
      } else if f.device == DCDC {
        DcdcMeterType(f);
      } else {
        BmsMeterType(f);
      }
    }
    hide FieldsOfMessage;
    if IsUnsigned(f) {
      UnsignedIsFiled(f);
    } else if IsSigned(f) {
      SignedIsFiled(f);
    } else if IsLong(f) {
      LongIsFiled(f);
    }
  }

  lemma SignalType(f: Field)
    requires f.At? && IsField(f) && f.msgClass == SIGNAL
    ensures IsUnsigned(f)
  {
  }

  lemma DcdcMeterType(f: Field)
    requires f.At? && IsField(f) && f.msgClass != SIGNAL && f.device == DCDC
    ensures IsUnsigned(f) || IsSigned(f) || IsLong(f)
  {
  }

  lemma BmsMeterType(f: Field)
    requires f.At? && IsField(f) && f.msgClass != SIGNAL && f.device != DCDC
    ensures IsSigned(f) || IsLong(f)
  {
  }

  lemma UnsignedIsFiled(f: Field)
    requires IsUnsigned(f)
    ensures f.At? && IsField(f)
  {
  }

  lemma SignedIsFiled(f: Field)
    requires IsSigned(f)
    ensures f.At? && IsField(f)
  {
  }

  lemma LongIsFiled(f: Field)
    requires IsLong(f)
    ensures f.At? && IsField(f)
  {
  }

  lemma TypesAreKinds(f: Field)
    ensures IsUnsigned(f) ==> f.At? && f.kind == U16 && f.word < 3
    ensures IsSigned(f) ==> f.At? && f.kind == S16 && f.word < 3
    ensures IsLong(f) ==> f.At? && f.kind == S32 && f.word < 2
  {
  }

  lemma BigEndianIs(b: Payload, w: nat)
    requires w < 3
    ensures BigEndian(b, 2 * w, 2) == BeWord(b, w)
    ensures w < 2 ==> BigEndian(b, 2 * w, 4) == 0x1_0000 * BeWord(b, w) + BeWord(b, w + 1)
  {
    var h := BigEndian(b, 2 * w, 2);
    assert BigEndian(b, 2 * w, 0) == 0 && BigEndian(b, 2 * w, 1) == b[2 * w];
    assert w < 2 ==> BigEndian(b, 2 * w, 3) == 0x100 * h + b[2 * w + 2];
  }

  /** The bytes of b from `from` on as a uint16_t, an int16_t and an int32_t, high byte first. */
  function U16At(b: Payload, from: nat): int { BigEndian(b, from, 2) }

  function S16At(b: Payload, from: nat): int { if U16At(b, from) < 0x8000 then U16At(b, from) else U16At(b, from) - 0x1_0000 }

  function S32At(b: Payload, from: nat): int {
    if BigEndian(b, from, 4) < 0x8000_0000 then BigEndian(b, from, 4) else BigEndian(b, from, 4) - 0x1_0000_0000
  }

  lemma AsSigned(hi: u16, lo: u16)
    ensures ToInt16(hi) == if hi < 0x8000 then hi else hi - 0x1_0000
    ensures var w := 0x1_0000 * hi + lo; TwoWords(hi, lo) == if w < 0x8000_0000 then w else w - 0x1_0000_0000
  {
  }

  /** The table's kinds are the C types, and the code's forms of a value the big-endian one. */
  lemma ValueByType(b: Payload, f: Field)
    ensures IsUnsigned(f) ==> Value(b, f) == U16At(b, 2 * f.word)
    ensures IsSigned(f) ==> Value(b, f) == S16At(b, 2 * f.word)
    ensures IsLong(f) ==> Value(b, f) == S32At(b, 2 * f.word)
  {
    TypesAreKinds(f);
    hide IsUnsigned, IsSigned, IsLong, BigEndian, ToInt16, TwoWords, BeWord;
    if IsUnsigned(f) || IsSigned(f) || IsLong(f) {
      BigEndianIs(b, f.word);
      AsSigned(BeWord(b, f.word), BeWord(b, f.word + 1));
    }
  }

  /** Every field of the record reads back what was sent for it. */
  lemma FieldReadsBack(b: Payload, f: Field, v: int)
    requires Carries(b, f, v)
    ensures IsField(f) && Value(b, f) == v
  {
    hide IsUnsigned, IsSigned, IsLong, IsField, BigEndian, Value;
    EveryFieldHasType(f);
    ValueByType(b, f);
  }

  /** The record, kept as the fields written so far; the others are still zero. */
  type Record = map<Field, int>

  function Get(d: Record, f: Field): int { if f in d then d[f] else 0 }

  /** What a message of this kind does: the fields it writes take their value from it, the others keep theirs. */
  ghost predicate Updated(msgClass: u7, device: u4, par: u8, b: Payload, d: Record, d': Record) {
    forall f :: IsField(f) ==> Get(d', f) == if Writes(msgClass, device, par, f) then Value(b, f) else Get(d, f)
  }

  // ----- the protocol in numbers

  /** A message sets the fields it writes to the big-endian values of their types at their places. */
  lemma SetsByType(msgClass: u7, device: u4, par: u8, b: Payload, d: Record, d': Record, f: Field)
    requires Updated(msgClass, device, par, b, d, d') && f.At? && Writes(msgClass, device, par, f)
    ensures IsUnsigned(f) ==> Get(d', f) == U16At(b, 2 * f.word)
    ensures IsSigned(f) ==> Get(d', f) == S16At(b, 2 * f.word)
    ensures IsLong(f) ==> Get(d', f) == S32At(b, 2 * f.word)
  {
    hide IsUnsigned, IsSigned, IsLong, IsField, Get, Writes, Value, U16At, S16At, S32At;
    EveryFieldHasType(f);
    ValueByType(b, f);
  }

  ghost predicate AllSet(msgClass: u7, device: u4, par: u8, b: Payload, d': Record) {
    forall f: Field {:trigger Get(d', f)} :: f.At? && Writes(msgClass, device, par, f) ==>
      && (IsUnsigned(f) ==> Get(d', f) == U16At(b, 2 * f.word))
      && (IsSigned(f) ==> Get(d', f) == S16At(b, 2 * f.word))
      && (IsLong(f) ==> Get(d', f) == S32At(b, 2 * f.word))
  }

  lemma SetsAll(msgClass: u7, device: u4, par: u8, b: Payload, d: Record, d': Record)
    requires Updated(msgClass, device, par, b, d, d')
    ensures AllSet(msgClass, device, par, b, d')
  {
    hide Updated, IsUnsigned, IsSigned, IsLong, Get, Writes, U16At, S16At, S32At;
    forall f: Field | f.At? && Writes(msgClass, device, par, f)
      ensures IsUnsigned(f) ==> Get(d', f) == U16At(b, 2 * f.word)
      ensures IsSigned(f) ==> Get(d', f) == S16At(b, 2 * f.word)
      ensures IsLong(f) ==> Get(d', f) == S32At(b, 2 * f.word)
    {
      SetsByType(msgClass, device, par, b, d, d', f);
    }
  }

  /** What a signal message (class 3) from the converter (device 4) or the battery (device 8) sets. */
  lemma SignalTable(device: u4, par: u8, b: Payload, d: Record, d': Record)
    requires Updated(3, device, par, b, d, d')
    ensures device == 4 && par == 0x02 ==> Get(d', DCDC_STATE1) == U16At(b, 0)
    ensures device == 4 && par == 0x03 ==> Get(d', DCDC_ALARM1) == U16At(b, 0)
    ensures device == 4 && par == 0x04 ==> Get(d', DCDC_FAULT1) == U16At(b, 0) && Get(d', DCDC_FAULT2) == U16At(b, 2)
    ensures device == 8 && par == 0x01 ==> Get(d', BMS_STATE1) == U16At(b, 0)
    ensures device == 8 && par == 0x02 ==> Get(d', BMS_ALARM1) == U16At(b, 0)
    ensures device == 8 && par == 0x03 ==> Get(d', BMS_PROTECT1) == U16At(b, 0)
    ensures device == 8 && par == 0x04 ==> Get(d', BMS_FAULT1) == U16At(b, 0)
  {
    hide Updated, Get, U16At, S16At, S32At;
    SetsAll(3, device, par, b, d, d');
  }

  /** What a metering message (class 4) from the converter sets. */
  lemma DcdcMeterTable(par: u8, b: Payload, d: Record, d': Record)
    requires Updated(4, 4, par, b, d, d')
    ensures par == 0x02 ==> Get(d', PVERSION) == U16At(b, 0) && Get(d', SVERSION) == U16At(b, 2) && Get(d', VVERSION) == U16At(b, 4)
    ensures par == 0x03 ==> Get(d', AVERSION) == U16At(b, 0) && Get(d', DVERSION) == U16At(b, 2) && Get(d', HARD_WARE_VERSION) == U16At(b, 4)
    ensures par == 0x05 ==> Get(d', HEARTBEAT) == U16At(b, 0)
    ensures par == 0x10 ==> Get(d', BAT_VOLTAGE) == S16At(b, 0) && Get(d', BAT_CURRENT) == S16At(b, 2) && Get(d', BAT_POWER) == S16At(b, 4)
    ensures par == 0x11 ==> Get(d', BUS_VOLTAGE) == S16At(b, 0) && Get(d', BUS_CURRENT) == S16At(b, 2) && Get(d', BUS_POWER) == S16At(b, 4)
    ensures par == 0x14 ==> Get(d', ENERGR_FOR_CHG) == S32At(b, 0)
    ensures par == 0x15 ==> Get(d', ENERGR_FOR_DISCH) == S32At(b, 0)
    ensures par == 0x16 ==> Get(d', ENV_TEMP) == S16At(b, 0) && Get(d', FAN_SPEED) == S16At(b, 2)
    ensures par == 0x17 ==> Get(d', HEATSINK_TEMP1) == S16At(b, 0) && Get(d', HEATSINK_TEMP2) == S16At(b, 2) && Get(d', HEATSINK_TEMP3) == S16At(b, 4)
    ensures par == 0x18 ==> Get(d', HEATSINK_TEMP4) == S16At(b, 0) && Get(d', HEATSINK_TEMP5) == S16At(b, 2) && Get(d', HEATSINK_TEMP6) == S16At(b, 4)
    ensures par == 0x19 ==> Get(d', HEATSINK_TEMP7) == S16At(b, 0) && Get(d', HEATSINK_TEMP8) == S16At(b, 2) && Get(d', HEATSINK_TEMP9) == S16At(b, 4)
  {
    hide Updated, Get, U16At, S16At, S32At;
    SetsAll(4, 4, par, b, d, d');
  }

  /** What a metering message from the battery sets; 0x0C sets the current limits as well. */
  lemma BmsMeterTable(par: u8, b: Payload, d: Record, d': Record)
    requires Updated(4, 8, par, b, d, d')
    ensures par == 0x03 ==> Get(d', BMS_BAT_TOTALVOL) == S16At(b, 0) && Get(d', BMS_BAT_TOTALCUR) == S32At(b, 2)
    ensures par == 0x04 ==> Get(d', BMS_SOC) == S16At(b, 0) && Get(d', BMS_SOH) == S16At(b, 2) && Get(d', BMS_ENV_TEMP) == S16At(b, 4)
    ensures par == 0x05 ==> Get(d', BMS_SIGLE_MIN_VOL) == S16At(b, 0) && Get(d', BMS_SIGLE_MIN_VOL_NUM) == S16At(b, 2)
    ensures par == 0x06 ==> Get(d', BMS_SIGLE_MAX_VOL) == S16At(b, 0) && Get(d', BMS_SIGLE_MAX_VOL_NUM) == S16At(b, 2)
    ensures par == 0x07 ==> Get(d', BMS_SIGLE_MIN_TEMP) == S16At(b, 0) && Get(d', BMS_SIGLE_MIN_TEMP_NUM) == S16At(b, 2)
    ensures par == 0x08 ==> Get(d', BMS_SIGLE_MAX_TEMP) == S16At(b, 0) && Get(d', BMS_SIGLE_MAX_TEMP_NUM) == S16At(b, 2)
    ensures par == 0x0B ==> Get(d', BMS_VOLDIFF) == S16At(b, 0) && Get(d', BMS_TEMPDIFF) == S16At(b, 2)
    ensures par == 0x0C ==> Get(d', BMS_CHG_VOL_LIMIT) == S16At(b, 0) && Get(d', BMS_DISCHG_VOL_LIMIT) == S16At(b, 2)
    ensures par == 0x0C || par == 0x0D ==> Get(d', BMS_CHGCURRENT_LIMIT) == S16At(b, 0) && Get(d', BMS_DISCHGCURRENT_LIMIT) == S16At(b, 2)
  {
    hide Updated, Get, U16At, S16At, S32At;
    SetsAll(4, 8, par, b, d, d');
  }

  /** A message of another class, device or parameter changes no field of the record. */
  lemma OtherMessages(msgClass: u7, device: u4, par: u8, b: Payload, d: Record, d': Record, f: Field)
    requires Updated(msgClass, device, par, b, d, d') && FieldsOfMessage(msgClass, device, par) == [] && IsField(f)
    ensures Get(d', f) == Get(d, f)
  {
    hide Get, Value;
  }

  // ----- the code

  class Device {
    var data: Record

    method RemoteSignalMsgParse(srcDevType: u4, parId: u8, b: Payload)
      modifies this
      ensures Updated(SIGNAL, srcDevType, parId, b, old(data), data)
    {
      hide ShiftForm;
      if srcDevType == DCDC {
        match parId {
          case 0x02 =>
            data := data[DCDC_STATE1 := ShiftForm(b[0], b[1])];
          case 0x03 =>
            data := data[DCDC_ALARM1 := ShiftForm(b[0], b[1])];
          case 0x04 =>
            data := data[DCDC_FAULT1 := ShiftForm(b[0], b[1])];
            data := data[DCDC_FAULT2 := ShiftForm(b[2], b[3])];
          case _ =>
        }
      } else if srcDevType == BMS {
        match parId {
          case 0x01 =>
            data := data[BMS_STATE1 := ShiftForm(b[0], b[1])];
          case 0x02 =>
            data := data[BMS_ALARM1 := ShiftForm(b[0], b[1])];
          case 0x03 =>
            data := data[BMS_PROTECT1 := ShiftForm(b[0], b[1])];
          case 0x04 =>
            data := data[BMS_FAULT1 := ShiftForm(b[0], b[1])];
          case _ =>
        }
      }
    }

    /** RemoteMeterMsg_parse, its arm for the DC/DC converter. */
    method MeterFromDcdc(parId: u8, b: Payload)
      modifies this
      ensures Updated(METER, DCDC, parId, b, old(data), data)
    {
      hide SwapForm, ShiftForm, TwoWords, ToInt16;
      FormsAgree(b[0], b[1]);
      FormsAgree(b[2], b[3]);
      FormsAgree(b[4], b[5]);
      match parId {
        case 0x02 =>
          data := data[PVERSION := SwapForm(b[0], b[1])];
          data := data[SVERSION := SwapForm(b[2], b[3])];
          data := data[VVERSION := SwapForm(b[4], b[5])];
        case 0x03 =>
          data := data[AVERSION := SwapForm(b[0], b[1])];
          data := data[DVERSION := SwapForm(b[2], b[3])];
          data := data[HARD_WARE_VERSION := SwapForm(b[4], b[5])];
        case 0x05 =>
          data := data[HEARTBEAT := SwapForm(b[0], b[1])];
        case 0x10 =>
          data := data[BAT_VOLTAGE := ToInt16(SwapForm(b[0], b[1]))];
          data := data[BAT_CURRENT := ToInt16(SwapForm(b[2], b[3]))];
          data := data[BAT_POWER := ToInt16(ShiftForm(b[4], b[5]))];
        case 0x11 =>
          data := data[BUS_VOLTAGE := ToInt16(SwapForm(b[0], b[1]))];
          data := data[BUS_CURRENT := ToInt16(SwapForm(b[2], b[3]))];
          data := data[BUS_POWER := ToInt16(SwapForm(b[4], b[5]))];
        case 0x14 =>
          data := data[ENERGR_FOR_CHG := TwoWords(SwapForm(b[0], b[1]), SwapForm(b[2], b[3]))];
        case 0x15 =>
          data := data[ENERGR_FOR_DISCH := TwoWords(SwapForm(b[0], b[1]), SwapForm(b[2], b[3]))];
        case 0x16 =>
          data := data[ENV_TEMP := ToInt16(SwapForm(b[0], b[1]))];
          data := data[FAN_SPEED := ToInt16(SwapForm(b[2], b[3]))];
        case 0x17 =>
          data := data[HEATSINK_TEMP1 := ToInt16(SwapForm(b[0], b[1]))];
          data := data[HEATSINK_TEMP2 := ToInt16(SwapForm(b[2], b[3]))];
          data := data[HEATSINK_TEMP3 := ToInt16(SwapForm(b[4], b[5]))];
        case 0x18 =>
          data := data[HEATSINK_TEMP4 := ToInt16(SwapForm(b[0], b[1]))];
          data := data[HEATSINK_TEMP5 := ToInt16(SwapForm(b[2], b[3]))];
          data := data[HEATSINK_TEMP6 := ToInt16(SwapForm(b[4], b[5]))];
        case 0x19 =>
          data := data[HEATSINK_TEMP7 := ToInt16(SwapForm(b[0], b[1]))];
          data := data[HEATSINK_TEMP8 := ToInt16(SwapForm(b[2], b[3]))];
          data := data[HEATSINK_TEMP9 := ToInt16(SwapForm(b[4], b[5]))];
        case _ =>
      }
    }

    /** RemoteMeterMsg_parse, its arm for the battery. */
    method MeterFromBms(parId: u8, b: Payload)
      modifies this
      ensures Updated(METER, BMS, parId, b, old(data), data)
    {
      hide SwapForm, ShiftForm, TwoWords, ToInt16;
      FormsAgree(b[0], b[1]);
      FormsAgree(b[2], b[3]);
      FormsAgree(b[4], b[5]);
      match parId {
        case 0x03 =>
          data := data[BMS_BAT_TOTALVOL := ToInt16(SwapForm(b[0], b[1]))];
          data := data[BMS_BAT_TOTALCUR := TwoWords(SwapForm(b[2], b[3]), SwapForm(b[4], b[5]))];
        case 0x04 =>
          data := data[BMS_SOC := ToInt16(SwapForm(b[0], b[1]))];
          data := data[BMS_SOH := ToInt16(SwapForm(b[2], b[3]))];
          data := data[BMS_ENV_TEMP := ToInt16(SwapForm(b[4], b[5]))];
        case 0x05 =>
          data := data[BMS_SIGLE_MIN_VOL := ToInt16(SwapForm(b[0], b[1]))];
          data := data[BMS_SIGLE_MIN_VOL_NUM := ToInt16(SwapForm(b[2], b[3]))];
        case 0x06 =>
          data := data[BMS_SIGLE_MAX_VOL := ToInt16(SwapForm(b[0], b[1]))];
          data := data[BMS_SIGLE_MAX_VOL_NUM := ToInt16(SwapForm(b[2], b[3]))];
        case 0x07 =>
          data := data[BMS_SIGLE_MIN_TEMP := ToInt16(SwapForm(b[0], b[1]))];
          data := data[BMS_SIGLE_MIN_TEMP_NUM := ToInt16(SwapForm(b[2], b[3]))];
        case 0x08 =>
          data := data[BMS_SIGLE_MAX_TEMP := ToInt16(SwapForm(b[0], b[1]))];
          data := data[BMS_SIGLE_MAX_TEMP_NUM := ToInt16(SwapForm(b[2], b[3]))];
        case 0x0B =>
          data := data[BMS_VOLDIFF := ToInt16(SwapForm(b[0], b[1]))];
          data := data[BMS_TEMPDIFF := ToInt16(SwapForm(b[2], b[3]))];
        case 0x0C =>
          data := data[BMS_CHG_VOL_LIMIT := ToInt16(SwapForm(b[0], b[1]))];
          data := data[BMS_DISCHG_VOL_LIMIT := ToInt16(SwapForm(b[2], b[3]))];
          // no break in the source: 0x0C goes on into 0x0D
          data := data[BMS_CHGCURRENT_LIMIT := ToInt16(SwapForm(b[0], b[1]))];
          data := data[BMS_DISCHGCURRENT_LIMIT := ToInt16(SwapForm(b[2], b[3]))];
        case 0x0D =>
          data := data[BMS_CHGCURRENT_LIMIT := ToInt16(SwapForm(b[0], b[1]))];
          data := data[BMS_DISCHGCURRENT_LIMIT := ToInt16(SwapForm(b[2], b[3]))];
        case _ =>
      }
    }

    method RemoteMeterMsgParse(srcDevType: u4, parId: u8, b: Payload)
      modifies this
      ensures Updated(METER, srcDevType, parId, b, old(data), data)
    {
      if srcDevType == DCDC {
        MeterFromDcdc(parId, b);
      } else if srcDevType == BMS {
        MeterFromBms(parId, b);
      }
    }

    /** Control and setup acknowledgements are only logged; every other class is ignored. */
    method CanDeviceMsgParse(msg: Message)
      modifies this
      ensures Updated(msg.id.msgClass, msg.id.srcDevice, msg.parAddr, msg.data, old(data), data)
    {
      if msg.id.msgClass == SIGNAL {
        RemoteSignalMsgParse(msg.id.srcDevice, msg.parAddr, msg.data);
      } else if msg.id.msgClass == METER {
        RemoteMeterMsgParse(msg.id.srcDevice, msg.parAddr, msg.data);
      }
    }

    /** thread_client's receive side over a run of reads: each field ends at its latest value. */
    method ReceiveAll(recvFrame: array<u8>, chunks: seq<Read>)
      requires recvFrame.Length == FRAME_SIZE
      modifies this, recvFrame
      ensures forall f :: IsField(f) ==> Get(data, f) == Latest(Messages(old(recvFrame[..]), chunks), f, Get(old(data), f))
    {
      hide Writes, Value, ParseFrame, Overlay, IsField, Buffer, Messages;
      ghost var before: Frame := recvFrame[..];
      NoMessages(before);
      assert chunks[..0] == [];
      for i := 0 to |chunks|
        invariant recvFrame[..] == Buffer(before, chunks[..i])
        invariant forall f :: IsField(f) ==> Get(data, f) == Latest(Messages(before, chunks[..i]), f, Get(old(data), f))
      {
        MessagesSnoc(before, chunks, i);
        var msg := Commands.ReceiveMessage(recvFrame, chunks[i]);
        CanDeviceMsgParse(msg);
      }
      assert chunks[..|chunks|] == chunks;
    }
  }

  // ----- the record as a function of history

  /** recv_frame after some reads. */
  function Buffer(before: Frame, chunks: seq<Read>): Frame {
    if chunks == [] then before else Overlay(chunks[|chunks| - 1], Buffer(before, chunks[..|chunks| - 1]))
  }

  /** The messages that thread_client makes of the reads. */
  function Messages(before: Frame, chunks: seq<Read>): (ms: seq<Message>)
    ensures |ms| == |chunks|
  {
    if chunks == [] then [] else Messages(before, chunks[..|chunks| - 1]) + [ParseFrame(Buffer(before, chunks))]
  }

  lemma NoMessages(before: Frame)
    ensures Messages(before, []) == [] && Buffer(before, []) == before
  {
  }

  lemma MessagesSnoc(before: Frame, chunks: seq<Read>, i: nat)
    requires i < |chunks|
    ensures Buffer(before, chunks[..i + 1]) == Overlay(chunks[i], Buffer(before, chunks[..i]))
    ensures Messages(before, chunks[..i + 1]) == Messages(before, chunks[..i]) + [ParseFrame(Buffer(before, chunks[..i + 1]))]
  {
    assert chunks[..i + 1][..i] == chunks[..i];
  }

  /** When every read is full the messages are those of the frames read, whatever was in the buffer before. */
  lemma {:induction false} FullReads(before: Frame, chunks: seq<Read>, i: nat)
    requires i < |chunks| && forall c :: c in chunks ==> |c| == FRAME_SIZE
    ensures Messages(before, chunks)[i] == ParseFrame(chunks[i])
  {
    hide ParseFrame;
    if i < |chunks| - 1 {
      FullReads(before, chunks[..|chunks| - 1], i);
    } else {
      assert chunks[i] in chunks;
      assert Buffer(before, chunks) == chunks[i];
    }
  }

  /** Byte i of what is decoded comes from the latest read that was long enough to reach it, if there was one. */
  lemma {:induction false} BufferByte(before: Frame, chunks: seq<Read>, i: nat) returns (j: int)
    requires i < FRAME_SIZE
    ensures -1 <= j < |chunks| && forall m :: j < m < |chunks| ==> |chunks[m]| <= i
    ensures j >= 0 ==> i < |chunks[j]| && Buffer(before, chunks)[i] == chunks[j][i]
    ensures j < 0 ==> Buffer(before, chunks)[i] == before[i]
    decreases |chunks|
  {
    var n := |chunks| - 1;
    if chunks == [] {
      j := -1;
    } else if i < |chunks[n]| {
      j := n;
    } else {
      j := BufferByte(before, chunks[..n], i);
    }
  }

  predicate MsgWrites(m: Message, f: Field) {
    Writes(m.id.msgClass, m.id.srcDevice, m.parAddr, f)
  }

  /** The value of the latest message that writes f, or what was there before. */
  function Latest(h: seq<Message>, f: Field, init: int): int {
    if h == [] then init
    else
      var m := h[|h| - 1];
      if MsgWrites(m, f) then Value(m.data, f) else Latest(h[..|h| - 1], f, init)
  }

  ghost predicate LastWriter(h: seq<Message>, f: Field, i: nat) {
    i < |h| && MsgWrites(h[i], f) && forall j :: i < j < |h| ==> !MsgWrites(h[j], f)
  }

  lemma {:induction false} LatestFromLastWriter(h: seq<Message>, f: Field, init: int, i: nat)
    requires LastWriter(h, f, i)
    ensures Latest(h, f, init) == Value(h[i].data, f)
    decreases |h|
  {
    hide Writes, Value;
    if i < |h| - 1 {
      LatestFromLastWriter(h[..|h| - 1], f, init, i);
    }
  }

  /** After any history a field holds the very value that the last message writing it was sent with. */
  lemma LatestIsWhatWasSent(h: seq<Message>, f: Field, init: int, i: nat, v: int)
    requires LastWriter(h, f, i) && Carries(h[i].data, f, v)
    ensures IsField(f) && Latest(h, f, init) == v
  {
    LatestFromLastWriter(h, f, init, i);
    FieldReadsBack(h[i].data, f, v);
  }

  lemma {:induction false} FindLastWriter(h: seq<Message>, f: Field, init: int) returns (i: nat)
    ensures i < |h| ==> LastWriter(h, f, i)
    ensures i >= |h| ==> (forall j :: 0 <= j < |h| ==> !MsgWrites(h[j], f)) && Latest(h, f, init) == init
    decreases |h|
  {
    hide Value, MsgWrites;
    if h == [] {
      i := 0;
    } else if MsgWrites(h[|h| - 1], f) {
      i := |h| - 1;
    } else {
      i := FindLastWriter(h[..|h| - 1], f, init);
      if i >= |h| - 1 {
        i := |h|;
      }
    }
  }

  /** Two messages depend on each other when some field of the record is written by both. */
  ghost predicate Share(m1: Message, m2: Message) {
    exists f :: IsField(f) && MsgWrites(m1, f) && MsgWrites(m2, f)
  }

  /** Message i of h went to place[i] in h', and message k of h' came from from[k]; messages that share a field keep their order. */
  ghost predicate Reorders(h: seq<Message>, h': seq<Message>, place: seq<nat>, from: seq<nat>) {
    && |h| == |h'| == |place| == |from|
    && (forall i :: 0 <= i < |h| ==> place[i] < |h'| && h'[place[i]] == h[i])
    && (forall k :: 0 <= k < |h'| ==> from[k] < |h| && place[from[k]] == k)
    && (forall i, j :: 0 <= i < j < |h| && Share(h[i], h[j]) ==> place[i] < place[j])
  }

  /** Any reordering of a history that keeps the relative order of messages sharing a field leaves the same record. */
  lemma ReorderKeepsRecord(h: seq<Message>, h': seq<Message>, place: seq<nat>, from: seq<nat>, f: Field, init: int)
    requires Reorders(h, h', place, from) && IsField(f)
    ensures Latest(h', f, init) == Latest(h, f, init)
  {
    hide Writes, Value, MsgWrites, Latest, IsField;
    var i := FindLastWriter(h, f, init);
    var i' := FindLastWriter(h', f, init);
    if i < |h| {
      LatestFromLastWriter(h, f, init, i);
      WriterMoves(h, h', place, from, f, i, i');
      LatestFromLastWriter(h', f, init, i');
    } else {
      NoWriterAppears(h, h', place, from, f);
    }
  }

  /** The last writer of a field is still the last one after the reordering. */
  lemma WriterMoves(h: seq<Message>, h': seq<Message>, place: seq<nat>, from: seq<nat>, f: Field, i: nat, i': nat)
    requires Reorders(h, h', place, from) && IsField(f) && LastWriter(h, f, i)
    requires if i' < |h'| then LastWriter(h', f, i') else forall k :: 0 <= k < |h'| ==> !MsgWrites(h'[k], f)
    ensures i' < |h'| && i' == place[i]
  {
    hide Writes, MsgWrites, IsField;
    assert h'[place[i]] == h[i];
    assert MsgWrites(h'[place[i]], f);
    var j := from[i'];
    assert h[j] == h'[i'] && MsgWrites(h[j], f);
    assert j <= i;
    assert j < i ==> Share(h[j], h[i]);
  }

  lemma NoWriterAppears(h: seq<Message>, h': seq<Message>, place: seq<nat>, from: seq<nat>, f: Field)
    requires Reorders(h, h', place, from) && forall j :: 0 <= j < |h| ==> !MsgWrites(h[j], f)
    ensures forall k :: 0 <= k < |h'| ==> !MsgWrites(h'[k], f)
  {
    hide MsgWrites;
    assert forall k :: 0 <= k < |h'| ==> h'[k] == h[from[k]];
  }

  /** In particular neighbours that share no field may be exchanged anywhere in a history. */
  lemma DisjointMessagesCommute(before: seq<Message>, m1: Message, m2: Message, after: seq<Message>, f: Field, init: int)
    requires !Share(m1, m2) && IsField(f)
    ensures Latest(before + [m1, m2] + after, f, init) == Latest(before + [m2, m1] + after, f, init)
  {
    hide Writes, Value, MsgWrites, Latest, Share, IsField;
    var h, h', n := before + [m1, m2] + after, before + [m2, m1] + after, |before|;
    var swap := seq(|h|, i requires 0 <= i < |h| => if i == n then n + 1 else if i == n + 1 then n else i);
    assert h[n] == m1 && h[n + 1] == m2;
    ReorderKeepsRecord(h, h', swap, swap, f, init);
  }

  predicate IsLimitPair(m1: Message, m2: Message) {
    && m1.id.msgClass == m2.id.msgClass == METER && m1.id.srcDevice == m2.id.srcDevice == BMS
    && ((m1.parAddr == 0x0C && m2.parAddr == 0x0D) || (m1.parAddr == 0x0D && m2.parAddr == 0x0C))
  }

  /** Messages of different kinds share a field only in one case: the battery limits 0x0C and 0x0D. */
  lemma OnlyLimitsOverlap(m1: Message, m2: Message)
    requires (m1.id.msgClass, m1.id.srcDevice, m1.parAddr) != (m2.id.msgClass, m2.id.srcDevice, m2.parAddr)
    ensures Share(m1, m2) <==> IsLimitPair(m1, m2)
  {
    if IsLimitPair(m1, m2) {
      assert IsField(BMS_CHGCURRENT_LIMIT);
      assert MsgWrites(m1, BMS_CHGCURRENT_LIMIT) && MsgWrites(m2, BMS_CHGCURRENT_LIMIT);
    }
  }

  /** After a battery 0x0C message the two current limits hold the voltage limits it carried. */
  lemma CurrentLimitsFollowVoltage(h: seq<Message>, m: Message, init: int)
    requires m.id.msgClass == METER && m.id.srcDevice == BMS && m.parAddr == 0x0C
    ensures Latest(h + [m], BMS_CHGCURRENT_LIMIT, init) == Latest(h + [m], BMS_CHG_VOL_LIMIT, init)
    ensures Latest(h + [m], BMS_DISCHGCURRENT_LIMIT, init) == Latest(h + [m], BMS_DISCHG_VOL_LIMIT, init)
  {
  }

  lemma SameWordSameBytes(b1: Payload, b2: Payload, w: nat)
    requires w < 3 && ToInt16(BeWord(b1, w)) == ToInt16(BeWord(b2, w))
    ensures b1[2 * w] == b2[2 * w] && b1[2 * w + 1] == b2[2 * w + 1]
  {
    FormsAgree(b1[2 * w], b1[2 * w + 1]);
    FormsAgree(b2[2 * w], b2[2 * w + 1]);
    Bytes16(b1[2 * w], b1[2 * w + 1]);
    Bytes16(b2[2 * w], b2[2 * w + 1]);
  }

  lemma LatestOfTwo(m1: Message, m2: Message, f: Field, init: int)
    ensures Latest([m1, m2], f, init) ==
              if MsgWrites(m2, f) then Value(m2.data, f) else if MsgWrites(m1, f) then Value(m1.data, f) else init
  {
    hide Writes, Value, MsgWrites;
    assert [m1][..0] == [] && Latest([m1], f, init) == if MsgWrites(m1, f) then Value(m1.data, f) else init;
    assert [m1, m2][..1] == [m1];
  }

  ghost predicate OrderIrrelevant(m1: Message, m2: Message) {
    forall f, init :: IsField(f) ==> Latest([m1, m2], f, init) == Latest([m2, m1], f, init)
  }

  /** The overlapping pair may be exchanged exactly when the two messages carry the same first two words. */
  lemma LimitsCommuteIffEqual(m1: Message, m2: Message)
    requires IsLimitPair(m1, m2)
    ensures OrderIrrelevant(m1, m2) <==> m1.data[..4] == m2.data[..4]
  {
    hide Latest, Value, ToInt16, ShiftForm;
    if m1.data[..4] == m2.data[..4] {
      forall f, init | IsField(f)
        ensures Latest([m1, m2], f, init) == Latest([m2, m1], f, init)
      {
        LatestOfTwo(m1, m2, f, init);
        LatestOfTwo(m2, m1, f, init);
        if MsgWrites(m1, f) && MsgWrites(m2, f) {
          assert f in FieldsOfMessage(METER, BMS, 0x0D);
          assert f == BMS_CHGCURRENT_LIMIT || f == BMS_DISCHGCURRENT_LIMIT;
          LimitValues(m1.data, m2.data);
        }
      }
    }
    if OrderIrrelevant(m1, m2) {
      LatestOfTwo(m1, m2, BMS_CHGCURRENT_LIMIT, 0);
      LatestOfTwo(m2, m1, BMS_CHGCURRENT_LIMIT, 0);
      LatestOfTwo(m1, m2, BMS_DISCHGCURRENT_LIMIT, 0);
      LatestOfTwo(m2, m1, BMS_DISCHGCURRENT_LIMIT, 0);
      LimitValues(m1.data, m2.data);
      SameWordSameBytes(m1.data, m2.data, 0);
      SameWordSameBytes(m1.data, m2.data, 1);
      assert m1.data[..4] == m2.data[..4];
    }
  }

  lemma LimitValues(b1: Payload, b2: Payload)
    ensures Value(b1, BMS_CHGCURRENT_LIMIT) == ToInt16(BeWord(b1, 0)) && Value(b1, BMS_DISCHGCURRENT_LIMIT) == ToInt16(BeWord(b1, 1))
    ensures Value(b2, BMS_CHGCURRENT_LIMIT) == ToInt16(BeWord(b2, 0)) && Value(b2, BMS_DISCHGCURRENT_LIMIT) == ToInt16(BeWord(b2, 1))
    ensures b1[..4] == b2[..4] ==> BeWord(b1, 0) == BeWord(b2, 0) && BeWord(b1, 1) == BeWord(b2, 1)
  {
  }

  /** A frame whose identifier write_can_frame has marked as extended updates nothing when thread_client receives it. */
  lemma ExtendedFrameIgnored(id: u32, par: u8, f: Field)
    requires IsField(f)
    ensures WrittenId(id) < TWO32 && var m := FieldsOf(WrittenId(id)); !Writes(m.msgClass, m.srcDevice, par, f)
  {
    WrittenIdIs(id);
    FieldsRoundTrip(WrittenId(id));
    assert FieldsOf(WrittenId(id)).msgClass >= 64;
  }
}
