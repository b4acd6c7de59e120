/**
 The field converters of smartbus/messageformat.go.

 Decode and Encode say what one tagged field means on the wire; the methods of the
 same file fill real buffers in loops and are proved to compute them. The two
 directions meet in DecodeEncode and in Normalises.
 */
module MessageFormat {
  import opened BigEndian
  import opened Outcome

  newtype int8 = i: int | -128 <= i < 128

  // The ways a struct field is laid out: plain types, then the converter tags.
  datatype Kind =
    | KUint8
    | KUint16
    | KBytes8
    | KFlag
    | KSuccess
    | KChannelStatus
    | KStatusBytes
    | KModes
    | KRemark
    | KTempList
    | KSensorTemp

  datatype Value =
    | Uint8(b: bv8)
    | Uint16(w: bv16)
    | Bytes(bs: seq<bv8>)
    | Bool(flag: bool)
    | Bools(status: seq<bool>)
    | Names(names: seq<string>)
    | Temps(temps: seq<int8>)
    | Int(i: int)

  // The values a Go field of that type can hold.
  predicate HasKind(v: Value, k: Kind) {
    match k
    case KUint8 => v.Uint8?
    case KUint16 => v.Uint16?
    case KBytes8 => v.Bytes? && |v.bs| == 8
    case KFlag => v.Bool?
    case KSuccess => v.Bool?
    case KChannelStatus => v.Bools?
    case KStatusBytes => v.Bytes?
    case KModes => v.Names? && |v.names| == 16
    case KRemark => v.Bytes?
    case KTempList => v.Temps?
    case KSensorTemp => v.Int?
  }

  // ----- channel status bits, least significant first -----

  predicate BitAt(b: bv8, k: nat)
    requires k < 8
  {
    (b >> (k as bv4)) & 1 == 1
  }

  function SetBit(b: bv8, k: nat): bv8
    requires k < 8
  {
    b | (1 << (k as bv4))
  }

  function PackByte(bits: seq<bool>): bv8
    requires |bits| <= 8
  {
    if |bits| == 0 then 0
    else
      var k := |bits| - 1;
      if bits[k] then SetBit(PackByte(bits[..k]), k) else PackByte(bits[..k])
  }

  function Min(a: nat, b: nat): nat { if a < b then a else b }

  // The part of the first i statuses that byte j holds.
  function Chunk(status: seq<bool>, j: nat, i: nat): (c: seq<bool>)
    requires i <= |status|
    ensures |c| <= 8
  {
    status[Min(8 * j, i)..Min(8 * j + 8, i)]
  }

  function Pack(status: seq<bool>): (bs: seq<bv8>)
    ensures |bs| == (|status| + 7) / 8
  {
    seq((|status| + 7) / 8, j requires 0 <= j < (|status| + 7) / 8 => PackByte(Chunk(status, j, |status|)))
  }

  function Unpack(n: nat, bs: seq<bv8>): (status: seq<bool>)
    requires n <= 8 * |bs|
    ensures |status| == n
  {
    seq(n, i requires 0 <= i < n => BitAt(bs[i / 8], i % 8))
  }

  lemma BitOfSetBit(b: bv8, m: nat, k: nat)
    requires m < 8 && k < 8
    ensures BitAt(SetBit(b, m), k) <==> k == m || BitAt(b, k)
  {
    var m', k' := m as bv4, k as bv4;
    assert (m' == k') <==> m == k;
  }

  lemma BitOfZero(k: nat)
    requires k < 8
    ensures !BitAt(0, k)
  {}

  lemma {:induction false} BitOfPackByte(bits: seq<bool>, k: nat)
    requires |bits| <= 8 && k < 8
    ensures BitAt(PackByte(bits), k) <==> k < |bits| && bits[k]
  {
    hide BitAt, SetBit;
    if |bits| == 0 {
      BitOfZero(k);
    } else {
      var m := |bits| - 1;
      BitOfPackByte(bits[..m], k);
      if bits[m] {
        BitOfSetBit(PackByte(bits[..m]), m, k);
      }
    }
  }

  // Unpacking inverts packing, for a list of any length.
  lemma UnpackPack(status: seq<bool>)
    ensures Unpack(|status|, Pack(status)) == status
  {
    hide BitAt, PackByte;
    var bs := Pack(status);
    forall i | 0 <= i < |status| ensures BitAt(bs[i / 8], i % 8) == status[i] {
      var j, k := i / 8, i % 8;
      assert i == 8 * j + k;
      BitOfPackByte(Chunk(status, j, |status|), k);
      ChunkAt(status, j, k);
    }
  }

  lemma ChunkAt(status: seq<bool>, j: nat, k: nat)
    requires k < 8 && 8 * j + k < |status|
    ensures k < |Chunk(status, j, |status|)| && Chunk(status, j, |status|)[k] == status[8 * j + k]
  {}

  // ----- what each kind of field means on the wire -----

  const PANEL_MODES: seq<string> := [
    "Invalid", "SingleOnOff", "SingleOn", "SingleOff", "CombinationOn", "CombinationOff",
    "PressOnReleaseOff", "CombinationOnOff", "SeparateLeftRightPressOnReleaseOff",
    "SeparateLeftRightCombinationOnOff", "LeftOffRightOn"
  ]

  function FlagFromRaw(b: bv8): Outcome<bool> {
    if b == 0x00 then Ok(false) else if b == 0x01 then Ok(true) else Err(Unmapped)
  }

  function SuccessFromRaw(b: bv8): Outcome<bool> {
    if b == 0xf8 then Ok(true) else if b == 0xf5 then Ok(false) else Err(Unmapped)
  }

  // An unmapped byte is not an error: the field keeps its zero value.
  function OrUnset(r: Outcome<bool>): bool { if r.Ok? then r.value else false }

  function ModeName(b: bv8): string {
    if b as int < |PANEL_MODES| then PANEL_MODES[b as int] else ""
  }

  function ModeIndex(name: string, from: nat := 0): (i: nat)
    ensures i < |PANEL_MODES| ==> PANEL_MODES[i] == name
    ensures i >= |PANEL_MODES| ==> forall k :: from <= k < |PANEL_MODES| ==> PANEL_MODES[k] != name
    decreases |PANEL_MODES| - from
  {
    if from >= |PANEL_MODES| || PANEL_MODES[from] == name then from else ModeIndex(name, from + 1)
  }

  function Signed(b: bv8): int8 {
    if b < 0x80 then b as int as int8 else (b as int - 256) as int8
  }

  function Unsigned(t: int8): bv8 {
    if t >= 0 then t as int as bv8 else (t as int + 256) as bv8
  }

  function SignedAll(bs: seq<bv8>): (ts: seq<int8>)
    ensures |ts| == |bs|
  {
    seq(|bs|, i requires 0 <= i < |bs| => Signed(bs[i]))
  }

  function UnsignedAll(ts: seq<int8>): (bs: seq<bv8>)
    ensures |bs| == |ts|
  {
    seq(|ts|, i requires 0 <= i < |ts| => Unsigned(ts[i]))
  }

  function NamesOf(bs: seq<bv8>): (names: seq<string>)
    ensures |names| == |bs|
  {
    seq(|bs|, i requires 0 <= i < |bs| => ModeName(bs[i]))
  }

  // Reading exactly n bytes.
  function Take(bs: seq<bv8>, n: nat): Outcome<(seq<bv8>, seq<bv8>)> {
    if n <= |bs| then Ok((bs[..n], bs[n..]))
    else Err(if |bs| == 0 then Eof else UnexpectedEof)
  }

  // The number of status bytes the reader allocates: the sum wraps in a byte.
  function StatusSize(n: bv8): nat { ((n + 7) / 8) as int }

  // The value at the head of bs, and what is left.
  function Decode(k: Kind, bs: seq<bv8>): Outcome<(Value, seq<bv8>)> {
    match k
    case KUint8 =>
      var (p, rest) :- Take(bs, 1);
      Ok((Uint8(p[0]), rest))
    case KUint16 =>
      var (p, rest) :- Take(bs, 2);
      Ok((Uint16(Word(p[0], p[1])), rest))
    case KBytes8 =>
      var (p, rest) :- Take(bs, 8);
      Ok((Bytes(p), rest))
    case KFlag =>
      var (p, rest) :- Take(bs, 1);
      Ok((Bool(OrUnset(FlagFromRaw(p[0]))), rest))
    case KSuccess =>
      var (p, rest) :- Take(bs, 1);
      Ok((Bool(OrUnset(SuccessFromRaw(p[0]))), rest))
    case KChannelStatus =>
      if |bs| == 0 then Ok((Bools([]), []))
      else
        var n := bs[0];
        var (p, rest) :- Take(bs[1..], StatusSize(n));
        if n as int <= 8 * |p| then Ok((Bools(Unpack(n as int, p)), rest)) else Panic
    case KStatusBytes =>
      var (p, rest) :- Take(bs, 1);
      if p[0] == 0 then Ok((Bytes([]), rest))
      else
        var (q, rest') :- Take(rest, p[0] as int);
        Ok((Bytes(q), rest'))
    case KModes =>
      if |bs| >= 16 then Ok((Names(NamesOf(bs[..16])), bs[16..])) else Err(Eof)
    case KRemark =>
      if |bs| >= 64 then Err(TooLong) else Ok((Bytes(bs), []))
    case KTempList =>
      var n := Min(|bs|, 8);
      Ok((Temps(SignedAll(bs[..n])), bs[n..]))
    case KSensorTemp =>
      var (p, rest) :- Take(bs, 1);
      Ok((Int(p[0] as int - 20), rest))
  }

  // The count byte: a length truncated to eight bits.
  function Count(n: nat): bv8 { (n % 256) as bv8 }

  function EncodeModes(names: seq<string>): Outcome<seq<bv8>> {
    if |names| == 0 then Ok([])
    else
      var i := ModeIndex(names[0]);
      if i >= |PANEL_MODES| then Err(Unmapped)
      else
        var rest :- EncodeModes(names[1..]);
        Ok([i as bv8] + rest)
  }

  // The bytes a value is written as.
  function Encode(k: Kind, v: Value): Outcome<seq<bv8>>
    requires HasKind(v, k)
  {
    match k
    case KUint8 => Ok([v.b])
    case KUint16 => Ok([Hi(v.w), Lo(v.w)])
    case KBytes8 => Ok(v.bs)
    case KFlag => Ok([if v.flag then 0x01 else 0x00])
    case KSuccess => Ok([if v.flag then 0xf8 else 0xf5])
    case KChannelStatus => if |v.status| == 0 then Ok([]) else Ok([Count(|v.status|)] + Pack(v.status))
    case KStatusBytes => Ok([Count(|v.bs|)] + v.bs)
    case KModes => EncodeModes(v.names)
    case KRemark => if |v.bs| >= 64 then Err(TooLong) else Ok(v.bs)
    case KTempList => if |v.temps| > 8 then Err(TooLong) else Ok(UnsignedAll(v.temps))
    case KSensorTemp => if 0 <= v.i + 20 <= 255 then Ok([(v.i + 20) as bv8]) else Err(OutOfRange)
  }

  // ----- the values that survive the wire -----

  predicate Fits(k: Kind, v: Value)
    requires HasKind(v, k)
  {
    match k
    case KChannelStatus => |v.status| <= 248
    case KStatusBytes => |v.bs| <= 255
    case KModes => forall name <- v.names :: name in PANEL_MODES
    case KRemark => |v.bs| <= 63
    case KTempList => |v.temps| <= 8
    case KSensorTemp => -20 <= v.i <= 235
    case _ => true
  }

  // Fields that take whatever is left, so that nothing may follow them.
  predicate Greedy(k: Kind) { k.KChannelStatus? || k.KRemark? || k.KTempList? }

  lemma ByteOfInt(n: nat)
    requires n < 256
    ensures (n as bv8) as int == n
    ensures (n as bv8) < 0x80 <==> n < 128
  {}

  lemma SignedRoundTrip(t: int8)
    ensures Signed(Unsigned(t)) == t
  {
    ByteOfInt(if t >= 0 then t as int else t as int + 256);
  }

  lemma CountFits(n: nat)
    requires n < 256
    ensures Count(n) as int == n
  {
    assert n % 256 == n;
    ByteOfInt(n);
  }

  lemma StatusSizeIs(n: bv8)
    ensures n <= 248 ==> StatusSize(n) == (n as int + 7) / 8
    ensures n > 248 ==> StatusSize(n) == 0
    ensures n <= 248 <==> n as int <= 248
    ensures 0 <= n as int < 256
  {}

  lemma ModesDistinct(i: nat, j: nat)
    requires i < j < |PANEL_MODES|
    ensures PANEL_MODES[i] != PANEL_MODES[j] && PANEL_MODES[i] != ""
  {
    assert PANEL_MODES[5][0] == 'C' && PANEL_MODES[10][0] == 'L';
    var n := map[0 := 7, 1 := 11, 2 := 8, 3 := 9, 4 := 13, 5 := 14, 6 := 17, 7 := 16, 8 := 34, 9 := 33, 10 := 14];
    assert |PANEL_MODES[i]| == n[i] && |PANEL_MODES[j]| == n[j];
  }

  lemma NamesCons(b: bv8, bs: seq<bv8>)
    ensures NamesOf([b] + bs) == [ModeName(b)] + NamesOf(bs)
  {
    hide ModeName;
  }

  lemma ModeNameOfIndex(name: string)
    ensures ModeIndex(name) < |PANEL_MODES| <==> name in PANEL_MODES
    ensures ModeIndex(name) < |PANEL_MODES| ==> ModeName(ModeIndex(name) as bv8) == name
  {
    hide PANEL_MODES;
    ModesAreFew();
    if ModeIndex(name) < |PANEL_MODES| {
      ByteOfInt(ModeIndex(name));
    }
  }

  lemma {:induction false} EncodeModesIs(names: seq<string>)
    ensures EncodeModes(names).Ok? <==> forall name <- names :: name in PANEL_MODES
    ensures EncodeModes(names).Ok? ==> NamesOf(EncodeModes(names).value) == names
  {
    hide PANEL_MODES, ModeName, ModeIndex, NamesOf;
    if |names| == 0 {
      assert names == [] && NamesOf([]) == [] by { NamesNil(); }
    } else {
      var rest := names[1..];
      EncodeModesIs(rest);
      assert names == [names[0]] + rest;
      ModeNameOfIndex(names[0]);
      ModesAreFew();
      if EncodeModes(names).Ok? {
        NamesCons(ModeIndex(names[0]) as bv8, EncodeModes(rest).value);
      }
    }
  }

  lemma NamesNil()
    ensures NamesOf([]) == []
  {}

  lemma ModesAreFew()
    ensures |PANEL_MODES| == 11
  {}

  lemma ReadStatusFits(bs: seq<bv8>)
    requires Decode(KChannelStatus, bs).Ok?
    ensures |Decode(KChannelStatus, bs).value.0.status| <= 248
  {
    hide StatusSize, Unpack;
    if |bs| > 0 {
      StatusSizeIs(bs[0]);
    }
  }

  lemma ReadBytesFit(bs: seq<bv8>)
    requires Decode(KStatusBytes, bs).Ok?
    ensures |Decode(KStatusBytes, bs).value.0.bs| <= 255
  {
    StatusSizeIs(bs[0]);
  }

  lemma ReadSensorFits(bs: seq<bv8>)
    requires Decode(KSensorTemp, bs).Ok?
    ensures -20 <= Decode(KSensorTemp, bs).value.0.i <= 235
  {
    StatusSizeIs(bs[0]);
  }

  // Only an unset button mode can be read and not written.
  lemma ReadFits(k: Kind, bs: seq<bv8>)
    requires Decode(k, bs).Ok? && !k.KModes?
    ensures HasKind(Decode(k, bs).value.0, k) && Fits(k, Decode(k, bs).value.0)
  {
    hide StatusSize, Unpack, Pack, OrUnset, Word;
    match k
    case KSensorTemp => ReadSensorFits(bs);
    case KChannelStatus => ReadStatusFits(bs);
    case KStatusBytes => ReadBytesFit(bs);
    case _ =>
  }

  // Of the values a reader can produce, exactly those that fit can be written back.
  lemma FitsIff(k: Kind, bs: seq<bv8>)
    requires Decode(k, bs).Ok?
    ensures HasKind(Decode(k, bs).value.0, k)
    ensures Fits(k, Decode(k, bs).value.0) <==> Encode(k, Decode(k, bs).value.0).Ok?
  {
    hide StatusSize, Pack, Unpack, PANEL_MODES, Count, EncodeModes, UnsignedAll, OrUnset, Word, Hi, Lo;
    match k
    case KModes => EncodeModesIs(Decode(k, bs).value.0.names);
    case KSensorTemp => ReadSensorFits(bs);
    case KChannelStatus => ReadStatusFits(bs);
    case KStatusBytes => ReadBytesFit(bs);
    case _ =>
  }

  lemma DecodeEncodeStatus(status: seq<bool>, rest: seq<bv8>)
    requires 0 < |status| <= 248
    ensures var bs := [Count(|status|)] + Pack(status) + rest;
      Decode(KChannelStatus, bs) == Ok((Bools(status), rest))
  {
    hide Count, StatusSize, Pack, Unpack;
    var n := |status|;
    var bs := [Count(n)] + Pack(status) + rest;
    CountFits(n);
    StatusSizeIs(Count(n));
    assert |Pack(status)| == (n + 7) / 8 by { PackSize(status); }
    assert bs[1..] == Pack(status) + rest;
    UnpackPack(status);
  }

  lemma PackSize(status: seq<bool>)
    ensures |Pack(status)| == (|status| + 7) / 8
  {}

  lemma DecodeEncodeBytes(data: seq<bv8>, rest: seq<bv8>)
    requires |data| <= 255
    ensures Decode(KStatusBytes, [Count(|data|)] + data + rest) == Ok((Bytes(data), rest))
  {
    hide Count;
    var bs := [Count(|data|)] + data + rest;
    CountFits(|data|);
    assert bs[1..] == data + rest;
    assert Count(|data|) == 0 <==> |data| == 0 by { StatusSizeIs(Count(|data|)); ZeroCount(|data|); }
  }

  lemma ZeroCount(n: nat)
    requires n < 256
    ensures Count(n) == 0 <==> n == 0
  {
    CountFits(n);
  }

  lemma DecodeEncodeTemps(temps: seq<int8>)
    requires |temps| <= 8
    ensures Decode(KTempList, UnsignedAll(temps)) == Ok((Temps(temps), []))
  {
    hide Signed, Unsigned;
    var e := UnsignedAll(temps);
    forall i | 0 <= i < |temps| ensures Signed(e[i]) == temps[i] {
      SignedRoundTrip(temps[i]);
    }
    assert SignedAll(e) == temps;
    assert Min(|e|, 8) == |e| && e[..|e|] == e && e[|e|..] == [];
    assert Decode(KTempList, e).Ok?;
    assert Decode(KTempList, e).value.0 == Temps(temps);
    assert Decode(KTempList, e).value.1 == [];

  }

  lemma TakePrefix(p: seq<bv8>, rest: seq<bv8>)
    ensures Take(p + rest, |p|) == Ok((p, rest))
  {}

  // What Encode writes, Decode reads back, whatever follows.
  lemma DecodeEncode(k: Kind, v: Value, rest: seq<bv8>)
    requires HasKind(v, k) && Fits(k, v)
    requires Greedy(k) ==> |rest| == 0
    ensures Encode(k, v).Ok?
    ensures Decode(k, Encode(k, v).value + rest) == Ok((v, rest))
  {
    hide Count, StatusSize, Pack, Unpack, UnsignedAll, SignedAll, Word, Hi, Lo, NamesOf, PANEL_MODES, Take;
    if k.KModes? {
      EncodeModesIs(v.names);
      EncodeModesSize(v.names);
      var e := Encode(k, v).value;
      assert (e + rest)[..16] == e && (e + rest)[16..] == rest;
    } else {
      TakePrefix(Encode(k, v).value, rest);
      assert Greedy(k) ==> rest == [];
      match k
      case KUint16 => WordOfBytes(v.w);
      case KChannelStatus =>
        if |v.status| > 0 {
          DecodeEncodeStatus(v.status, rest);
        }
      case KStatusBytes => DecodeEncodeBytes(v.bs, rest);
      case KTempList =>
        DecodeEncodeTemps(v.temps);
        assert UnsignedAll(v.temps) + rest == UnsignedAll(v.temps);
      case KSensorTemp => ByteOfInt(v.i + 20);
      case KRemark => assert v.bs + rest == v.bs;
      case _ =>
    }
  }

  lemma {:induction false} EncodeModesSize(names: seq<string>)
    requires EncodeModes(names).Ok?
    ensures |EncodeModes(names).value| == |names|
  {
    if |names| > 0 {
      EncodeModesSize(names[1..]);
    }
  }

  // No status at all is written as nothing, which only reads back at the very end.
  lemma EmptyStatusOnlyLast(rest: seq<bv8>)
    ensures Encode(KChannelStatus, Bools([])) == Ok([])
    ensures Decode(KChannelStatus, rest) == Ok((Bools([]), rest)) <==> rest == []
  {
    hide StatusSize, Pack, Unpack;
    if Decode(KChannelStatus, rest).Ok? && |rest| > 0 {
      StatusSizeIs(rest[0]);
      assert |Decode(KChannelStatus, rest).value.1| < |rest|;
    }
  }

  // Reading and writing again never grows the field, and settles on the same value.
  ghost predicate NormalisesAt(k: Kind, bs: seq<bv8>)
    requires Decode(k, bs).Ok?
  {
    var (v, rest) := Decode(k, bs).value;
    && HasKind(v, k)
    && |rest| <= |bs|
    && (Encode(k, v).Ok? ==> Fits(k, v) && |Encode(k, v).value| <= |bs| - |rest|)
  }

  lemma StatusNormalises(bs: seq<bv8>)
    requires Decode(KChannelStatus, bs).Ok?
    ensures NormalisesAt(KChannelStatus, bs)
  {
    hide Count, StatusSize, Pack, Unpack, PANEL_MODES;
    FitsIff(KChannelStatus, bs);
    if |bs| > 0 {
      StatusSizeIs(bs[0]);
      PackSize(Decode(KChannelStatus, bs).value.0.status);
    }
  }

  lemma ModesNormalise(bs: seq<bv8>)
    requires Decode(KModes, bs).Ok?
    ensures NormalisesAt(KModes, bs)
  {
    hide NamesOf, EncodeModes, PANEL_MODES;
    FitsIff(KModes, bs);
    var v := Decode(KModes, bs).value.0;
    if Encode(KModes, v).Ok? { EncodeModesSize(v.names); }
  }

  lemma Normalises(k: Kind, bs: seq<bv8>)
    requires Decode(k, bs).Ok?
    ensures NormalisesAt(k, bs)
  {
    hide Decode, NormalisesAt;
    if k.KChannelStatus? {
      StatusNormalises(bs);
    } else if k.KModes? {
      ModesNormalise(bs);
    } else if k.KStatusBytes? || k.KRemark? || k.KTempList? {
      ListsNormalise(k, bs);
    } else {
      OthersNormalise(k, bs);
    }
  }

  lemma ListsNormalise(k: Kind, bs: seq<bv8>)
    requires (k.KStatusBytes? || k.KRemark? || k.KTempList?) && Decode(k, bs).Ok?
    ensures NormalisesAt(k, bs)
  {
    hide Count, UnsignedAll, SignedAll;
    FitsIff(k, bs);
  }

  lemma OthersNormalise(k: Kind, bs: seq<bv8>)
    requires !k.KChannelStatus? && !k.KModes? && !k.KStatusBytes? && !k.KRemark? && !k.KTempList?
    requires Decode(k, bs).Ok?
    ensures NormalisesAt(k, bs)
  {
    hide Word, Hi, Lo, OrUnset;
    FitsIff(k, bs);
  }

  // Only a status count whose size has wrapped makes a reader panic.
  lemma PanicIff(k: Kind, bs: seq<bv8>)
    ensures Decode(k, bs).Panic? <==> k.KChannelStatus? && |bs| > 0 && bs[0] > 248
  {
    hide StatusSize, Unpack, UnsignedAll, SignedAll, OrUnset, Word, NamesOf;
    if k.KChannelStatus? && |bs| > 0 {
      StatusSizeIs(bs[0]);
      ByteOrder(bs[0]);
    }
  }

  lemma ByteOrder(n: bv8)
    ensures n > 248 <==> n as int > 248
    ensures n as int == 0 <==> n == 0
  {}

  // The values that can be written, whether or not they survive it.
  predicate CanEncode(k: Kind, v: Value)
    requires HasKind(v, k)
  {
    match k
    case KModes => forall name <- v.names :: name in PANEL_MODES
    case KRemark => |v.bs| <= 63
    case KTempList => |v.temps| <= 8
    case KSensorTemp => -20 <= v.i <= 235
    case _ => true
  }

  lemma CanEncodeIff(k: Kind, v: Value)
    requires HasKind(v, k)
    ensures Encode(k, v).Ok? <==> CanEncode(k, v)
  {
    hide Count, Pack, UnsignedAll, Hi, Lo, PANEL_MODES, EncodeModes;
    if k.KModes? {
      EncodeModesIs(v.names);
    }
  }

  // ----- whole structs, field after field -----

  // Whatever follows the last field is ignored.
  function DecodeAll(layout: seq<Kind>, bs: seq<bv8>): Outcome<seq<Value>> {
    if |layout| == 0 then Ok([])
    else
      var (v, rest) :- Decode(layout[0], bs);
      var vs :- DecodeAll(layout[1..], rest);
      Ok([v] + vs)
  }

  predicate HasLayout(vs: seq<Value>, layout: seq<Kind>) {
    |vs| == |layout| && forall i :: 0 <= i < |vs| ==> HasKind(vs[i], layout[i])
  }

  function EncodeAll(layout: seq<Kind>, vs: seq<Value>): Outcome<seq<bv8>>
    requires HasLayout(vs, layout)
  {
    if |layout| == 0 then Ok([])
    else
      var bs :- Encode(layout[0], vs[0]);
      var rest :- EncodeAll(layout[1..], vs[1..]);
      Ok(bs + rest)
  }

  predicate FitsAll(layout: seq<Kind>, vs: seq<Value>)
    requires HasLayout(vs, layout)
  {
    forall i :: 0 <= i < |vs| ==> Fits(layout[i], vs[i])
  }

  // Only the last field may be greedy.
  predicate GreedyLast(layout: seq<Kind>) {
    forall i :: 0 <= i < |layout| - 1 ==> !Greedy(layout[i])
  }

  lemma {:induction false} DecodeEncodeAll(layout: seq<Kind>, vs: seq<Value>)
    requires HasLayout(vs, layout) && FitsAll(layout, vs) && GreedyLast(layout)
    ensures EncodeAll(layout, vs).Ok?
    ensures DecodeAll(layout, EncodeAll(layout, vs).value) == Ok(vs)
  {
    hide Decode, Encode, Fits, HasKind, Greedy;
    if |layout| == 0 {
      assert vs == [];
    } else {
      DecodeEncodeAll(layout[1..], vs[1..]);
      var rest := EncodeAll(layout[1..], vs[1..]).value;
      DecodeEncode(layout[0], vs[0], rest);
      assert vs == [vs[0]] + vs[1..];
    }
  }

  // A struct that was read and can be written fits, and is written in no more bytes
  // than were there.
  lemma {:induction false} NormalisesAll(layout: seq<Kind>, bs: seq<bv8>)
    requires DecodeAll(layout, bs).Ok?
    ensures var vs := DecodeAll(layout, bs).value;
      && HasLayout(vs, layout)
      && (EncodeAll(layout, vs).Ok? ==> FitsAll(layout, vs) && |EncodeAll(layout, vs).value| <= |bs|)
  {
    hide Decode, Encode, Fits, HasKind;
    if |layout| > 0 {
      Normalises(layout[0], bs);
      var (v, rest) := Decode(layout[0], bs).value;
      NormalisesAll(layout[1..], rest);
      var vs := DecodeAll(layout, bs).value;
      assert vs[0] == v && vs[1..] == DecodeAll(layout[1..], rest).value;
    }
  }

  lemma {:induction false} CanEncodeAllIff(layout: seq<Kind>, vs: seq<Value>)
    requires HasLayout(vs, layout)
    ensures EncodeAll(layout, vs).Ok? <==> forall i :: 0 <= i < |vs| ==> CanEncode(layout[i], vs[i])
  {
    hide Encode, HasKind, CanEncode;
    if |layout| > 0 {
      CanEncodeIff(layout[0], vs[0]);
      CanEncodeAllIff(layout[1..], vs[1..]);
      assert forall i :: 1 <= i < |vs| ==> vs[i] == vs[1..][i - 1] && layout[i] == layout[1..][i - 1];
    }
  }

  // A struct panics at its first wrapped status count, if the fields before it can be read.
  lemma {:induction false} PanicAllIff(layout: seq<Kind>, bs: seq<bv8>)
    ensures DecodeAll(layout, bs).Panic? <==>
      |layout| > 0 &&
      (Decode(layout[0], bs).Panic? || (Decode(layout[0], bs).Ok?
          && DecodeAll(layout[1..], Decode(layout[0], bs).value.1).Panic?))
  {
    hide Decode;
  }
}
