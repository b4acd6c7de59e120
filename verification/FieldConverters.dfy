/**
 The code of smartbus/messageformat.go: readers and writers over byte buffers, with
 the loops that unpack and pack, each proved to compute Decode or Encode.
 */
module FieldConverters {
  import opened BigEndian
  import opened Outcome
  import opened MessageFormat

  // A byte buffer, read from the front and written at the end.
  class Buffer {
    var data: seq<bv8>
    var off: nat

    ghost predicate Valid()
      reads this
    {
      off <= |data|
    }

    function Rest(): seq<bv8>
      requires Valid()
      reads this
    {
      data[off..]
    }

    constructor (bs: seq<bv8>)
      ensures Valid() && data == bs && off == 0 && Rest() == bs
    {
      data, off := bs, 0;
    }

    // Reads as much of p as there is, and reports end of input when there is nothing.
    method Read(p: array<bv8>) returns (n: nat, eof: bool)
      requires Valid()
      modifies this`off, p
      ensures Valid()
      ensures n == Min(|old(Rest())|, p.Length)
      ensures eof <==> |old(Rest())| == 0 && p.Length > 0
      ensures p[..n] == old(Rest())[..n] && Rest() == old(Rest())[n..]
    {
      n := Min(|data| - off, p.Length);
      eof := off == |data| && p.Length > 0;
      for i := 0 to n
        modifies p
        invariant p[..i] == data[off..off + i]
      {
        p[i] := data[off + i];
      }
      off := off + n;
    }

    // Fills p, or fails.
    method ReadFull(p: array<bv8>) returns (res: Outcome<()>)
      requires Valid()
      modifies this`off, p
      ensures Valid()
      ensures match Take(old(Rest()), p.Length)
        case Ok((bs, rest)) => res == Ok(()) && p[..] == bs && Rest() == rest
        case Err(e) => res == Err(e) && Rest() == []
        case Panic => false
    {
      if p.Length == 0 {
        return Ok(());
      }
      var n, eof := Read(p);
      if eof {
        return Err(Eof);
      }
      return if n == p.Length then Ok(()) else Err(UnexpectedEof);
    }

    method ReadByte() returns (res: Outcome<bv8>)
      requires Valid()
      modifies this`off
      ensures Valid()
      ensures if |old(Rest())| == 0 then res == Err(Eof) && Rest() == []
              else res == Ok(old(Rest())[0]) && Rest() == old(Rest())[1..]
    {
      var p := new bv8[1];
      var r := ReadFull(p);
      return if r.Ok? then Ok(p[0]) else Err(Eof);
    }

    method Write(bs: seq<bv8>)
      requires Valid()
      modifies this`data
      ensures Valid() && data == old(data) + bs
    {
      data := data + bs;
    }
  }

  // A reader's result and the unread input are what Decode says.
  ghost predicate Reads(res: Outcome<Value>, rest: seq<bv8>, spec: Outcome<(Value, seq<bv8>)>) {
    match spec
    case Ok((v, rest')) => res == Ok(v) && rest == rest'
    case Err(e) => res == Err(e)
    case Panic => res == Panic
  }

  // ----- channel status -----

  // The loop over the statuses. It indexes past the bytes that were read when their
  // number has wrapped.
  method UnpackStatus(bs: array<bv8>, status: array<bool>) returns (res: Outcome<()>)
    requires bs as object != status as object
    modifies status
    ensures res == if status.Length <= 8 * bs.Length then Ok(()) else Panic
    ensures res.Ok? ==> status[..] == Unpack(status.Length, bs[..])
  {
    hide BitAt;
    for i := 0 to status.Length
      invariant i <= 8 * bs.Length
      invariant forall k :: 0 <= k < i ==> status[k] == BitAt(bs[k / 8], k % 8)
    {
      if i / 8 >= bs.Length {
        return Panic;
      }
      assert i == 8 * (i / 8) + i % 8 < 8 * bs.Length;
      status[i] := BitAt(bs[i / 8], i % 8);
    }
    return Ok(());
  }

  method ReadChannelStatusField(r: Buffer) returns (res: Outcome<Value>)
    requires r.Valid()
    modifies r`off
    ensures r.Valid() && Reads(res, r.Rest(), Decode(KChannelStatus, old(r.Rest())))
  {
    hide Unpack, StatusSize;
    var count := r.ReadByte();
    if count == Err(Eof) {
      // the field can be skipped
      return Ok(Bools([]));
    }
    var n := count.value;
    StatusSizeIs(n);
    var status := new bool[n as int];
    if n > 0 {
      var bs := new bv8[StatusSize(n)];
      var full := r.ReadFull(bs);
      if !full.Ok? {
        return Err(full.error);
      }
      var unpacked := UnpackStatus(bs, status);
      if unpacked.Panic? {
        return Panic;
      }
    } else {
      UnpackNone();
      assert status[..] == [];
      assert r.Rest()[..0] == [] && r.Rest()[0..] == r.Rest();
    }
    return Ok(Bools(status[..]));
  }

  lemma UnpackNone()
    ensures StatusSize(0) == 0 && Unpack(0, []) == []
  {}

  // One more status in its byte.
  lemma PackMore(status: seq<bool>, i: nat, j: nat)
    requires i < |status|
    ensures PackByte(Chunk(status, j, i + 1)) ==
            if j == i / 8 && status[i] then SetBit(PackByte(Chunk(status, j, i)), i % 8)
            else PackByte(Chunk(status, j, i))
  {
    hide SetBit;
    var more, less := Chunk(status, j, i + 1), Chunk(status, j, i);
    if j == i / 8 {
      assert i == 8 * j + i % 8 && |less| == i % 8 && more == less + [status[i]];
      assert more[..|less|] == less;
    } else {
      assert more == less;
    }
  }

  method WriteChannelStatusField(w: Buffer, status: seq<bool>)
    requires w.Valid()
    modifies w`data
    ensures w.Valid() && w.data == old(w.data) + Encode(KChannelStatus, Bools(status)).value
  {
    hide PackByte, SetBit, Count;
    if |status| == 0 {
      // the field is skipped
      return;
    }
    w.Write([Count(|status|)]);
    var bs := new bv8[(|status| + 7) / 8](_ => 0);
    assert forall j :: 0 <= j < bs.Length ==> Chunk(status, j, 0) == [];
    PackNothing();
    for i := 0 to |status|
      modifies bs
      invariant forall j :: 0 <= j < bs.Length ==> bs[j] == PackByte(Chunk(status, j, i))
    {
      forall j | 0 <= j < bs.Length
        ensures PackByte(Chunk(status, j, i + 1)) ==
          if j == i / 8 && status[i] then SetBit(PackByte(Chunk(status, j, i)), i % 8)
          else PackByte(Chunk(status, j, i))
      {
        PackMore(status, i, j);
      }
      if status[i] {
        bs[i / 8] := SetBit(bs[i / 8], i % 8);
      }
    }
    assert bs[..] == Pack(status);
    w.Write(bs[..]);
  }

  lemma PackNothing()
    ensures PackByte([]) == 0
  {}

  // ----- counted bytes -----

  method ReadStatusBytesField(r: Buffer) returns (res: Outcome<Value>)
    requires r.Valid()
    modifies r`off
    ensures r.Valid() && Reads(res, r.Rest(), Decode(KStatusBytes, old(r.Rest())))
  {
    var count := r.ReadByte();
    if !count.Ok? {
      return Err(count.error);
    }
    var n := count.value;
    StatusSizeIs(n);
    var status := new bv8[n as int];
    if n > 0 {
      var full := r.ReadFull(status);
      if !full.Ok? {
        return Err(full.error);
      }
    } else {
      assert status[..] == [];
    }
    return Ok(Bytes(status[..]));
  }

  method WriteStatusBytesField(w: Buffer, status: seq<bv8>)
    requires w.Valid()
    modifies w`data
    ensures w.Valid() && w.data == old(w.data) + Encode(KStatusBytes, Bytes(status)).value
  {
    w.Write([Count(|status|)]);
    if |status| > 0 {
      w.Write(status);
    }
  }

  // ----- remark and temperature list: whatever is left -----

  method ReadRemarkField(r: Buffer) returns (res: Outcome<Value>)
    requires r.Valid()
    modifies r`off
    ensures r.Valid() && Reads(res, r.Rest(), Decode(KRemark, old(r.Rest())))
  {
    ghost var bs := r.Rest();
    var buf := new bv8[64];
    var n, _ := r.Read(buf);
    assert |bs| < 64 ==> bs[..n] == bs && r.Rest() == [];
    if n == 64 {
      return Err(TooLong);
    }
    return Ok(Bytes(buf[..n]));
  }

  method ReadTemperatureListField(r: Buffer) returns (res: Outcome<Value>)
    requires r.Valid()
    modifies r`off
    ensures r.Valid() && Reads(res, r.Rest(), Decode(KTempList, old(r.Rest())))
  {
    hide Signed;
    ghost var bs := r.Rest();
    var buf := new bv8[8];
    var n, _ := r.Read(buf);
    var temps := new int8[n];
    for i := 0 to n
      modifies temps
      invariant forall k :: 0 <= k < i ==> temps[k] == Signed(buf[k])
    {
      temps[i] := Signed(buf[i]);
    }
    assert temps[..n] == SignedAll(bs[..n]);
    return Ok(Temps(temps[..n]));
  }

  // ----- the mode of each of the sixteen panel buttons -----

  lemma {:induction false} NamesOfTake(bs: seq<bv8>, i: nat)
    requires i < |bs|
    ensures NamesOf(bs[..i + 1]) == NamesOf(bs[..i]) + [ModeName(bs[i])]
  {
    hide ModeName;
  }

  method ReadPanelModesField(r: Buffer) returns (res: Outcome<Value>)
    requires r.Valid()
    modifies r`off
    ensures r.Valid() && Reads(res, r.Rest(), Decode(KModes, old(r.Rest())))
  {
    hide ModeName, NamesOf;
    ghost var bs := r.Rest();
    var names: seq<string> := [];
    assert NamesOf(bs[..0]) == [] by { NamesNil(); }
    for i := 0 to 16
      invariant r.Valid() && i <= |bs| && r.Rest() == bs[i..]
      invariant names == NamesOf(bs[..i])
    {
      var b := r.ReadByte();
      if !b.Ok? {
        return Err(b.error);
      }
      NamesOfTake(bs, i);
      names := names + [ModeName(b.value)];
    }
    assert r.Rest() == bs[16..];
    return Ok(Names(names));
  }

  ghost function Prepend<T>(done: seq<T>, more: Outcome<seq<T>>): Outcome<seq<T>> {
    if more.Ok? then Ok(done + more.value) else more
  }

  lemma PrependLaws<T>(done: seq<T>, part: seq<T>, more: Outcome<seq<T>>)
    ensures Prepend([], more) == more
    ensures Prepend(done, Prepend(part, more)) == Prepend(done + part, more)
  {
    if more.Ok? {
      assert [] + more.value == more.value;
      assert done + (part + more.value) == (done + part) + more.value;
    }
  }

  method WritePanelModesField(w: Buffer, names: seq<string>) returns (res: Outcome<()>)
    requires w.Valid()
    modifies w`data
    ensures w.Valid()
    ensures match EncodeModes(names)
      case Ok(bs) => res == Ok(()) && w.data == old(w.data) + bs
      case Err(e) => res == Err(e)
      case Panic => false
  {
    hide PANEL_MODES, ModeIndex, Prepend;
    ghost var done: seq<bv8> := [];
    ModesAreFew();
    assert names[0..] == names;
    PrependLaws([], [], EncodeModes(names));
    for i := 0 to |names|
      invariant w.Valid() && w.data == old(w.data) + done
      invariant Prepend(done, EncodeModes(names[i..])) == EncodeModes(names)
    {
      var index := ModeIndex(names[i]);
      assert names[i..][0] == names[i] && names[i..][1..] == names[i + 1..];
      ModesStep(names[i..]);
      if index >= |PANEL_MODES| {
        PrependErr(done, Unmapped);
        return Err(Unmapped);
      }
      w.Write([index as bv8]);
      PrependLaws(done, [index as bv8], EncodeModes(names[i + 1..]));
      done := done + [index as bv8];
    }
    PrependOk(done, []);
    return Ok(());
  }

  lemma ModesStep(names: seq<string>)
    requires |names| > 0
    ensures var i := ModeIndex(names[0]);
      EncodeModes(names) == if i < |PANEL_MODES|
          && |PANEL_MODES| == 11 then Prepend([i as bv8], EncodeModes(names[1..])) else Err(Unmapped)
  {
    hide PANEL_MODES, ModeIndex;
    ModesAreFew();
  }

  lemma PrependErr<T>(done: seq<T>, e: Error)
    ensures Prepend(done, Err(e)) == Err(e)
  {}

  lemma PrependOk<T>(done: seq<T>, more: seq<T>)
    ensures Prepend(done, Ok(more)) == Ok(done + more)
  {}

  // ----- one field, by its tag -----

  method WriteTemperatureListField(w: Buffer, temps: seq<int8>) returns (res: Outcome<()>)
    requires w.Valid()
    modifies w`data
    ensures w.Valid()
    ensures if |temps| > 8 then res == Err(TooLong) else res == Ok(()) && w.data == old(w.data) + UnsignedAll(temps)
  {
    if |temps| > 8 {
      return Err(TooLong);
    }
    w.Write(UnsignedAll(temps));
    return Ok(());
  }

  // A byte that stands for something: the reader of uint8converter.
  method ReadOneByte(k: Kind, r: Buffer) returns (res: Outcome<Value>)
    requires k.KUint8? || k.KFlag? || k.KSuccess? || k.KSensorTemp?
    requires r.Valid()
    modifies r`off
    ensures r.Valid() && Reads(res, r.Rest(), Decode(k, old(r.Rest())))
  {
    hide OrUnset;
    var b := r.ReadByte();
    if !b.Ok? {
      return Err(b.error);
    }
    if k.KFlag? {
      return Ok(Bool(OrUnset(FlagFromRaw(b.value))));
    } else if k.KSuccess? {
      return Ok(Bool(OrUnset(SuccessFromRaw(b.value))));
    } else if k.KSensorTemp? {
      return Ok(Int(b.value as int - 20));
    }
    return Ok(Uint8(b.value));
  }

  method ReadBytes(k: Kind, r: Buffer) returns (res: Outcome<Value>)
    requires k.KUint16? || k.KBytes8?
    requires r.Valid()
    modifies r`off
    ensures r.Valid() && Reads(res, r.Rest(), Decode(k, old(r.Rest())))
  {
    hide Word;
    var p := new bv8[if k.KUint16? then 2 else 8];
    var full := r.ReadFull(p);
    if !full.Ok? {
      return Err(full.error);
    }
    return Ok(if k.KUint16? then Uint16(Word(p[0], p[1])) else Bytes(p[..]));
  }

  method ReadField(k: Kind, r: Buffer) returns (res: Outcome<Value>)
    requires r.Valid()
    modifies r`off
    ensures r.Valid() && Reads(res, r.Rest(), Decode(k, old(r.Rest())))
  {
    hide Decode, Reads;
    match k {
      case KUint8 => res := ReadOneByte(k, r);
      case KUint16 => res := ReadBytes(k, r);
      case KBytes8 => res := ReadBytes(k, r);
      case KFlag => res := ReadOneByte(k, r);
      case KSuccess => res := ReadOneByte(k, r);
      case KChannelStatus => res := ReadChannelStatusField(r);
      case KStatusBytes => res := ReadStatusBytesField(r);
      case KModes => res := ReadPanelModesField(r);
      case KRemark => res := ReadRemarkField(r);
      case KTempList => res := ReadTemperatureListField(r);
      case KSensorTemp => res := ReadOneByte(k, r);
    }
  }

  method WriteField(k: Kind, v: Value, w: Buffer) returns (res: Outcome<()>)
    requires HasKind(v, k) && w.Valid()
    modifies w`data
    ensures w.Valid()
    ensures match Encode(k, v)
      case Ok(bs) => res == Ok(()) && w.data == old(w.data) + bs
      case Err(e) => res == Err(e)
      case Panic => false
  {
    hide UnsignedAll, EncodeModes, Count, Pack, Hi, Lo;
    res := Ok(());
    match k {
      case KUint8 => w.Write([v.b]);
      case KUint16 => w.Write([Hi(v.w), Lo(v.w)]);
      case KBytes8 => w.Write(v.bs);
      case KFlag => w.Write([if v.flag then 0x01 else 0x00]);
      case KSuccess => w.Write([if v.flag then 0xf8 else 0xf5]);
      case KChannelStatus => WriteChannelStatusField(w, v.status);
      case KStatusBytes => WriteStatusBytesField(w, v.bs);
      case KModes => res := WritePanelModesField(w, v.names);
      case KRemark =>
        if |v.bs| >= 64 {
          return Err(TooLong);
        }
        w.Write(v.bs);
      case KTempList => res := WriteTemperatureListField(w, v.temps);
      case KSensorTemp =>
        var n := v.i + 20;
        if n < 0 || n > 255 {
          return Err(OutOfRange);
        }
        w.Write([n as bv8]);
    }
  }

  // ----- a whole struct -----

  lemma DecodeStep(layout: seq<Kind>, i: nat, bs: seq<bv8>)
    requires i < |layout|
    ensures DecodeAll(layout[i..], bs) == match Decode(layout[i], bs)
      case Ok((v, rest)) => Prepend([v], DecodeAll(layout[i + 1..], rest))
      case Err(e) => Err(e)
      case Panic => Panic
  {
    hide Decode;
    assert layout[i..][0] == layout[i] && layout[i..][1..] == layout[i + 1..];
  }

  method ParseMessage(r: Buffer, layout: seq<Kind>) returns (res: Outcome<seq<Value>>)
    requires r.Valid()
    modifies r`off
    ensures r.Valid() && res == DecodeAll(layout, old(r.Rest()))
  {
    hide Decode, DecodeAll, Prepend;
    var vs: seq<Value> := [];
    ghost var all := DecodeAll(layout, r.Rest());
    assert layout[0..] == layout;
    PrependLaws([], [], all);
    for i := 0 to |layout|
      invariant r.Valid() && Prepend(vs, DecodeAll(layout[i..], r.Rest())) == all
    {
      DecodeStep(layout, i, r.Rest());
      var v := ReadField(layout[i], r);
      match v {
        case Ok(x) =>
          PrependLaws(vs, [x], DecodeAll(layout[i + 1..], r.Rest()));
          vs := vs + [x];
        case Err(e) =>
          PrependErr(vs, e);
          return Err(e);
        case Panic =>
          PrependPanic(vs);
          return Panic;
      }
    }
    DecodeNone(r.Rest());
    PrependOk(vs, []);
    assert vs + [] == vs && layout[|layout|..] == [];
    return Ok(vs);
  }

  lemma DecodeNone(bs: seq<bv8>)
    ensures DecodeAll([], bs) == Ok([])
  {}

  lemma PrependPanic<T>(done: seq<T>)
    ensures Prepend(done, Panic) == Panic
  {}

  lemma EncodeStep(layout: seq<Kind>, vs: seq<Value>, i: nat)
    requires HasLayout(vs, layout) && i < |layout|
    ensures HasLayout(vs[i..], layout[i..]) && HasLayout(vs[i + 1..], layout[i + 1..])
    ensures EncodeAll(layout[i..], vs[i..]) == match Encode(layout[i], vs[i])
      case Ok(bs) => Prepend(bs, EncodeAll(layout[i + 1..], vs[i + 1..]))
      case Err(e) => Err(e)
      case Panic => Panic
  {
    hide Encode, HasKind;
    assert layout[i..][0] == layout[i] && layout[i..][1..] == layout[i + 1..];
    assert vs[i..][0] == vs[i] && vs[i..][1..] == vs[i + 1..];
  }

  method WriteMessage(w: Buffer, layout: seq<Kind>, vs: seq<Value>) returns (res: Outcome<()>)
    requires w.Valid() && HasLayout(vs, layout)
    modifies w`data
    ensures w.Valid()
    ensures match EncodeAll(layout, vs)
      case Ok(bs) => res == Ok(()) && w.data == old(w.data) + bs
      case Err(e) => res == Err(e)
      case Panic => false
  {
    hide Encode, EncodeAll, Prepend;
    ghost var done: seq<bv8> := [];
    ghost var all := EncodeAll(layout, vs);
    assert layout[0..] == layout && vs[0..] == vs;
    PrependLaws([], [], all);
    for i := 0 to |layout|
      invariant w.Valid() && w.data == old(w.data) + done
      invariant HasLayout(vs[i..], layout[i..])
      invariant Prepend(done, EncodeAll(layout[i..], vs[i..])) == all
    {
      EncodeStep(layout, vs, i);
      var written := WriteField(layout[i], vs[i], w);
      if !written.Ok? {
        PrependErr(done, written.error);
        return written;
      }
      ghost var bs := Encode(layout[i], vs[i]).value;
      PrependLaws(done, bs, EncodeAll(layout[i + 1..], vs[i + 1..]));
      assert (old(w.data) + done) + bs == old(w.data) + (done + bs);
      done := done + bs;
    }
    EncodeNone();
    PrependOk(done, []);
    assert done + [] == done && layout[|layout|..] == [] && vs[|layout|..] == [];
    return Ok(());
  }

  lemma EncodeNone()
    ensures EncodeAll([], []) == Ok([])
  {}
}
