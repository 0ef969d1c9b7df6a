/**
 * WebSocket frame heads (source/lawd/web_sockets.c; sections 5.2 and 5.3 of RFC 6455):
 * what the writers append, what the readers make of it, and the streaming mask.
 */
module WebSocket {
  import opened Connection
  import opened Masking
  import opened Modular
  import opened Slots
  import opened Streams

  /** law_ws_head: fin and opcode are bytes, length is 64 bits, mask is four bytes. */
  datatype Head = Head(fin: nat, opcode: nat, mask: seq<nat>, length: nat)

  predicate IsHead(h: Head) {
    h.fin < 256 && h.opcode < 256 && h.length < WORD && |h.mask| == 4 && IsBytes(h.mask)
  }

  // Network byte order ----------------------------------------------------------------------

  /** The low k bytes of v, most significant first. */
  function BigEndian(v: nat, k: nat): (r: seq<nat>)
    ensures |r| == k && IsBytes(r)
  {
    if k == 0 then [] else BigEndian(v / 256, k - 1) + [v % 256]
  }

  function FromBigEndian(bs: seq<nat>): nat {
    if bs == [] then 0 else 256 * FromBigEndian(bs[..|bs| - 1]) + bs[|bs| - 1]
  }

  lemma {:induction false} BigEndianInverse(v: nat, k: nat)
    requires v < Pow(k)
    ensures FromBigEndian(BigEndian(v, k)) == v
  {
    if k > 0 {
      var bs := BigEndian(v, k);
      assert bs[..k - 1] == BigEndian(v / 256, k - 1);
      BigEndianInverse(v / 256, k - 1);
    }
  }

  lemma DivideTwice(v: nat, p: nat)
    requires p > 0
    ensures v / 256 / p == v / (256 * p)
  {
    var q, r := v / 256 / p, v / 256 % p;
    Split(v / 256, p);
    assert v == 256 * (p * q + r) + v % 256 == (256 * p) * q + (256 * r + v % 256);
    Quotient(v, q, 256 * r + v % 256, 256 * p);
  }

  /** Byte i of k is the digit that weighs 256 to the power k - 1 - i. */
  lemma {:induction false} BigEndianAt(v: nat, k: nat, i: nat)
    requires i < k
    ensures BigEndian(v, k)[i] == v / Pow(k - 1 - i) % 256
  {
    if i < k - 1 {
      BigEndianAt(v / 256, k - 1, i);
      DivideTwice(v, Pow(k - 2 - i));
    }
  }

  /** Byte i of a string of n weighs 256 to the power n - 1 - i. */
  lemma {:induction false} FirstWeighsMost(b: nat, bs: seq<nat>)
    ensures FromBigEndian([b] + bs) == Pow(|bs|) * b + FromBigEndian(bs)
  {
    if bs != [] {
      var n := |bs|;
      assert ([b] + bs)[..n] == [b] + bs[..n - 1];
      FirstWeighsMost(b, bs[..n - 1]);
      assert Pow(n) * b == 256 * (Pow(n - 1) * b);
    } else {
      assert ([b] + bs)[..0] == [];
    }
  }

  /** The value of a 16-bit and of a 64-bit field. */
  lemma FieldValues(bs: seq<nat>)
    ensures |bs| == 2 ==> FromBigEndian(bs) == 256 * bs[0] + bs[1]
    ensures |bs| == 8 ==> FromBigEndian(bs) == Long(bs)
  {
    if |bs| == 2 {
      assert bs == [bs[0]] + ([bs[1]] + []);
      FirstWeighsMost(bs[0], [bs[1]] + []);
      FirstWeighsMost(bs[1], []);
    } else if |bs| == 8 {
      LongValue(bs);
    }
  }

  function Long(bs: seq<nat>): nat
    requires |bs| == 8
  {
    0x100_0000_0000_0000 * bs[0] + 0x1_0000_0000_0000 * bs[1] + 0x100_0000_0000 * bs[2] + 0x1_0000_0000 * bs[3]
    + 0x100_0000 * bs[4] + 0x1_0000 * bs[5] + 0x100 * bs[6] + bs[7]
  }

  lemma LongValue(bs: seq<nat>)
    requires |bs| == 8
    ensures FromBigEndian(bs) == Long(bs)
  {
    assert FromBigEndian(bs[..0]) == 0;
    hide FromBigEndian;
    Horner(bs, 7);
    Horner(bs, 6);
    Horner(bs, 5);
    Horner(bs, 4);
    Horner(bs, 3);
    Horner(bs, 2);
    Horner(bs, 1);
    Horner(bs, 0);
    assert bs[..8] == bs;
  }

  lemma Horner(bs: seq<nat>, k: nat)
    requires k < |bs|
    ensures FromBigEndian(bs[..k + 1]) == 256 * FromBigEndian(bs[..k]) + bs[k]
  {
    assert bs[..k + 1][..k] == bs[..k];
  }

  lemma Powers()
    ensures Pow(2) == 65536 && Pow(8) == WORD
  {
  }

  // Writing ---------------------------------------------------------------------------------

  /** ((1 & fin) << 7) | opcode */
  function FirstByte(fin: nat, opcode: nat): nat {
    if opcode >= 128 then opcode else 128 * (fin % 2) + opcode
  }

  /** The bytes of a head. */
  function HeadBytes(h: Head): seq<nat> {
    if h.length <= 125 then [FirstByte(h.fin, h.opcode), 128 + h.length] + h.mask
    else if h.length <= 65535 then [FirstByte(h.fin, h.opcode), 128 + 126] + BigEndian(h.length, 2) + h.mask
    else [FirstByte(h.fin, h.opcode), 128 + 127] + BigEndian(h.length, 8) + h.mask
  }

  /** The bytes of a head, field by field, as section 5.2 of RFC 6455 lays them out. */
  ghost predicate LaidOut(h: Head, s: seq<nat>) {
    && |s| == (if h.length <= 125 then 6 else if h.length <= 65535 then 8 else 14)
    && s[0] == (if h.opcode < 128 then 128 * (h.fin % 2) + h.opcode else h.opcode)
    && s[|s| - 4..] == h.mask
    && (h.length <= 125 ==> s[1] == 128 + h.length)
    && (125 < h.length <= 65535 ==> s[1] == 254 && s[2] == h.length / 256 && s[3] == h.length % 256)
    && (65535 < h.length ==> s[1] == 255 && s[2..10] == LongBytes(h.length))
  }

  lemma HeadBytesAreLaidOut(h: Head)
    requires IsHead(h)
    ensures LaidOut(h, HeadBytes(h))
  {
    hide BigEndian, LongBytes;
    var s := HeadBytes(h);
    if 125 < h.length <= 65535 {
      ShortIs(h.length);
    } else if 65535 < h.length {
      LongIs(h.length);
      assert s[2..10] == BigEndian(h.length, 8);
    }
  }

  lemma ShortIs(v: nat)
    requires v <= 65535
    ensures BigEndian(v, 2)[0] == v / 256 && BigEndian(v, 2)[1] == v % 256
  {
    BigEndianAt(v, 2, 0);
    BigEndianAt(v, 2, 1);
  }

  lemma LongIs(v: nat)
    ensures BigEndian(v, 8) == LongBytes(v)
  {
    forall i: nat | i < 8 ensures BigEndian(v, 8)[i] == LongBytes(v)[i] {
      BigEndianAt(v, 8, i);
      PowerValues();
    }
  }

  lemma PowerValues()
    ensures Pow(0) == 1 && Pow(1) == 0x100 && Pow(2) == 0x1_0000 && Pow(3) == 0x100_0000 && Pow(4) == 0x1_0000_0000
    ensures Pow(5) == 0x100_0000_0000 && Pow(6) == 0x1_0000_0000_0000 && Pow(7) == 0x100_0000_0000_0000
  {
  }

  /** A 64-bit value, digit by digit. */
  function LongBytes(v: nat): seq<nat> {
    [v / 0x100_0000_0000_0000 % 256, v / 0x1_0000_0000_0000 % 256, v / 0x100_0000_0000 % 256,
     v / 0x1_0000_0000 % 256, v / 0x100_0000 % 256, v / 0x1_0000 % 256, v / 0x100 % 256, v % 256]
  }

  /** The result of a write of n bytes: OK if there is room for them after the write they may need. */
  function WriteResult(max: nat, n: nat, room: int, r: Response): Code {
    if n > max then OOB else if room >= n then OK else if r.Refuse? then r.code else if r.n == 0 then OOB else WANTW
  }

  /** A write that wrote nothing let law_htc_ensure_output pass with too little room for n bytes. */
  predicate Starved(room: int, n: nat, r: Response) { room < n && r == Ready(0) }

  /** law_ws_write_head_small. */
  method WriteSmall(out: Output, h: Head, r: Response) returns (c: Code)
    requires out.Valid() && WriteResponse(r) && IsHead(h) && h.length <= 125
    modifies out`delivered, out.buf`offset, out.buf`end, out.buf`stream, out.buf.data
    ensures out.Valid()
    ensures c == WriteResult(out.buf.data.Length, 6, old(out.RoomFor(6, r)), r)
    ensures old(out.buf.stream) <= out.buf.stream <= old(out.buf.stream) + HeadBytes(h)
    ensures c == OK ==>
              && out.buf.stream == old(out.buf.stream) + HeadBytes(h)
              && LaidOut(h, out.buf.stream[|old(out.buf.stream)|..])
    ensures c != OK && out.buf.stream != old(out.buf.stream) <==>
              6 <= out.buf.data.Length && old(out.Room()) >= 2 && Starved(old(out.Room()), 6, r)
  {
    hide BigEndian, Output.Valid, IsBytes, LaidOut;
    HeadBytesAreLaidOut(h);
    c := out.Ensure(6, r);
    if c != OK { return c; }
    c := out.Put([FirstByte(h.fin, h.opcode), 128 + h.length]);
    if c != OK { return c; }
    c := out.Put(h.mask);
  }

  /** law_ws_write_head_medium. */
  method WriteMedium(out: Output, h: Head, r: Response) returns (c: Code)
    requires out.Valid() && WriteResponse(r) && IsHead(h) && 125 < h.length <= 65535
    modifies out`delivered, out.buf`offset, out.buf`end, out.buf`stream, out.buf.data
    ensures out.Valid()
    ensures c == WriteResult(out.buf.data.Length, 8, old(out.RoomFor(8, r)), r)
    ensures old(out.buf.stream) <= out.buf.stream <= old(out.buf.stream) + HeadBytes(h)
    ensures c == OK ==>
              && out.buf.stream == old(out.buf.stream) + HeadBytes(h)
              && LaidOut(h, out.buf.stream[|old(out.buf.stream)|..])
    ensures c != OK && out.buf.stream != old(out.buf.stream) <==>
              8 <= out.buf.data.Length && old(out.Room()) >= 2 && Starved(old(out.Room()), 8, r)
  {
    hide BigEndian, Output.Valid, IsBytes, LaidOut;
    HeadBytesAreLaidOut(h);
    c := out.Ensure(8, r);
    if c != OK { return c; }
    c := out.Put([FirstByte(h.fin, h.opcode), 128 + 126]);
    if c != OK { return c; }
    c := out.Put(BigEndian(h.length, 2));
    if c != OK { return c; }
    c := out.Put(h.mask);
  }

  /** law_ws_write_head_large. */
  method WriteLarge(out: Output, h: Head, r: Response) returns (c: Code)
    requires out.Valid() && WriteResponse(r) && IsHead(h) && 65535 < h.length
    modifies out`delivered, out.buf`offset, out.buf`end, out.buf`stream, out.buf.data
    ensures out.Valid()
    ensures c == WriteResult(out.buf.data.Length, 14, old(out.RoomFor(14, r)), r)
    ensures old(out.buf.stream) <= out.buf.stream <= old(out.buf.stream) + HeadBytes(h)
    ensures c == OK ==>
              && out.buf.stream == old(out.buf.stream) + HeadBytes(h)
              && LaidOut(h, out.buf.stream[|old(out.buf.stream)|..])
    ensures c != OK && out.buf.stream != old(out.buf.stream) <==>
              14 <= out.buf.data.Length && old(out.Room()) >= 2 && Starved(old(out.Room()), 14, r)
  {
    hide BigEndian, Output.Valid, IsBytes, LaidOut;
    HeadBytesAreLaidOut(h);
    c := out.Ensure(14, r);
    if c != OK { return c; }
    c := out.Put([FirstByte(h.fin, h.opcode), 128 + 127]);
    if c != OK { return c; }
    c := out.Put(BigEndian(h.length, 8));
    if c != OK { return c; }
    c := out.Put(h.mask);
  }

  /**
   * law_ws_write_head appends the whole head when it reports OK.  Otherwise it appends
   * nothing, except that it leaves part of a head behind exactly when the write inside
   * law_htc_ensure_output wrote nothing and there was room for two bytes but not for all.
   */
  method WriteHead(out: Output, h: Head, r: Response) returns (c: Code)
    requires out.Valid() && WriteResponse(r) && IsHead(h)
    modifies out`delivered, out.buf`offset, out.buf`end, out.buf`stream, out.buf.data
    ensures out.Valid()
    ensures c == WriteResult(out.buf.data.Length, |HeadBytes(h)|, old(out.RoomFor(|HeadBytes(h)|, r)), r)
    ensures old(out.buf.stream) <= out.buf.stream <= old(out.buf.stream) + HeadBytes(h)
    ensures c == OK ==>
              && out.buf.stream == old(out.buf.stream) + HeadBytes(h)
              && LaidOut(h, out.buf.stream[|old(out.buf.stream)|..])
    ensures c != OK && out.buf.stream != old(out.buf.stream) <==>
              && |HeadBytes(h)| <= out.buf.data.Length
              && old(out.Room()) >= 2 && Starved(old(out.Room()), |HeadBytes(h)|, r)
  {
    if h.length <= 125 {
      c := WriteSmall(out, h, r);
    } else if h.length <= 65535 {
      c := WriteMedium(out, h, r);
    } else {
      c := WriteLarge(out, h, r);
    }
  }

  // Reading ---------------------------------------------------------------------------------

  /** What law_ws_read_head_start stores when the mask bit is set. */
  function Started(h: Head, b0: nat, b1: nat): Head {
    h.(fin := b0 / 128, opcode := b0 % 16, length := b1 % 128)
  }

  /** law_ws_read_head_start: an unmasked head is an error that has consumed its two bytes. */
  method ReadStart(input: Input, h: Head, r: Response, net: seq<nat>) returns (c: Code, h': Head)
    requires input.buf.Valid() && input.Offers(r, net)
    modifies input.buf`offset, input.buf`end, input.buf.data
    ensures input.buf.Valid()
    ensures var (e, p) := EnsureInput(old(input.buf.Where()), input.buf.data.Length, 2, r);
            if e != OK then c == e && h' == h && input.buf.Where() == p
            else
              && input.buf.Where() == Pos(p.offset + 2, p.end) && p.offset + 2 <= p.end
              && var b0, b1 := input.buf.stream[p.offset], input.buf.stream[p.offset + 1];
                 if b1 / 128 % 2 == 0 then c == WS && h' == h.(fin := b0 / 128, opcode := b0 % 16)
                 else c == OK && h' == h.(fin := b0 / 128, opcode := b0 % 16, length := b1 % 128)
  {
    c := input.Ensure(2, r, net);
    if c != OK { return c, h; }
    var bytes;
    c, bytes := input.buf.Get(2);
    h' := h.(fin := bytes[0] / 128, opcode := bytes[0] % 16);
    if bytes[1] / 128 % 2 == 0 { return WS, h'; }
    return OK, h'.(length := bytes[1] % 128);
  }

  /** What the reader chosen by the start's length needs and stores. */
  function RestSize(h: Head): nat { if h.length <= 125 then 4 else if h.length == 126 then 6 else 12 }

  /** The large reader decodes the length and drops it; the intended one keeps it. */
  function Finished(h: Head, s: seq<nat>, keeps: bool): Head
    requires |s| >= RestSize(h)
  {
    if h.length <= 125 then h.(mask := s[..4])
    else if h.length == 126 then h.(length := FromBigEndian(s[..2]), mask := s[2..6])
    else if keeps then h.(length := FromBigEndian(s[..8]), mask := s[8..12])
    else h.(mask := s[8..12])
  }

  /** law_ws_read_head_small. */
  method ReadSmall(input: Input, h: Head, r: Response, net: seq<nat>) returns (c: Code, h': Head)
    requires input.buf.Valid() && input.Offers(r, net)
    modifies input.buf`offset, input.buf`end, input.buf.data
    ensures input.buf.Valid()
    ensures var (e, p) := EnsureInput(old(input.buf.Where()), input.buf.data.Length, 4, r);
            if e != OK then c == e && h' == h && input.buf.Where() == p
            else
              && c == OK && input.buf.Where() == Pos(p.offset + 4, p.end) && p.offset + 4 <= p.end
              && h' == h.(mask := input.buf.stream[p.offset..p.offset + 4])
  {
    h' := h;
    c := input.Ensure(4, r, net);
    if c != OK { return c, h; }
    var bytes;
    c, bytes := input.buf.Get(4);
    h' := h.(mask := bytes);
  }

  /** law_ws_read_head_medium: two bytes of length, then the mask. */
  method ReadMedium(input: Input, h: Head, r: Response, net: seq<nat>) returns (c: Code, h': Head)
    requires input.buf.Valid() && input.Offers(r, net)
    modifies input.buf`offset, input.buf`end, input.buf.data
    ensures input.buf.Valid()
    ensures var (e, p) := EnsureInput(old(input.buf.Where()), input.buf.data.Length, 6, r);
            if e != OK then c == e && h' == h && input.buf.Where() == p
            else
              && c == OK && input.buf.Where() == Pos(p.offset + 6, p.end) && p.offset + 6 <= p.end
              && h' == h.(length := 256 * input.buf.stream[p.offset] + input.buf.stream[p.offset + 1],
                          mask := input.buf.stream[p.offset + 2..p.offset + 6])
  {
    hide FromBigEndian;
    h' := h;
    c := input.Ensure(6, r, net);
    if c != OK { return c, h; }
    var bytes;
    c, bytes := input.buf.Get(2);
    FieldValues(bytes);
    h' := h.(length := FromBigEndian(bytes));
    c, bytes := input.buf.Get(4);
    h' := h'.(mask := bytes);
  }

  /** law_ws_read_head_large: eight bytes of length, decoded and dropped, then the mask. */
  method ReadLarge(input: Input, h: Head, r: Response, net: seq<nat>) returns (c: Code, h': Head)
    requires input.buf.Valid() && input.Offers(r, net)
    modifies input.buf`offset, input.buf`end, input.buf.data
    ensures input.buf.Valid()
    ensures var (e, p) := EnsureInput(old(input.buf.Where()), input.buf.data.Length, 12, r);
            if e != OK then c == e && h' == h && input.buf.Where() == p
            else
              && c == OK && input.buf.Where() == Pos(p.offset + 12, p.end) && p.offset + 12 <= p.end
              && h' == h.(mask := input.buf.stream[p.offset + 8..p.offset + 12])
  {
    h' := h;
    c := input.Ensure(12, r, net);
    if c != OK { return c, h; }
    var bytes;
    c, bytes := input.buf.Get(8);
    var length := FromBigEndian(bytes);
    c, bytes := input.buf.Get(4);
    h' := h.(mask := bytes);
  }

  /** The reader that the start's length selects stores what Finished says. */
  method ReadRest(input: Input, h: Head, r: Response, net: seq<nat>) returns (c: Code, h': Head)
    requires input.buf.Valid() && input.Offers(r, net)
    modifies input.buf`offset, input.buf`end, input.buf.data
    ensures input.buf.Valid()
    ensures var (e, p) := EnsureInput(old(input.buf.Where()), input.buf.data.Length, RestSize(h), r);
            if e != OK then c == e && h' == h && input.buf.Where() == p
            else
              && c == OK && input.buf.Where() == Pos(p.offset + RestSize(h), p.end) && p.offset + RestSize(h) <= p.end
              && h' == Finished(h, input.buf.stream[p.offset..p.offset + RestSize(h)], false)
  {
    hide EnsureInput, FromBigEndian;
    ghost var p := EnsureInput(input.buf.Where(), input.buf.data.Length, RestSize(h), r).1;
    if h.length <= 125 {
      c, h' := ReadSmall(input, h, r, net);
    } else if h.length == 126 {
      c, h' := ReadMedium(input, h, r, net);
    } else {
      c, h' := ReadLarge(input, h, r, net);
    }
    if c == OK {
      ghost var o, n := p.offset, RestSize(h);
      ghost var s := input.buf.stream[o..o + n];
      if n == 6 { FieldValues(s[..2]); }
      assert n == 6 ==> s[..2] == input.buf.stream[o..o + 2] && s[2..6] == input.buf.stream[o + 2..o + 6];
      assert n == 12 ==> s[8..12] == input.buf.stream[o + 8..o + 12];
      assert n == 4 ==> s[..4] == s;
    }
  }

  /** Reading a head from the front of a stream: the head and the bytes it took. */
  datatype Decoded = Whole(head: Head, size: nat) | Short | Unmasked

  function Decode(s: seq<nat>, keeps: bool): Decoded {
    if |s| < 2 then Short
    else if s[1] / 128 % 2 == 0 then Unmasked
    else
      var h := Started(Head(0, 0, [], 0), s[0], s[1]);
      if |s| < 2 + RestSize(h) then Short
      else Whole(Finished(h, s[2..2 + RestSize(h)], keeps), 2 + RestSize(h))
  }

  /**
   * What the decoder takes whole, byte by byte: the fields of section 5.2 of RFC 6455, the
   * length in network byte order.  As the large reader is, a 64-bit length comes out as 127.
   */
  lemma DecodeIs(s: seq<nat>, h: Head, size: nat)
    requires IsBytes(s)
    ensures Decode(s, true) == Whole(h, size) <==>
              && 2 <= |s| && s[1] >= 128 && h.fin == s[0] / 128 && h.opcode == s[0] % 16
              && size == (if s[1] == 254 then 8 else if s[1] == 255 then 14 else 6) <= |s|
              && h.mask == s[size - 4..size]
              && h.length ==
                   if s[1] == 254 then 256 * s[2] + s[3] else if s[1] == 255 then Long(s[2..10]) else s[1] - 128
    ensures Decode(s, true) == Whole(h, size) ==>
              Decode(s, false) == Whole(if s[1] == 255 then h.(length := 127) else h, size)
    ensures Decode(s, false).Whole? <==> Decode(s, true).Whole?
    ensures forall keeps :: Decode(s, keeps).Unmasked? <==> 2 <= |s| && s[1] < 128
  {
    hide FromBigEndian, Long;
    if 2 <= |s| && s[1] >= 128 {
      var a := Started(Head(0, 0, [], 0), s[0], s[1]);
      var n := 2 + RestSize(a);
      assert a.length == s[1] - 128;
      assert n == if s[1] == 254 then 8 else if s[1] == 255 then 14 else 6;
      if n <= |s| {
        var rest := s[2..n];
        assert rest[n - 6..] == s[n - 4..n];
        if n == 8 {
          FieldValues(rest[..2]);
          assert rest[..2] == s[2..4];
        } else if n == 14 {
          FieldValues(rest[..8]);
          assert rest[..8] == s[2..10];
        }
        assert n == 6 ==> rest[..4] == s[2..6];
        assert n == 8 ==> rest[2..6] == s[4..8];
        assert n == 14 ==> rest[8..12] == s[10..14];
      }
    }
  }

  /** What reading a written head gives, whatever follows it. */
  lemma ReadBack(h: Head, tail: seq<nat>, keeps: bool)
    requires IsHead(h)
    ensures Decode(HeadBytes(h) + tail, keeps) ==
            Whole(Head(FirstByte(h.fin, h.opcode) / 128, h.opcode % 16, h.mask,
                       if keeps || h.length <= 65535 then h.length else 127), |HeadBytes(h)|)
  {
    hide BigEndian, FromBigEndian, Slots.Pow;
    var s := HeadBytes(h) + tail;
    var n := |HeadBytes(h)|;
    assert s[0] == FirstByte(h.fin, h.opcode) && s[1] / 128 == 1;
    var rest := s[2..n];
    Powers();
    if 125 < h.length <= 65535 {
      var be := BigEndian(h.length, 2);
      assert rest == be + h.mask;
      TwoParts(be, h.mask);
      BigEndianInverse(h.length, 2);
    } else if h.length > 65535 {
      var be := BigEndian(h.length, 8);
      assert rest == be + h.mask;
      TwoParts(be, h.mask);
      BigEndianInverse(h.length, 8);
    } else {
      assert rest == h.mask && rest[..4] == rest;
    }
  }

  lemma TwoParts(a: seq<nat>, b: seq<nat>)
    ensures (a + b)[..|a|] == a && (a + b)[|a|..|a| + |b|] == b
  {
  }

  /**
   * The round trip holds exactly for a one-bit fin, a four-bit opcode and a payload of at
   * most 65535 bytes; for every 64-bit length once the large reader keeps what it decodes.
   */
  lemma HeadsRoundTrip(h: Head, tail: seq<nat>)
    requires IsHead(h)
    ensures Decode(HeadBytes(h) + tail, false) == Whole(h, |HeadBytes(h)|) <==>
              h.fin <= 1 && h.opcode < 16 && h.length <= 65535
    ensures Decode(HeadBytes(h) + tail, true) == Whole(h, |HeadBytes(h)|) <==> h.fin <= 1 && h.opcode < 16
  {
    ReadBack(h, tail, false);
    ReadBack(h, tail, true);
  }

  /** The decoder of whole heads is the start and the reader it selects, one after the other. */
  lemma DecodeInSteps(s: seq<nat>, o: nat, h: Head, keeps: bool)
    requires o + 2 <= |s| && s[o + 1] / 128 % 2 == 1
    ensures var a := Started(h, s[o], s[o + 1]);
            Decode(s[o..], keeps) ==
              if o + 2 + RestSize(a) > |s| then Short
              else Whole(Finished(a, s[o + 2..o + 2 + RestSize(a)], keeps), 2 + RestSize(a))
  {
    var a := Started(h, s[o], s[o + 1]);
    if o + 2 + RestSize(a) <= |s| {
      assert s[o..][2..2 + RestSize(a)] == s[o + 2..o + 2 + RestSize(a)];
    }
  }

  /** A kernel that answers any read of the stream as it can. */
  ghost predicate Serves(kernel: Pos -> (Response, seq<nat>), stream: seq<nat>) {
    forall p: Pos :: p.end <= |stream| ==>
      && ReadResponse(kernel(p).0, p, |stream|)
      && (kernel(p).0.Ready? ==> kernel(p).1 == stream[p.end..p.end + kernel(p).0.n])
  }

  /**
   * law_ws_read_head with one try of each reader: if both succeed, the head is the one the
   * decoder finds at the offset, and its bytes are consumed.  So if a head was written
   * there, exactly the heads of the round trip are read back.
   */
  method ReadHead(input: Input, h: Head, kernel: Pos -> (Response, seq<nat>)) returns (c: Code, h': Head)
    requires input.buf.Valid() && Serves(kernel, input.buf.stream)
    modifies input.buf`offset, input.buf`end, input.buf.data
    ensures input.buf.Valid()
    ensures var s, o := input.buf.stream, old(input.buf.offset);
            c == OK ==>
              && o <= input.buf.offset <= |s| && Decode(s[o..], false) == Whole(h', input.buf.offset - o)
              && forall w: Head, tail :: IsHead(w) && s[o..] == HeadBytes(w) + tail ==>
                   && input.buf.offset == o + |HeadBytes(w)|
                   && (h' == w <==> w.fin <= 1 && w.opcode < 16 && w.length <= 65535)
    ensures var s, max, p := input.buf.stream, input.buf.data.Length, old(input.buf.Where());
            var (c1, q) := EnsureInput(p, max, 2, kernel(p).0);
            if c1 != OK then c == c1
            else
              && q.offset + 2 <= q.end <= |s|
              && if s[q.offset + 1] / 128 % 2 == 0 then c == WS
                 else
                   var p2, a := Pos(q.offset + 2, q.end), Started(h, s[q.offset], s[q.offset + 1]);
                   Fits(p2, max) && c == EnsureInput(p2, max, RestSize(a), kernel(p2).0).0
  {
    hide EnsureInput, FromBigEndian, HeadBytes, Decode, Finished;
    ghost var s, o := input.buf.stream, input.buf.offset;
    var p := input.buf.Where();
    EnsureKeepsOffset(p, input.buf.data.Length, 2, kernel(p).0);
    c, h' := ReadStart(input, h, kernel(p).0, kernel(p).1);
    if c != OK { return c, h'; }
    ghost var a := h';
    p := input.buf.Where();
    EnsureKeepsOffset(p, input.buf.data.Length, RestSize(a), kernel(p).0);
    c, h' := ReadRest(input, h', kernel(p).0, kernel(p).1);
    if c != OK { return c, h'; }
    DecodeInSteps(s, o, h, false);
    forall w: Head, tail | IsHead(w) && s[o..] == HeadBytes(w) + tail
      ensures input.buf.offset == o + |HeadBytes(w)|
      ensures h' == w <==> w.fin <= 1 && w.opcode < 16 && w.length <= 65535
    {
      ReadBack(w, tail, false);
      HeadsRoundTrip(w, tail);
    }
  }

  lemma EnsureKeepsOffset(p: Pos, max: nat, n: nat, r: Response)
    requires Fits(p, max)
    ensures EnsureInput(p, max, n, r).1.offset == p.offset
  {
  }

  /** No head is a proper prefix of another, and heads with equal bytes are equal. */
  lemma HeadsArePrefixFree(a: Head, b: Head, tail: seq<nat>, tail': seq<nat>)
    requires IsHead(a) && IsHead(b) && a.fin <= 1 && b.fin <= 1 && a.opcode < 16 && b.opcode < 16
    requires HeadBytes(a) + tail == HeadBytes(b) + tail'
    ensures a == b && tail == tail'
  {
    HeadsRoundTrip(a, tail);
    HeadsRoundTrip(b, tail');
    assert tail == (HeadBytes(a) + tail)[|HeadBytes(a)|..];
    assert tail' == (HeadBytes(b) + tail')[|HeadBytes(b)|..];
  }

  lemma {:induction false} FromBigEndianBound(bs: seq<nat>)
    requires IsBytes(bs)
    ensures FromBigEndian(bs) < Pow(|bs|)
  {
    if bs != [] { FromBigEndianBound(bs[..|bs| - 1]); }
  }

  /** Any bytes that read as the head h take at least the bytes that are written for h. */
  lemma HeadsAreShortest(s: seq<nat>, h: Head, size: nat)
    requires IsBytes(s)
    requires Decode(s, true) == Whole(h, size)
    ensures IsHead(h) && |HeadBytes(h)| <= size
  {
    Powers();
    var start := Started(Head(0, 0, [], 0), s[0], s[1]);
    var rest := s[2..2 + RestSize(start)];
    assert IsBytes(rest) && IsBytes(h.mask) by { assert forall i :: 0 <= i < |rest| ==> rest[i] == s[2 + i]; }
    if start.length == 126 {
      FromBigEndianBound(rest[..2]);
    } else if start.length > 126 {
      FromBigEndianBound(rest[..8]);
    }
  }
}
