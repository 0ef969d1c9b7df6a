/**
 * Event slots: a 56-bit task id and 8 bits of user data packed into the 64-bit
 * word that epoll carries, and the generator of task ids (source/lawd/server.c).
 */
module Slots {
  import opened Modular
  import Worker

  /** law_slot_t, whose data field is an int8_t. */
  datatype Slot = Slot(id: nat, data: int)

  predicate IsSlot(s: Slot) { s.id < Worker.IDS && -128 <= s.data < 128 }

  function ToU8(x: int): nat
    requires -128 <= x < 128
  {
    if x < 0 then x + 256 else x
  }

  function ToI8(b: nat): int
    requires b < 256
  {
    if b < 128 then b else b - 256
  }

  function Pow(n: nat): (r: nat)
    ensures r > 0
  {
    if n == 0 then 1 else 256 * Pow(n - 1)
  }

  predicate IsBytes(bs: seq<nat>) { forall i :: 0 <= i < |bs| ==> bs[i] < 256 }

  /** The value of a byte string in little-endian order. */
  function Value(bs: seq<nat>): nat { if bs == [] then 0 else bs[0] + 256 * Value(bs[1..]) }

  /** The slot a word stands for. */
  function Unpack(word: nat): Slot { Slot(word / 256, ToI8(word % 256)) }

  lemma {:induction false} ValueSnoc(bs: seq<nat>, b: nat)
    ensures Value(bs + [b]) == Value(bs) + Pow(|bs|) * b
  {
    if bs != [] {
      assert (bs + [b])[1..] == bs[1..] + [b];
      ValueSnoc(bs[1..], b);
    }
  }

  lemma {:induction false} ValueBound(bs: seq<nat>)
    requires IsBytes(bs)
    ensures Value(bs) < Pow(|bs|)
  {
    if bs != [] { ValueBound(bs[1..]); }
  }

  /** Two byte strings of one length with equal values are equal. */
  lemma {:induction false} ValueInjective(a: seq<nat>, b: seq<nat>)
    requires IsBytes(a) && IsBytes(b) && |a| == |b| && Value(a) == Value(b)
    ensures a == b
  {
    if a != [] {
      assert a[0] == Value(a) % 256 && b[0] == Value(b) % 256;
      ValueInjective(a[1..], b[1..]);
      assert a == [a[0]] + a[1..] && b == [b[0]] + b[1..];
    }
  }

  lemma Digit(p: nat, id: nat)
    ensures p * (id % 256) + 256 * p * (id / 256) == p * id
  {
    assert id == id % 256 + 256 * (id / 256);
    assert p * id == p * (id % 256) + p * (256 * (id / 256));
  }

  /** The word for a slot, as the bytes law_slot_encode writes make it. */
  function Pack(s: Slot): nat
    requires IsSlot(s)
  {
    ToU8(s.data) + 256 * s.id
  }

  /** Slots and 64-bit words correspond one to one, and only slot (0, 0) is the zero word. */
  lemma SlotBijection(s: Slot, word: nat)
    requires IsSlot(s) && word < 256 * Worker.IDS
    ensures Pack(s) < 256 * Worker.IDS && Unpack(Pack(s)) == s
    ensures IsSlot(Unpack(word)) && Pack(Unpack(word)) == word
    ensures Pack(s) == 0 <==> s == Slot(0, 0)
  {
    assert (ToU8(s.data) + 256 * s.id) / 256 == s.id;
    assert (ToU8(s.data) + 256 * s.id) % 256 == ToU8(s.data);
  }

  lemma EncodeStart(slot: Slot)
    requires IsSlot(slot)
    ensures Value([ToU8(slot.data)]) + Pow(1) * slot.id == Pack(slot)
  {
  }

  lemma EncodeStep(done: seq<nat>, id: nat)
    ensures Value(done + [id % 256]) + Pow(|done| + 1) * (id / 256) == Value(done) + Pow(|done|) * id
  {
    ValueSnoc(done, id % 256);
    Digit(Pow(|done|), id);
  }

  lemma EightBytes()
    ensures Pow(8) == 256 * Worker.IDS
  {
    assert Pow(4) == 0x1_0000_0000;
  }

  lemma NothingLeft(v: nat, p: nat, id: nat, w: nat)
    requires v + p * id == w < p
    ensures v == w
  {
    if id > 0 { assert p * id == p + p * (id - 1); }
  }

  lemma EncodeEnd(bytes: seq<nat>, id: nat, slot: Slot)
    requires IsSlot(slot) && Value(bytes) + Pow(8) * id == Pack(slot)
    ensures Unpack(Value(bytes)) == slot
  {
    hide Value, Pow, Pack, Unpack;
    EightBytes();
    SlotBijection(slot, 0);
    NothingLeft(Value(bytes), Pow(8), id, Pack(slot));
  }

  lemma NextDigit(v: nat, p: nat)
    requires p > 0
    ensures v / p / 256 == v / (256 * p)
  {
    var q, r := v / p / 256, v / p % 256;
    Split(v, p);
    assert v == p * (256 * q + r) + v % p == (256 * p) * q + (p * r + v % p);
    assert p * r + v % p < 256 * p by { MulMono(p, r, 256); }
    Quotient(v, q, p * r + v % p, 256 * p);
  }

  /** law_slot_encode: the data byte, then the id's digits from the lowest up; the word unpacks to the slot. */
  method Encode(slot: Slot) returns (bytes: array<nat>)
    requires IsSlot(slot)
    ensures bytes.Length == 8 && IsBytes(bytes[..])
    ensures bytes[0] == if slot.data < 0 then 256 + slot.data else slot.data
    ensures forall i :: 1 <= i < 8 ==> bytes[i] == slot.id / Pow(i - 1) % 256
    ensures Unpack(Value(bytes[..])) == slot
  {
    assert Pow(0) == 1 && forall x: nat :: x > 0 ==> Pow(x) == 256 * Pow(x - 1);
    hide Unpack, Value, Pow, Pack;
    bytes := new nat[8];
    bytes[0] := ToU8(slot.data);
    var id := slot.id;
    var x := 1;
    assert bytes[..1] == [ToU8(slot.data)];
    EncodeStart(slot);
    while x < 8
      invariant 1 <= x <= 8 && bytes.Length == 8
      invariant IsBytes(bytes[..x]) && bytes[0] == ToU8(slot.data)
      invariant id == slot.id / Pow(x - 1)
      invariant forall i :: 1 <= i < x ==> bytes[i] == slot.id / Pow(i - 1) % 256
      invariant Value(bytes[..x]) + Pow(x) * id == Pack(slot)
    {
      ghost var done := bytes[..x];
      bytes[x] := id % 256;
      assert bytes[..x + 1] == done + [id % 256];
      EncodeStep(done, id);
      NextDigit(slot.id, Pow(x - 1));
      id := id / 256;
      x := x + 1;
    }
    assert bytes[..8] == bytes[..];
    EncodeEnd(bytes[..], id, slot);
  }

  lemma SevenBytes(s: seq<nat>)
    requires |s| == 7
    ensures Value(s) == s[0] + 0x100 * s[1] + 0x1_0000 * s[2] + 0x100_0000 * s[3]
                        + 0x1_0000_0000 * s[4] + 0x100_0000_0000 * s[5] + 0x1_0000_0000_0000 * s[6]
  {
    assert Value([]) == 0 && s[7..] == [];
    assert forall k: nat :: k < 7 ==> s[k..][1..] == s[k + 1..];
    assert Value(s) == s[0] + 256 * Value(s[1..]);
    assert Value(s[1..]) == s[1] + 256 * Value(s[2..]);
    assert Value(s[2..]) == s[2] + 256 * Value(s[3..]);
    assert Value(s[3..]) == s[3] + 256 * Value(s[4..]);
    assert Value(s[4..]) == s[4] + 256 * Value(s[5..]);
    assert Value(s[5..]) == s[5] + 256 * Value(s[6..]);
    assert Value(s[6..]) == s[6] + 256 * Value(s[7..]);
  }

  /** law_slot_decode: the slot of the word those eight bytes are. */
  method Decode(bytes: array<nat>) returns (slot: Slot)
    requires bytes.Length == 8 && IsBytes(bytes[..])
    ensures slot == Unpack(Value(bytes[..])) && IsSlot(slot)
    ensures var b: int := bytes[0]; slot.data == if b < 128 then b else b - 256
    ensures slot.id == bytes[1] + 0x100 * bytes[2] + 0x1_0000 * bytes[3] + 0x100_0000 * bytes[4]
                       + 0x1_0000_0000 * bytes[5] + 0x100_0000_0000 * bytes[6] + 0x1_0000_0000_0000 * bytes[7]
  {
    var data := ToI8(bytes[0]);
    var id, pow := 0, 1;
    var x := 0;
    while x < 7
      invariant 0 <= x <= 7 && pow == Pow(x)
      invariant id == Value(bytes[1..x + 1])
    {
      ghost var done := bytes[1..x + 1];
      id := id + bytes[x + 1] * pow;
      pow := pow * 256;
      assert bytes[1..x + 2] == done + [bytes[x + 1]];
      ValueSnoc(done, bytes[x + 1]);
      x := x + 1;
    }
    slot := Slot(id, data);
    assert bytes[..][1..] == bytes[1..8];
    ValueBound(bytes[1..8]);
    SevenBytes(bytes[1..8]);
    assert Pow(7) == 0x100_0000_0000_0000;
  }

  // Task ids ---------------------------------------------------------------

  /** The state of law_server_genid: the seed under the server's lock. */
  class Generator {
    var seed: nat
    ghost var count: nat

    ghost predicate Valid()
      reads this
    {
      seed == count % Worker.IDS
    }

    constructor ()
      ensures Valid() && count == 0
    {
      seed, count := 0, 0;
    }

    /** law_server_genid: the n-th id is n modulo 2^56. */
    method Next() returns (id: nat)
      requires Valid()
      modifies this
      ensures Valid() && count == old(count) + 1 && id == count % Worker.IDS
    {
      seed := (seed + 1) % Worker.IDS;
      count := count + 1;
      id := seed;
    }
  }

  /**
   * Two of the ids handed out are equal exactly when their ordinals are congruent, an id
   * is zero only at a wrap, and a task's registration is the zero word only at a wrap with
   * zero user data, so before the first wrap none collides with the worker's own pipes.
   */
  lemma IdsAreFresh(m: nat, n: nat, data: int)
    requires 1 <= m < n && -128 <= data < 128
    ensures m % Worker.IDS == n % Worker.IDS <==> (n - m) % Worker.IDS == 0
    ensures n < Worker.IDS ==> m % Worker.IDS != n % Worker.IDS && n % Worker.IDS != 0
    ensures Pack(Slot(n % Worker.IDS, data)) == 0 <==> n % Worker.IDS == 0 && data == 0
  {
    assert n == Worker.IDS * (n / Worker.IDS) + n % Worker.IDS && m == Worker.IDS * (m / Worker.IDS) + m % Worker.IDS;
    if m % Worker.IDS == n % Worker.IDS {
      assert n - m == Worker.IDS * (n / Worker.IDS - m / Worker.IDS);
    }
    if (n - m) % Worker.IDS == 0 {
      var q := (n - m) / Worker.IDS;
      assert n == m + Worker.IDS * q;
    }
  }
}
