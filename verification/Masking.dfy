/**
 * The streaming mask of law_ws_xor_apply (source/lawd/web_sockets.c; section 5.3 of
 * RFC 6455): an offset carried from call to call, in a size_t that wraps.
 */
module Masking {
  import opened Modular

  const WORD: nat := 0x1_0000_0000_0000_0000

  type Key = k: seq<bv8> | |k| == 4 witness [0, 0, 0, 0]

  /** The key byte for the payload byte at position i. */
  function KeyByte(key: Key, i: nat): bv8 { key[i % 4] }

  lemma KeyByteIs(key: Key, i: nat)
    ensures KeyByte(key, i) == key[i % 4]
  {
  }

  /** The masking of section 5.3, for payload that starts at the given offset. */
  function Masked(key: Key, offset: nat, s: seq<bv8>): (r: seq<bv8>)
    ensures |r| == |s|
  {
    seq(|s|, i requires 0 <= i < |s| => s[i] ^ KeyByte(key, offset + i))
  }

  /** 4 divides 2^64, so a wrapped offset masks alike. */
  lemma WrapIsHarmless(key: Key, x: nat)
    ensures KeyByte(key, x % WORD) == KeyByte(key, x)
    ensures (x % WORD + 1) % WORD == (x + 1) % WORD
  {
    ModAdd(1, x, WORD);
    Split(x, WORD);
    AddMultiple(x % WORD, 0x4000_0000_0000_0000 * (x / WORD), 4);
  }

  class Xor {
    const key: Key
    var offset: nat

    ghost predicate Valid()
      reads this
    {
      offset < WORD
    }

    /** law_ws_xor_init. */
    constructor (key: Key)
      ensures Valid() && this.key == key && offset == 0
    {
      this.key := key;
      offset := 0;
    }

    /** law_ws_xor_apply masks the first len bytes in place and carries the offset on. */
    method Apply(bs: array<bv8>, len: nat)
      requires Valid() && len <= bs.Length
      modifies this`offset, bs
      ensures Valid() && offset == (old(offset) + len) % WORD
      ensures bs[..] == Masked(key, old(offset), old(bs[..len])) + old(bs[len..])
      ensures forall i :: 0 <= i < len ==> bs[i] == old(bs[i]) ^ key[(old(offset) + i) % 4]
      ensures forall i :: len <= i < bs.Length ==> bs[i] == old(bs[i])
    {
      hide KeyByte;
      ghost var o := offset;
      var n := 0;
      while n < len
        invariant 0 <= n <= len && offset == (o + n) % WORD
        invariant forall i :: 0 <= i < n ==> bs[i] == old(bs[i]) ^ KeyByte(key, o + i)
        invariant forall i :: n <= i < bs.Length ==> bs[i] == old(bs[i])
      {
        WrapIsHarmless(key, o + n);
        var k := KeyByte(key, offset);
        offset := (offset + 1) % WORD;
        bs[n] := bs[n] ^ k;
        n := n + 1;
      }
      forall i | 0 <= i < len ensures bs[i] == old(bs[i]) ^ key[(o + i) % 4] { KeyByteIs(key, o + i); }
    }
  }

  function Flatten(chunks: seq<seq<bv8>>): seq<bv8> {
    if chunks == [] then [] else chunks[0] + Flatten(chunks[1..])
  }

  /** One context applied to one chunk after another. */
  function MaskAll(key: Key, offset: nat, chunks: seq<seq<bv8>>): seq<seq<bv8>>
    decreases |chunks|
  {
    if chunks == [] then []
    else [Masked(key, offset, chunks[0])] + MaskAll(key, (offset + |chunks[0]|) % WORD, chunks[1..])
  }

  lemma MaskedShift(key: Key, a: nat, b: nat, s: seq<bv8>)
    requires a % 4 == b % 4
    ensures Masked(key, a, s) == Masked(key, b, s)
  {
    forall i: nat | i < |s| ensures Masked(key, a, s)[i] == Masked(key, b, s)[i] {
      ModAdd(i, a, 4);
      ModAdd(i, b, 4);
    }
  }

  lemma MaskedConcat(key: Key, offset: nat, s: seq<bv8>, t: seq<bv8>)
    ensures Masked(key, offset, s + t) == Masked(key, offset, s) + Masked(key, offset + |s|, t)
  {
  }

  /** Masking in any chunking, wraps included, is masking the concatenation once. */
  lemma {:induction false} MaskingIsStreamable(key: Key, offset: nat, chunks: seq<seq<bv8>>)
    ensures Flatten(MaskAll(key, offset, chunks)) == Masked(key, offset, Flatten(chunks))
    decreases |chunks|
  {
    if chunks != [] {
      var o, rest := offset + |chunks[0]|, MaskAll(key, (offset + |chunks[0]|) % WORD, chunks[1..]);
      MaskingIsStreamable(key, o % WORD, chunks[1..]);
      Split(o, WORD);
      AddMultiple(o % WORD, 0x4000_0000_0000_0000 * (o / WORD), 4);
      MaskedShift(key, o % WORD, o, Flatten(chunks[1..]));
      MaskedConcat(key, offset, chunks[0], Flatten(chunks[1..]));
      assert MaskAll(key, offset, chunks)[1..] == rest;
    }
  }

  lemma MaskedTwice(key: Key, offset: nat, s: seq<bv8>)
    ensures Masked(key, offset, Masked(key, offset, s)) == s
  {
  }

  /**
   * A receiver that cuts the masked bytes up in its own way gets the data back as long as
   * its offset is the sender's modulo 4.
   */
  lemma UnmaskingRestores(key: Key, offset: nat, offset': nat, sent: seq<seq<bv8>>, received: seq<seq<bv8>>)
    requires Flatten(received) == Flatten(MaskAll(key, offset, sent)) && offset % 4 == offset' % 4
    ensures Flatten(MaskAll(key, offset', received)) == Flatten(sent)
  {
    MaskingIsStreamable(key, offset, sent);
    MaskingIsStreamable(key, offset', received);
    MaskedShift(key, offset, offset', Flatten(received));
    MaskedTwice(key, offset, Flatten(sent));
  }
}
