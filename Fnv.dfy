/** 32-bit FNV-1a, the hash that keys the YMO table.  The writer computes it
    in translate/po2ymo.py:5-13; the reader calls the same algorithm (its own
    FnvHash.hpp is not part of this model), so both sides use this one
    definition. */
module Fnv {
  import opened Bytes

  const FNV1_32_INIT: nat := 0x811c9dc5
  const FNV_32_PRIME: nat := 0x01000193

  /** One round: xor the byte into the hash, multiply by the prime and keep
      the low 32 bits (`& 0xffffffff`). */
  function Round(h: nat, b: Byte): (r: nat)
    ensures r < TWO32
  {
    (Xor(h, b) * FNV_32_PRIME) % TWO32
  }

  /** The hash of `data`: `Round` folded from the left over the bytes,
      starting at the offset basis. */
  function Fnv1a32(data: seq<Byte>): (h: nat)
    ensures h < TWO32
    ensures data == [] ==> h == FNV1_32_INIT
  {
    if data == [] then FNV1_32_INIT
    else Round(Fnv1a32(data[..|data| - 1]), data[|data| - 1])
  }

  /** `fnv1a_32(data)`: the byte loop that updates `hval` in place. */
  method ComputeFnv1a32(data: seq<Byte>) returns (hval: nat)
    ensures hval == Fnv1a32(data)
    ensures hval < TWO32
  {
    hval := FNV1_32_INIT;
    var i := 0;
    while i < |data|
      invariant 0 <= i <= |data|
      invariant hval == Fnv1a32(data[..i])
    {
      assert data[..i + 1][..i] == data[..i];
      hval := Xor(hval, data[i]);
      hval := (hval * FNV_32_PRIME) % TWO32;
      i := i + 1;
    }
    assert data[..i] == data;
  }

  /** `fnv1a_32(data, hval)` with an explicit starting value: the rounds of
      `data` applied to `hval`, first byte first. */
  function Fnv1a32From(hval: nat, data: seq<Byte>): nat
    decreases |data|
  {
    if data == [] then hval else Fnv1a32From(Round(hval, data[0]), data[1..])
  }

  /** Hashing can be resumed: passing the hash of `a` as `hval` and hashing
      `b` gives the hash of `a + b`. */
  lemma {:induction false} Fnv1a32Resume(a: seq<Byte>, b: seq<Byte>)
    ensures Fnv1a32(a + b) == Fnv1a32From(Fnv1a32(a), b)
    decreases |b|
  {
    if b == [] {
      assert a + b == a;
    } else {
      var a' := a + [b[0]];
      assert a' + b[1..] == a + b;
      assert a'[..|a'| - 1] == a;
      Fnv1a32Resume(a', b[1..]);
    }
  }
}
