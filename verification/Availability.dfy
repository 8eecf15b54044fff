/** The availability bitmap of an allocator: two bits per entry, four entries to a byte, the first
    entry in the most significant bits.
    00 = empty, 01 = table, 10 = table more than half full, 11 = full table or page. */
module Availability {
  import opened Layout

  type Bitmap = b: seq<bv8> | |b| == 128 witness seq(128, _ => 0)

  const EMPTY: bv8 := 0
  const TABLE: bv8 := 1
  const HALF_FULL: bv8 := 2
  const FULL: bv8 := 3

  function Fresh(): Bitmap
  {
    seq(128, _ => 0)
  }

  /** Field `k` of a byte: shift right by 6 - 2k and keep two bits. */
  function Unpack(x: bv8, k: nat): bv8
    requires k < 4
  {
    if k == 0 then (x >> 6) & 3
    else if k == 1 then (x >> 4) & 3
    else if k == 2 then (x >> 2) & 3
    else x & 3
  }

  /** Clear field `k` of a byte, then or in the new code shifted left by 6 - 2k. */
  function Pack(x: bv8, k: nat, code: bv8): bv8
    requires k < 4
  {
    if k == 0 then (x & 0x3F) | (code << 6)
    else if k == 1 then (x & 0xCF) | (code << 4)
    else if k == 2 then (x & 0xF3) | (code << 2)
    else (x & 0xFC) | code
  }

  lemma PackUnpack(x: bv8, k: nat, m: nat, code: bv8)
    requires k < 4 && m < 4 && code <= FULL
    ensures Unpack(Pack(x, k, code), m) == if k == m then code else Unpack(x, m)
  {
  }

  function Get(b: Bitmap, i: nat): (code: bv8)
    requires i < NPAGES
    ensures code <= FULL
  {
    Unpack(b[i / 4], i % 4)
  }

  function Set(b: Bitmap, i: nat, code: bv8): Bitmap
    requires i < NPAGES && code <= FULL
  {
    b[i / 4 := Pack(b[i / 4], i % 4, code)]
  }

  /** Setting an entry changes its code and no other. */
  lemma SetGet(b: Bitmap, i: nat, code: bv8)
    requires i < NPAGES && code <= FULL
    ensures forall j :: 0 <= j < NPAGES ==> Get(Set(b, i, code), j) == if j == i then code else Get(b, j)
  {
  }

  /** The byte-wise test for a full table. */
  predicate IsFull(b: Bitmap)
  {
    forall k :: 0 <= k < 128 ==> b[k] == 0xFF
  }

  /** Every byte is 0xFF exactly when every entry is full. */
  lemma IsFullMeaning(b: Bitmap)
    ensures IsFull(b) <==> forall i :: 0 <= i < NPAGES ==> Get(b, i) == FULL
  {
    if forall i :: 0 <= i < NPAGES ==> Get(b, i) == FULL {
      forall k | 0 <= k < 128
        ensures b[k] == 0xFF
      {
        var i := 4 * k;
        assert Get(b, i) == Get(b, i + 1) == Get(b, i + 2) == Get(b, i + 3) == FULL;
        assert Unpack(b[k], 0) == Unpack(b[k], 1) == Unpack(b[k], 2) == Unpack(b[k], 3) == FULL;
      }
    }
  }

  lemma FreshIsEmpty()
    ensures forall i :: 0 <= i < NPAGES ==> Get(Fresh(), i) == EMPTY
  {
  }
}
