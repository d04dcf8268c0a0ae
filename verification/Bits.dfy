/** Bits of a byte, and the lowest clear bit of a bitmap. */
module Bits {

  predicate Bit(b: bv8, k: nat)
    requires k < 8
  {
    b & (1 << k) != 0
  }

  /** The byte with bit `k` set, respectively cleared. */
  function WithBit(b: bv8, k: nat, value: bool): bv8
    requires k < 8
  {
    if value then b | (1 << k) else b & !(1 << k)
  }

  lemma WithBitSet(b: bv8, k: nat, m: nat)
    requires k < 8 && m < 8
    ensures Bit(WithBit(b, k, true), m) == (m == k || Bit(b, m))
  {
  }

  lemma WithBitClear(b: bv8, k: nat, m: nat)
    requires k < 8 && m < 8
    ensures Bit(WithBit(b, k, false), m) == (m != k && Bit(b, m))
  {
  }

  lemma WithBitIs(b: bv8, k: nat, value: bool)
    requires k < 8
    ensures forall m: nat :: m < 8 ==> Bit(WithBit(b, k, value), m) == if m == k then value else Bit(b, m)
  {
    forall m: nat | m < 8
      ensures Bit(WithBit(b, k, value), m) == if m == k then value else Bit(b, m)
    {
      if value { WithBitSet(b, k, m); } else { WithBitClear(b, k, m); }
    }
  }

  /** The index of the first clear bit from `from` on, or the length if there is none. */
  function FirstClear(bits: seq<bool>, from: nat): (n: nat)
    requires from <= |bits|
    ensures from <= n <= |bits|
    ensures n < |bits| ==> !bits[n]
    ensures forall m :: from <= m < n ==> bits[m]
    decreases |bits| - from
  {
    if from == |bits| || !bits[from] then from else FirstClear(bits, from + 1)
  }

  lemma FirstClearIs(bits: seq<bool>, n: nat)
    requires n <= |bits|
    requires n < |bits| ==> !bits[n]
    requires forall m :: 0 <= m < n ==> bits[m]
    ensures FirstClear(bits, 0) == n
  {
    var c := FirstClear(bits, 0);
    assert c < |bits| ==> !bits[c];
  }

  /** The number of clear bits below `limit`. */
  function Clear(bits: seq<bool>, limit: nat): nat
    requires limit <= |bits|
  {
    if limit == 0 then 0 else Clear(bits, limit - 1) + if bits[limit - 1] then 0 else 1
  }

  lemma {:induction false} ClearSome(bits: seq<bool>, limit: nat)
    requires limit <= |bits|
    ensures Clear(bits, limit) > 0 <==> exists b :: 0 <= b < limit && !bits[b]
  {
    if limit > 0 { ClearSome(bits, limit - 1); }
  }

  /** There is a lowest clear bit below `limit` exactly if there is a clear bit. */
  lemma FirstClearFits(bits: seq<bool>, limit: nat)
    requires limit <= |bits|
    ensures FirstClear(bits, 0) < limit <==> Clear(bits, limit) > 0
  {
    ClearSome(bits, limit);
  }

  lemma {:induction false} ClearSet(bits: seq<bool>, b: nat, limit: nat)
    requires b < |bits| && !bits[b] && limit <= |bits|
    ensures Clear(bits[b := true], limit) == Clear(bits, limit) - if b < limit then 1 else 0
  {
    if limit > 0 { ClearSet(bits, b, limit - 1); }
  }
}
