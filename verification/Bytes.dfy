/**
 Bytes and little-endian integers.

 The log and journal are packed C structs on a little-endian target.  A struct
 is described here by the widths of its fields; `Pack` lays the fields out and
 `Unpack` reads them back.  Both are proved inverse once, for every layout.
 */
module Bytes {

  type byte = b: nat | b < 256
  type u16 = n: nat | n < 0x1_0000
  type u32 = n: nat | n < 0x1_0000_0000
  type u64 = n: nat | n < 0x1_0000_0000_0000_0000

  const U64_MAX: u64 := 0xFFFF_FFFF_FFFF_FFFF

  function Pow256(k: nat): (p: nat)
    ensures p >= 1
  {
    if k == 0 then 1 else 256 * Pow256(k - 1)
  }

  lemma FieldWidths()
    ensures Pow256(2) == 0x1_0000
    ensures Pow256(4) == 0x1_0000_0000
    ensures Pow256(8) == 0x1_0000_0000_0000_0000
  {
    assert Pow256(4) == 256 * (256 * Pow256(2));
    assert Pow256(6) == 256 * (256 * Pow256(4));
  }

  // The k low-order bytes of n, least significant first.  Higher bytes are
  // dropped, as an unsigned conversion to a narrower field drops them.
  function ToLE(n: nat, k: nat): (bs: seq<byte>)
    ensures |bs| == k
  {
    if k == 0 then [] else [n % 256] + ToLE(n / 256, k - 1)
  }

  function FromLE(bs: seq<byte>): nat
  {
    if |bs| == 0 then 0 else bs[0] + 256 * FromLE(bs[1..])
  }

  lemma {:induction false} FromToLE(n: nat, k: nat)
    requires n < Pow256(k)
    ensures FromLE(ToLE(n, k)) == n
  {
    if k > 0 {
      FromToLE(n / 256, k - 1);
      assert ToLE(n, k)[1..] == ToLE(n / 256, k - 1);
    }
  }

  lemma {:induction false} ToFromLE(bs: seq<byte>)
    ensures FromLE(bs) < Pow256(|bs|)
    ensures ToLE(FromLE(bs), |bs|) == bs
  {
    if |bs| > 0 {
      ToFromLE(bs[1..]);
      assert FromLE(bs) / 256 == FromLE(bs[1..]);
      assert bs == [bs[0]] + bs[1..];
    }
  }

  // Packed structs

  function Total(widths: seq<nat>): nat
  {
    if |widths| == 0 then 0 else widths[0] + Total(widths[1..])
  }

  ghost predicate Fits(widths: seq<nat>, values: seq<nat>)
  {
    && |values| == |widths|
    && forall i :: 0 <= i < |widths| ==> values[i] < Pow256(widths[i])
  }

  function Pack(widths: seq<nat>, values: seq<nat>): (bs: seq<byte>)
    requires |values| == |widths|
    ensures |bs| == Total(widths)
  {
    if |widths| == 0 then []
    else ToLE(values[0], widths[0]) + Pack(widths[1..], values[1..])
  }

  function Unpack(widths: seq<nat>, bs: seq<byte>): (values: seq<nat>)
    requires |bs| == Total(widths)
    ensures |values| == |widths|
    ensures Fits(widths, values)
  {
    if |widths| == 0 then []
    else
      ToFromLE(bs[..widths[0]]);
      [FromLE(bs[..widths[0]])] + Unpack(widths[1..], bs[widths[0]..])
  }

  lemma {:induction false} UnpackPack(widths: seq<nat>, values: seq<nat>)
    requires Fits(widths, values)
    ensures Unpack(widths, Pack(widths, values)) == values
  {
    if |widths| > 0 {
      var first, rest := ToLE(values[0], widths[0]), Pack(widths[1..], values[1..]);
      assert (first + rest)[..widths[0]] == first && (first + rest)[widths[0]..] == rest;
      FromToLE(values[0], widths[0]);
      UnpackPack(widths[1..], values[1..]);
    }
  }

  lemma {:induction false} PackUnpack(widths: seq<nat>, bs: seq<byte>)
    requires |bs| == Total(widths)
    ensures Pack(widths, Unpack(widths, bs)) == bs
  {
    hide ToLE, FromLE;
    if |widths| > 0 {
      var first, rest := bs[..widths[0]], bs[widths[0]..];
      var values := Unpack(widths, bs);
      ToFromLE(first);
      PackUnpack(widths[1..], rest);
      assert values[0] == FromLE(first) && values[1..] == Unpack(widths[1..], rest);
      assert Pack(widths, values) == ToLE(values[0], widths[0]) + Pack(widths[1..], values[1..]);
      assert bs == first + rest;
    }
  }

  lemma SliceOfSlice(file: seq<byte>, at: nat, length: nat, i: nat, j: nat)
    requires at + length <= |file| && i <= j <= length
    ensures file[at..at + length][i..j] == file[at + i..at + j]
  {
    var part := file[at..at + length];
    forall k | i <= k < j
      ensures part[k] == file[at + k]
    {
    }
  }
}
