/** Counting the clear bits of an allocation bitmap. */
module Bitmaps {
  function Clear(bits: seq<bool>): nat {
    if bits == [] then 0 else Clear(bits[1..]) + (if bits[0] then 0 else 1)
  }

  lemma {:induction false} ClearSet(bits: seq<bool>, i: nat, b: bool)
    requires i < |bits|
    ensures Clear(bits[i := b]) == Clear(bits) + (if bits[i] then 1 else 0) - (if b then 1 else 0)
  {
    if i == 0 {
      assert bits[0 := b][1..] == bits[1..];
    } else {
      ClearSet(bits[1..], i - 1, b);
      assert bits[i := b][1..] == bits[1..][i - 1 := b];
    }
  }

  lemma {:induction false} AllClear(bits: seq<bool>)
    requires forall i :: 0 <= i < |bits| ==> !bits[i]
    ensures Clear(bits) == |bits|
  {
    if bits == [] {
    } else {
      AllClear(bits[1..]);
    }
  }
}
