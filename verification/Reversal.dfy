/** core/operator.c: the minus of a string, which turns its buffer around with exclusive or. */
module Reversal {
  import opened Values

  lemma {:induction false} ReversedAt<T>(s: seq<T>, k: nat)
    requires k < |s|
    ensures Reversed(s)[k] == s[|s| - 1 - k]
  {
    if |s| > 1 { ReversedAt(s[1..], if k < |s| - 1 then k else 0); }
  }

  /** Minus twice is nothing. */
  lemma ReversedTwice<T>(s: seq<T>)
    ensures Reversed(Reversed(s)) == s
  {
    hide Reversed;
    forall k | 0 <= k < |s| ensures Reversed(Reversed(s))[k] == s[k] {
      ReversedAt(Reversed(s), k);
      ReversedAt(s, |s| - 1 - k);
    }
  }

  function Xor(x: bv8, y: bv8): (r: bv8) {
    x ^ y
  }

  lemma XorThrice(x: bv8, y: bv8)
    ensures Xor(y, Xor(x, y)) == x && Xor(Xor(x, y), x) == y
  {
  }

  /** XOR_SWAP on two different places. */
  method XorSwap(a: array<bv8>, i: nat, j: nat)
    requires i < a.Length && j < a.Length && i != j
    modifies a
    ensures a[i] == old(a[j]) && a[j] == old(a[i])
    ensures forall k :: 0 <= k < a.Length && k != i && k != j ==> a[k] == old(a[k])
  {
    hide Xor;
    XorThrice(a[i], a[j]);
    a[i] := Xor(a[i], a[j]);
    a[j] := Xor(a[j], a[i]);
    a[i] := Xor(a[i], a[j]);
  }

  /** The string lies in front of its terminating zero; the ends walk inwards until they meet. */
  method ReverseString(data: array<bv8>)
    requires data.Length > 0
    modifies data
    ensures data[..data.Length - 1] == Reversed(old(data[..data.Length - 1]))
    ensures data[data.Length - 1] == old(data[data.Length - 1])
  {
    hide Reversed;
    var ptr, end := 0, data.Length - 2;
    ghost var was, n := data[..data.Length - 1], data.Length - 1;
    while ptr < end
      invariant 0 <= ptr && ptr + end == n - 1 && ptr <= end + 2
      invariant forall k :: 0 <= k < ptr || end < k < n ==> data[k] == was[n - 1 - k]
      invariant forall k :: ptr <= k <= end ==> data[k] == was[k]
      invariant data[n] == old(data[n])
    {
      XorSwap(data, ptr, end);
      ptr := ptr + 1;
      end := end - 1;
    }
    forall k | 0 <= k < n ensures data[k] == Reversed(was)[k] {
      ReversedAt(was, k);
    }
  }
}
