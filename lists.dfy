/**
 * Reversing a list of tokens: `reversed(words)` builds a new list, and
 * `list.reverse()` turns a list around in place.
 */
module Lists {

  /** The elements of `s` back to front. */
  function Reverse<T>(s: seq<T>): (r: seq<T>)
    ensures |r| == |s|
    ensures forall i | 0 <= i < |s| :: r[i] == s[|s| - 1 - i]
  {
    if s == [] then [] else Reverse(s[1..]) + [s[0]]
  }

  /** Reversing twice gives the list back. */
  lemma ReverseReverse<T>(s: seq<T>)
    ensures Reverse(Reverse(s)) == s
  {
    var r := Reverse(Reverse(s));
    assert forall i | 0 <= i < |s| :: r[i] == Reverse(s)[|s| - 1 - i];
  }

  /** `list.reverse()`: swap the ends inwards until they meet. */
  method ReverseInPlace<T>(a: array<T>)
    modifies a
    ensures a[..] == Reverse(old(a[..]))
  {
    var i, j := 0, a.Length - 1;
    while i < j
      invariant 0 <= i <= a.Length && j == a.Length - 1 - i
      invariant forall k | 0 <= k < i :: a[k] == old(a[a.Length - 1 - k]) && a[a.Length - 1 - k] == old(a[k])
      invariant forall k | i <= k <= j :: a[k] == old(a[k])
    {
      a[i], a[j] := a[j], a[i];
      i, j := i + 1, j - 1;
    }
  }

  /** A list built from `s` and then turned around with `list.reverse()`. */
  method ReversedList<T>(s: seq<T>) returns (r: seq<T>)
    ensures r == Reverse(s)
  {
    var a := new T[|s|](i requires 0 <= i < |s| => s[i]);
    assert a[..] == s;
    ReverseInPlace(a);
    r := a[..];
  }
}
