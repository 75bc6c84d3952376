/** A sequence laid out in a circular array. */
module Rings {
  import opened Words

  /** x % length, for an index that has wrapped at most once. */
  function Modulo(x: nat, length: nat): (r: nat)
    requires x < 2 * length
    ensures r == if x < length then x else x - length
  {
    ModuloOnce(x, length);
    x % length
  }

  lemma ModuloOnce(x: nat, length: nat)
    requires x < 2 * length
    ensures x % length == if x < length then x else x - length
  {
    var q := if x < length then 0 else 1;
    ModUnique(x, length, q, x - q * length);
  }

  /** Index i of a ring that starts at head. */
  function At(head: nat, i: nat, length: nat): nat {
    if head + i < length then head + i else head + i - length
  }

  /** The size elements from head on, wrapping round. */
  function Ring<T>(d: seq<T>, head: nat, size: nat): (s: seq<T>)
    requires size <= |d| && head <= |d|
    ensures |s| == size
  {
    seq(size, i requires 0 <= i < size => d[At(head, i, |d|)])
  }

  /** Filling the gap after the tail, and then the front of the array, appends to the ring. */
  lemma RingWritten<T>(d: seq<T>, d': seq<T>, head: nat, size: nat, p: seq<T>, tail: nat, first: nat)
    requires head < |d| == |d'| && size + |p| <= |d|
    requires tail == (if head + size < |d| then head + size else head + size - |d|)
    requires first == Min(|p|, |d| - tail)
    requires forall i :: 0 <= i < first ==> d'[tail + i] == p[i]
    requires forall i :: 0 <= i < |p| - first ==> d'[i] == p[first + i]
    requires forall j :: |p| - first <= j < |d| && !(tail <= j < tail + first) ==> d'[j] == d[j]
    ensures Ring(d', head, size + |p|) == Ring(d, head, size) + p
  {
    forall k | 0 <= k < size ensures d'[At(head, k, |d|)] == d[At(head, k, |d|)] {
    }
    forall k | 0 <= k < |p| ensures d'[At(head, size + k, |d|)] == p[k] {
      if k < first { assert d'[tail + k] == p[k]; } else { assert d'[k - first] == p[first + (k - first)]; }
    }
  }
}
