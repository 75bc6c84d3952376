/** The growable ring queue behind snd_queue, snd_buf and rcv_queue. */
module KcpQueue {
  import opened Words
  import opened Rings

  const MIN_CAPACITY: nat := 8
  const GROWTH_THRESHOLD: nat := 1024

  class RingQueue<T(0)> {
    var elements: array<T>
    var head: nat
    var length: nat

    ghost predicate Valid()
      reads this
    {
      elements.Length >= MIN_CAPACITY && head < elements.Length && length <= elements.Length
    }

    /** The queued elements, oldest first. */
    ghost function Contents(): (s: seq<T>)
      reads this, elements
      requires Valid()
      ensures |s| == length
    {
      Ring(elements[..], head, length)
    }

    constructor (capacity: nat, zero: T)
      ensures Valid() && Contents() == [] && fresh(elements)
      ensures elements.Length == if capacity < MIN_CAPACITY then MIN_CAPACITY else capacity
    {
      elements := new T[if capacity < MIN_CAPACITY then MIN_CAPACITY else capacity](_ => zero);
      head, length := 0, 0;
    }

    method Push(value: T, zero: T)
      requires Valid()
      modifies this, elements
      ensures Valid() && (elements == old(elements) || fresh(elements))
      ensures Contents() == old(Contents()) + [value]
    {
      ghost var before := Contents();
      if length == elements.Length {
        Grow(zero);
      }
      var index := head + length;
      if index >= elements.Length {
        index := index - elements.Length;
      }
      ghost var d := elements[..];
      elements[index] := value;
      RingWritten(d, elements[..], head, length, [value], index, 1);
      length := length + 1;
    }

    method Pop(zero: T) returns (value: T, ok: bool)
      requires Valid()
      modifies this, elements
      ensures Valid() && elements == old(elements)
      ensures ok == (old(Contents()) != [])
      ensures Contents() == if ok then old(Contents())[1..] else []
      ensures ok ==> value == old(Contents())[0]
    {
      if length == 0 {
        return zero, false;
      }
      value, ok := elements[head], true;
      elements[head] := zero;
      head := head + 1;
      if head == elements.Length {
        head := 0;
      }
      length := length - 1;
      if length == 0 {
        head := 0;
      }
    }

    method Peek() returns (value: T, ok: bool)
      requires Valid()
      ensures ok == (Contents() != [])
      ensures ok ==> value == Contents()[0]
    {
      value, ok := elements[head], length > 0;
    }

    method Last() returns (value: T, ok: bool)
      requires Valid()
      ensures ok == (Contents() != [])
      ensures ok ==> value == Contents()[length - 1]
    {
      if length == 0 {
        return elements[head], false;
      }
      var index := head + length - 1;
      if index >= elements.Length {
        index := index - elements.Length;
      }
      value, ok := elements[index], true;
    }

    /** Writes through the pointer that Last returns. */
    method SetLast(value: T)
      requires Valid() && length > 0
      modifies elements
      ensures Valid() && Contents() == old(Contents())[length - 1 := value]
    {
      var index := head + length - 1;
      if index >= elements.Length {
        index := index - elements.Length;
      }
      elements[index] := value;
    }

    /** The element i places from the front. */
    function Item(i: nat): (value: T)
      requires Valid() && i < length
      reads this, elements
      ensures value == Contents()[i]
    {
      elements[if head + i < elements.Length then head + i else head + i - elements.Length]
    }

    /** Writes through the pointer to the element i places from the front, as ForEach hands them out. */
    method SetItem(i: nat, value: T)
      requires Valid() && i < length
      modifies elements
      ensures Valid() && Contents() == old(Contents())[i := value]
    {
      elements[if head + i < elements.Length then head + i else head + i - elements.Length] := value;
    }

    /** Visits the elements in order, up to and including the first one visit turns down. */
    method ForEach(visit: T -> bool) returns (visited: seq<T>)
      requires Valid()
      ensures visited <= Contents()
      ensures forall i :: 0 <= i < |visited| - 1 ==> visit(visited[i])
      ensures |visited| < length ==> visited != [] && !visit(visited[|visited| - 1])
    {
      visited := [];
      var first := Min(length, elements.Length - head);
      for i := 0 to first
        invariant |visited| == i && visited <= Contents()
        invariant forall j :: 0 <= j < i ==> visit(visited[j])
      {
        visited := visited + [elements[head + i]];
        if !visit(elements[head + i]) { return; }
      }
      for i := 0 to length - first
        invariant |visited| == first + i && visited <= Contents()
        invariant forall j :: 0 <= j < first + i ==> visit(visited[j])
      {
        visited := visited + [elements[i]];
        if !visit(elements[i]) { return; }
      }
    }

    /** Removes at most count elements from the front. */
    method Discard(count: nat, zero: T) returns (n: nat)
      requires Valid()
      modifies this, elements
      ensures Valid() && elements == old(elements)
      ensures n == Min(count, old(length))
      ensures Contents() == old(Contents())[n..]
    {
      if count == 0 || length == 0 {
        return 0;
      }
      n := Min(count, length);
      var first := Min(n, elements.Length - head);
      forall i | head <= i < head + first {
        elements[i] := zero;
      }
      forall i | 0 <= i < n - first {
        elements[i] := zero;
      }
      ghost var d := old(elements[..]);
      ghost var h := head;
      head := head + n;
      if head >= elements.Length {
        head := head - elements.Length;
      }
      length := length - n;
      forall i | 0 <= i < length ensures elements[At(head, i, elements.Length)] == d[At(h, n + i, |d|)] {
        assert At(head, i, elements.Length) == At(h, n + i, |d|);
      }
      if length == 0 {
        head := 0;
      }
    }

    /** Reallocates, keeping the order. */
    method Grow(zero: T)
      requires Valid()
      modifies this
      ensures Valid() && fresh(elements) && elements.Length > old(elements.Length)
      ensures Contents() == old(Contents()) && length == old(length) && head == 0
    {
      var capacity := elements.Length;
      var larger := if capacity >= GROWTH_THRESHOLD then capacity + capacity / 4 else capacity * 2;
      var fresher := new T[larger](_ => zero);
      var first := Min(length, capacity - head);
      forall i | 0 <= i < first {
        fresher[i] := elements[head + i];
      }
      forall i | first <= i < length {
        fresher[i] := elements[i - first];
      }
      elements, head := fresher, 0;
    }
  }
}
