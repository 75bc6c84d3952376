/** The circular byte buffer behind each direction of a TCP connection. */
module TcpBuffer {
  import opened Words
  import opened Rings

  class ByteBuffer {
    const data: array<byte>
    var head: nat
    var size: nat

    ghost predicate Valid()
      reads this
    {
      size <= data.Length && (data.Length > 0 ==> head < data.Length) && (data.Length == 0 ==> head == 0)
    }

    /** The bytes held, oldest first. */
    ghost function Contents(): (s: seq<byte>)
      reads this, data
      requires Valid()
      ensures |s| == size
    {
      Ring(data[..], head, size)
    }

    constructor (capacity: nat)
      ensures Valid() && Contents() == [] && data.Length == capacity && fresh(data)
    {
      data := new byte[capacity](_ => 0);
      head, size := 0, 0;
    }

    /** Appends as much of p as fits. */
    method Write(p: seq<byte>) returns (n: nat)
      requires Valid() && data.Length > 0
      modifies this`size, data
      ensures Valid() && head == old(head)
      ensures n == Min(|p|, data.Length - old(size))
      ensures Contents() == old(Contents()) + p[..n]
    {
      hide Modulo;
      n := Min(|p|, data.Length - size);
      var tail := Modulo(head + size, data.Length);
      var first := Min(n, data.Length - tail);
      forall i | 0 <= i < first {
        data[tail + i] := p[i];
      }
      forall i | 0 <= i < n - first {
        data[i] := p[first + i];
      }
      RingWritten(old(data[..]), data[..], head, size, p[..n], tail, first);
      size := size + n;
    }

    /** A copy of the oldest n bytes. */
    method Peek(n: nat) returns (p: seq<byte>)
      requires Valid()
      ensures p == Contents()[..Min(n, size)]
    {
      var k := Min(n, size);
      var first := Min(k, data.Length - head);
      p := data[head..head + first] + data[..k - first];
      forall i | 0 <= i < k ensures p[i] == Contents()[i] {
      }
    }

    method Discard(n: nat)
      requires Valid() && data.Length > 0 && n <= size
      modifies this
      ensures Valid() && Contents() == old(Contents())[n..]
    {
      head := Modulo(head + n, data.Length);
      size := size - n;
    }

    method Read(max: nat) returns (p: seq<byte>)
      requires Valid() && data.Length > 0
      modifies this
      ensures Valid()
      ensures p == old(Contents())[..Min(max, old(size))]
      ensures Contents() == old(Contents())[|p|..]
    {
      p := Peek(max);
      Discard(|p|);
    }
  }
}
