/** The Internet checksum (RFC 1071): one's complement arithmetic as arithmetic modulo 65535. */
module Checksum {
  import opened Words

  type Bytes = seq<byte>

  function Word(hi: byte, lo: byte): (w: nat)
    ensures w <= 0xffff
  {
    var h: int, l: int := hi, lo;
    h * 256 + l
  }

  /** The sum of the 16-bit words; a last odd byte is the high half of a word. */
  function Sum16(data: Bytes): nat {
    if data == [] then 0
    else if |data| == 1 then Word(data[0], 0)
    else Word(data[0], data[1]) + Sum16(data[2..])
  }

  /** Carries added back in until none is left. */
  function Fold(sum: nat): (r: nat)
    ensures r <= 0xffff
  {
    if sum <= 0xffff then sum else Fold(sum % 0x1_0000 + sum / 0x1_0000)
  }

  function CheckSum(data: Bytes): u16 {
    0xffff - Fold(Sum16(data))
  }

  predicate Verifies(data: Bytes) {
    CheckSum(data) == 0
  }

  // ---- Modulo 65535 ---------------------------------------------------------------------------

  function Rem(x: nat): (r: nat)
    ensures r < 0xffff
  {
    x % 0xffff
  }

  lemma RemAdd(x: nat, k: nat)
    ensures Rem(x + 0xffff * k) == Rem(x)
  {
    ModUnique(x + 0xffff * k, 0xffff, x / 0xffff + k, x % 0xffff);
  }

  /** Folding changes nothing modulo 65535 and keeps zero apart from its multiples. */
  lemma {:induction false} FoldRem(sum: nat)
    ensures Rem(Fold(sum)) == Rem(sum) && (Fold(sum) == 0 <==> sum == 0)
  {
    if sum > 0xffff {
      var hi, lo := sum / 0x1_0000, sum % 0x1_0000;
      FoldRem(lo + hi);
      RemAdd(lo + hi, hi);
      assert sum == lo + hi + 0xffff * hi;
    }
  }

  lemma SmallRem(x: nat)
    requires x <= 0xffff
    ensures Rem(x) == if x == 0xffff then 0 else x
  {
  }

  /** A sum verifies exactly when it is a positive multiple of 65535. */
  lemma VerifiesIff(data: Bytes)
    ensures Verifies(data) <==> Sum16(data) > 0 && Rem(Sum16(data)) == 0
  {
    hide Rem, Fold, Sum16;
    FoldRem(Sum16(data));
    SmallRem(Fold(Sum16(data)));
  }

  /** The checksum completes its own sum: added to it, the total verifies. */
  lemma Completes(sum: nat)
    ensures sum + (0xffff - Fold(sum)) > 0 && Rem(sum + (0xffff - Fold(sum))) == 0
  {
    hide Fold;
    FoldRem(sum);
    var f := Fold(sum);
    RemSubtract(sum, f);
  }

  lemma RemSubtract(sum: nat, f: nat)
    requires f <= 0xffff && Rem(f) == Rem(sum) && (f == 0 <==> sum == 0)
    ensures sum + (0xffff - f) > 0 && Rem(sum + (0xffff - f)) == 0
  {
    var q, r := sum / 0xffff, sum % 0xffff;
    assert sum == q * 0xffff + r;
    SmallRem(f);
    if f == 0xffff {
      ModUnique(sum, 0xffff, q, 0);
    } else {
      ModUnique(sum + 0xffff - f, 0xffff, q + 1, 0);
    }
  }

  // ---- Sums of parts --------------------------------------------------------------------------

  lemma {:induction false} SumAppend(a: Bytes, b: Bytes)
    requires |a| % 2 == 0
    ensures Sum16(a + b) == Sum16(a) + Sum16(b)
  {
    if a == [] {
      assert a + b == b;
    } else {
      SumAppend(a[2..], b);
      assert (a + b)[2..] == a[2..] + b;
    }
  }

  /** What the bytes after the first n add to a sum that starts before them. */
  function Excess(data: Bytes, n: nat): nat
    requires n <= |data|
  {
    if n % 2 == 0 then Sum16(data[n..])
    else if n == |data| then 0
    else var low: int := data[n]; low + Sum16(data[n + 1..])
  }

  lemma {:induction false} SumSplit(data: Bytes, n: nat)
    requires n <= |data|
    ensures Sum16(data) == Sum16(data[..n]) + Excess(data, n)
  {
    if n == 0 {
      assert data[0..] == data;
    } else if n == 1 {
      if |data| > 1 { SumStep(data); assert data[2..] == data[1 + 1..]; } else { assert data[..1] == data; }
    } else {
      SumSplit(data[2..], n - 2);
      assert data[2..][..n - 2] == data[..n][2..];
      assert data[2..][n - 2..] == data[n..];
      if n % 2 == 1 && n < |data| { assert data[2..][n - 2 + 1..] == data[n + 1..]; }
    }
  }

  lemma {:induction false} SumZero(data: Bytes)
    ensures Sum16(data) == 0 <==> forall i :: 0 <= i < |data| ==> data[i] == 0
  {
    if |data| > 1 {
      SumZero(data[2..]);
      assert forall i :: 2 <= i < |data| ==> data[i] == data[2..][i - 2];
    }
  }

  /** A 16-bit field. */
  function Put16(data: Bytes, at: nat, v: u16): (r: Bytes)
    requires at + 2 <= |data|
    ensures |r| == |data|
  {
    data[at := v / 256][at + 1 := v % 256]
  }

  lemma WordOf(v: u16)
    ensures Word(v / 256, v % 256) == v
  {
  }

  lemma SumPair(hi: byte, lo: byte)
    ensures Sum16([hi, lo]) == Word(hi, lo)
  {
    assert [hi, lo][2..] == [];
  }

  /** Writing a field at an even place changes the sum by the difference of the words. */
  lemma SumPut(data: Bytes, at: nat, v: u16)
    requires at + 2 <= |data| && at % 2 == 0
    ensures Sum16(Put16(data, at, v)) + Word(data[at], data[at + 1]) == Sum16(data) + v
  {
    hide Sum16, Word, Put16;
    var a, b := data[..at], data[at + 2..];
    PutParts(data, at, v);
    SumAround(a, data[at], data[at + 1], b);
    SumAround(a, v / 256, v % 256, b);
    WordOf(v);
  }

  lemma PutParts(data: Bytes, at: nat, v: u16)
    requires at + 2 <= |data|
    ensures data == data[..at] + ([data[at], data[at + 1]] + data[at + 2..])
    ensures Put16(data, at, v) == data[..at] + ([v / 256, v % 256] + data[at + 2..])
  {
    var hi: byte, lo: byte := v / 256, v % 256;
    Parts(data, at, hi, lo);
  }

  lemma Parts(data: Bytes, at: nat, hi: byte, lo: byte)
    requires at + 2 <= |data|
    ensures data == data[..at] + ([data[at], data[at + 1]] + data[at + 2..])
    ensures data[at := hi][at + 1 := lo] == data[..at] + ([hi, lo] + data[at + 2..])
  {
  }

  lemma SumAround(a: Bytes, hi: byte, lo: byte, b: Bytes)
    requires |a| % 2 == 0
    ensures Sum16(a + ([hi, lo] + b)) == Sum16(a) + Word(hi, lo) + Sum16(b)
  {
    hide Sum16, Word;
    SumAppend(a, [hi, lo] + b);
    SumAppend([hi, lo], b);
    SumPair(hi, lo);
  }

  /** The field written with the checksum of the data without it: the whole then verifies. */
  function Sealed(data: Bytes, at: nat): (r: Bytes)
    requires at + 2 <= |data|
    ensures |r| == |data|
  {
    Put16(Put16(data, at, 0), at, CheckSum(Put16(data, at, 0)))
  }

  lemma SealedVerifies(data: Bytes, at: nat)
    requires at + 2 <= |data| && at % 2 == 0
    ensures Verifies(Sealed(data, at))
  {
    hide Sum16, Fold, Rem, Put16;
    var zero := Put16(data, at, 0);
    SumPut(zero, at, CheckSum(zero));
    ZeroField(data, at);
    Completes(Sum16(zero));
    VerifiesIff(Sealed(data, at));
  }

  lemma ZeroField(data: Bytes, at: nat)
    requires at + 2 <= |data|
    ensures Word(Put16(data, at, 0)[at], Put16(data, at, 0)[at + 1]) == 0
  {
  }

  // ---- The loop -------------------------------------------------------------------------------

  /** GetCheckSum, with its 32-bit accumulator; exact for anything up to 128 KiB. */
  method GetCheckSum(data: Bytes) returns (r: u16)
    ensures |data| <= 0x2_0000 ==> r == CheckSum(data)
  {
    hide Fold, Sum16;
    var sum: u32 := 0;
    var length, index := |data|, 0;
    ghost var exact: nat := 0;
    SumBound(data);
    while length > 1
      invariant index + length == |data| && length >= 0 && index >= 0
      invariant sum == exact % 0x1_0000_0000
      invariant exact + Sum16(data[index..]) == Sum16(data)
    {
      SumStep(data[index..]);
      assert data[index..][2..] == data[index + 2..];
      var w := Word(data[index], data[index + 1]);
      WrapAdd(exact, w);
      sum := (sum + w) % 0x1_0000_0000;
      exact := exact + w;
      index := index + 2;
      length := length - 2;
    }
    SumStep(data[index..]);
    if length > 0 {
      var w := Word(data[index], 0);
      WrapAdd(exact, w);
      sum := (sum + w) % 0x1_0000_0000;
      exact := exact + w;
    }
    assert exact == Sum16(data);
    var folded := FoldLoop(sum);
    r := 0xffff - folded;
    if |data| <= 0x2_0000 { ModUnique(exact, 0x1_0000_0000, 0, exact); }
  }

  method FoldLoop(sum: u32) returns (r: nat)
    ensures r == Fold(sum)
  {
    r := sum;
    while r / 0x1_0000 != 0
      invariant Fold(r) == Fold(sum)
      decreases r
    {
      r := r % 0x1_0000 + r / 0x1_0000;
    }
  }

  lemma WrapAdd(x: nat, w: nat)
    ensures (x % 0x1_0000_0000 + w) % 0x1_0000_0000 == (x + w) % 0x1_0000_0000
  {
    AddToWrap(x, w);
  }

  lemma SumStep(data: Bytes)
    ensures data == [] ==> Sum16(data) == 0
    ensures |data| == 1 ==> Sum16(data) == Word(data[0], 0)
    ensures |data| > 1 ==> Sum16(data) == Word(data[0], data[1]) + Sum16(data[2..])
  {
  }

  lemma {:induction false} SumBound(data: Bytes)
    ensures Sum16(data) <= 0xffff * ((|data| + 1) / 2)
  {
    if |data| > 1 { SumBound(data[2..]); }
  }
}
