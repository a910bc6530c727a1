/** Big-endian integers, as encoding/binary writes and reads them. */
module Bytes {
  type byte = x: nat | x < 256 witness 0

  /** The last n bytes of v. */
  function BigEndian(v: nat, n: nat): (r: seq<byte>)
    ensures |r| == n
  {
    if n == 0 then [] else BigEndian(v / 256, n - 1) + [v % 256]
  }

  function FromBigEndian(s: seq<byte>): nat {
    if s == [] then 0 else FromBigEndian(s[..|s| - 1]) * 256 + s[|s| - 1]
  }

  /** v fits in n bytes. */
  predicate Fits(v: nat, n: nat) { if n == 0 then v == 0 else Fits(v / 256, n - 1) }

  lemma {:induction false} DecodesBack(v: nat, n: nat)
    requires Fits(v, n)
    ensures FromBigEndian(BigEndian(v, n)) == v
  {
    if n > 0 {
      DecodesBack(v / 256, n - 1);
      var r := BigEndian(v, n);
      assert r[..n - 1] == BigEndian(v / 256, n - 1);
    }
  }

  // Text and length-prefixed chunks

  function Ascii(s: string): (r: seq<byte>)
    ensures |r| == |s|
  {
    seq(|s|, i requires 0 <= i < |s| => s[i] as int % 256)
  }

  function Chunk(n: nat, s: seq<byte>): seq<byte> { BigEndian(|s|, n) + s }

  /** The chunks one after another, each behind its length in n bytes. */
  function Chunks(n: nat, list: seq<seq<byte>>): seq<byte> {
    if list == [] then [] else Chunk(n, list[0]) + Chunks(n, list[1..])
  }

  lemma ChunksNone(n: nat)
    ensures Chunks(n, []) == []
  {
  }

  lemma {:induction false} ChunksSnoc(n: nat, list: seq<seq<byte>>, s: seq<byte>)
    ensures Chunks(n, list + [s]) == Chunks(n, list) + Chunk(n, s)
  {
    if list == [] {
      assert [] + [s] == [s];
      assert Chunks(n, [s]) == Chunk(n, s) + Chunks(n, []);
    } else {
      assert (list + [s])[1..] == list[1..] + [s];
      ChunksSnoc(n, list[1..], s);
      assert Chunks(n, list + [s]) == Chunk(n, list[0]) + (Chunks(n, list[1..]) + Chunk(n, s));
    }
  }

  /** Lengths that fit make the chunks readable again: no two lists of chunks run together alike. */
  lemma {:induction false} ChunksInjective(n: nat, a: seq<seq<byte>>, b: seq<seq<byte>>)
    requires n > 0
    requires forall i :: 0 <= i < |a| ==> Fits(|a[i]|, n)
    requires forall i :: 0 <= i < |b| ==> Fits(|b[i]|, n)
    requires Chunks(n, a) == Chunks(n, b)
    ensures a == b
    decreases |a| + |b|
  {
    if a == [] || b == [] {
      assert a == [] || |Chunks(n, a)| > 0;
      assert b == [] || |Chunks(n, b)| > 0;
    } else {
      hide Chunk, Fits;
      FirstChunk(n, a[0], Chunks(n, a[1..]), b[0], Chunks(n, b[1..]));
      ChunksInjective(n, a[1..], b[1..]);
      assert a == [a[0]] + a[1..] && b == [b[0]] + b[1..];
    }
  }

  lemma FirstChunk(n: nat, a: seq<byte>, x: seq<byte>, b: seq<byte>, y: seq<byte>)
    requires Fits(|a|, n) && Fits(|b|, n) && Chunk(n, a) + x == Chunk(n, b) + y
    ensures a == b && x == y
  {
    hide BigEndian, FromBigEndian, Fits;
    var u, v, whole := BigEndian(|a|, n), BigEndian(|b|, n), Chunk(n, a) + x;
    assert whole[..n] == u && whole[..n] == v;
    DecodesBack(|a|, n);
    DecodesBack(|b|, n);
    assert whole[n..n + |a|] == a && whole[n..n + |a|] == b;
    assert whole[n + |a|..] == x && whole[n + |a|..] == y;
  }

  // Numbers in decimal

  function Digits(n: nat): seq<byte> { if n < 10 then [48 + n] else Digits(n / 10) + [48 + n % 10] }

  /** An integer as the verb %d prints it. */
  function Decimal(n: int): seq<byte> { if n < 0 then [45] + Digits(-n) else Digits(n) }

  lemma {:induction false} DigitsInjective(a: nat, b: nat)
    requires Digits(a) == Digits(b)
    ensures a == b
    decreases a
  {
    var s, t := Digits(a), Digits(b);
    assert s[|s| - 1] == t[|t| - 1];
    assert a % 10 == b % 10;
    if a >= 10 && b >= 10 {
      assert s[..|s| - 1] == Digits(a / 10) && t[..|t| - 1] == Digits(b / 10);
      DigitsInjective(a / 10, b / 10);
    } else {
      DigitsLength(a);
      DigitsLength(b);
    }
  }

  lemma {:induction false} DigitsLength(n: nat)
    ensures |Digits(n)| >= 1 && (|Digits(n)| == 1 <==> n < 10)
    ensures forall i :: 0 <= i < |Digits(n)| ==> 48 <= Digits(n)[i] < 58
  {
    if n >= 10 { DigitsLength(n / 10); }
  }

  lemma DecimalInjective(a: int, b: int)
    requires Decimal(a) == Decimal(b)
    ensures a == b
  {
    DigitsLength(if a < 0 then -a else a);
    DigitsLength(if b < 0 then -b else b);
    assert Decimal(a)[0] == Decimal(b)[0];
    if a < 0 {
      assert Decimal(a)[1..] == Digits(-a) && Decimal(b)[1..] == Digits(-b);
      DigitsInjective(-a, -b);
    } else {
      DigitsInjective(a, b);
    }
  }
}
