/**
 Bit streams: what a shift-and-mask loop over an accumulator does to the
 bits it carries. Everything is stated with halving and doubling, so no
 product of variables appears.
 */
module Bits {

  /** a << k, on unbounded numbers. */
  function Shl(a: nat, k: nat): nat { if k == 0 then a else 2 * Shl(a, k - 1) }

  /** a >> k. */
  function Shr(a: nat, k: nat): nat { if k == 0 then a else Shr(a, k - 1) / 2 }

  /** a & (2^k - 1): with k = 32, what a uint32 keeps of a. */
  function Mask(a: nat, k: nat): nat { if k == 0 then 0 else 2 * Mask(a / 2, k - 1) + a % 2 }

  /** The low k bits of a, most significant first. */
  function Low(a: nat, k: nat): (bits: seq<bool>)
    ensures |bits| == k
  {
    if k == 0 then [] else Low(a / 2, k - 1) + [a % 2 == 1]
  }

  /** The number a bit string stands for. */
  function Value(bits: seq<bool>): nat {
    if bits == [] then 0 else 2 * Value(bits[..|bits| - 1]) + if bits[|bits| - 1] then 1 else 0
  }

  function Zeros(k: nat): (bits: seq<bool>)
    ensures |bits| == k && forall i :: 0 <= i < k ==> !bits[i]
  {
    seq(k, i => false)
  }

  /** The stream a string of w-bit groups carries. */
  function Stream(s: seq<nat>, w: nat): seq<bool> {
    if s == [] then [] else Stream(s[..|s| - 1], w) + Low(s[|s| - 1], w)
  }

  /** A stream cut into whole w-bit groups; a shorter tail is dropped. */
  function Group(bits: seq<bool>, w: nat): seq<nat>
    requires w > 0
    decreases |bits|
  {
    if |bits| < w then [] else [Value(bits[..w])] + Group(bits[w..], w)
  }

  /** What Group drops. */
  function Tail(bits: seq<bool>, w: nat): (tail: seq<bool>)
    requires w > 0
    ensures |tail| < w
    decreases |bits|
  {
    if |bits| < w then bits else Tail(bits[w..], w)
  }

  /** v is below 2^w: masking to w bits changes nothing. */
  predicate InWidth(v: nat, w: nat) { Mask(v, w) == v }

  lemma {:induction false} ShrHalf(a: nat, k: nat)
    requires k > 0
    ensures Shr(a, k) == Shr(a / 2, k - 1)
  {
    if k > 1 { ShrHalf(a, k - 1); }
  }

  /** The low m+k bits are the low m bits of a >> k, then the low k bits. */
  lemma {:induction false} LowSplit(a: nat, m: nat, k: nat)
    ensures Low(a, m + k) == Low(Shr(a, k), m) + Low(a, k)
  {
    if k != 0 {
      LowSplit(a / 2, m, k - 1);
      ShrHalf(a, k);
      assert m + k - 1 == m + (k - 1);
    }
  }

  lemma {:induction false} LowMask(a: nat, k: nat, n: nat)
    requires n <= k
    ensures Low(Mask(a, k), n) == Low(a, n)
  {
    if n != 0 { LowMask(a / 2, k - 1, n - 1); }
  }

  lemma {:induction false} MaskInWidth(a: nat, k: nat)
    ensures InWidth(Mask(a, k), k)
  {
    if k != 0 { MaskInWidth(a / 2, k - 1); }
  }

  lemma {:induction false} MaskBound(v: nat, k: nat)
    ensures Mask(v, k) < Shl(1, k)
    ensures InWidth(v, k) <==> v < Shl(1, k)
  {
    if k != 0 { MaskBound(v / 2, k - 1); }
  }

  /** Shifting in a k-bit value appends its bits. */
  lemma {:induction false} LowShiftIn(a: nat, v: nat, m: nat, k: nat)
    requires InWidth(v, k)
    ensures Low(Shl(a, k) + v, m + k) == Low(a, m) + Low(v, k)
  {
    if k != 0 {
      assert (Shl(a, k) + v) / 2 == Shl(a, k - 1) + v / 2;
      assert m + k - 1 == m + (k - 1);
      LowShiftIn(a, v / 2, m, k - 1);
    }
  }

  lemma {:induction false} ValueOfLow(a: nat, k: nat)
    ensures Value(Low(a, k)) == Mask(a, k)
  {
    if k != 0 { ValueOfLow(a / 2, k - 1); }
  }

  lemma {:induction false} LowOfValue(bits: seq<bool>)
    ensures Low(Value(bits), |bits|) == bits && InWidth(Value(bits), |bits|)
  {
    if bits != [] { LowOfValue(bits[..|bits| - 1]); }
  }

  lemma {:induction false} StreamAppend(s: seq<nat>, t: seq<nat>, w: nat)
    ensures Stream(s + t, w) == Stream(s, w) + Stream(t, w)
  {
    if t == [] {
      assert s + t == s;
    } else {
      hide Low;
      assert (s + t)[..|s + t| - 1] == s + t[..|t| - 1];
      StreamAppend(s, t[..|t| - 1], w);
      assert Stream(s + t, w) == Stream(s, w) + Stream(t[..|t| - 1], w) + Low(t[|t| - 1], w);
    }
  }

  lemma StreamOne(v: nat, w: nat)
    ensures Stream([v], w) == Low(v, w)
  {
    assert [v][..0] == [];
  }

  /** Cutting a stream back into the width it was made with recovers the groups. */
  lemma {:induction false} GroupOfStream(s: seq<nat>, tail: seq<bool>, w: nat)
    requires |tail| < w && forall i :: 0 <= i < |s| ==> InWidth(s[i], w)
    ensures Group(Stream(s, w) + tail, w) == s
    ensures Tail(Stream(s, w) + tail, w) == tail
  {
    if s == [] {
      assert Stream(s, w) + tail == tail;
    } else {
      var rest := Stream(s[1..], w) + tail;
      assert Stream(s, w) + tail == Low(s[0], w) + rest by {
        StreamOne(s[0], w);
        assert s == [s[0]] + s[1..];
        StreamAppend([s[0]], s[1..], w);
      }
      GroupOfStream(s[1..], tail, w);
      GroupOne(s[0], rest, w);
    }
  }

  lemma GroupOne(v: nat, rest: seq<bool>, w: nat)
    requires w > 0 && InWidth(v, w)
    ensures Group(Low(v, w) + rest, w) == [v] + Group(rest, w)
    ensures Tail(Low(v, w) + rest, w) == Tail(rest, w)
  {
    var bits := Low(v, w) + rest;
    ValueOfLow(v, w);
    assert bits[..w] == Low(v, w) && bits[w..] == rest;
  }

  /** The test `v >> k == 0` is the test that v fits k bits. */
  lemma {:induction false} ShrZero(v: nat, k: nat)
    ensures Shr(v, k) == 0 <==> InWidth(v, k)
  {
    if k != 0 {
      ShrHalf(v, k);
      ShrZero(v / 2, k - 1);
    }
  }

  lemma {:induction false} ValueZero(bits: seq<bool>)
    ensures Value(bits) == 0 <==> forall i :: 0 <= i < |bits| ==> !bits[i]
  {
    if bits != [] {
      var front := bits[..|bits| - 1];
      ValueZero(front);
      assert forall i :: 0 <= i < |front| ==> front[i] == bits[i];
      if Value(bits) == 0 {
        forall i | 0 <= i < |bits| ensures !bits[i] {
          if i < |front| { assert !front[i]; }
        }
      }
    }
  }

  lemma {:induction false} LowOfZero(k: nat)
    ensures Low(0, k) == Zeros(k) && InWidth(0, k)
  {
    if k != 0 { LowOfZero(k - 1); }
  }

  lemma {:induction false} GroupsInWidth(bits: seq<bool>, w: nat)
    requires w > 0
    ensures forall v :: v in Group(bits, w) ==> InWidth(v, w)
    decreases |bits|
  {
    if |bits| >= w {
      GroupsInWidth(bits[w..], w);
      LowOfValue(bits[..w]);
    }
  }

  lemma PutTogether(bits: seq<bool>, w: nat, middle: seq<bool>, tail: seq<bool>)
    requires w <= |bits| && middle + tail == bits[w..]
    ensures bits[..w] + middle + tail == bits
  {
    assert bits == bits[..w] + bits[w..];
  }

  /** Groups and the tail that is too short for one make up the stream. */
  lemma {:induction false} StreamOfGroup(bits: seq<bool>, w: nat)
    requires w > 0
    ensures Stream(Group(bits, w), w) + Tail(bits, w) == bits
    ensures forall v :: v in Group(bits, w) ==> InWidth(v, w)
    decreases |bits|
  {
    GroupsInWidth(bits, w);
    if |bits| < w {
      assert Stream([], w) + bits == bits;
    } else {
      var rest := bits[w..];
      StreamOfGroup(rest, w);
      FirstGroup(bits, w);
      hide Stream, Group, Tail, Low, Value, InWidth;
      PutTogether(bits, w, Stream(Group(rest, w), w), Tail(rest, w));
    }
  }

  lemma FirstGroup(bits: seq<bool>, w: nat)
    requires 0 < w <= |bits|
    ensures Tail(bits, w) == Tail(bits[w..], w)
    ensures Stream(Group(bits, w), w) == bits[..w] + Stream(Group(bits[w..], w), w)
  {
    var v := Value(bits[..w]);
    LowOfValue(bits[..w]);
    StreamAppend([v], Group(bits[w..], w), w);
    StreamOne(v, w);
    hide Stream, Low, InWidth;
  }
}
