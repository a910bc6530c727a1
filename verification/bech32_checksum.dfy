/**
 The checksum of internal/nostr/bech32.go, the one BIP-173 defines in its
 section "Bech32", and why it detects errors at any length: it is linear over
 exclusive or, and its step on thirty bits is injective.
 */
module Bech32Checksum {

  // ---------------------------------------------------------------- checksum

  /** Bitwise operations under names, so that proofs about sequences need not open them. */
  function Xor(a: bv32, b: bv32): bv32 { a ^ b }

  function Word(value: nat): bv32
    requires value < 256
  {
    value as bv32
  }

  function Shifted(checksum: bv32): bv32 { (checksum & 0x1ffffff) << 5 }

  function Top(checksum: bv32): bv32 { checksum >> 25 }

  predicate Bit(top: bv32, j: nat)
    requires j < 5
  {
    (top >> j) & 1 == 1
  }

  const GENERATOR: seq<bv32> := [0x3b6a57b2, 0x26508e6d, 0x1ea119fa, 0x3d4233dd, 0x2a1462b3]

  /** The generators selected by the five bits shifted out. */
  function Feedback(top: bv32): bv32 {
    (if top & 1 == 1 then 0x3b6a57b2 else 0)
    ^ (if (top >> 1) & 1 == 1 then 0x26508e6d else 0)
    ^ (if (top >> 2) & 1 == 1 then 0x1ea119fa else 0)
    ^ (if (top >> 3) & 1 == 1 then 0x3d4233dd else 0)
    ^ (if (top >> 4) & 1 == 1 then 0x2a1462b3 else 0)
  }

  function Step(checksum: bv32, value: bv32): bv32 {
    Xor(Xor(Shifted(checksum), value), Feedback(Top(checksum)))
  }

  ghost predicate Symbols(values: seq<nat>) { forall i :: 0 <= i < |values| ==> values[i] < 32 }

  function PolymodFrom(checksum: bv32, values: seq<nat>): bv32
    requires Symbols(values)
    decreases |values|
  {
    if values == [] then checksum else PolymodFrom(Step(checksum, Word(values[0])), values[1..])
  }

  method Polymod(values: seq<nat>) returns (checksum: bv32)
    requires Symbols(values)
    ensures checksum == PolymodFrom(1, values)
  {
    hide Step, Word;
    checksum := 1;
    for i := 0 to |values|
      invariant PolymodFrom(checksum, values[i..]) == PolymodFrom(1, values)
    {
      checksum := Round(checksum, Word(values[i]));
      assert values[i..][1..] == values[i + 1..];
    }
  }

  method Round(before: bv32, value: bv32) returns (checksum: bv32)
    ensures checksum == Step(before, value)
  {
    hide Feedback, FeedbackFrom, Bit, Shifted, Xor;
    var top := Top(before);
    checksum := Xor(Shifted(before), value);
    FeedbackUnrolled(top);
    for j := 0 to 5
      invariant Xor(checksum, FeedbackFrom(top, j)) == Step(before, value)
    {
      SelectOne(checksum, top, j);
      if Bit(top, j) {
        checksum := Xor(checksum, GENERATOR[j]);
      }
    }
    NoneLeft(checksum, top);
  }

  function Selected(top: bv32, j: nat): bv32
    requires j < 5
  {
    if Bit(top, j) then GENERATOR[j] else 0
  }

  /** The generators from the j-th on. */
  ghost function FeedbackFrom(top: bv32, j: nat): bv32
    requires j <= 5
    decreases 5 - j
  {
    if j == 5 then 0 else Xor(Selected(top, j), FeedbackFrom(top, j + 1))
  }

  lemma XorLaws(a: bv32, b: bv32, c: bv32)
    ensures Xor(Xor(a, b), c) == Xor(a, Xor(b, c)) && Xor(a, 0) == a && Xor(a, a) == 0
    ensures Xor(a, b) == Xor(b, a)
  {
  }

  lemma NoneLeft(c: bv32, top: bv32)
    ensures Xor(c, FeedbackFrom(top, 5)) == c
  {
  }

  lemma SelectOne(c: bv32, top: bv32, j: nat)
    requires j < 5
    ensures Xor(if Bit(top, j) then Xor(c, GENERATOR[j]) else c, FeedbackFrom(top, j + 1))
         == Xor(c, FeedbackFrom(top, j))
  {
    hide Xor, Bit;
    XorLaws(c, Selected(top, j), FeedbackFrom(top, j + 1));
  }

  lemma FeedbackUnrolled(top: bv32)
    ensures FeedbackFrom(top, 0) == Feedback(top)
  {
    assert FeedbackFrom(top, 5) == 0;
    assert FeedbackFrom(top, 4) == if (top >> 4) & 1 == 1 then 0x2a1462b3 else 0;
    assert FeedbackFrom(top, 3) == (if (top >> 3) & 1 == 1 then 0x3d4233dd else 0) ^ FeedbackFrom(top, 4);
    assert FeedbackFrom(top, 2) == (if (top >> 2) & 1 == 1 then 0x1ea119fa else 0) ^ FeedbackFrom(top, 3);
    assert FeedbackFrom(top, 1) == (if (top >> 1) & 1 == 1 then 0x26508e6d else 0) ^ FeedbackFrom(top, 2);
    assert FeedbackFrom(top, 0) == (if top & 1 == 1 then 0x3b6a57b2 else 0) ^ FeedbackFrom(top, 1);
  }

  // -------------------------------------------------- the checksum is linear

  lemma StepLinear(a: bv32, b: bv32, x: bv32, y: bv32)
    ensures Xor(Step(a, x), Step(b, y)) == Step(Xor(a, b), Xor(x, y))
  {
    hide Shifted, Top, Feedback, Xor;
    FeedbackLinear(Top(a), Top(b));
    ShiftsLinear(a, b);
    XorSwap(Xor(Shifted(a), x), Feedback(Top(a)), Xor(Shifted(b), y), Feedback(Top(b)));
    XorSwap(Shifted(a), x, Shifted(b), y);
  }

  lemma ShiftsLinear(a: bv32, b: bv32)
    ensures Xor(Top(a), Top(b)) == Top(Xor(a, b))
    ensures Xor(Shifted(a), Shifted(b)) == Shifted(Xor(a, b))
  {
  }

  lemma XorSwap(a: bv32, b: bv32, c: bv32, d: bv32)
    ensures Xor(Xor(a, b), Xor(c, d)) == Xor(Xor(a, c), Xor(b, d))
  {
    hide Xor;
    calc {
      Xor(Xor(a, b), Xor(c, d));
      { XorLaws(a, b, Xor(c, d)); XorLaws(b, c, d); }
      Xor(a, Xor(Xor(b, c), d));
      { XorLaws(b, c, 0); XorLaws(c, b, d); }
      Xor(a, Xor(c, Xor(b, d)));
      { XorLaws(a, c, Xor(b, d)); }
      Xor(Xor(a, c), Xor(b, d));
    }
  }

  lemma FeedbackLinear(s: bv32, t: bv32)
    ensures Xor(Feedback(s), Feedback(t)) == Feedback(Xor(s, t))
  {
  }

  /** With no symbol fed in, the step on thirty bits loses nothing. */
  lemma StepInjective(d: bv32)
    requires d < 0x40000000
    ensures Step(d, 0) == 0 <==> d == 0
    ensures Step(d, 0) < 0x40000000
  {
  }

  lemma StepInRange(c: bv32, v: nat)
    requires c < 0x40000000 && v < 32
    ensures Step(c, Word(v)) < 0x40000000
  {
    var word := Word(v);
    assert word < 32;
    WordInRange(c, word);
  }

  lemma WordInRange(c: bv32, v: bv32)
    requires c < 0x40000000 && v < 32
    ensures Step(c, v) < 0x40000000
  {
  }

  /** How a difference between two value strings moves through the checksum. */
  ghost function Spread(d: bv32, u: seq<nat>, v: seq<nat>): bv32
    requires Symbols(u) && Symbols(v) && |u| == |v|
    decreases |u|
  {
    if u == [] then d else Spread(Step(d, Xor(Word(u[0]), Word(v[0]))), u[1..], v[1..])
  }

  lemma {:induction false} PolymodDifference(a: bv32, b: bv32, u: seq<nat>, v: seq<nat>)
    requires Symbols(u) && Symbols(v) && |u| == |v|
    ensures Xor(PolymodFrom(a, u), PolymodFrom(b, v)) == Spread(Xor(a, b), u, v)
    decreases |u|
  {
    hide Xor, Step, Word;
    if u != [] {
      var x, y := Word(u[0]), Word(v[0]);
      StepLinear(a, b, x, y);
      PolymodDifference(Step(a, x), Step(b, y), u[1..], v[1..]);
    }
  }

  lemma {:induction false} SpreadAppend(d: bv32, u: seq<nat>, v: seq<nat>, u': seq<nat>, v': seq<nat>)
    requires Symbols(u) && Symbols(v) && |u| == |v|
    requires Symbols(u') && Symbols(v') && |u'| == |v'|
    ensures Spread(d, u + u', v + v') == Spread(Spread(d, u, v), u', v')
    decreases |u|
  {
    hide Xor, Step, Word;
    if u == [] {
      assert u + u' == u' && v + v' == v';
    } else {
      assert (u + u')[1..] == u[1..] + u' && (v + v')[1..] == v[1..] + v';
      SpreadAppend(Step(d, Xor(Word(u[0]), Word(v[0]))), u[1..], v[1..], u', v');
    }
  }

  /** Over equal values a difference neither appears nor disappears. */
  lemma {:induction false} SpreadSame(d: bv32, u: seq<nat>)
    requires Symbols(u) && d < 0x40000000
    ensures Spread(d, u, u) == 0 <==> d == 0
    decreases |u|
  {
    hide Xor, Step, Word;
    if u != [] {
      XorLaws(Word(u[0]), 0, 0);
      StepInjective(d);
      SpreadSame(Step(d, 0), u[1..]);
    }
  }

  /** What a window of n symbols may still be given without overflowing thirty bits. */
  function Room(n: nat): bv32
    requires n <= 6
  {
    match n
    case 0 => 0x40000000
    case 1 => 0x2000000
    case 2 => 0x100000
    case 3 => 0x8000
    case 4 => 0x400
    case 5 => 0x20
    case 6 => 1
  }

  lemma StepInWindow(d: bv32, x: bv32, n: nat)
    requires 0 < n <= 6 && d < Room(n) && x < 32
    ensures Step(d, x) < Room(n - 1)
    ensures Step(d, x) == 0 ==> d == 0 && x == 0
  {
  }

  /** Differences confined to six symbols cannot cancel: they fill disjoint bits. */
  lemma {:induction false} SpreadWindow(d: bv32, u: seq<nat>, v: seq<nat>)
    requires Symbols(u) && Symbols(v) && |u| == |v| <= 6 && d < Room(|u|)
    ensures Spread(d, u, v) < 0x40000000
    ensures Spread(d, u, v) == 0 ==> d == 0 && u == v
    decreases |u|
  {
    hide Xor, Step, Word;
    if u != [] {
      var x := Xor(Word(u[0]), Word(v[0]));
      XorSymbols(u[0], v[0]);
      StepInWindow(d, x, |u|);
      SpreadWindow(Step(d, x), u[1..], v[1..]);
      assert u == [u[0]] + u[1..] && v == [v[0]] + v[1..];
    }
  }

  lemma XorSymbols(a: nat, b: nat)
    requires a < 32 && b < 32
    ensures Xor(Word(a), Word(b)) < 32
    ensures Xor(Word(a), Word(b)) == 0 <==> a == b
  {
    hide Xor, Word;
    WordValue(a);
    WordValue(b);
    XorSmall(Word(a), Word(b));
  }

  lemma WordValue(a: nat)
    requires a < 32
    ensures Word(a) < 32 && Word(a) as int == a
  {
  }

  lemma XorSmall(x: bv32, y: bv32)
    requires x < 32 && y < 32
    ensures Xor(x, y) < 32
    ensures Xor(x, y) == 0 <==> x == y
  {
  }

  /** Error detection at any length, on the values the checksum is computed over. */
  lemma PolymodBurst(u: seq<nat>, v: seq<nat>, k: nat, n: nat)
    requires Symbols(u) && Symbols(v) && |u| == |v| && u != v
    requires n <= 6 && k + n <= |u| && u[..k] == v[..k] && u[k + n..] == v[k + n..]
    ensures PolymodFrom(1, u) != PolymodFrom(1, v)
  {
    hide Xor, Step, Word;
    var a, b, c := u[..k], u[k..k + n], u[k + n..];
    var b' := v[k..k + n];
    assert u == a + (b + c) && v == a + (b' + c);
    XorLaws(1, 0, 0);
    SpreadAppend(0, a, a, b + c, b' + c);
    SpreadSame(0, a);
    SpreadAppend(0, b, b', c, c);
    assert 0 < Room(n);
    SpreadWindow(0, b, b');
    SpreadSame(Spread(0, b, b'), c);
    PolymodDifference(1, 1, u, v);
    XorLaws(PolymodFrom(1, u), 0, 0);
  }

  lemma {:induction false} PolymodInRange(c: bv32, u: seq<nat>)
    requires Symbols(u) && c < 0x40000000
    ensures PolymodFrom(c, u) < 0x40000000
    decreases |u|
  {
    hide Xor, Step, Word;
    if u != [] {
      StepInRange(c, u[0]);
      PolymodInRange(Step(c, Word(u[0])), u[1..]);
    }
  }

  // -------------------------------------------------- the six check symbols

  /** Five bits of the checksum. */
  function Field(checksum: bv32, shift: nat): bv32
    requires shift <= 25
  {
    (checksum >> shift) & 31
  }

  function Symbol(checksum: bv32, shift: nat): (v: nat)
    requires shift <= 25
    ensures v < 32
  {
    Field(checksum, shift) as int
  }

  function CheckSymbols(checksum: bv32): (values: seq<nat>)
    ensures |values| == 6 && Symbols(values)
  {
    [Symbol(checksum, 25), Symbol(checksum, 20), Symbol(checksum, 15),
     Symbol(checksum, 10), Symbol(checksum, 5), Symbol(checksum, 0)]
  }

  const SIX_ZEROS: seq<nat> := [0, 0, 0, 0, 0, 0]

  /** While there is room, a step appends its symbol. */
  function Append(d: bv32, x: bv32): bv32 { (d << 5) | x }

  lemma StepAppends(d: bv32, x: bv32, n: nat)
    requires 0 < n <= 6 && d < Room(n) && x < 32
    ensures Step(d, x) == Append(d, x) < Room(n - 1)
  {
    hide Step, Append;
    assert d < 0x2000000;
    NoFeedback(d, x);
    StepInWindow(d, x, n);
  }

  lemma NoFeedback(d: bv32, x: bv32)
    requires d < 0x2000000 && x < 32
    ensures Step(d, x) == Append(d, x)
  {
    hide Feedback, Shifted, Top, Append, Xor;
    TopZero(d);
    AppendIsXor(d, x);
    FeedbackZero();
    XorLaws(Xor(Shifted(d), x), 0, 0);
  }

  lemma FeedbackZero() ensures Feedback(0) == 0 {}

  lemma TopZero(d: bv32)
    requires d < 0x2000000
    ensures Top(d) == 0
  {
  }

  lemma AppendIsXor(d: bv32, x: bv32)
    requires d < 0x2000000 && x < 32
    ensures Xor(Shifted(d), x) == Append(d, x)
  {
  }

  function Packed(x0: bv32, x1: bv32, x2: bv32, x3: bv32, x4: bv32, x5: bv32): bv32 {
    Append(Append(Append(Append(Append(Append(0, x0), x1), x2), x3), x4), x5)
  }

  lemma SixSteps(x0: bv32, x1: bv32, x2: bv32, x3: bv32, x4: bv32, x5: bv32)
    requires x0 < 32 && x1 < 32 && x2 < 32 && x3 < 32 && x4 < 32 && x5 < 32
    ensures Step(Step(Step(Step(Step(Step(0, x0), x1), x2), x3), x4), x5) == Packed(x0, x1, x2, x3, x4, x5)
    ensures Packed(x0, x1, x2, x3, x4, x5) < 0x40000000
  {
    hide Step, Append;
    StepAppends(0, x0, 6);
    var d1 := Append(0, x0);
    StepAppends(d1, x1, 5);
    var d2 := Append(d1, x1);
    StepAppends(d2, x2, 4);
    var d3 := Append(d2, x2);
    StepAppends(d3, x3, 3);
    var d4 := Append(d3, x3);
    StepAppends(d4, x4, 2);
    StepAppends(Append(d4, x4), x5, 1);
  }

  /** The six symbols of a packed word are the ones it was packed from, and a word is its symbols. */
  lemma PackedSymbols(x0: bv32, x1: bv32, x2: bv32, x3: bv32, x4: bv32, x5: bv32)
    requires x0 < 32 && x1 < 32 && x2 < 32 && x3 < 32 && x4 < 32 && x5 < 32
    ensures var c := Packed(x0, x1, x2, x3, x4, x5);
      && Field(c, 25) == x0 && Field(c, 20) == x1 && Field(c, 15) == x2
      && Field(c, 10) == x3 && Field(c, 5) == x4 && Field(c, 0) == x5
  {
  }

  lemma SymbolsPacked(c: bv32)
    requires c < 0x40000000
    ensures Packed(Field(c, 25), Field(c, 20), Field(c, 15), Field(c, 10), Field(c, 5), Field(c, 0)) == c
  {
  }

  function PackedSix(check: seq<nat>): bv32
    requires Symbols(check) && |check| == 6
  {
    Packed(Word(check[0]), Word(check[1]), Word(check[2]), Word(check[3]), Word(check[4]), Word(check[5]))
  }

  lemma {:induction false} SpreadZero(u: seq<nat>)
    requires Symbols(u)
    ensures Spread(0, u, u) == 0
  {
    SpreadSame(0, u);
  }

  lemma SpreadSix(check: seq<nat>)
    requires Symbols(check) && |check| == 6
    ensures Spread(0, SIX_ZEROS, check) == PackedSix(check) < 0x40000000
  {
    hide Step, Xor, Word, Packed;
    ZeroWord();
    forall i | 0 <= i < 6 ensures Word(check[i]) < 32 && Xor(0, Word(check[i])) == Word(check[i]) {
      WordValue(check[i]);
      XorLaws(0, Word(check[i]), 0);
      XorLaws(Word(check[i]), 0, 0);
    }
    SixSteps(Word(check[0]), Word(check[1]), Word(check[2]), Word(check[3]), Word(check[4]), Word(check[5]));
    assert SIX_ZEROS[1..][1..][1..][1..][1..][1..] == [];
  }

  lemma ZeroWord() ensures Word(0) == 0 {}

  /** Packing and reading off the check symbols are inverse. */
  lemma CheckSymbolsOfPacked(check: seq<nat>)
    requires Symbols(check) && |check| == 6
    ensures CheckSymbols(PackedSix(check)) == check
  {
    hide Word, Packed, Field;
    forall i | 0 <= i < 6 ensures Word(check[i]) < 32 && Word(check[i]) as int == check[i] {
      WordValue(check[i]);
    }
    PackedSymbols(Word(check[0]), Word(check[1]), Word(check[2]), Word(check[3]), Word(check[4]), Word(check[5]));
  }

  lemma PackedOfCheckSymbols(c: bv32)
    requires c < 0x40000000
    ensures PackedSix(CheckSymbols(c)) == c
  {
    hide Word, Packed, Symbol, Field;
    SymbolWord(c, 25);
    SymbolWord(c, 20);
    SymbolWord(c, 15);
    SymbolWord(c, 10);
    SymbolWord(c, 5);
    SymbolWord(c, 0);
    SymbolsPacked(c);
  }

  lemma SymbolWord(c: bv32, shift: nat)
    requires shift <= 25
    ensures Word(Symbol(c, shift)) == Field(c, shift)
  {
    hide Field;
    FieldSmall(c, shift);
  }

  lemma FieldSmall(c: bv32, shift: nat)
    requires shift <= 25
    ensures Field(c, shift) < 32
  {
  }
}
