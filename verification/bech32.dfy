/**
 Bech32 as internal/nostr/bech32.go writes it: the encoding of BIP-173 under
 the 5000-character limit of NIP-19.

 The methods follow the Go loops. Each is proved equal to a specification
 function, and the theorems at the end are about those functions.
 */
module Bech32 {
  import opened Bits
  import opened Bech32Checksum
  import opened Wrappers

  type Byte = x: int | 0 <= x < 256

  /** One byte of text. */
  type Octet = c: char | c as int < 256
  type Text = seq<Octet>

  datatype Error = Invalid | Checksum
  datatype Decoded = Decoded(hrp: Text, payload: seq<Byte>)

  const MAX_LENGTH := 5000
  const CHARSET: Text := "qpzry9x8gf2tvdw0s3jn54khce6mua7l"

  // --------------------------------------------------------- regrouping bits

  function PadLength(bits: seq<bool>, to: nat): nat
    requires to > 0
  {
    if |Tail(bits, to)| == 0 then 0 else to - |Tail(bits, to)|
  }

  /** What regrouping means on the bit stream. */
  function Regrouped(data: seq<nat>, from: nat, to: nat, pad: bool): Result<seq<nat>, Error>
    requires to > 0
  {
    var bits := Stream(data, from);
    if exists i :: 0 <= i < |data| && !InWidth(data[i], from) then Err(Invalid)
    else if pad then Ok(Group(bits + Zeros(PadLength(bits, to)), to))
    else if |Tail(bits, to)| >= from || true in Tail(bits, to) then Err(Invalid)
    else Ok(Group(bits, to))
  }

  /** The accumulator wraps at 32 bits, as the Go uint32 does. */
  method ConvertBits(data: seq<nat>, from: nat, to: nat, pad: bool) returns (r: Result<seq<nat>, Error>)
    requires 1 <= from <= 8 && 1 <= to <= 8
    ensures r == Regrouped(data, from, to, pad)
  {
    hide Carried, Stream, Low, Mask, Shl, Shr, Group, Tail, Zeros, PadLength, InWidth;
    var accumulator: nat, bits: nat := 0, 0;
    var converted: seq<nat> := [];
    NothingCarried(data, from, to);
    for i := 0 to |data|
      invariant forall j :: 0 <= j < i ==> InWidth(data[j], from)
      invariant Carried(data[..i], from, converted, to, accumulator, bits) && bits < to
    {
      if Shr(data[i], from) != 0 {
        ShrZero(data[i], from);
        return Err(Invalid);
      }
      ShrZero(data[i], from);
      TakeIn(data, i, from, converted, to, accumulator, bits);
      accumulator, bits := Mask(Shl(accumulator, from) + data[i], 32), bits + from;
      while bits >= to
        invariant bits < to + from
        invariant Carried(data[..i + 1], from, converted, to, accumulator, bits)
        decreases bits
      {
        GiveOut(data[..i + 1], from, converted, to, accumulator, bits);
        bits := bits - to;
        converted := converted + [Mask(Shr(accumulator, bits), to)];
      }
    }
    assert data[..|data|] == data;
    if pad {
      FinishPadded(data, from, converted, to, accumulator, bits);
      if bits > 0 {
        converted := converted + [Mask(Mask(Shl(accumulator, to - bits), 32), to)];
      }
      return Ok(converted);
    }
    FinishExact(data, from, converted, to, accumulator, bits);
    if bits >= from || Mask(Mask(Shl(accumulator, to - bits), 32), to) != 0 {
      return Err(Invalid);
    }
    return Ok(converted);
  }

  lemma FinishPadded(data: seq<nat>, from: nat, converted: seq<nat>, to: nat, accumulator: nat, bits: nat)
    requires bits < to <= 8 && Carried(data, from, converted, to, accumulator, bits)
    ensures var last := Mask(Mask(Shl(accumulator, to - bits), 32), to);
      Group(Stream(data, from) + Zeros(PadLength(Stream(data, from), to)), to)
      == if bits > 0 then converted + [last] else converted
  {
    var stream := Stream(data, from);
    GroupOfStream(converted, Low(accumulator, bits), to);
    if bits > 0 {
      LastGroup(accumulator, bits, to);
      var last := Mask(Mask(Shl(accumulator, to - bits), 32), to);
      StreamAppend(converted, [last], to);
      StreamOne(last, to);
      assert Stream(converted + [last], to) + [] == stream + Zeros(to - bits);
      GroupOfStream(converted + [last], [], to);
    } else {
      assert stream + Zeros(0) == stream;
    }
  }

  lemma FinishExact(data: seq<nat>, from: nat, converted: seq<nat>, to: nat, accumulator: nat, bits: nat)
    requires bits < to <= 8 && Carried(data, from, converted, to, accumulator, bits)
    ensures Group(Stream(data, from), to) == converted && |Tail(Stream(data, from), to)| == bits
    ensures Mask(Mask(Shl(accumulator, to - bits), 32), to) != 0 <==> true in Tail(Stream(data, from), to)
  {
    var rest := Low(accumulator, bits);
    var last := Mask(Mask(Shl(accumulator, to - bits), 32), to);
    GroupOfStream(converted, rest, to);
    LastGroup(accumulator, bits, to);
    ValueZero(rest + Zeros(to - bits));
    ValueOfLow(last, to);
    assert forall i :: 0 <= i < bits ==> (rest + Zeros(to - bits))[i] == rest[i];
  }

  /** Between symbols: everything read is either given out or in the low bits of the accumulator. */
  ghost predicate Carried(read: seq<nat>, from: nat, converted: seq<nat>, to: nat, accumulator: nat, bits: nat) {
    && Stream(read, from) == Stream(converted, to) + Low(accumulator, bits)
    && forall v :: v in converted ==> InWidth(v, to)
  }

  lemma NothingCarried(data: seq<nat>, from: nat, to: nat)
    ensures Carried(data[..0], from, [], to, 0, 0)
  {
  }

  lemma TakeIn(data: seq<nat>, i: nat, from: nat, converted: seq<nat>, to: nat, accumulator: nat, bits: nat)
    requires i < |data| && InWidth(data[i], from) && bits + from <= 32
    requires Carried(data[..i], from, converted, to, accumulator, bits)
    ensures Carried(data[..i + 1], from, converted, to, Mask(Shl(accumulator, from) + data[i], 32), bits + from)
  {
    LowMask(Shl(accumulator, from) + data[i], 32, bits + from);
    LowShiftIn(accumulator, data[i], bits, from);
    assert data[..i + 1][..i] == data[..i];
  }

  lemma GiveOut(read: seq<nat>, from: nat, converted: seq<nat>, to: nat, accumulator: nat, bits: nat)
    requires bits >= to && Carried(read, from, converted, to, accumulator, bits)
    ensures Carried(read, from, converted + [Mask(Shr(accumulator, bits - to), to)], to, accumulator, bits - to)
  {
    var x := Mask(Shr(accumulator, bits - to), to);
    LowSplit(accumulator, to, bits - to);
    LowMask(Shr(accumulator, bits - to), to, to);
    MaskInWidth(Shr(accumulator, bits - to), to);
    StreamAppend(converted, [x], to);
    StreamOne(x, to);
  }

  /** Shifting the last bits up to a whole group fills it with zeros. */
  lemma LastGroup(accumulator: nat, bits: nat, to: nat)
    requires bits < to <= 8
    ensures var last := Mask(Mask(Shl(accumulator, to - bits), 32), to);
      Low(last, to) == Low(accumulator, bits) + Zeros(to - bits) && InWidth(last, to)
  {
    var shifted := Shl(accumulator, to - bits);
    LowMask(Mask(shifted, 32), to, to);
    LowMask(shifted, 32, to);
    LowOfZero(to - bits);
    LowShiftIn(accumulator, 0, bits, to - bits);
    MaskInWidth(Mask(shifted, 32), to);
  }

  // ------------------------------------------------------------------- text

  function LowerChar(c: Octet): Octet {
    if 'A' <= c <= 'Z' then (c as int + 32) as char else c
  }

  function UpperChar(c: Octet): Octet {
    if 'a' <= c <= 'z' then (c as int - 32) as char else c
  }

  function Lower(s: Text): (t: Text) { seq(|s|, i requires 0 <= i < |s| => LowerChar(s[i])) }

  function Upper(s: Text): (t: Text) { seq(|s|, i requires 0 <= i < |s| => UpperChar(s[i])) }

  /** The position of the last '1', or -1. */
  function LastOne(s: Text): (k: int)
    ensures -1 <= k < |s|
    ensures k >= 0 ==> s[k] == '1'
    ensures forall i :: k < i < |s| ==> s[i] != '1'
  {
    if s == [] then -1
    else if s[|s| - 1] == '1' then |s| - 1
    else LastOne(s[..|s| - 1])
  }

  predicate Printable(s: Text) { forall i :: 0 <= i < |s| ==> 33 <= s[i] as int <= 126 }

  /** The position of c in the alphabet from position k on, or -1. */
  function SymbolFrom(c: Octet, k: nat): (v: int)
    requires k <= 32
    ensures v == -1 || (k <= v < 32 && CHARSET[v] == c)
    ensures v == -1 ==> c !in CHARSET[k..]
    decreases 32 - k
  {
    if k == 32 then -1 else if CHARSET[k] == c then k else SymbolFrom(c, k + 1)
  }

  /** The value of a character, or -1: the table decodeCharset. */
  function SymbolOf(c: Octet): (v: int)
    ensures v == -1 || (0 <= v < 32 && CHARSET[v] == c)
    ensures v == -1 ==> c !in CHARSET
  {
    SymbolFrom(c, 0)
  }

  predicate InAlphabet(s: Text) { forall i :: 0 <= i < |s| ==> SymbolOf(s[i]) >= 0 }

  function SymbolsOf(s: Text): (values: seq<nat>)
    requires InAlphabet(s)
    ensures Symbols(values) && |values| == |s|
  {
    seq(|s|, i requires 0 <= i < |s| => SymbolOf(s[i]))
  }

  function Chars(values: seq<nat>): (s: Text)
    requires Symbols(values)
    ensures |s| == |values|
  {
    seq(|values|, i requires 0 <= i < |values| => CHARSET[values[i]])
  }

  // --------------------------------------------------------- the codec, specified

  function Expanded(hrp: Text): (values: seq<nat>)
    ensures Symbols(values) && |values| == 2 * |hrp| + 1
  {
    seq(|hrp|, i requires 0 <= i < |hrp| => hrp[i] as int / 32) + [0]
    + seq(|hrp|, i requires 0 <= i < |hrp| => hrp[i] as int % 32)
  }

  function FiveBits(payload: seq<Byte>): (values: seq<nat>)
    ensures Symbols(values)
  {
    var bits := Stream(payload, 8);
    GroupWidth(bits + Zeros(PadLength(bits, 5)), 5);
    Group(bits + Zeros(PadLength(bits, 5)), 5)
  }

  function ChecksumOf(hrp: Text, values: seq<nat>): bv32
    requires Symbols(values)
  {
    Xor(PolymodFrom(1, Expanded(hrp) + values + SIX_ZEROS), 1)
  }

  function Encoded(hrp: Text, payload: seq<Byte>): Text {
    var values := FiveBits(payload);
    hrp + "1" + Chars(values) + Chars(CheckSymbols(ChecksumOf(hrp, values)))
  }

  function EncodedOrError(hrp: Text, payload: seq<Byte>): Result<Text, Error> {
    if hrp == "" then Err(Invalid) else Ok(Encoded(hrp, payload))
  }

  /** The payload under the checksum, regrouped to bytes. */
  function Payload(hrp: Text, values: seq<nat>): Result<Decoded, Error>
    requires Symbols(values) && |values| >= 6
  {
    if PolymodFrom(1, Expanded(hrp) + values) != 1 then Err(Checksum)
    else match Regrouped(values[..|values| - 6], 5, 8, false)
      case Err(e) => Err(e)
      case Ok(bytes) =>
        BytesRegrouped(values[..|values| - 6]);
        Ok(Decoded(hrp, bytes))
  }

  function DecodedOrError(s: Text): Result<Decoded, Error> {
    if |s| > MAX_LENGTH then Err(Invalid)
    else if s != Lower(s) && s != Upper(s) then Err(Invalid)
    else
      var encoded := Lower(s);
      var separator := LastOne(encoded);
      if separator < 1 || separator + 7 > |encoded| then Err(Invalid)
      else if !Printable(encoded[..separator]) then Err(Invalid)
      else if !InAlphabet(encoded[separator + 1..]) then Err(Invalid)
      else Payload(encoded[..separator], SymbolsOf(encoded[separator + 1..]))
  }

  lemma GroupWidth(bits: seq<bool>, w: nat)
    requires w > 0
    ensures w == 5 ==> Symbols(Group(bits, w))
    ensures w == 8 ==> forall v :: v in Group(bits, w) ==> v < 256
  {
    StreamOfGroup(bits, w);
    forall v | v in Group(bits, w)
      ensures w == 5 ==> v < 32
      ensures w == 8 ==> v < 256
    {
      assert InWidth(v, w);
      InWidthBound(v);
    }
    assert forall i :: 0 <= i < |Group(bits, w)| ==> Group(bits, w)[i] in Group(bits, w);
  }

  lemma InWidthBound(v: nat)
    ensures InWidth(v, 5) <==> v < 32
    ensures InWidth(v, 8) <==> v < 256
  {
    MaskBound(v, 5);
    MaskBound(v, 8);
    assert Shl(1, 4) == 16 && Shl(1, 6) == 64;
  }

  // ------------------------------------------------------------ the Go functions

  method ExpandHRP(hrp: Text) returns (expanded: seq<nat>)
    ensures expanded == Expanded(hrp)
  {
    expanded := [];
    for i := 0 to |hrp|
      invariant expanded == Expanded(hrp)[..i]
    {
      expanded := expanded + [hrp[i] as int / 32];
    }
    expanded := expanded + [0];
    for i := 0 to |hrp|
      invariant expanded == Expanded(hrp)[..|hrp| + 1 + i]
    {
      expanded := expanded + [hrp[i] as int % 32];
    }
  }

  method EncodeBech32(hrp: Text, payload: seq<Byte>) returns (r: Result<Text, Error>)
    ensures r == EncodedOrError(hrp, payload)
  {
    hide PolymodFrom, Expanded, Regrouped, FiveBits, CheckSymbols;
    if hrp == "" {
      return Err(Invalid);
    }
    var regrouped := ConvertBits(payload, 8, 5, true);
    FiveBitsRegrouped(payload);
    var values := regrouped.value;
    var expanded := ExpandHRP(hrp);
    var remainder := Polymod(expanded + values + SIX_ZEROS);
    var builder := WriteSymbols(hrp + "1", values);
    builder := WriteSymbols(builder, CheckSymbols(Xor(remainder, 1)));
    return Ok(builder);
  }

  method WriteSymbols(start: Text, values: seq<nat>) returns (builder: Text)
    requires Symbols(values)
    ensures builder == start + Chars(values)
  {
    builder := start;
    for i := 0 to |values|
      invariant builder == start + Chars(values)[..i]
    {
      builder := builder + [CHARSET[values[i]]];
    }
  }

  method DecodeBech32(encoded: Text) returns (r: Result<Decoded, Error>)
    ensures r == DecodedOrError(encoded)
  {
    hide PolymodFrom, Regrouped, Expanded, SymbolsOf, LowerChar, UpperChar, LastOne, Printable, InAlphabet;
    if |encoded| > MAX_LENGTH {
      return Err(Invalid);
    }
    var lower, upper := Lower(encoded), Upper(encoded);
    if encoded != lower && encoded != upper {
      return Err(Invalid);
    }
    var separator := LastOne(lower);
    if separator < 1 || separator + 7 > |lower| {
      return Err(Invalid);
    }
    var hrp := lower[..separator];
    var printable := CheckPrefix(hrp);
    if !printable {
      return Err(Invalid);
    }
    var read := ReadSymbols(lower[separator + 1..]);
    if read.Err? {
      return Err(Invalid);
    }
    var values := read.value;
    var expanded := ExpandHRP(hrp);
    var remainder := Polymod(expanded + values);
    if remainder != 1 {
      return Err(Checksum);
    }
    var regrouped := ConvertBits(values[..|values| - 6], 5, 8, false);
    match regrouped {
      case Err(e) => return Err(e);
      case Ok(bytes) =>
        BytesRegrouped(values[..|values| - 6]);
        return Ok(Decoded(hrp, bytes));
    }
  }

  method CheckPrefix(hrp: Text) returns (ok: bool)
    ensures ok == Printable(hrp)
  {
    for i := 0 to |hrp|
      invariant Printable(hrp[..i])
    {
      if (hrp[i] as int) < 33 || hrp[i] as int > 126 {
        return false;
      }
    }
    assert hrp[..|hrp|] == hrp;
    return true;
  }

  method ReadSymbols(data: Text) returns (r: Result<seq<nat>, Error>)
    ensures r == if InAlphabet(data) then Ok(SymbolsOf(data)) else Err(Invalid)
  {
    var values: seq<nat> := [];
    for i := 0 to |data|
      invariant InAlphabet(data[..i]) && values == SymbolsOf(data[..i])
    {
      var value := SymbolOf(data[i]);
      if value < 0 {
        return Err(Invalid);
      }
      values := values + [value];
      assert data[..i + 1] == data[..i] + [data[i]];
    }
    assert data[..|data|] == data;
    return Ok(values);
  }

  lemma FiveBitsRegrouped(payload: seq<Byte>)
    ensures Regrouped(payload, 8, 5, true) == Ok(FiveBits(payload))
  {
    forall i | 0 <= i < |payload| ensures InWidth(payload[i], 8) { InWidthBound(payload[i]); }
  }

  lemma BytesRegrouped(values: seq<nat>)
    ensures var r := Regrouped(values, 5, 8, false);
      r.Ok? ==> forall i :: 0 <= i < |r.value| ==> 0 <= r.value[i] < 256
  {
    var bytes := Group(Stream(values, 5), 8);
    GroupWidth(Stream(values, 5), 8);
    assert forall i :: 0 <= i < |bytes| ==> bytes[i] in bytes;
  }

  // ------------------------------------------------------- facts about the text

  lemma SymbolAt(v: nat)
    requires v < 32
    ensures SymbolOf(CHARSET[v]) == v
  {
    var w := SymbolOf(CHARSET[v]);
    assert CHARSET[v] in CHARSET;
    Distinct(v, w);
  }

  lemma Distinct(v: nat, w: nat)
    requires v < 32 && w < 32 && CHARSET[v] == CHARSET[w]
    ensures v == w
  {
  }

  /** Alphabet characters are lower case, and none is the separator. */
  lemma CharsetChars(v: nat)
    requires v < 32
    ensures LowerChar(CHARSET[v]) == CHARSET[v] && CHARSET[v] != '1'
  {
  }

  lemma SymbolsOfChars(values: seq<nat>)
    requires Symbols(values)
    ensures InAlphabet(Chars(values)) && SymbolsOf(Chars(values)) == values
    ensures Lower(Chars(values)) == Chars(values) && '1' !in Chars(values)
  {
    forall i | 0 <= i < |values|
      ensures SymbolOf(Chars(values)[i]) == values[i]
      ensures LowerChar(Chars(values)[i]) == Chars(values)[i] != '1'
    {
      SymbolAt(values[i]);
      CharsetChars(values[i]);
    }
  }

  lemma CharsOfSymbols(s: Text)
    requires InAlphabet(s)
    ensures Chars(SymbolsOf(s)) == s && '1' !in s
  {
    forall i | 0 <= i < |s| ensures CHARSET[SymbolOf(s[i])] == s[i] != '1' {
      CharsetChars(SymbolOf(s[i]));
    }
  }

  lemma LastOneIs(s: Text, k: nat)
    requires k < |s| && s[k] == '1' && '1' !in s[k + 1..]
    ensures LastOne(s) == k
  {
    assert forall i :: k < i < |s| ==> s[i] in s[k + 1..];
  }

  // ---------------------------------------------------------- the check symbols

  /** Appending six symbols instead of six zeros adds exactly their packed word. */
  lemma SixAppended(front: seq<nat>, check: seq<nat>)
    requires Symbols(front) && Symbols(check) && |check| == 6
    ensures Xor(PolymodFrom(1, front + SIX_ZEROS), PolymodFrom(1, front + check))
         == PackedSix(check)
  {
    hide Step, Xor, Word, Packed;
    PolymodDifference(1, 1, front + SIX_ZEROS, front + check);
    XorLaws(1, 0, 0);
    SpreadAppend(0, front, front, SIX_ZEROS, check);
    SpreadZero(front);
    SpreadSix(check);
  }

  // ------------------------------------------------------------------ theorems

  /** The checksum written by the encoder is the one the decoder accepts, and only that one. */
  lemma ChecksumAccepted(hrp: Text, values: seq<nat>, check: seq<nat>)
    requires Symbols(values) && Symbols(check) && |check| == 6
    ensures PolymodFrom(1, Expanded(hrp) + (values + check)) == 1
       <==> check == CheckSymbols(ChecksumOf(hrp, values))
  {
    hide PolymodFrom, Xor, PackedSix, CheckSymbols, Expanded;
    var front := Expanded(hrp) + values;
    assert front + check == Expanded(hrp) + (values + check);
    var zeros, whole := PolymodFrom(1, front + SIX_ZEROS), PolymodFrom(1, front + check);
    SixAppended(front, check);
    CheckSymbolsOfPacked(check);
    XorCancel(zeros, whole, 1);
    if check == CheckSymbols(Xor(zeros, 1)) {
      PolymodInRange(1, front + SIX_ZEROS);
      FlipInRange(zeros);
      PackedOfCheckSymbols(Xor(zeros, 1));
    }
  }

  lemma XorCancel(a: bv32, b: bv32, c: bv32)
    ensures Xor(a, b) == Xor(a, c) <==> b == c
  {
  }

  lemma FlipInRange(c: bv32)
    requires c < 0x40000000
    ensures Xor(c, 1) < 0x40000000
  {
  }

  /** Growing to five bits and back is the identity: the padding is under five zero bits. */
  lemma RegroupRoundTrip(payload: seq<Byte>)
    ensures Regrouped(FiveBits(payload), 5, 8, false) == Ok(payload)
  {
    var bits := Stream(payload, 8);
    var pad := Zeros(PadLength(bits, 5));
    var values := FiveBits(payload);
    forall i | 0 <= i < |values| ensures InWidth(values[i], 5) { InWidthBound(values[i]); }
    forall i | 0 <= i < |payload| ensures InWidth(payload[i], 8) { InWidthBound(payload[i]); }
    PaddedIsWhole(bits, 5);
    StreamOfGroup(bits + pad, 5);
    assert Stream(values, 5) == bits + pad;
    GroupOfStream(payload, pad, 8);
  }

  lemma {:induction false} PaddedIsWhole(bits: seq<bool>, w: nat)
    requires w > 0
    ensures Tail(bits + Zeros(PadLength(bits, w)), w) == []
    decreases |bits|
  {
    var pad := Zeros(PadLength(bits, w));
    if |bits| >= w {
      PaddedIsWhole(bits[w..], w);
      assert (bits + pad)[w..] == bits[w..] + pad;
    } else if bits != [] {
      assert (bits + pad)[w..] == [];
    } else {
      assert bits + pad == [];
    }
  }

  /** The way back is canonical: an accepted regrouping pads with fewer than five zeros. */
  lemma RegroupCanonical(values: seq<nat>, bytes: seq<Byte>)
    requires Symbols(values) && Regrouped(values, 5, 8, false) == Ok(bytes)
    ensures FiveBits(bytes) == values
  {
    var bits := Stream(values, 5);
    var left := Tail(bits, 8);
    forall i | 0 <= i < |values| ensures InWidth(values[i], 5) { InWidthBound(values[i]); }
    StreamOfGroup(bits, 8);
    assert bits == Stream(bytes, 8) + left;
    assert bits + [] == bits;
    GroupOfStream(values, [], 5);
    assert forall i :: 0 <= i < |left| ==> !left[i] by {
      assert forall i :: 0 <= i < |left| ==> left[i] in left;
    }
    PadCompletes(Stream(bytes, 8), left, 5);
    assert left == Zeros(|left|);
  }

  lemma {:induction false} PadCompletes(bits: seq<bool>, left: seq<bool>, w: nat)
    requires w > 0 && |left| < w && Tail(bits + left, w) == []
    ensures PadLength(bits, w) == |left|
    decreases |bits|
  {
    if |bits| >= w {
      assert (bits + left)[w..] == bits[w..] + left;
      PadCompletes(bits[w..], left, w);
    } else if |bits + left| >= w {
      assert |(bits + left)[w..]| < w;
    }
  }

  /** Whatever decodes was encoded: its lower case is the one encoding of what it decodes to. */
  lemma DecodeThenEncode(s: Text)
    requires DecodedOrError(s).Ok?
    ensures var d := DecodedOrError(s).value;
      EncodedOrError(d.hrp, d.payload) == Ok(Lower(s))
  {
    hide PolymodFrom, Regrouped, FiveBits, ChecksumOf, CheckSymbols, Expanded, Chars;
    var encoded := Lower(s);
    var separator := LastOne(encoded);
    var hrp, data := encoded[..separator], encoded[separator + 1..];
    var values := SymbolsOf(data);
    var front, check := values[..|values| - 6], values[|values| - 6..];
    var payload := DecodedOrError(s).value.payload;
    assert Regrouped(front, 5, 8, false) == Ok(payload);
    assert values == front + check;
    ChecksumAccepted(hrp, front, check);
    RegroupCanonical(front, payload);
    CharsOfSymbols(data);
    Reassembled(encoded, separator, front, check);
  }

  lemma Reassembled(encoded: Text, separator: nat, front: seq<nat>, check: seq<nat>)
    requires Symbols(front) && Symbols(check) && separator < |encoded| && encoded[separator] == '1'
    requires Symbols(front + check) && Chars(front + check) == encoded[separator + 1..]
    ensures encoded[..separator] + "1" + Chars(front) + Chars(check) == encoded
  {
    assert Chars(front) + Chars(check) == Chars(front + check);
    assert encoded == encoded[..separator] + "1" + encoded[separator + 1..];
  }

  /** Encoding then decoding is the identity for exactly the prefixes the decoder can return. */
  lemma EncodeThenDecode(hrp: Text, payload: seq<Byte>)
    requires hrp != ""
    ensures DecodedOrError(Encoded(hrp, payload)) == Ok(Decoded(hrp, payload))
       <==> Lower(hrp) == hrp && Printable(hrp) && |Encoded(hrp, payload)| <= MAX_LENGTH
  {
    hide Payload, Encoded, Lower, Printable, InAlphabet, SymbolsOf, LastOne, FiveBits, CheckSymbols, ChecksumOf;
    var s := Encoded(hrp, payload);
    if DecodedOrError(s) == Ok(Decoded(hrp, payload)) {
      DecodedPrefix(s);
    }
    if Lower(hrp) == hrp && Printable(hrp) && |s| <= MAX_LENGTH {
      EncodedShape(hrp, payload);
      EncodedAccepted(hrp, payload);
    }
  }

  /** A prefix the decoder returns is lower case and printable. */
  lemma DecodedPrefix(s: Text)
    requires DecodedOrError(s).Ok?
    ensures var hrp := DecodedOrError(s).value.hrp; hrp != "" && Lower(hrp) == hrp && Printable(hrp)
    ensures |s| <= MAX_LENGTH
  {
    hide PolymodFrom, Regrouped, Expanded, SymbolOf;
    var encoded := Lower(s);
    var hrp := encoded[..LastOne(encoded)];
    assert DecodedOrError(s).value.hrp == hrp;
    assert forall i :: 0 <= i < |hrp| ==> hrp[i] == LowerChar(s[i]);
  }

  /** Under a lower-case prefix, the encoding is lower case and splits where it was joined. */
  lemma EncodedShape(hrp: Text, payload: seq<Byte>)
    requires Lower(hrp) == hrp
    ensures var s := Encoded(hrp, payload);
      var values := FiveBits(payload) + CheckSymbols(ChecksumOf(hrp, FiveBits(payload)));
      && Lower(s) == s && |s| >= |hrp| + 7 && s[..|hrp|] == hrp && LastOne(s) == |hrp|
      && InAlphabet(s[|hrp| + 1..]) && SymbolsOf(s[|hrp| + 1..]) == values
  {
    hide PolymodFrom, FiveBits, ChecksumOf, CheckSymbols, SymbolOf, InAlphabet, SymbolsOf;
    var s := Encoded(hrp, payload);
    var values, check := FiveBits(payload), CheckSymbols(ChecksumOf(hrp, FiveBits(payload)));
    var data := Chars(values + check);
    SymbolsOfChars(values + check);
    assert Chars(values) + Chars(check) == data;
    assert s == hrp + "1" + data;
    LowerJoined(hrp, data);
    assert s[|hrp| + 1..] == data && s[..|hrp|] == hrp;
    LastOneIs(s, |hrp|);
  }

  lemma LowerJoined(hrp: Text, data: Text)
    requires Lower(hrp) == hrp && Lower(data) == data
    ensures Lower(hrp + "1" + data) == hrp + "1" + data
  {
    assert forall i :: 0 <= i < |hrp| ==> LowerChar(hrp[i]) == Lower(hrp)[i];
    assert forall i :: 0 <= i < |data| ==> LowerChar(data[i]) == Lower(data)[i];
  }

  lemma EncodedAccepted(hrp: Text, payload: seq<Byte>)
    ensures var values := FiveBits(payload) + CheckSymbols(ChecksumOf(hrp, FiveBits(payload)));
      Payload(hrp, values) == Ok(Decoded(hrp, payload))
  {
    hide PolymodFrom, Regrouped, FiveBits, ChecksumOf, CheckSymbols, Expanded;
    var values, check := FiveBits(payload), CheckSymbols(ChecksumOf(hrp, FiveBits(payload)));
    ChecksumAccepted(hrp, values, check);
    assert (values + check)[..|values + check| - 6] == values;
    RegroupRoundTrip(payload);
  }

  /** Same length, and different only within n characters from position k on. */
  ghost predicate BurstAt(s: Text, t: Text, k: nat, n: nat) {
    |s| == |t| && k + n <= |s| && s[..k] == t[..k] && s[k + n..] == t[k + n..]
  }

  /**
   Error detection at any length. Take a string that decodes and replace up to
   six neighbouring characters of its data part by other alphabet characters
   of the same case: the decoder reports the checksum.
   */
  lemma BurstDetected(s: Text, t: Text, k: nat, n: nat)
    requires DecodedOrError(s).Ok?
    requires n <= 6 && k > LastOne(Lower(s)) && BurstAt(Lower(s), Lower(t), k, n) && Lower(s) != Lower(t)
    requires (t == Lower(t) || t == Upper(t)) && InAlphabet(Lower(t)[k..k + n])
    ensures DecodedOrError(t) == Err(Checksum)
  {
    hide PolymodFrom, Regrouped, Expanded, SymbolsOf, InAlphabet, LowerChar, UpperChar;
    var a, b := Lower(s), Lower(t);
    var separator := LastOne(a);
    BurstInData(a, b, separator, k, n);
    BurstInValues(Expanded(a[..separator]), a[separator + 1..], b[separator + 1..], k - separator - 1, n);
  }

  /** The burst leaves the prefix and the separator alone and stays inside the alphabet. */
  lemma BurstInData(a: Text, b: Text, separator: nat, k: nat, n: nat)
    requires LastOne(a) == separator < k && BurstAt(a, b, k, n) && a != b
    requires InAlphabet(a[separator + 1..]) && InAlphabet(b[k..k + n])
    ensures b[..separator] == a[..separator] && LastOne(b) == separator
    ensures InAlphabet(b[separator + 1..]) && a[separator + 1..] != b[separator + 1..]
    ensures BurstAt(a[separator + 1..], b[separator + 1..], k - separator - 1, n)
  {
    hide SymbolOf, LastOne;
    var m := separator + 1;
    BurstAfter(a, b, m, k, n);
    SamePrefix(a, b, m, k);
    Rejoined(a[m..], b[m..], k - m, n, b[k..k + n]);
    CharsOfSymbols(b[m..]);
    SamePrefix(a, b, separator, k);
    assert a[m - 1] == a[..m][m - 1] == b[..m][m - 1];
    LastOneIs(b, separator);
  }

  lemma SamePrefix(a: Text, b: Text, m: nat, k: nat)
    requires m <= k <= |a| == |b| && a[..k] == b[..k]
    ensures a[..m] == b[..m]
    ensures a != b ==> a[m..] != b[m..]
  {
    assert a[..m] == a[..k][..m] && b[..m] == b[..k][..m];
    assert a == a[..m] + a[m..] && b == b[..m] + b[m..];
  }

  lemma Rejoined(u: Text, v: Text, j: nat, n: nat, window: Text)
    requires BurstAt(u, v, j, n) && v[j..j + n] == window && InAlphabet(u) && InAlphabet(window)
    ensures InAlphabet(v)
  {
    hide SymbolOf;
    forall i | 0 <= i < |v| ensures SymbolOf(v[i]) >= 0 {
      if i < j {
        assert v[i] == v[..j][i] == u[..j][i];
      } else if i < j + n {
        assert v[i] == window[i - j];
      } else {
        assert v[i] == v[j + n..][i - j - n] == u[j + n..][i - j - n];
      }
    }
  }

  lemma BurstAfter(a: Text, b: Text, m: nat, k: nat, n: nat)
    requires m <= k && BurstAt(a, b, k, n)
    ensures BurstAt(a[m..], b[m..], k - m, n) && b[m..][k - m..k - m + n] == b[k..k + n]
  {
    assert a[m..][..k - m] == a[..k][m..] && b[m..][..k - m] == b[..k][m..];
    assert a[m..][k - m + n..] == a[k + n..] && b[m..][k - m + n..] == b[k + n..];
  }

  lemma BurstInValues(e: seq<nat>, u: Text, v: Text, j: nat, n: nat)
    requires Symbols(e) && InAlphabet(u) && InAlphabet(v) && u != v && n <= 6 && BurstAt(u, v, j, n)
    requires PolymodFrom(1, e + SymbolsOf(u)) == 1
    ensures PolymodFrom(1, e + SymbolsOf(v)) != 1
  {
    hide PolymodFrom, SymbolOf;
    var x, y := SymbolsOf(u), SymbolsOf(v);
    CharsOfSymbols(u);
    CharsOfSymbols(v);
    assert x[..j] == SymbolsOf(u[..j]) && y[..j] == SymbolsOf(v[..j]);
    assert x[j + n..] == SymbolsOf(u[j + n..]) && y[j + n..] == SymbolsOf(v[j + n..]);
    var at := |e| + j;
    assert (e + x)[..at] == e + x[..j] && (e + y)[..at] == e + y[..j];
    assert (e + x)[at + n..] == x[j + n..] && (e + y)[at + n..] == y[j + n..];
    assert (e + x)[|e|..] == x && (e + y)[|e|..] == y;
    PolymodBurst(e + x, e + y, at, n);
  }

  /** A public key relabelled as a private one is refused by the checksum, whatever the payload. */
  lemma RelabelDetected(s: Text)
    requires DecodedOrError(s).Ok? && Lower(s) == s && DecodedOrError(s).value.hrp == "npub"
    ensures DecodedOrError("nsec" + s[4..]) == Err(Checksum)
  {
    hide PolymodFrom, Regrouped, SymbolOf;
    var t: Text := "nsec" + s[4..];
    var data := s[5..];
    assert s[..4] == "npub" && s[4] == '1' && LastOne(s) == 4;
    assert t[5..] == data && t[..4] == "nsec" && t[4] == '1';
    CharsOfSymbols(data);
    LastOneIs(t, 4);
    assert forall i :: 4 <= i < |s| ==> LowerChar(t[i]) == Lower(s)[i];
    assert Lower(t) == t;
    var values := SymbolsOf(data);
    PrefixesDiffer(values);
  }

  lemma PrefixesDiffer(values: seq<nat>)
    requires Symbols(values)
    ensures PolymodFrom(1, Expanded("npub") + values) != PolymodFrom(1, Expanded("nsec") + values)
  {
    hide PolymodFrom;
    var e, f := Expanded("npub"), Expanded("nsec");
    assert e == [3, 3, 3, 3, 0, 14, 16, 21, 2] && f == [3, 3, 3, 3, 0, 14, 19, 5, 3];
    assert (e + values)[..6] == (f + values)[..6] && (e + values)[9..] == (f + values)[9..];
    assert (e + values)[6] != (f + values)[6];
    PolymodBurst(e + values, f + values, 6, 3);
  }
}
