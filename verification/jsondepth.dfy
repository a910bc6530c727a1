/**
 The nesting check made before a payload is parsed (internal/protocol/validate.go),
 against JSON as sections 2 to 7 of RFC 8259 spell it.
 */
module JsonDepth {
  import opened Bytes

  type Text = seq<byte>

  const MAX_JSON_DEPTH := 16

  const QUOTE: byte := 34
  const BACKSLASH: byte := 92
  const OPENERS: set<byte> := {123, 91}
  const CLOSERS: set<byte> := {125, 93}

  // The scanner

  datatype Scanner = Scanner(depth: int, max: int, inString: bool, escaped: bool)

  const START := Scanner(0, 0, false, false)

  function Step(s: Scanner, b: byte): Scanner {
    if s.escaped then s.(escaped := false)
    else if b == BACKSLASH && s.inString then s.(escaped := true)
    else if b == QUOTE then s.(inString := !s.inString)
    else if s.inString then s
    else if b in OPENERS then s.(depth := s.depth + 1, max := if s.depth + 1 > s.max then s.depth + 1 else s.max)
    else if b in CLOSERS then s.(depth := s.depth - 1)
    else s
  }

  function Scan(s: Scanner, text: Text): Scanner
    decreases |text|
  {
    if text == [] then s else Scan(Step(s, text[0]), text[1..])
  }

  /** The check gives up at the first bracket too deep, which no later byte could undo. */
  method CheckDepth(raw: Text) returns (ok: bool)
    ensures ok <==> Scan(START, raw).max <= MAX_JSON_DEPTH
  {
    var depth, max := 0, 0;
    var inString, escaped := false, false;
    for i := 0 to |raw|
      invariant Scan(START, raw) == Scan(Scanner(depth, max, inString, escaped), raw[i..])
      invariant max <= MAX_JSON_DEPTH
    {
      var b := raw[i];
      assert raw[i..][0] == b && raw[i..][1..] == raw[i + 1..];
      if escaped {
        escaped := false;
      } else if b == BACKSLASH && inString {
        escaped := true;
      } else if b == QUOTE {
        inString := !inString;
      } else if inString {
      } else if b in OPENERS {
        depth := depth + 1;
        if depth > max {
          max := depth;
        }
        if max > MAX_JSON_DEPTH {
          MaxGrows(Scanner(depth, max, inString, escaped), raw[i + 1..]);
          return false;
        }
      } else if b in CLOSERS {
        depth := depth - 1;
      }
    }
    return true;
  }

  lemma {:induction false} MaxGrows(s: Scanner, text: Text)
    ensures Scan(s, text).max >= s.max
    decreases |text|
  {
    if text != [] { MaxGrows(Step(s, text[0]), text[1..]); }
  }

  lemma {:induction false} ScanAppend(s: Scanner, a: Text, b: Text)
    ensures Scan(s, a + b) == Scan(Scan(s, a), b)
    decreases |a|
  {
    if a == [] {
      assert a + b == b;
    } else {
      assert (a + b)[1..] == a[1..] + b;
      ScanAppend(Step(s, a[0]), a[1..], b);
    }
  }

  // JSON as it is written: every space and every spelling of a string is part of it

  datatype Unit = Plain(b: byte) | Escape(b: byte)

  datatype Value = Literal(text: Text) | Quoted(units: seq<Unit>) | Container(isObject: bool, items: Items)

  datatype Items = Empty(space: Text) | One(entry: Entry) | Comma(entry: Entry, rest: Items)

  datatype Entry = Entry(name: Name, before: Text, value: Value, after: Text)

  /** Object members have a name, array elements do not. */
  datatype Name = Unnamed | Named(before: Text, units: seq<Unit>, after: Text)

  predicate Space(text: Text) { forall i :: 0 <= i < |text| ==> text[i] in {32, 9, 10, 13} }

  /** No byte the check looks at: so are true, false, null and every number. */
  predicate Inert(text: Text) {
    forall i :: 0 <= i < |text| ==> text[i] !in OPENERS && text[i] !in CLOSERS && text[i] != QUOTE && text[i] != BACKSLASH
  }

  /** A quote or a backslash inside a string is escaped. An escape may be of any byte; \u is followed by plain digits. */
  predicate ProperString(units: seq<Unit>) {
    forall i :: 0 <= i < |units| ==> units[i].Plain? ==> units[i].b != QUOTE && units[i].b != BACKSLASH
  }

  predicate Proper(v: Value) {
    match v
    case Literal(text) => Inert(text)
    case Quoted(units) => ProperString(units)
    case Container(_, items) => ProperItems(items)
  }

  predicate ProperItems(items: Items) {
    match items
    case Empty(space) => Space(space)
    case One(entry) => ProperEntry(entry)
    case Comma(entry, rest) => ProperEntry(entry) && ProperItems(rest)
  }

  predicate ProperEntry(e: Entry) {
    Space(e.before) && Space(e.after) && Proper(e.value)
    && (e.name.Named? ==> Space(e.name.before) && ProperString(e.name.units) && Space(e.name.after))
  }

  function UnitText(u: Unit): Text { if u.Plain? then [u.b] else [BACKSLASH, u.b] }

  function UnitsText(units: seq<Unit>): Text
    decreases |units|
  {
    if units == [] then [] else UnitText(units[0]) + UnitsText(units[1..])
  }

  function StringText(units: seq<Unit>): Text { [QUOTE] + UnitsText(units) + [QUOTE] }

  function TextOf(v: Value): Text {
    match v
    case Literal(text) => text
    case Quoted(units) => StringText(units)
    case Container(isObject, items) =>
      [if isObject then 123 else 91] + ItemsText(items) + [if isObject then 125 else 93]
  }

  function ItemsText(items: Items): Text {
    match items
    case Empty(space) => space
    case One(entry) => EntryText(entry)
    case Comma(entry, rest) => EntryText(entry) + [44] + ItemsText(rest)
  }

  function EntryText(e: Entry): Text { NameText(e.name) + e.before + TextOf(e.value) + e.after }

  function NameText(n: Name): Text {
    match n
    case Unnamed => []
    case Named(before, units, after) => before + StringText(units) + after + [58]
  }

  function Max(a: int, b: int): int { if a > b then a else b }

  /** How deep containers nest. */
  function Depth(v: Value): nat {
    match v
    case Literal(_) => 0
    case Quoted(_) => 0
    case Container(_, items) => 1 + ItemsDepth(items)
  }

  function ItemsDepth(items: Items): nat {
    match items
    case Empty(_) => 0
    case One(entry) => Depth(entry.value)
    case Comma(entry, rest) => Max(Depth(entry.value), ItemsDepth(rest))
  }

  // What the scanner makes of it

  function Outside(depth: int, max: int): Scanner { Scanner(depth, max, false, false) }

  lemma {:induction false} ScanInert(s: Scanner, text: Text)
    requires Inert(text) && !s.inString && !s.escaped
    ensures Scan(s, text) == s
    decreases |text|
  {
    if text != [] { ScanInert(s, text[1..]); }
  }

  lemma SpaceInert(text: Text)
    requires Space(text)
    ensures Inert(text)
  {
  }

  lemma ScanUnit(depth: int, max: int, u: Unit)
    requires ProperString([u])
    ensures Scan(Scanner(depth, max, true, false), UnitText(u)) == Scanner(depth, max, true, false)
  {
    assert [u][0] == u;
    var s := Scanner(depth, max, true, false);
    if u.Plain? {
      ScanOne(s, u.b);
    } else {
      assert UnitText(u) == [BACKSLASH] + [u.b];
      ScanAppend(s, [BACKSLASH], [u.b]);
      ScanOne(s, BACKSLASH);
      ScanOne(Step(s, BACKSLASH), u.b);
    }
  }

  lemma {:induction false} ScanUnits(depth: int, max: int, units: seq<Unit>)
    requires ProperString(units)
    ensures Scan(Scanner(depth, max, true, false), UnitsText(units)) == Scanner(depth, max, true, false)
    decreases |units|
  {
    if units != [] {
      var s := Scanner(depth, max, true, false);
      ScanAppend(s, UnitText(units[0]), UnitsText(units[1..]));
      ScanUnit(depth, max, units[0]);
      ScanUnits(depth, max, units[1..]);
    }
  }

  lemma ScanString(depth: int, max: int, units: seq<Unit>)
    requires ProperString(units)
    ensures Scan(Outside(depth, max), StringText(units)) == Outside(depth, max)
  {
    var s := Outside(depth, max);
    ScanAppend(s, [QUOTE] + UnitsText(units), [QUOTE]);
    ScanAppend(s, [QUOTE], UnitsText(units));
    ScanUnits(depth, max, units);
  }

  lemma ScanOne(s: Scanner, b: byte)
    ensures Scan(s, [b]) == Step(s, b)
  {
    assert [b][1..] == [];
  }

  lemma ScanName(depth: int, max: int, n: Name)
    requires n.Named? ==> Space(n.before) && ProperString(n.units) && Space(n.after)
    ensures Scan(Outside(depth, max), NameText(n)) == Outside(depth, max)
  {
    if n.Named? {
      var s := Outside(depth, max);
      ScanAppend(s, n.before + StringText(n.units) + n.after, [58]);
      ScanAppend(s, n.before + StringText(n.units), n.after);
      ScanAppend(s, n.before, StringText(n.units));
      ScanInert(s, n.before);
      ScanString(depth, max, n.units);
      ScanInert(s, n.after);
      ScanOne(s, 58);
    }
  }

  /** Reading a value raises the maximum to the depth it reaches, and nothing else. */
  lemma {:induction false} ScanValue(depth: int, max: int, v: Value)
    requires Proper(v) && depth <= max
    ensures Scan(Outside(depth, max), TextOf(v)) == Outside(depth, Max(max, depth + Depth(v)))
    decreases v
  {
    match v
    case Literal(text) => ScanInert(Outside(depth, max), text);
    case Quoted(units) => ScanString(depth, max, units);
    case Container(isObject, items) =>
      var open, close: byte := if isObject then 123 else 91, if isObject then 125 else 93;
      var s := Outside(depth, max);
      ScanAppend(s, [open] + ItemsText(items), [close]);
      ScanAppend(s, [open], ItemsText(items));
      ScanOne(s, open);
      ScanItems(depth + 1, Max(max, depth + 1), items);
      ScanOne(Outside(depth + 1, Max(Max(max, depth + 1), depth + 1 + ItemsDepth(items))), close);
  }

  lemma {:induction false} ScanItems(depth: int, max: int, items: Items)
    requires ProperItems(items) && depth <= max
    ensures Scan(Outside(depth, max), ItemsText(items)) == Outside(depth, Max(max, depth + ItemsDepth(items)))
    decreases items
  {
    hide Scan, EntryText, Depth, ProperEntry, Space, Inert;
    match items
    case Empty(space) =>
      SpaceInert(space);
      ScanInert(Outside(depth, max), space);
    case One(entry) => ScanEntry(depth, max, entry);
    case Comma(entry, rest) =>
      var mid := Outside(depth, Max(max, depth + Depth(entry.value)));
      ScanEntry(depth, max, entry);
      ScanComma(Outside(depth, max), EntryText(entry), mid, ItemsText(rest));
      ScanItems(depth, mid.max, rest);
  }

  lemma ScanComma(s: Scanner, a: Text, mid: Scanner, b: Text)
    requires Scan(s, a) == mid && !mid.inString && !mid.escaped
    ensures Scan(s, a + [44] + b) == Scan(mid, b)
  {
    ScanAppend(s, a + [44], b);
    ScanAppend(s, a, [44]);
    ScanOne(mid, 44);
  }

  lemma {:induction false} ScanEntry(depth: int, max: int, e: Entry)
    requires ProperEntry(e) && depth <= max
    ensures Scan(Outside(depth, max), EntryText(e)) == Outside(depth, Max(max, depth + Depth(e.value)))
    decreases e
  {
    var s := Outside(depth, max);
    ScanAppend(s, NameText(e.name) + e.before + TextOf(e.value), e.after);
    ScanAppend(s, NameText(e.name) + e.before, TextOf(e.value));
    ScanAppend(s, NameText(e.name), e.before);
    ScanName(depth, max, e.name);
    ScanInert(s, e.before);
    ScanValue(depth, max, e.value);
    ScanInert(Outside(depth, Max(max, depth + Depth(e.value))), e.after);
  }

  /** The check is exact: a JSON text, however it is spelled, is refused when it nests too deep and only then. */
  lemma DepthExact(before: Text, v: Value, after: Text)
    requires Space(before) && Proper(v) && Space(after)
    ensures (Scan(START, before + TextOf(v) + after).max <= MAX_JSON_DEPTH) <==> Depth(v) <= MAX_JSON_DEPTH
  {
    ScanAppend(START, before + TextOf(v), after);
    ScanAppend(START, before, TextOf(v));
    ScanInert(START, before);
    ScanValue(0, 0, v);
    ScanInert(Outside(0, Max(0, Depth(v))), after);
  }

  /** What is accepted is never deeper than the limit anywhere, JSON or not: at no prefix are more brackets open. */
  lemma {:induction false} PrefixBounded(s: Scanner, a: Text, b: Text)
    requires s.depth <= s.max
    ensures Scan(s, a).depth <= Scan(s, a + b).max
    decreases |a|
  {
    if a == [] {
      assert a + b == b;
      MaxGrows(s, b);
    } else {
      assert (a + b)[1..] == a[1..] + b;
      PrefixBounded(Step(s, a[0]), a[1..], b);
    }
  }
}
