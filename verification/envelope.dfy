/** The cleartext fields bound to an encrypted body (internal/protocol/envelope.go). */
module Envelopes {
  import opened Bytes

  type Text = seq<byte>

  datatype Envelope = Envelope(version: int, namespace: Text, kind: Text, messageId: Text, session: Text, seq_: nat,
                               createdAt: int, expiresAt: int, sender: Text, recipient: Text, critical: seq<Text>)

  const MAX_FIELD_LENGTH := 0xFFFF

  function Extensions(critical: seq<Text>): (r: seq<Text>)
    ensures |r| == |critical|
  {
    seq(|critical|, i requires 0 <= i < |critical| => Ascii("critical=") + critical[i])
  }

  function Fields(e: Envelope): seq<Text> {
    [Ascii("v=") + Decimal(e.version), Ascii("ns=") + e.namespace, Ascii("type=") + e.kind, Ascii("msg=") + e.messageId,
     Ascii("session=") + e.session, Ascii("seq=") + Decimal(e.seq_), Ascii("created=") + Decimal(e.createdAt),
     Ascii("expires=") + Decimal(e.expiresAt), Ascii("from=") + e.sender, Ascii("to=") + e.recipient]
    + Extensions(e.critical)
  }

  function Truncated(s: Text): Text { if |s| > MAX_FIELD_LENGTH then s[..MAX_FIELD_LENGTH] else s }

  function AllTruncated(fields: seq<Text>): (r: seq<Text>)
    ensures |r| == |fields|
  {
    seq(|fields|, i requires 0 <= i < |fields| => Truncated(fields[i]))
  }

  /** What is authenticated: the fields in order, each cut to what its prefix can express. */
  function Authenticated(e: Envelope): seq<Text> { AllTruncated(Fields(e)) }

  method AssociatedData(e: Envelope) returns (buf: seq<byte>)
    ensures buf == Chunks(2, Authenticated(e))
  {
    hide Fields, Chunks, BigEndian, Fits;
    var fields := Fields(e);
    buf := [];
    ChunksNone(2);
    for i := 0 to |fields|
      invariant buf == Chunks(2, AllTruncated(fields)[..i])
    {
      var field := fields[i];
      var length := |field|;
      if length > MAX_FIELD_LENGTH {
        length := MAX_FIELD_LENGTH;
        field := field[..MAX_FIELD_LENGTH];
      }
      ShortPrefix(length);
      ChunksSnoc(2, AllTruncated(fields)[..i], field);
      assert AllTruncated(fields)[..i + 1] == AllTruncated(fields)[..i] + [field];
      buf := buf + [length / 256, length % 256] + field;
    }
    assert AllTruncated(fields)[..|fields|] == AllTruncated(fields);
  }

  lemma ShortPrefix(length: nat)
    requires length <= MAX_FIELD_LENGTH
    ensures Fits(length, 2) && BigEndian(length, 2) == [length / 256, length % 256]
  {
    assert BigEndian(length, 2) == BigEndian(length / 256, 1) + [length % 256];
    assert BigEndian(length / 256, 1) == BigEndian(length / 256 / 256, 0) + [length / 256 % 256];
    assert Fits(length / 256 / 256, 0);
    assert Fits(length / 256, 1);
  }

  lemma SamePrefix(tag: Text, a: Text, b: Text)
    requires tag + a == tag + b
    ensures a == b
  {
    assert (tag + a)[|tag|..] == a && (tag + b)[|tag|..] == b;
  }

  /** The bytes determine the list of fields as cut, and nothing else does. */
  lemma AssociatedDataIff(a: Envelope, b: Envelope)
    ensures Chunks(2, Authenticated(a)) == Chunks(2, Authenticated(b)) <==> Authenticated(a) == Authenticated(b)
  {
    hide Fits, BigEndian;
    if Chunks(2, Authenticated(a)) == Chunks(2, Authenticated(b)) {
      forall i | 0 <= i < |Authenticated(a)| ensures Fits(|Authenticated(a)[i]|, 2) {
        ShortPrefix(|Authenticated(a)[i]|);
      }
      forall i | 0 <= i < |Authenticated(b)| ensures Fits(|Authenticated(b)[i]|, 2) {
        ShortPrefix(|Authenticated(b)[i]|);
      }
      ChunksInjective(2, Authenticated(a), Authenticated(b));
    }
  }

  predicate AllShort(e: Envelope) { forall i :: 0 <= i < |Fields(e)| ==> |Fields(e)[i]| <= MAX_FIELD_LENGTH }

  /** When every field fits its prefix, envelopes authenticate alike only if they are the same in every field. */
  lemma InjectiveWhenShort(a: Envelope, b: Envelope)
    requires AllShort(a) && AllShort(b)
    ensures Chunks(2, Authenticated(a)) == Chunks(2, Authenticated(b)) <==> a == b
  {
    AssociatedDataIff(a, b);
    assert Authenticated(a) == Fields(a);
    assert Authenticated(b) == Fields(b);
    if Fields(a) == Fields(b) {
      FieldsInjective(a, b);
    }
  }

  lemma FieldsInjective(a: Envelope, b: Envelope)
    requires Fields(a) == Fields(b)
    ensures a == b
  {
    hide Decimal, Ascii, Extensions;
    var f, g := Fields(a), Fields(b);
    assert f[0] == g[0] && f[1] == g[1] && f[2] == g[2] && f[3] == g[3] && f[4] == g[4];
    assert f[5] == g[5] && f[6] == g[6] && f[7] == g[7] && f[8] == g[8] && f[9] == g[9];
    SamePrefix(Ascii("v="), Decimal(a.version), Decimal(b.version));
    DecimalInjective(a.version, b.version);
    SamePrefix(Ascii("ns="), a.namespace, b.namespace);
    SamePrefix(Ascii("type="), a.kind, b.kind);
    SamePrefix(Ascii("msg="), a.messageId, b.messageId);
    SamePrefix(Ascii("session="), a.session, b.session);
    SamePrefix(Ascii("seq="), Decimal(a.seq_), Decimal(b.seq_));
    DecimalInjective(a.seq_, b.seq_);
    SamePrefix(Ascii("created="), Decimal(a.createdAt), Decimal(b.createdAt));
    DecimalInjective(a.createdAt, b.createdAt);
    SamePrefix(Ascii("expires="), Decimal(a.expiresAt), Decimal(b.expiresAt));
    DecimalInjective(a.expiresAt, b.expiresAt);
    SamePrefix(Ascii("from="), a.sender, b.sender);
    SamePrefix(Ascii("to="), a.recipient, b.recipient);
    assert f[10..] == Extensions(a.critical) && g[10..] == Extensions(b.critical);
    ExtensionsInjective(a.critical, b.critical);
  }

  lemma ExtensionsInjective(a: seq<Text>, b: seq<Text>)
    requires Extensions(a) == Extensions(b)
    ensures a == b
  {
    assert |Extensions(a)| == |Extensions(b)|;
    forall i | 0 <= i < |a| ensures a[i] == b[i] {
      assert Extensions(a)[i] == Extensions(b)[i];
      SamePrefix(Ascii("critical="), a[i], b[i]);
    }
  }

  /** Past the limit the fields are cut: extensions that differ only beyond it authenticate alike. */
  lemma LongExtensionsCollide(e: Envelope, x: Text, y: Text)
    requires |x| > MAX_FIELD_LENGTH - 9 && |y| > MAX_FIELD_LENGTH - 9
    requires x[..MAX_FIELD_LENGTH - 9] == y[..MAX_FIELD_LENGTH - 9]
    ensures Authenticated(e.(critical := [x])) == Authenticated(e.(critical := [y]))
  {
    var a, b := e.(critical := [x]), e.(critical := [y]);
    var tag := Ascii("critical=");
    assert Truncated(tag + x) == tag + x[..MAX_FIELD_LENGTH - 9];
    assert Truncated(tag + y) == tag + y[..MAX_FIELD_LENGTH - 9];
    assert Fields(a)[..10] == Fields(b)[..10];
    assert forall i :: 0 <= i < 10 ==> Fields(a)[i] == Fields(a)[..10][i] && Fields(b)[i] == Fields(b)[..10][i];
    assert Fields(a)[10] == tag + x && Fields(b)[10] == tag + y;
  }

  // Exactly when an envelope's bytes are its own

  /** What the types hold: signed numbers of 64 bits, and an unsigned sequence number. */
  predicate Bounded(e: Envelope) {
    -0x8000_0000_0000_0000 <= e.version < 0x8000_0000_0000_0000
    && -0x8000_0000_0000_0000 <= e.createdAt < 0x8000_0000_0000_0000
    && -0x8000_0000_0000_0000 <= e.expiresAt < 0x8000_0000_0000_0000
    && e.seq_ < 0x1_0000_0000_0000_0000
  }

  /** Every field leaves room for at least one byte more. */
  predicate Roomy(e: Envelope) { forall i :: 0 <= i < |Fields(e)| ==> |Fields(e)[i]| < MAX_FIELD_LENGTH }

  function Tens(k: nat): nat { if k == 0 then 1 else 10 * Tens(k - 1) }

  lemma {:induction false} DigitsShort(n: nat, k: nat)
    requires k > 0 && n < Tens(k)
    ensures |Digits(n)| <= k
  {
    if n >= 10 { DigitsShort(n / 10, k - 1); }
  }

  lemma NumberShort(n: int)
    requires -0x1_0000_0000_0000_0000 < n < 0x1_0000_0000_0000_0000
    ensures |Decimal(n)| <= 21
  {
    assert Tens(10) == 100_0000_0000;
    assert Tens(20) == 10000_0000_0000_0000_0000;
    DigitsShort(if n < 0 then -n else n, 20);
  }

  /** Field i with one byte more at its end; the numbers are left alone. */
  function Extended(e: Envelope, i: nat): Envelope
    requires i < |Fields(e)|
  {
    match i
    case 1 => e.(namespace := e.namespace + [0])
    case 2 => e.(kind := e.kind + [0])
    case 3 => e.(messageId := e.messageId + [0])
    case 4 => e.(session := e.session + [0])
    case 8 => e.(sender := e.sender + [0])
    case 9 => e.(recipient := e.recipient + [0])
    case _ =>
      if i < 10 then e else e.(critical := e.critical[i - 10 := e.critical[i - 10] + [0]])
  }

  predicate Numeric(i: nat) { i in {0, 5, 6, 7} }

  lemma LongerText(tag: Text, a: Text)
    ensures tag + (a + [0]) == tag + a + [0]
  {
  }

  lemma ExtendedFields(e: Envelope, i: nat)
    requires i < |Fields(e)| && !Numeric(i)
    ensures Extended(e, i) != e && Fields(Extended(e, i)) == Fields(e)[i := Fields(e)[i] + [0]]
  {
    hide Decimal, Ascii;
    if i >= 10 {
      LongerText(Ascii("critical="), e.critical[i - 10]);
      var more := Extended(e, i).critical;
      assert more[i - 10] != e.critical[i - 10];
      assert Extensions(more) == Extensions(e.critical)[i - 10 := Extensions(e.critical)[i - 10] + [0]];
    } else {
      LongerText(Ascii("ns="), e.namespace);
      LongerText(Ascii("type="), e.kind);
      LongerText(Ascii("msg="), e.messageId);
      LongerText(Ascii("session="), e.session);
      LongerText(Ascii("from="), e.sender);
      LongerText(Ascii("to="), e.recipient);
    }
  }

  lemma NumbersRoomy(e: Envelope, i: nat)
    requires Bounded(e) && Numeric(i)
    ensures |Fields(e)[i]| < MAX_FIELD_LENGTH
  {
    hide Decimal;
    NumberShort(e.version);
    NumberShort(e.seq_);
    NumberShort(e.createdAt);
    NumberShort(e.expiresAt);
  }

  /** A field that fills its prefix can be lengthened without a trace. */
  lemma FullFieldCollides(e: Envelope, i: nat)
    requires Bounded(e) && i < |Fields(e)| && |Fields(e)[i]| >= MAX_FIELD_LENGTH
    ensures Extended(e, i) != e && Bounded(Extended(e, i))
    ensures Authenticated(Extended(e, i)) == Authenticated(e)
  {
    if Numeric(i) {
      NumbersRoomy(e, i);
    } else {
      ExtendedFields(e, i);
      hide Fields;
      assert Truncated(Fields(e)[i] + [0]) == Truncated(Fields(e)[i]);
    }
  }

  /** No other envelope shares an envelope's bytes exactly when each of its fields leaves room for one byte more. */
  lemma OwnBytesIff(e: Envelope)
    requires Bounded(e)
    ensures (forall o :: Bounded(o) && Chunks(2, Authenticated(o)) == Chunks(2, Authenticated(e)) ==> o == e) <==> Roomy(e)
  {
    if Roomy(e) {
      forall o | Bounded(o) && Chunks(2, Authenticated(o)) == Chunks(2, Authenticated(e)) ensures o == e {
        AssociatedDataIff(o, e);
        SameLengths(o, e);
        InjectiveWhenShort(o, e);
      }
    } else {
      var i :| 0 <= i < |Fields(e)| && |Fields(e)[i]| >= MAX_FIELD_LENGTH;
      FullFieldCollides(e, i);
    }
  }

  lemma SameLengths(o: Envelope, e: Envelope)
    requires Authenticated(o) == Authenticated(e) && Roomy(e)
    ensures AllShort(o) && AllShort(e)
  {
    hide Fields;
    forall i | 0 <= i < |Fields(o)| ensures |Fields(o)[i]| <= MAX_FIELD_LENGTH {
      assert Authenticated(o)[i] == Truncated(Fields(o)[i]) && Authenticated(e)[i] == Truncated(Fields(e)[i]);
    }
  }
}
