/**
 The serializer and the parser are inverse: frames parse back to what was written, wherever the stream is cut, and
 a parsed message serializes to the same bytes.
 */
module RoundTrip {
  import opened Bytes
  import opened Messages
  import opened Framing
  import opened Headers
  import opened Serializing

  // ---------------------------------------------------------------------
  // One field
  // ---------------------------------------------------------------------

  predicate Writable(f: Field) {
    f.tag < TWO32 && Clean(f.value)
  }

  lemma ParseEncField(f: Field, rest: bytes)
    requires Writable(f)
    ensures ParseField(EncField(f) + rest) == Ok(f.tag, f.value, |EncField(f)|)
  {
    var s := EncField(f);
    ParseEncFieldAlone(f);
    ParseFieldExtend(s, s + rest);
  }

  lemma ParseEncFieldAlone(f: Field)
    requires Writable(f)
    ensures ParseField(EncField(f)) == Ok(f.tag, f.value, |EncField(f)|)
  {
    var s, n := EncField(f), |Dec(f.tag)|;
    DecDigits(f.tag);
    ParseDec(f.tag, TWO32 - 1);
    assert s[..n] == Dec(f.tag);
    assert forall i :: 0 <= i < n ==> s[i] == Dec(f.tag)[i];
    FindEitherIs(s, 0, EQ, SOH, n);
    assert forall i :: n + 1 <= i < |s| - 1 ==> s[i] == f.value[i - n - 1];
    FindEitherIs(s, n + 1, SOH, SOH, |s| - 1);
    assert s[n + 1..|s| - 1] == f.value;
  }

  // ---------------------------------------------------------------------
  // The body
  // ---------------------------------------------------------------------

  /** Fields that may stand in a body. */
  predicate BodyWritable(fs: seq<Field>) {
    forall i :: 0 <= i < |fs| ==> Writable(fs[i]) && fs[i].tag != CHECK_SUM
  }

  lemma {:induction false} WireFieldsEnc(fs: seq<Field>)
    requires BodyWritable(fs)
    ensures WireFields(EncFields(fs)) == fs
  {
    hide ParseField, EncField;
    if fs != [] {
      var e := EncField(fs[0]);
      ParseEncField(fs[0], EncFields(fs[1..]));
      assert EncFields(fs)[|e|..] == EncFields(fs[1..]);
      WireFieldsEnc(fs[1..]);
    }
  }

  lemma {:induction false} ParseBodyEnc(fs: seq<Field>, pos: nat, fields: seq<Field>, duplicate: bool)
    requires BodyWritable(fs)
    ensures ParseBody(EncFields(fs), pos, fields, duplicate).BodyOk?
    decreases |fs|
  {
    hide ParseField, EncField, IsHeaderTag, Get;
    if fs != [] {
      var f, e := fs[0], EncField(fs[0]);
      ParseEncField(f, EncFields(fs[1..]));
      assert EncFields(fs)[|e|..] == EncFields(fs[1..]);
      ParseBodyEnc(fs[1..], pos + |e|, fields, true);
      ParseBodyEnc(fs[1..], pos + |e|, fields + [f], duplicate);
    }
  }

  // ---------------------------------------------------------------------
  // A frame
  // ---------------------------------------------------------------------

  /** The header that a built frame carries. */
  function HeaderOf(beginString: bytes, body: bytes): (h: Header)
    ensures h.HeaderOk?
  {
    HeaderOk(beginString, |body|,
             |EncField(Field(BEGIN_STRING, beginString))| + |EncField(Field(BODY_LENGTH, Dec(|body|)))|)
  }

  /** Begin strings that fit the header scan, as every known version does. */
  predicate ShortBegin(beginString: bytes) {
    Clean(beginString) && 6 <= |beginString| <= 40
  }

  /** Frames the parser may be asked to accept. */
  predicate Fits(o: Options, frame: bytes) {
    |frame| < TWO63 && (o.maxMsgLen > 0 ==> |frame| <= o.maxMsgLen)
  }

  lemma {:induction false} BuildShape(bs: bytes, body: bytes)
    ensures
      var h := HeaderOf(bs, body);
      var frame := Build(bs, body);
      && h.bodyStart + |body| + TRAILER_BYTES == |frame|
      && frame[..h.bodyStart] == EncField(Field(BEGIN_STRING, bs)) + EncField(Field(BODY_LENGTH, Dec(|body|)))
      && frame[h.bodyStart..h.bodyStart + |body|] == body
      && frame[..h.bodyStart + |body|] == Unsummed(bs, body)
      && frame[h.bodyStart + |body|..] == CHECKSUM_PREFIX + Pad3(Checksum(Unsummed(bs, body))) + [SOH]
      && (6 <= |bs| ==> |frame| >= MIN_MSG_LEN)
  {
    hide EncField, Checksum;
    assert |EncField(Field(BEGIN_STRING, bs))| == |bs| + 3 by { FieldSize(Field(BEGIN_STRING, bs)); }
    assert |EncField(Field(BODY_LENGTH, Dec(|body|)))| >= 4 by { FieldSize(Field(BODY_LENGTH, Dec(|body|))); }
  }

  lemma FieldSize(f: Field)
    ensures |EncField(f)| == |Dec(f.tag)| + |f.value| + 2
    ensures f.tag < 10 ==> |EncField(f)| == |f.value| + 3
  {
  }

  /** Cut anywhere before its end, a field is incomplete. */
  lemma PartialField(f: Field, p: bytes)
    requires Writable(f) && p <= EncField(f) && |p| < |EncField(f)|
    ensures ParseField(p) == Incomplete
  {
    hide ParseField, EncField;
    ParseEncFieldAlone(f);
    if ParseField(p) != Incomplete { ParseFieldExtend(p, EncField(f)); }
  }

  /** A header field at the head of `b`, complete or cut, read within the scan bound. */
  lemma ScanField(f: Field, b: bytes)
    requires Writable(f) && |EncField(f)| <= MAX_HEADER_SCAN
    requires b <= EncField(f) || EncField(f) <= b
    ensures ParseField(Scan(b)) == if |b| < |EncField(f)| then Incomplete else Ok(f.tag, f.value, |EncField(f)|)
  {
    hide ParseField, EncField;
    var e := EncField(f);
    if |b| < |e| {
      assert Scan(b) == b;
      PartialField(f, b);
    } else {
      ParseEncFieldAlone(f);
      assert e <= Scan(b);
      ParseFieldExtend(e, Scan(b));
    }
  }

  /** Bytes that agree with a frame: a prefix of it, or the frame and more. */
  predicate Agrees(b: bytes, frame: bytes) {
    b <= frame || frame <= b
  }

  lemma {:induction false} HeaderSizes(bs: bytes, body: bytes)
    requires ShortBegin(bs) && |body| < TWO63
    ensures |EncField(Field(BEGIN_STRING, bs))| <= 43 && |EncField(Field(BODY_LENGTH, Dec(|body|)))| <= 23
    ensures Writable(Field(BEGIN_STRING, bs)) && Writable(Field(BODY_LENGTH, Dec(|body|)))
  {
    hide EncField;
    FieldSize(Field(BEGIN_STRING, bs));
    FieldSize(Field(BODY_LENGTH, Dec(|body|)));
    Dec64Length(|body|);
    DecDigits(|body|);
  }

  lemma HeaderOfFrame(bs: bytes, body: bytes, b: bytes)
    requires ShortBegin(bs) && |body| < TWO63
    requires |b| >= MIN_MSG_LEN && Agrees(b, Build(bs, body))
    ensures ParseHeader(b) == if |b| < HeaderOf(bs, body).bodyStart then HeaderPartial else HeaderOf(bs, body)
  {
    hide EncField, ParseField, Build;
    var f8, f9 := Field(BEGIN_STRING, bs), Field(BODY_LENGTH, Dec(|body|));
    var e8, e9 := EncField(f8), EncField(f9);
    HeaderSizes(bs, body);
    BuildShape(bs, body);
    var frame := Build(bs, body);
    assert frame[..|e8| + |e9|] == e8 + e9;
    assert e8 <= frame;
    ScanField(f8, b);
    if |b| >= |e8| {
      assert frame[|e8|..][..|e9|] == e9;
      assert b[|e8|..] <= e9 || e9 <= b[|e8|..];
      ScanField(f9, b[|e8|..]);
      ParseDec(|body|, SIZE_MAX);
    }
  }

  /** Three digits are read back. */
  lemma ParsePad3(n: nat)
    requires n <= 255
    ensures ParseChecksum(Pad3(n)) == Some(n) && Clean(Pad3(n))
  {
    var v := Pad3(n);
    assert v[..2] == [v[0], v[1]] && v[..2][..1] == [v[0]] && v[..2][..1][..0] == [];
    assert Val(v[..2][..1]) == v[0] - 48;
    assert Val(v[..2]) == 10 * (v[0] - 48) + (v[1] - 48);
    assert Val(v) == 10 * Val(v[..2]) + (v[2] - 48);
    assert n / 10 == 10 * (n / 100) + n / 10 % 10;
  }

  lemma TrailerField(n: nat)
    requires n <= 255
    ensures ParseField(CHECKSUM_PREFIX + Pad3(n) + [SOH]) == Ok(CHECK_SUM, Pad3(n), TRAILER_BYTES)
  {
    hide ParseField;
    ParsePad3(n);
    var f := Field(CHECK_SUM, Pad3(n));
    assert Dec(10) == [49, 48] by { assert Dec(1) == [49]; }
    assert EncField(f) == CHECKSUM_PREFIX + Pad3(n) + [SOH];
    ParseEncFieldAlone(f);
  }

  /** What the parser makes of the frame built from the fields `fs`. */
  ghost function Parsed(beginString: bytes, fs: seq<Field>): Message {
    var wire := Seeded(HeaderOf(beginString, EncFields(fs))) + fs;
    Message(FirstOccurrences(wire), Build(beginString, EncFields(fs)), Repeats(wire))
  }

  lemma {:induction false} JudgeBuilt(o: Options, bs: bytes, fs: seq<Field>)
    requires ShortBegin(bs) && BodyWritable(fs) && Fits(o, Build(bs, EncFields(fs)))
    ensures
      var frame := Build(bs, EncFields(fs));
      var h := HeaderOf(bs, EncFields(fs));
      && h.bodyStart + h.bodyLength + TRAILER_BYTES == |frame|
      && JudgeFrame(o, frame, h) == Accept(|frame|, Parsed(bs, fs))
  {
    hide EncField, EncFields, ParseField, Build, ParseBody, Checksum, FirstOccurrences, Repeats, Unsummed;
    var body := EncFields(fs);
    var h := HeaderOf(bs, body);
    BuildShape(bs, body);
    SeededDistinct(h);
    ParseBodyEnc(fs, h.bodyStart, Seeded(h), false);
    ParseBodyKeeps(body, h.bodyStart, Seeded(h), false);
    WireFieldsEnc(fs);
    var n := Checksum(Unsummed(bs, body));
    ChecksumByte(Unsummed(bs, body));
    TrailerField(n);
    ParsePad3(n);
  }

  lemma ChecksumByte(s: bytes)
    ensures Checksum(s) <= 255
  {
  }

  /** A whole frame is accepted whatever follows it. */
  lemma {:induction false} FrameAccepted(o: Options, bs: bytes, fs: seq<Field>, rest: bytes)
    requires ShortBegin(bs) && BodyWritable(fs) && Fits(o, Build(bs, EncFields(fs)))
    ensures
      var frame := Build(bs, EncFields(fs));
      Judge(o, frame + rest) == Accept(|frame|, Parsed(bs, fs))
  {
    hide EncField, EncFields, ParseField, Build, ParseHeader, Parsed, JudgeFrame;
    var body := EncFields(fs);
    var frame, b := Build(bs, body), Build(bs, body) + rest;
    BuildShape(bs, body);
    HeaderOfFrame(bs, body, b);
    FrameStarts(bs, body, b);
    JudgeBuilt(o, bs, fs);
    assert b[..|frame|] == frame;
  }

  /** Until its last byte has arrived, a frame is waited for. */
  lemma {:induction false} FrameAwaited(o: Options, bs: bytes, fs: seq<Field>, p: bytes)
    requires ShortBegin(bs) && BodyWritable(fs) && Fits(o, Build(bs, EncFields(fs)))
    requires p <= Build(bs, EncFields(fs)) && |p| < |Build(bs, EncFields(fs))|
    ensures Judge(o, p) == NeedMore(false)
  {
    hide EncField, EncFields, ParseField, Build, ParseHeader, JudgeFrame;
    var body := EncFields(fs);
    BuildShape(bs, body);
    if |p| >= 2 { FrameStarts(bs, body, p); }
    if |p| >= MIN_MSG_LEN { HeaderOfFrame(bs, body, p); }
  }

  lemma FrameStarts(bs: bytes, body: bytes, b: bytes)
    requires |b| >= 2 && Agrees(b, Build(bs, body))
    ensures StartsFrame(b)
  {
    assert Dec(8) == [EIGHT];
    assert Build(bs, body)[0] == EIGHT && Build(bs, body)[1] == EQ;
  }
}
