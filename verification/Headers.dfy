/**
 Duplicate standard-header tags: what a delivered message keeps of the fields that were on the wire.
 */
module Headers {
  import opened Bytes
  import opened Messages
  import opened Framing

  /** The fields of a body as they stand on the wire. */
  function WireFields(body: bytes): seq<Field>
    decreases |body|
  {
    if body == [] then []
    else match ParseField(body)
      case Ok(tag, value, len) => [Field(tag, value)] + WireFields(body[len..])
      case _ => []
  }

  /** A field survives unless its tag is a standard-header tag that stands earlier in the list. */
  function FirstOccurrences(fs: seq<Field>): seq<Field> {
    if fs == [] then []
    else
      var init, last := fs[..|fs| - 1], fs[|fs| - 1];
      if IsHeaderTag(last.tag) && Has(init, last.tag) then FirstOccurrences(init) else FirstOccurrences(init) + [last]
  }

  /** Some standard-header tag occurs more than once. */
  ghost predicate Repeats(fs: seq<Field>) {
    exists t :: IsHeaderTag(t) && |GetAll(fs, t)| > 1
  }

  lemma {:induction false} Snoc(fs: seq<Field>, f: Field, t: nat)
    ensures (fs + [f])[..|fs|] == fs
    ensures GetAll(fs + [f], t) == if f.tag == t then GetAll(fs, t) + [f.value] else GetAll(fs, t)
    ensures Has(fs + [f], t) <==> Has(fs, t) || f.tag == t
    ensures FirstOccurrences(fs + [f])
         == if IsHeaderTag(f.tag) && Has(fs, f.tag) then FirstOccurrences(fs) else FirstOccurrences(fs) + [f]
  {
    assert (fs + [f])[..|fs|] == fs;
    GetConcat(fs, [f], t);
  }

  lemma {:induction false} NoFields(t: nat)
    ensures GetAll([], t) == [] && Get([], t) == None
  {
  }

  /** Which occurrences of each tag survive. */
  lemma {:induction false} Survivors(fs: seq<Field>, t: nat)
    ensures !IsHeaderTag(t) ==> GetAll(FirstOccurrences(fs), t) == GetAll(fs, t)
    ensures IsHeaderTag(t) ==> GetAll(FirstOccurrences(fs), t) == GetAll(fs, t)[..Min(1, |GetAll(fs, t)|)]
    ensures Get(FirstOccurrences(fs), t) == Get(fs, t)
  {
    hide IsHeaderTag, GetAll, Get;
    if fs == [] {
      NoFields(t);
    } else {
      var init, last := fs[..|fs| - 1], fs[|fs| - 1];
      assert fs == init + [last];
      Survivors(init, t);
      Snoc(init, last, t);
      Snoc(FirstOccurrences(init), last, t);
      GetIsFirst(init, t);
    }
    GetIsFirst(fs, t);
    GetIsFirst(FirstOccurrences(fs), t);
  }

  lemma RepeatsSnoc(fs: seq<Field>, f: Field)
    ensures Repeats(fs + [f]) <==> Repeats(fs) || (IsHeaderTag(f.tag) && Has(fs, f.tag))
  {
    if Repeats(fs) {
      var t :| IsHeaderTag(t) && |GetAll(fs, t)| > 1;
      Snoc(fs, f, t);
    }
    if IsHeaderTag(f.tag) && Has(fs, f.tag) {
      Snoc(fs, f, f.tag);
      GetIsFirst(fs, f.tag);
    }
    if Repeats(fs + [f]) {
      var t :| IsHeaderTag(t) && |GetAll(fs + [f], t)| > 1;
      Snoc(fs, f, t);
      GetIsFirst(fs, t);
    }
  }

  lemma {:induction false} ParseBodyEnd(pos: nat, fields: seq<Field>, duplicate: bool)
    ensures ParseBody([], pos, fields, duplicate) == BodyOk(fields, duplicate) && WireFields([]) == []
  {
  }

  /** One field of a body that is read to its end. */
  lemma ParseBodyStep(body: bytes, pos: nat, fields: seq<Field>, duplicate: bool)
    requires body != [] && ParseBody(body, pos, fields, duplicate).BodyOk?
    ensures ParseField(body).Ok?
    ensures
      var f := ParseField(body);
      var repeated := IsHeaderTag(f.tag) && Has(fields, f.tag);
      && WireFields(body) == [Field(f.tag, f.value)] + WireFields(body[f.len..])
      && ParseBody(body, pos, fields, duplicate)
         == ParseBody(body[f.len..], pos + f.len, if repeated then fields else fields + [Field(f.tag, f.value)],
                      duplicate || repeated)
  {
    hide IsHeaderTag, Get, ParseField;
  }

  /** The body reader keeps exactly the first occurrences and flags exactly the repetitions. */
  lemma {:induction false} ParseBodyKeeps(body: bytes, pos: nat, before: seq<Field>, duplicate: bool)
    requires duplicate <==> Repeats(before)
    requires ParseBody(body, pos, FirstOccurrences(before), duplicate).BodyOk?
    ensures
      var r := ParseBody(body, pos, FirstOccurrences(before), duplicate);
      var wire := before + WireFields(body);
      r.fields == FirstOccurrences(wire) && (r.duplicate <==> Repeats(wire))
    decreases |body|
  {
    hide IsHeaderTag, GetAll, Get, ParseField, FirstOccurrences, Repeats, ParseBody, WireFields;
    if body == [] {
      ParseBodyEnd(pos, FirstOccurrences(before), duplicate);
      assert before + [] == before;
    } else {
      ParseBodyStep(body, pos, FirstOccurrences(before), duplicate);
      var f := ParseField(body);
      var field := Field(f.tag, f.value);
      Snoc(before, field, f.tag);
      RepeatsSnoc(before, field);
      Survivors(before, f.tag);
      ParseBodyKeeps(body[f.len..], pos + f.len, before + [field], Repeats(before + [field]));
      assert before + WireFields(body) == before + [field] + WireFields(body[f.len..]);
    }
  }

  /** The fields that precede the body: BeginString and the announced length. */
  function Seeded(h: Header): seq<Field>
    requires h.HeaderOk?
  {
    [Field(BEGIN_STRING, h.beginString), Field(BODY_LENGTH, DecInt(ToInt64(h.bodyLength)))]
  }

  lemma SeededDistinct(h: Header)
    requires h.HeaderOk?
    ensures FirstOccurrences(Seeded(h)) == Seeded(h) && !Repeats(Seeded(h))
  {
    hide IsHeaderTag;
    var a, b := Seeded(h)[0], Seeded(h)[1];
    assert Seeded(h) == [] + [a] + [b];
    Snoc([], a, BODY_LENGTH);
    Snoc([] + [a], b, BODY_LENGTH);
    NoFields(BODY_LENGTH);
    forall t
      ensures |GetAll(Seeded(h), t)| <= 1
    {
      Snoc([], a, t);
      Snoc([] + [a], b, t);
    }
  }

  /**
   Every delivered message: it is the first `len` bytes of the buffer, its fields are the wire fields less the
   repeated standard-header tags, in wire order, and it is flagged exactly when a standard-header tag repeats.
   Each standard-header tag is thus present at most once, with its first value; other tags keep every occurrence.
   */
  lemma {:induction false} DeliveredMessage(o: Options, b: bytes, t: nat)
    requires Judge(o, b).Accept?
    ensures
      var v := Judge(o, b);
      var h := ParseHeader(b);
      && h.HeaderOk? && v.len == h.bodyStart + h.bodyLength + TRAILER_BYTES && v.msg.raw == b[..v.len]
      && var wire := Seeded(h) + WireFields(b[h.bodyStart..h.bodyStart + h.bodyLength]);
      && v.msg.fields == FirstOccurrences(wire)
      && (v.msg.duplicateHeader <==> Repeats(wire))
      && GetAll(v.msg.fields, t) == (if IsHeaderTag(t) then GetAll(wire, t)[..Min(1, |GetAll(wire, t)|)]
                                     else GetAll(wire, t))
  {
    hide IsHeaderTag, ParseHeader, ParseBody, ParseField, WireFields, FirstOccurrences, GetAll;
    var h := ParseHeader(b);
    var frame := b[..FrameEnd(h)];
    var bodyEnd := h.bodyStart + h.bodyLength;
    assert Judge(o, b) == JudgeFrame(o, frame, h);
    assert frame[h.bodyStart..bodyEnd] == b[h.bodyStart..bodyEnd];
    SeededDistinct(h);
    ParseBodyKeeps(b[h.bodyStart..bodyEnd], h.bodyStart, Seeded(h), false);
    Survivors(Seeded(h) + WireFields(b[h.bodyStart..bodyEnd]), t);
  }
}
