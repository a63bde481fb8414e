/**
 Streams of serialized messages: concatenated, cut into arbitrary feed() calls, they parse back one by one.
 */
module Streams {
  import opened Bytes
  import opened Messages
  import opened Framing
  import opened Headers
  import opened Serializing
  import opened RoundTrip
  import opened Confluence

  /** A frame: its begin string and the fields between BodyLength and CheckSum. */
  datatype Frame = Frame(beginString: bytes, fields: seq<Field>) {
    function Wire(): bytes {
      Build(beginString, EncFields(fields))
    }

    predicate Good(o: Options) {
      ShortBegin(beginString) && BodyWritable(fields) && Fits(o, Wire())
    }

    ghost function Meaning(): Message {
      Parsed(beginString, fields)
    }
  }

  function Wires(frames: seq<Frame>): bytes {
    if frames == [] then [] else frames[0].Wire() + Wires(frames[1..])
  }

  ghost function MessagesOf(frames: seq<Frame>): seq<Message> {
    if frames == [] then [] else [frames[0].Meaning()] + MessagesOf(frames[1..])
  }

  /** What should come out of the bytes `b` of a stream of frames: the complete frames and the cut one's bytes. */
  ghost function Expected(frames: seq<Frame>, b: bytes): Drained {
    if frames == [] || |b| < |frames[0].Wire()| then Drained([], b)
    else Prepend([frames[0].Meaning()], Expected(frames[1..], b[|frames[0].Wire()|..]))
  }

  predicate AllGood(o: Options, frames: seq<Frame>) {
    forall i :: 0 <= i < |frames| ==> frames[i].Good(o)
  }

  /** The verdict at the beginning of a stream of frames: the first frame, or a wait for it. */
  lemma {:induction false} FrameVerdict(o: Options, frames: seq<Frame>, b: bytes)
    requires frames != [] && frames[0].Good(o) && b <= Wires(frames)
    ensures
      var w := frames[0].Wire();
      if |b| < |w| then Judge(o, b) == NeedMore(false)
      else Judge(o, b) == Accept(|w|, frames[0].Meaning()) && b[|w|..] <= Wires(frames[1..])
  {
    hide Judge;
    var f, w := frames[0], frames[0].Wire();
    if |b| < |w| {
      FrameAwaited(o, f.beginString, f.fields, b);
    } else {
      assert b == w + b[|w|..];
      FrameAccepted(o, f.beginString, f.fields, b[|w|..]);
    }
  }

  lemma {:induction false} ExpectedStep(frames: seq<Frame>, b: bytes)
    requires frames != []
    ensures
      var w := frames[0].Wire();
      Expected(frames, b) == if |b| < |w| then Drained([], b)
                             else Prepend([frames[0].Meaning()], Expected(frames[1..], b[|w|..]))
  {
    hide Frame.Wire, Frame.Meaning;
  }

  /** Draining the beginning of a stream of frames. */
  lemma {:induction false} DrainFrames(o: Options, frames: seq<Frame>, b: bytes)
    requires AllGood(o, frames) && b <= Wires(frames)
    ensures Drain(o, b) == Expected(frames, b)
    decreases |frames|
  {
    hide Judge, Drain, Resync, Frame.Wire, Frame.Meaning, Frame.Good, Expected, Prepend;
    DrainStep(o, b);
    if frames == [] {
      DrainEmpty(o);
      NoFrames(b);
    } else {
      FrameVerdict(o, frames, b);
      ExpectedStep(frames, b);
      if |b| >= |frames[0].Wire()| { DrainFrames(o, frames[1..], b[|frames[0].Wire()|..]); }
    }
  }

  lemma {:induction false} NoFrames(b: bytes)
    ensures Expected([], b) == Drained([], b)
  {
  }

  /** Reading on after some frames are complete. */
  lemma {:induction false} ExpectedAppend(frames: seq<Frame>, b: bytes, d: bytes)
    ensures
      var x := Expected(frames, b);
      && |x.msgs| <= |frames|
      && Expected(frames, b + d) == Prepend(x.msgs, Expected(frames[|x.msgs|..], x.rest + d))
    decreases |frames|
  {
    hide Frame.Wire, Frame.Meaning;
    if frames != [] && |b| >= |frames[0].Wire()| {
      var w := frames[0].Wire();
      assert (b + d)[|w|..] == b[|w|..] + d;
      ExpectedAppend(frames[1..], b[|w|..], d);
      var n := |Expected(frames[1..], b[|w|..]).msgs|;
      assert frames[1..][n..] == frames[1 + n..];
    }
  }

  /** The bytes left are the beginning of the frames left. */
  lemma {:induction false} ExpectedRest(frames: seq<Frame>, b: bytes, d: bytes)
    requires b + d <= Wires(frames)
    ensures
      var x := Expected(frames, b);
      && |x.msgs| <= |frames| && x.rest + d <= Wires(frames[|x.msgs|..])
      && Drained([], x.rest) == Expected(frames[|x.msgs|..], x.rest)
    decreases |frames|
  {
    hide Frame.Wire, Frame.Meaning;
    if frames != [] && |b| >= |frames[0].Wire()| {
      var w := frames[0].Wire();
      assert (b + d)[|w|..] == b[|w|..] + d;
      assert Wires(frames)[|w|..] == Wires(frames[1..]);
      ExpectedRest(frames[1..], b[|w|..], d);
      var n := |Expected(frames[1..], b[|w|..]).msgs|;
      assert frames[1..][n..] == frames[1 + n..];
    } else {
      assert b <= b + d;
    }
  }

  /** One feed() call inside a stream of frames. */
  lemma {:induction false} FeedFrames(o: Options, frames: seq<Frame>, held: bytes, data: bytes)
    requires AllGood(o, frames) && held + data <= Wires(frames)
    ensures Feed(o, held, data) == Expected(frames, held + data)
    decreases |data|
  {
    hide Drain, Expected, Wires, Frame.Good;
    assert held <= held + data;
    DrainFrames(o, frames, held);
    if data == [] {
      assert held + data == held;
    } else {
      var x := Drain(o, held);
      if o.maxMsgLen > 0 { DrainedBelowCap(o, held); }
      var n := Room(o, |x.rest|, |data|);
      ExpectedRest(frames, held, data);
      ExpectedAppend(frames, held, data);
      assert x.rest + data == x.rest + data[..n] + data[n..];
      FeedFrames(o, frames[|x.msgs|..], x.rest + data[..n], data[n..]);
    }
  }

  lemma {:induction false} FeedAllFrames(o: Options, frames: seq<Frame>, held: bytes, chunks: seq<bytes>)
    requires AllGood(o, frames) && held + Concat(chunks) <= Wires(frames)
    requires Expected(frames, held) == Drained([], held)
    ensures FeedAll(o, held, chunks) == Expected(frames, held + Concat(chunks))
    decreases |chunks|
  {
    hide Drain, Feed, Expected, Wires, Frame.Good;
    if chunks == [] {
      assert held + [] == held;
    } else if chunks[0] == [] {
      assert Concat(chunks) == Concat(chunks[1..]);
      FeedAllFrames(o, frames, held, chunks[1..]);
    } else {
      var c, rest := chunks[0], Concat(chunks[1..]);
      assert held + Concat(chunks) == held + c + rest;
      assert held + c <= held + c + rest;
      FeedFrames(o, frames, held, c);
      var x := Feed(o, held, c);
      ExpectedRest(frames, held + c, rest);
      ExpectedAppend(frames, held + c, rest);
      FeedAllFrames(o, frames[|x.msgs|..], x.rest, chunks[1..]);
    }
  }

  lemma {:induction false} ExpectedAll(frames: seq<Frame>)
    ensures Expected(frames, Wires(frames)) == Drained(MessagesOf(frames), [])
  {
    hide Frame.Wire, Frame.Meaning;
    if frames != [] {
      assert Wires(frames)[|frames[0].Wire()|..] == Wires(frames[1..]);
      ExpectedAll(frames[1..]);
    }
  }

  /**
   Round trip of a stream: any frames, concatenated and cut anywhere, parse back to exactly their messages, with
   nothing left over. The limit on message length may be absent or anything the frames respect.
   */
  lemma {:induction false} StreamRoundTrip(o: Options, frames: seq<Frame>, chunks: seq<bytes>)
    requires AllGood(o, frames) && Concat(chunks) == Wires(frames)
    ensures FeedAll(o, [], chunks) == Drained(MessagesOf(frames), [])
  {
    hide Drain, Feed, FeedAll, Wires, Frame.Good;
    EmptyExpected(frames);
    assert [] + Concat(chunks) == Concat(chunks);
    FeedAllFrames(o, frames, [], chunks);
    ExpectedAll(frames);
  }

  lemma {:induction false} EmptyExpected(frames: seq<Frame>)
    ensures Expected(frames, []) == Drained([], [])
  {
    if frames != [] { BuildShape(frames[0].beginString, EncFields(frames[0].fields)); }
  }

  // ---------------------------------------------------------------------
  // Serialized messages
  // ---------------------------------------------------------------------

  /** The frame that try_serialize writes. */
  function FrameOf(fs: seq<Field>, e: Envelope): Frame {
    Frame(e.beginString, SentFields(fs, e))
  }

  predicate ValidTags(fs: seq<Field>) {
    forall i :: 0 <= i < |fs| ==> fs[i].tag < TWO32
  }

  lemma {:induction false} BodyFieldsTags(fs: seq<Field>)
    requires ValidTags(fs)
    ensures forall i :: 0 <= i < |BodyFields(fs)| ==> BodyFields(fs)[i].tag < TWO32 && !Handled(BodyFields(fs)[i].tag)
  {
    if fs != [] { BodyFieldsTags(fs[1..]); }
  }

  /** Whatever try_serialize writes is a frame the parser accepts. */
  lemma SerializedFrame(o: Options, fs: seq<Field>, e: Envelope)
    requires ShortBegin(e.beginString) && ValidTags(fs)
    requires Serialize(fs, e).Some? && Fits(o, Serialize(fs, e).value)
    ensures FrameOf(fs, e).Good(o) && FrameOf(fs, e).Wire() == Serialize(fs, e).value
  {
    hide Build, EncFields;
    BodyFieldsTags(fs);
    var sent := SentFields(fs, e);
    forall i | 0 <= i < |sent|
      ensures Writable(sent[i]) && sent[i].tag != CHECK_SUM
    {
      if i >= |HeaderFields(fs, e)| { assert sent[i] == BodyFields(fs)[i - |HeaderFields(fs, e)|]; }
    }
  }

  lemma {:induction false} BodyFieldsConcat(a: seq<Field>, b: seq<Field>)
    ensures BodyFields(a + b) == BodyFields(a) + BodyFields(b)
  {
    if a == [] {
      assert a + b == b;
    } else {
      assert (a + b)[1..] == a[1..] + b;
      BodyFieldsConcat(a[1..], b);
    }
  }

  lemma {:induction false} BodyFieldsIdempotent(fs: seq<Field>)
    ensures BodyFields(BodyFields(fs)) == BodyFields(fs)
  {
    if fs != [] {
      BodyFieldsIdempotent(fs[1..]);
      if !Handled(fs[0].tag) { assert BodyFields(fs)[1..] == BodyFields(fs[1..]); }
    }
  }

  lemma {:induction false} NotHandledAbsent(fs: seq<Field>, tag: nat)
    requires Handled(tag)
    ensures Get(BodyFields(fs), tag) == None
  {
    if fs != [] {
      NotHandledAbsent(fs[1..], tag);
      if !Handled(fs[0].tag) { assert BodyFields(fs)[1..] == BodyFields(fs[1..]); }
    }
  }

  lemma {:induction false} BodyFieldsGet(fs: seq<Field>, tag: nat)
    requires !Handled(tag)
    ensures GetAll(BodyFields(fs), tag) == GetAll(fs, tag) && Get(BodyFields(fs), tag) == Get(fs, tag)
  {
    if fs != [] {
      BodyFieldsGet(fs[1..], tag);
      if !Handled(fs[0].tag) { assert BodyFields(fs)[1..] == BodyFields(fs[1..]); }
    }
  }

  /** The value of every tag in the fields that go on the wire, header included. */
  function WireValue(fs: seq<Field>, e: Envelope, tag: nat): Option<bytes> {
    if tag == BEGIN_STRING then Some(e.beginString)
    else if tag == BODY_LENGTH then Some(DecInt(ToInt64(|EncFields(SentFields(fs, e))|)))
    else if tag == MSG_TYPE then Some(GetOr(fs, MSG_TYPE, []))
    else if tag == SENDER_COMP_ID then Some(e.sender)
    else if tag == TARGET_COMP_ID then Some(e.target)
    else if tag == MSG_SEQ_NUM then Some(DecInt(ToInt64(e.seqNum)))
    else if tag == SENDING_TIME then Some(e.time)
    else if tag == CHECK_SUM then None
    else Get(fs, tag)
  }

  function Opt(o: Option<bytes>): seq<bytes> {
    match o case Some(v) => [v] case None => []
  }

  /** All wire fields of a serialized message. */
  function AllWireFields(fs: seq<Field>, e: Envelope): seq<Field> {
    Seeded(HeaderOf(e.beginString, EncFields(SentFields(fs, e)))) + SentFields(fs, e)
  }

  lemma {:induction false} GetAllOne(f: Field, tag: nat)
    ensures GetAll([f], tag) == if f.tag == tag then [f.value] else []
  {
    assert [f][1..] == [];
  }

  lemma {:induction false} GetAllOptional(fs: seq<Field>, t: nat, tag: nat)
    ensures GetAll(Optional(fs, t), tag) == if t == tag then Opt(Get(fs, t)) else []
  {
    match Get(fs, t)
    case Some(v) => GetAllOne(Field(t, v), tag);
    case None =>
  }

  /** The header fields hold each handled tag at most once and no other tag. */
  lemma {:induction false} GetAllTwo(f: Field, g: Field, tag: nat)
    ensures GetAll([f, g], tag) == GetAll([f], tag) + GetAll([g], tag)
    ensures GetAll([f], tag) == (if f.tag == tag then [f.value] else [])
    ensures GetAll([g], tag) == (if g.tag == tag then [g.value] else [])
  {
    GetConcat([f], [g], tag);
    assert [f] + [g] == [f, g];
    GetAllOne(f, tag);
    GetAllOne(g, tag);
  }

  /** The four fields every header starts with. */
  function FixedFields(fs: seq<Field>, e: Envelope): seq<Field> {
    [Field(MSG_TYPE, GetOr(fs, MSG_TYPE, [])), Field(SENDER_COMP_ID, e.sender), Field(TARGET_COMP_ID, e.target),
     Field(MSG_SEQ_NUM, DecInt(ToInt64(e.seqNum)))]
  }

  function LaterFields(fs: seq<Field>, e: Envelope): seq<Field> {
    Optional(fs, POSS_DUP_FLAG) + (Optional(fs, ORIG_SENDING_TIME) + [Field(SENDING_TIME, e.time)])
  }

  lemma {:induction false} SeededAll(h: Header, tag: nat)
    requires h.HeaderOk?
    ensures GetAll(Seeded(h), tag) ==
      if tag == BEGIN_STRING then [h.beginString]
      else if tag == BODY_LENGTH then [DecInt(ToInt64(h.bodyLength))] else []
  {
    hide GetAll, DecInt, ToInt64;
    GetAllTwo(Seeded(h)[0], Seeded(h)[1], tag);
    assert Seeded(h) == [Seeded(h)[0], Seeded(h)[1]];
  }

  lemma {:induction false} FixedAll(fs: seq<Field>, e: Envelope, tag: nat)
    ensures GetAll(FixedFields(fs, e), tag) ==
      if tag == MSG_TYPE then [GetOr(fs, MSG_TYPE, [])] else if tag == MSG_SEQ_NUM then [DecInt(ToInt64(e.seqNum))]
      else if tag == SENDER_COMP_ID then [e.sender] else if tag == TARGET_COMP_ID then [e.target] else []
  {
    hide GetAll, GetOr, DecInt, ToInt64;
    var b := FixedFields(fs, e);
    GetAllTwo(b[0], b[1], tag);
    GetAllTwo(b[2], b[3], tag);
    GetConcat([b[0], b[1]], [b[2], b[3]], tag);
    assert b == [b[0], b[1]] + [b[2], b[3]];
  }

  lemma {:induction false} LaterAll(fs: seq<Field>, e: Envelope, tag: nat)
    ensures GetAll(LaterFields(fs, e), tag) ==
      if tag == POSS_DUP_FLAG then Opt(Get(fs, POSS_DUP_FLAG))
      else if tag == ORIG_SENDING_TIME then Opt(Get(fs, ORIG_SENDING_TIME))
      else if tag == SENDING_TIME then [e.time] else []
  {
    hide GetAll, Get;
    var p, q, c := Optional(fs, POSS_DUP_FLAG), Optional(fs, ORIG_SENDING_TIME), [Field(SENDING_TIME, e.time)];
    GetConcat(p, q + c, tag);
    GetConcat(q, c, tag);
    GetAllOptional(fs, POSS_DUP_FLAG, tag);
    GetAllOptional(fs, ORIG_SENDING_TIME, tag);
    GetAllOne(c[0], tag);
  }

  lemma {:induction false} HeaderAll(fs: seq<Field>, e: Envelope, tag: nat)
    ensures
      var h := HeaderOf(e.beginString, EncFields(SentFields(fs, e)));
      GetAll(Seeded(h) + HeaderFields(fs, e), tag) == if Handled(tag) then Opt(WireValue(fs, e, tag)) else []
  {
    hide GetAll, Get, EncFields, SentFields, HeaderOf, HeaderFields, Seeded, FixedFields, LaterFields, DecInt, ToInt64;
    var h := HeaderOf(e.beginString, EncFields(SentFields(fs, e)));
    HeaderParts(fs, e);
    GetConcat(Seeded(h), HeaderFields(fs, e), tag);
    GetConcat(FixedFields(fs, e), LaterFields(fs, e), tag);
    SeededAll(h, tag);
    FixedAll(fs, e, tag);
    LaterAll(fs, e, tag);
    HeaderOfParts(e.beginString, EncFields(SentFields(fs, e)));
    NothingAdded(GetAll(Seeded(h), tag));
    NothingAdded(GetAll(FixedFields(fs, e), tag));
    NothingAdded(GetAll(LaterFields(fs, e), tag));
  }

  lemma NothingAdded<T>(x: seq<T>)
    ensures x + [] == x && [] + x == x
  {
  }

  lemma HeaderParts(fs: seq<Field>, e: Envelope)
    ensures HeaderFields(fs, e) == FixedFields(fs, e) + LaterFields(fs, e)
  {
    hide Get, Optional;
  }

  lemma HeaderOfParts(bs: bytes, body: bytes)
    ensures HeaderOf(bs, body).beginString == bs && HeaderOf(bs, body).bodyLength == |body|
  {
  }

  /** Every occurrence of every tag on the wire. */
  lemma {:induction false} WireAll(fs: seq<Field>, e: Envelope, tag: nat)
    ensures GetAll(AllWireFields(fs, e), tag) == if Handled(tag) then Opt(WireValue(fs, e, tag)) else GetAll(fs, tag)
    ensures Get(AllWireFields(fs, e), tag) == WireValue(fs, e, tag)
  {
    hide GetAll, Get, EncFields, HeaderFields, HeaderOf, BodyFields;
    var h := Seeded(HeaderOf(e.beginString, EncFields(SentFields(fs, e))));
    assert AllWireFields(fs, e) == h + HeaderFields(fs, e) + BodyFields(fs);
    GetConcat(h + HeaderFields(fs, e), BodyFields(fs), tag);
    HeaderAll(fs, e, tag);
    GetIsFirst(AllWireFields(fs, e), tag);
    GetIsFirst(BodyFields(fs), tag);
    GetIsFirst(fs, tag);
    if Handled(tag) { NotHandledAbsent(fs, tag); } else { BodyFieldsGet(fs, tag); }
  }

  /** The parser sees every tag of a serialized message with the value it was given. */
  lemma {:induction false} ParsedGet(fs: seq<Field>, e: Envelope, tag: nat)
    ensures Get(FrameOf(fs, e).Meaning().fields, tag) == WireValue(fs, e, tag)
  {
    hide Get, GetAll, FirstOccurrences, WireValue, AllWireFields;
    ParsedFields(fs, e);
    Survivors(AllWireFields(fs, e), tag);
    WireAll(fs, e, tag);
  }

  lemma ParsedFields(fs: seq<Field>, e: Envelope)
    ensures FrameOf(fs, e).Meaning().fields == FirstOccurrences(AllWireFields(fs, e))
    ensures FrameOf(fs, e).Meaning().duplicateHeader <==> Repeats(AllWireFields(fs, e))
    ensures FrameOf(fs, e).Meaning().raw == FrameOf(fs, e).Wire()
  {
  }

  /** No standard-header tag beyond those the serializer writes occurs twice. */
  ghost predicate NoRepeats(fs: seq<Field>) {
    forall t :: IsHeaderTag(t) && !Handled(t) ==> |GetAll(fs, t)| <= 1
  }

  lemma WireRepeats(fs: seq<Field>, e: Envelope)
    ensures Repeats(AllWireFields(fs, e)) <==> !NoRepeats(fs)
  {
    hide IsHeaderTag, GetAll, AllWireFields, WireValue, Handled;
    forall t
      ensures GetAll(AllWireFields(fs, e), t) == if Handled(t) then Opt(WireValue(fs, e, t)) else GetAll(fs, t)
    {
      WireAll(fs, e, t);
    }
    if !NoRepeats(fs) {
      var t :| IsHeaderTag(t) && !Handled(t) && |GetAll(fs, t)| > 1;
      assert |GetAll(AllWireFields(fs, e), t)| > 1;
    }
  }

  lemma {:induction false} NothingToDrop(fs: seq<Field>)
    requires !Repeats(fs)
    ensures FirstOccurrences(fs) == fs
  {
    hide IsHeaderTag, Repeats;
    if fs != [] {
      var init, last := fs[..|fs| - 1], fs[|fs| - 1];
      assert fs == init + [last];
      RepeatsSnoc(init, last);
      NothingToDrop(init);
    }
  }

  /**
   One message, serialized and parsed: it is flagged exactly when a standard-header tag of the body repeats;
   otherwise its fields are all the wire fields, its body fields are the original ones in order, and serializing
   it again under the same envelope gives the same bytes.
   */
  lemma {:induction false} MessageRoundTrip(fs: seq<Field>, e: Envelope)
    ensures FrameOf(fs, e).Meaning().duplicateHeader <==> !NoRepeats(fs)
    ensures NoRepeats(fs) ==>
      var m := FrameOf(fs, e).Meaning();
      && m.fields == AllWireFields(fs, e) && BodyFields(m.fields) == BodyFields(fs)
      && Serialize(m.fields, e) == Serialize(fs, e)
  {
    hide FirstOccurrences, Repeats, NoRepeats, Serialize, AllWireFields, BodyFields;
    ParsedFields(fs, e);
    WireRepeats(fs, e);
    if NoRepeats(fs) {
      NothingToDrop(AllWireFields(fs, e));
      WireBody(fs, e);
      Reserialize(fs, e);
    }
  }

  lemma {:induction false} WireBody(fs: seq<Field>, e: Envelope)
    ensures BodyFields(AllWireFields(fs, e)) == BodyFields(fs)
  {
    var s := Seeded(HeaderOf(e.beginString, EncFields(SentFields(fs, e))));
    BodyFieldsConcat(s, SentFields(fs, e));
    BodyFieldsConcat(HeaderFields(fs, e), BodyFields(fs));
    BodyFieldsIdempotent(fs);
    AllHandled(s);
    AllHandled(HeaderFields(fs, e));
  }

  lemma {:induction false} AllHandled(fs: seq<Field>)
    requires forall i :: 0 <= i < |fs| ==> Handled(fs[i].tag)
    ensures BodyFields(fs) == []
  {
    if fs != [] { AllHandled(fs[1..]); }
  }

  lemma Reserialize(fs: seq<Field>, e: Envelope)
    ensures Serialize(AllWireFields(fs, e), e) == Serialize(fs, e)
  {
    hide Get, AllWireFields, BodyFields, Build, EncFields;
    WireAll(fs, e, MSG_TYPE);
    WireAll(fs, e, POSS_DUP_FLAG);
    WireAll(fs, e, ORIG_SENDING_TIME);
    WireBody(fs, e);
    assert SentFields(AllWireFields(fs, e), e) == SentFields(fs, e);
  }

  /** A message handed to try_serialize together with its envelope. */
  datatype Outgoing = Outgoing(fields: seq<Field>, envelope: Envelope) {
    predicate Sendable(o: Options) {
      && ShortBegin(envelope.beginString) && ValidTags(fields)
      && Serialize(fields, envelope).Some? && Fits(o, Serialize(fields, envelope).value)
    }

    function Frame(): Frame {
      FrameOf(fields, envelope)
    }
  }

  function FramesOf(xs: seq<Outgoing>): (fs: seq<Frame>)
    ensures |fs| == |xs| && forall i :: 0 <= i < |xs| ==> fs[i] == xs[i].Frame()
  {
    seq(|xs|, i requires 0 <= i < |xs| => xs[i].Frame())
  }

  /** The bytes that serializing the messages one after the other puts on the wire. */
  function Stream(o: Options, xs: seq<Outgoing>): bytes
    requires forall i :: 0 <= i < |xs| ==> xs[i].Sendable(o)
  {
    if xs == [] then []
    else
      assert xs[0].Sendable(o);
      Serialize(xs[0].fields, xs[0].envelope).value + Stream(o, xs[1..])
  }

  lemma {:induction false} StreamIsWires(o: Options, xs: seq<Outgoing>)
    requires forall i :: 0 <= i < |xs| ==> xs[i].Sendable(o)
    ensures AllGood(o, FramesOf(xs)) && Stream(o, xs) == Wires(FramesOf(xs))
  {
    hide Frame.Good, Frame.Wire, Serialize;
    if xs != [] {
      assert xs[0].Sendable(o);
      SerializedFrame(o, xs[0].fields, xs[0].envelope);
      StreamIsWires(o, xs[1..]);
      assert FramesOf(xs)[1..] == FramesOf(xs[1..]);
      assert AllGood(o, FramesOf(xs[1..]));
      forall i | 0 <= i < |xs|
        ensures FramesOf(xs)[i].Good(o)
      {
        if i > 0 { assert FramesOf(xs)[i] == FramesOf(xs[1..])[i - 1]; }
      }
    }
  }

  lemma {:induction false} MessagesAt(frames: seq<Frame>)
    ensures |MessagesOf(frames)| == |frames|
    ensures forall i :: 0 <= i < |frames| ==> MessagesOf(frames)[i] == frames[i].Meaning()
  {
    hide Frame.Meaning;
    if frames != [] { MessagesAt(frames[1..]); }
  }

  /**
   Round trip of serialized messages: concatenated and cut into any chunks, they are delivered one by one, in
   order, with nothing left over; each carries every tag with the value it was sent with, and, unless a
   standard-header tag repeats in it, its body fields unchanged and bytes that serializing it again reproduces.
   */
  lemma MessageStreamRoundTrip(o: Options, xs: seq<Outgoing>, chunks: seq<bytes>, tag: nat)
    requires forall i :: 0 <= i < |xs| ==> xs[i].Sendable(o)
    requires Concat(chunks) == Stream(o, xs)
    ensures
      var d := FeedAll(o, [], chunks);
      && d.rest == [] && |d.msgs| == |xs|
      && forall i :: 0 <= i < |xs| ==>
        && d.msgs[i].raw == Serialize(xs[i].fields, xs[i].envelope).value
        && Get(d.msgs[i].fields, tag) == WireValue(xs[i].fields, xs[i].envelope, tag)
        && (d.msgs[i].duplicateHeader <==> !NoRepeats(xs[i].fields))
        && (NoRepeats(xs[i].fields) ==>
            && BodyFields(d.msgs[i].fields) == BodyFields(xs[i].fields)
            && Serialize(d.msgs[i].fields, xs[i].envelope) == Serialize(xs[i].fields, xs[i].envelope))
  {
    hide FeedAll, Serialize, Get, NoRepeats, BodyFields, WireValue, Frame.Meaning, Frame.Wire, Frame.Good;
    StreamIsWires(o, xs);
    StreamRoundTrip(o, FramesOf(xs), chunks);
    MessagesAt(FramesOf(xs));
    forall i | 0 <= i < |xs|
      ensures var m := FramesOf(xs)[i].Meaning();
        && m.raw == Serialize(xs[i].fields, xs[i].envelope).value
        && Get(m.fields, tag) == WireValue(xs[i].fields, xs[i].envelope, tag)
        && (m.duplicateHeader <==> !NoRepeats(xs[i].fields))
        && (NoRepeats(xs[i].fields) ==>
            && BodyFields(m.fields) == BodyFields(xs[i].fields)
            && Serialize(m.fields, xs[i].envelope) == Serialize(xs[i].fields, xs[i].envelope))
    {
      assert xs[i].Sendable(o);
      ParsedGet(xs[i].fields, xs[i].envelope, tag);
      ParsedFields(xs[i].fields, xs[i].envelope);
      SerializedFrame(o, xs[i].fields, xs[i].envelope);
      MessageRoundTrip(xs[i].fields, xs[i].envelope);
    }
  }
}
