/**
 End-to-end recovery: a receiver that is fed the replay it asked for catches up completely.
 */
module Recovery {
  import opened Bytes
  import opened Messages
  import opened Framing
  import opened Serializing
  import opened Streams
  import opened Protocol
  import opened Emitting
  import opened Timers
  import opened Replaying

  // ---------------------------------------------------------------------
  // What the peer's parser makes of a frame
  // ---------------------------------------------------------------------

  /** Two configurations that face each other. */
  predicate Mirrored(a: Config, b: Config) {
    a.version == b.version && a.sender == b.target && a.target == b.sender
  }

  /** The message the peer's parser delivers for a frame. */
  ghost function Meaning(x: Outgoing): Message {
    x.Frame().Meaning()
  }

  lemma VersionParses(v: FixVersion)
    ensures ParseVersion(VersionText(v)) == v
  {
    assert |VersionText(UnknownVersion)| == |VersionText(FIX40)| && VersionText(UnknownVersion)[0] != VersionText(FIX40)[0];
    assert VersionText(FIX40)[6] == 48 && VersionText(FIX41)[6] == 49 && VersionText(FIX42)[6] == 50;
    assert VersionText(FIX43)[6] == 51 && VersionText(FIX44)[6] == 52;
    assert VersionText(FIX50)[4] == 53 && VersionText(FIX40)[4] == 52 && VersionText(FIX41)[4] == 52;
    assert VersionText(FIX42)[4] == 52 && VersionText(FIX43)[4] == 52 && VersionText(FIX44)[4] == 52;
    assert VersionText(FIX50SP1)[9] == 49 && VersionText(FIX50SP2)[9] == 50;
  }

  /** The header accessors of a frame as its receiver sees it. */
  lemma Seen(a: Config, b: Config, x: Outgoing, n: nat)
    requires Mirrored(a, b) && GoodFrame(a, x, n) && n < TWO63
    ensures
      var m := Meaning(x);
      && ParseVersion(GetOr(m.fields, BEGIN_STRING, [])) == b.version
      && Identified(b, m) && Has(m.fields, MSG_TYPE) && SeqNum(m) == n && MsgType(m) == KindOf(x)
      && (m.duplicateHeader <==> !NoRepeats(x.fields))
  {
    hide Get, VersionText, ParseVersion, ParseInt64, Dec, NoRepeats, Frame.Meaning, EncFields, SentFields;
    ParsedGet(x.fields, x.envelope, BEGIN_STRING);
    ParsedGet(x.fields, x.envelope, SENDER_COMP_ID);
    ParsedGet(x.fields, x.envelope, TARGET_COMP_ID);
    ParsedGet(x.fields, x.envelope, MSG_TYPE);
    ParsedGet(x.fields, x.envelope, MSG_SEQ_NUM);
    VersionParses(a.version);
    ParseInt64Dec(n);
    MessageRoundTrip(x.fields, x.envelope);
  }

  /** Any other tag, as the receiver sees it. */
  lemma {:induction false} SeenTag(x: Outgoing, tag: nat)
    requires !Handled(tag) || tag == POSS_DUP_FLAG
    ensures Get(Meaning(x).fields, tag) == Get(x.fields, tag)
  {
    hide Get, Frame.Meaning;
    ParsedGet(x.fields, x.envelope, tag);
  }

  // ---------------------------------------------------------------------
  // The receiver of a gap-fill
  // ---------------------------------------------------------------------

  lemma GapFillGet(upTo: nat)
    requires upTo < TWO63
    ensures
      var fs := GapFillFields(upTo);
      && Get(fs, GAP_FILL_FLAG) == Some(YES) && Get(fs, POSS_DUP_FLAG) == Some(YES)
      && GetInt(fs, NEW_SEQ_NO) == Some(upTo)
  {
    hide Get, SetField, ParseInt64, Dec;
    var a := OfType(SEQUENCE_RESET);
    var b := SetField(a, GAP_FILL_FLAG, YES);
    var c := SetField(b, POSS_DUP_FLAG, YES);
    DecIntClean(ToInt64(upTo));
    ParseInt64Dec(upTo);
    SetFieldOther(b, POSS_DUP_FLAG, YES, GAP_FILL_FLAG);
    SetFieldOther(c, NEW_SEQ_NO, DecInt(ToInt64(upTo)), GAP_FILL_FLAG);
    SetFieldOther(c, NEW_SEQ_NO, DecInt(ToInt64(upTo)), POSS_DUP_FLAG);
    assert Clean(YES);
  }

  /** A gap-fill from the expected number moves the expectation to NewSeqNo. */
  lemma ReceiveFill(a: Config, b: Config, s: Endpoint, x: Outgoing, upTo: nat, env: Env)
    requires Mirrored(a, b) && GoodFrame(a, x, s.nextTarget) && Fill(x, upTo) && s.nextTarget < upTo < TWO63
    ensures
      var r := ProcessMessage(b, s, Meaning(x), env);
      r.out == [] && r.s == ClearGap(s.(lastRecv := env.now, testPending := false, nextTarget := upTo))
  {
    hide Get, GapFillFields, ParseVersion, Identified, SeqNum, MsgType, NoRepeats, KindOf, GoodFrame, ParseInt64, Meaning,
      LogoutAndDrop, RequestGap, ValidateSeqNum, Accepted, SendReject, TakeSlot, Ascii, Fill;
    Seen(a, b, x, s.nextTarget);
    FillFields(x, upTo);
    GapFillKind(upTo);
    GapFillKindOf(x, upTo);
    GapFillGet(upTo);
    SeenTag(x, GAP_FILL_FLAG);
    SeenTag(x, POSS_DUP_FLAG);
    SeenTag(x, NEW_SEQ_NO);
  }

  lemma FillFields(x: Outgoing, upTo: nat)
    requires Fill(x, upTo)
    ensures x.fields == GapFillFields(upTo)
  {
  }

  lemma GapFillKindOf(x: Outgoing, upTo: nat)
    requires Fill(x, upTo)
    ensures KindOf(x) == SEQUENCE_RESET
  {
    hide GapFillFields, Get;
    GapFillKind(upTo);
  }

  /** An application message at the expected number is delivered and its number consumed. */
  lemma ReceiveCopy(a: Config, b: Config, s: Endpoint, x: Outgoing, env: Env)
    requires Mirrored(a, b) && GoodFrame(a, x, s.nextTarget) && 1 <= s.nextTarget < TWO63 && s.phase == Active
    requires !IsAdmin(KindOf(x)) && NoRepeats(x.fields)
    ensures
      var r := ProcessMessage(b, s, Meaning(x), env);
      && r.out == [Deliver(Meaning(x))] + Thrown(env)
      && r.s.phase == Active && r.s.nextTarget == s.nextTarget + 1 && r.s.nextSender == s.nextSender && !r.s.gapOpen
  {
    hide Get, ParseVersion, Identified, SeqNum, MsgType, NoRepeats, KindOf, GoodFrame, PossDup, Frame.Meaning;
    Seen(a, b, x, s.nextTarget);
  }

  /** A copy of a sound stored message repeats no header tag and keeps the body. */
  lemma CopyOf(stored: Message)
    requires Sound(stored)
    ensures NoRepeats(Retagged(stored)) && BodyFields(Retagged(stored)) == BodyFields(stored.fields)
  {
    hide Get, GetAll, SetField, IsHeaderTag, BodyFields, AllClean, ValidTags;
    var dup := SetField(stored.fields, POSS_DUP_FLAG, YES);
    BodyFieldsSet(stored.fields, POSS_DUP_FLAG, YES);
    var orig := Get(dup, SENDING_TIME);
    if orig.Some? { BodyFieldsSet(dup, ORIG_SENDING_TIME, orig.value); }
    forall t | IsHeaderTag(t) && !Handled(t)
      ensures |GetAll(Retagged(stored), t)| <= 1
    {
      SetFieldOther(stored.fields, POSS_DUP_FLAG, YES, t);
      if orig.Some? { SetFieldOther(dup, ORIG_SENDING_TIME, orig.value, t); }
    }
  }

  lemma {:induction false} BodyFieldsSet(fs: seq<Field>, tag: nat, value: bytes)
    requires Handled(tag)
    ensures BodyFields(SetField(fs, tag, value)) == BodyFields(fs)
  {
    if Clean(value) {
      if fs == [] {
        assert [Field(tag, value)][1..] == [];
      } else if fs[0].tag == tag {
        assert SetField(fs, tag, value)[1..] == fs[1..];
      } else {
        BodyFieldsSet(fs[1..], tag, value);
        assert SetField(fs, tag, value)[1..] == SetField(fs[1..], tag, value);
      }
    }
  }

  // ---------------------------------------------------------------------
  // Receiving a whole replay
  // ---------------------------------------------------------------------

  /** The stored application messages from `lo` up to (excluding) `hi`, ascending. */
  function Wanted(stored: map<nat, bytes>, lo: nat, hi: nat): seq<nat>
    decreases hi - lo
  {
    if lo >= hi then []
    else (if lo in stored && Replayable(stored[lo]) then [lo] else []) + Wanted(stored, lo + 1, hi)
  }

  lemma {:induction false} WantedSplit(stored: map<nat, bytes>, lo: nat, mid: nat, hi: nat)
    requires lo <= mid <= hi && NoneReplayable(stored, lo, mid)
    ensures Wanted(stored, lo, hi) == Wanted(stored, mid, hi)
    decreases mid - lo
  {
    hide Replayable;
    if lo < mid { WantedSplit(stored, lo + 1, mid, hi); }
  }

  /** Application messages delivered. */
  function DeliveredMsgs(out: seq<Out>): seq<Message> {
    if out == [] then [] else (if out[0].Deliver? then [out[0].msg] else []) + DeliveredMsgs(out[1..])
  }

  lemma {:induction false} DeliveredMsgsConcat(a: seq<Out>, b: seq<Out>)
    ensures DeliveredMsgs(a + b) == DeliveredMsgs(a) + DeliveredMsgs(b)
  {
    if a == [] {
      assert a + b == b;
    } else {
      TailOfConcat(a, b);
      DeliveredMsgsConcat(a[1..], b);
      Associates(if a[0].Deliver? then [a[0].msg] else [], DeliveredMsgs(a[1..]), DeliveredMsgs(b));
    }
  }

  /** Messages arriving one after the other, each with its own clock reading. */
  function Arrivals(ms: seq<Message>, envs: seq<Env>): seq<Event>
    requires |ms| == |envs|
  {
    seq(|ms|, i requires 0 <= i < |ms| => Inbound(ms[i], envs[i]))
  }

  ghost function Meanings(frames: seq<Outgoing>): (ms: seq<Message>)
    ensures |ms| == |frames| && forall i :: 0 <= i < |ms| ==> ms[i] == Meaning(frames[i])
  {
    seq(|frames|, i requires 0 <= i < |frames| => Meaning(frames[i]))
  }

  /** The message `d` is the stored application message `n`: its number, type and body. */
  ghost predicate Recovers(stored: map<nat, bytes>, n: nat, d: Message) {
    && n in stored && Replayable(stored[n])
    && SeqNum(d) == n && MsgType(d) == MsgType(ParseStored(stored[n]).value)
    && BodyFields(d.fields) == BodyFields(ParseStored(stored[n]).value.fields)
  }

  ghost predicate RecoversAll(stored: map<nat, bytes>, ns: seq<nat>, ds: seq<Message>) {
    |ds| == |ns| && forall i :: 0 <= i < |ns| ==> Recovers(stored, ns[i], ds[i])
  }

  lemma CopyRecovers(a: Config, b: Config, stored: map<nat, bytes>, x: Outgoing, env: Env)
    requires Mirrored(a, b) && CanSend(a, env) && Copy(x, stored)
    requires x.envelope == EnvelopeFor(a, x.envelope.seqNum, env) && x.envelope.seqNum < TWO63
    ensures GoodFrame(a, x, x.envelope.seqNum) && !IsAdmin(KindOf(x)) && NoRepeats(x.fields)
    ensures Recovers(stored, x.envelope.seqNum, Meaning(x))
  {
    hide Retagged, ParseStored, Serialize, CanSend, AllClean, ValidTags, NoRepeats, BodyFields, SeqNum, MsgType,
      Frame.Meaning, IsAdmin, VersionText, GetOr;
    var n := x.envelope.seqNum;
    var m := ParseStored(stored[n]).value;
    StoredSound(stored[n]);
    StoredParts(stored[n]);
    RetaggedClean(m);
    CleanSerializes(a, Retagged(m), n, env);
    CopyOf(m);
    RetaggedKind(m);
    Seen(a, b, x, n);
    MessageRoundTrip(x.fields, x.envelope);
  }

  lemma FillFrame(a: Config, x: Outgoing, upTo: nat, env: Env)
    requires CanSend(a, env) && Fill(x, upTo) && x.envelope == EnvelopeFor(a, x.envelope.seqNum, env)
    ensures GoodFrame(a, x, x.envelope.seqNum)
  {
    hide GapFillFields, Serialize, CanSend, AllClean, ValidTags, VersionText;
    GapFillKind(upTo);
    GapFillClean(upTo);
    CleanSerializes(a, GapFillFields(upTo), x.envelope.seqNum, env);
  }

  lemma {:induction false} ReceiveTiles(
    a: Config, b: Config, env: Env, stored: map<nat, bytes>, frames: seq<Outgoing>, s: Endpoint, hi: nat, envs: seq<Env>)
    requires Mirrored(a, b) && CanSend(a, env) && |envs| == |frames|
    requires s.phase == Active && 1 <= s.nextTarget <= hi < TWO63
    requires Tiles(a, env, stored, frames, s.nextTarget, hi)
    ensures
      var r := Run(b, s, Arrivals(Meanings(frames), envs));
      && r.s.phase == Active && r.s.nextTarget == hi && r.s.nextSender == s.nextSender
      && (frames != [] || !s.gapOpen ==> !r.s.gapOpen)
      && RecoversAll(stored, Wanted(stored, s.nextTarget, hi), DeliveredMsgs(r.out))
    decreases |frames|
  {
    hide Copy, Fill, NoneReplayable, CanSend, RecoversAll, ProcessMessage, Run, Wanted, DeliveredMsgs, Arrivals, Mirrored,
      Meanings, Meaning, EnvelopeFor;
    if frames == [] {
      WantedNone(stored, hi);
      NothingArrives(b, s, stored, frames, envs);
    } else {
      var x, lo := frames[0], s.nextTarget;
      var later := Arrivals(Meanings(frames[1..]), envs[1..]);
      ArrivalsFirst(frames, envs);
      var r := ProcessMessage(b, s, Meaning(x), envs[0]);
      if Copy(x, stored) && Tiles(a, env, stored, frames[1..], lo + 1, hi) {
        TilesOrder(a, env, stored, frames[1..], lo + 1, hi);
        CopyStep(a, b, env, stored, x, s, hi, envs[0], later);
        ReceiveTiles(a, b, env, stored, frames[1..], r.s, hi, envs[1..]);
      } else {
        var mid :| lo < mid <= hi && Fill(x, mid) && NoneReplayable(stored, lo, mid)
                   && Tiles(a, env, stored, frames[1..], mid, hi);
        FillStep(a, b, env, stored, x, s, mid, hi, envs[0], later);
        ReceiveTiles(a, b, env, stored, frames[1..], r.s, hi, envs[1..]);
      }
    }
  }

  lemma {:induction false} NothingArrives(b: Config, s: Endpoint, stored: map<nat, bytes>, frames: seq<Outgoing>, envs: seq<Env>)
    requires frames == [] && envs == []
    ensures Run(b, s, Arrivals(Meanings(frames), envs)) == Step(s, []) && RecoversAll(stored, [], DeliveredMsgs([]))
  {
  }

  lemma {:induction false} RunFirst(b: Config, s: Endpoint, m: Message, env: Env, later: seq<Event>)
    requires s.phase != Disconnected
    ensures
      var r := ProcessMessage(b, s, m, env);
      var rest := Run(b, r.s, later);
      var whole := Run(b, s, [Inbound(m, env)] + later);
      whole.s == rest.s && DeliveredMsgs(whole.out) == DeliveredMsgs(r.out) + DeliveredMsgs(rest.out)
  {
    hide ProcessMessage, DeliveredMsgs;
    var evs := [Inbound(m, env)] + later;
    assert evs[0] == Inbound(m, env) && evs[1..] == later;
    var r := ProcessMessage(b, s, m, env);
    DeliveredMsgsConcat(r.out, Run(b, r.s, later).out);
  }

  /** Receiving a copy first, whatever comes after. */
  lemma {:induction false} CopyStep(
    a: Config, b: Config, env: Env, stored: map<nat, bytes>, x: Outgoing, s: Endpoint, hi: nat, at: Env, later: seq<Event>)
    requires Mirrored(a, b) && CanSend(a, env) && s.phase == Active && 1 <= s.nextTarget < hi < TWO63
    requires Copy(x, stored) && x.envelope == EnvelopeFor(a, s.nextTarget, env)
    ensures
      var r := ProcessMessage(b, s, Meaning(x), at);
      var whole, rest := Run(b, s, [Inbound(Meaning(x), at)] + later), Run(b, r.s, later);
      && r.s.phase == Active && r.s.nextTarget == s.nextTarget + 1 && whole.s == rest.s
      && r.s.nextSender == s.nextSender && !r.s.gapOpen
      && (RecoversAll(stored, Wanted(stored, s.nextTarget + 1, hi), DeliveredMsgs(rest.out)) ==>
          RecoversAll(stored, Wanted(stored, s.nextTarget, hi), DeliveredMsgs(whole.out)))
  {
    hide Copy, CanSend, Recovers, RecoversAll, ProcessMessage, GoodFrame, IsAdmin, NoRepeats, Wanted, Run, DeliveredMsgs,
      KindOf, Meaning, Replayable;
    CopyRecovers(a, b, stored, x, env);
    ReceiveCopy(a, b, s, x, at);
    CopyMeans(x, stored);
    WantedStep(stored, s.nextTarget, hi);
    DeliverOne(Meaning(x), at);
    RunFirst(b, s, Meaning(x), at, later);
    var rest := Run(b, ProcessMessage(b, s, Meaning(x), at).s, later);
    RecoversFirst(stored, s.nextTarget, Meaning(x), Wanted(stored, s.nextTarget + 1, hi), DeliveredMsgs(rest.out));
  }

  lemma RecoversFirst(stored: map<nat, bytes>, n: nat, d: Message, ns: seq<nat>, ds: seq<Message>)
    requires Recovers(stored, n, d)
    ensures RecoversAll(stored, ns, ds) ==> RecoversAll(stored, [n] + ns, [d] + ds)
  {
    hide Recovers;
  }

  /** Receiving a gap-fill first, whatever comes after. */
  lemma {:induction false} FillStep(
    a: Config, b: Config, env: Env, stored: map<nat, bytes>, x: Outgoing, s: Endpoint, mid: nat, hi: nat, at: Env,
    later: seq<Event>)
    requires Mirrored(a, b) && CanSend(a, env) && s.phase == Active && s.nextTarget < mid <= hi < TWO63
    requires Fill(x, mid) && NoneReplayable(stored, s.nextTarget, mid)
    requires x.envelope == EnvelopeFor(a, s.nextTarget, env)
    ensures
      var r := ProcessMessage(b, s, Meaning(x), at);
      var whole, rest := Run(b, s, [Inbound(Meaning(x), at)] + later), Run(b, r.s, later);
      && r.s.phase == Active && r.s.nextTarget == mid && whole.s == rest.s
      && r.s.nextSender == s.nextSender && !r.s.gapOpen
      && Wanted(stored, s.nextTarget, hi) == Wanted(stored, mid, hi)
      && DeliveredMsgs(whole.out) == DeliveredMsgs(rest.out)
  {
    hide Fill, CanSend, ProcessMessage, GoodFrame, NoneReplayable, Wanted, Run;
    FillFrame(a, x, mid, env);
    ReceiveFill(a, b, s, x, mid, at);
    WantedSplit(stored, s.nextTarget, mid, hi);
    RunFirst(b, s, Meaning(x), at, later);
  }

  lemma CopyMeans(x: Outgoing, stored: map<nat, bytes>)
    requires Copy(x, stored)
    ensures x.envelope.seqNum in stored && Replayable(stored[x.envelope.seqNum])
  {
  }

  lemma ArrivalsFirst(frames: seq<Outgoing>, envs: seq<Env>)
    requires |frames| == |envs| > 0
    ensures Arrivals(Meanings(frames), envs)
         == [Inbound(Meaning(frames[0]), envs[0])] + Arrivals(Meanings(frames[1..]), envs[1..])
  {
    hide Meaning;
  }

  lemma {:induction false} WantedNone(stored: map<nat, bytes>, n: nat)
    ensures Wanted(stored, n, n) == []
  {
  }

  lemma {:induction false} WantedStep(stored: map<nat, bytes>, lo: nat, hi: nat)
    requires lo < hi && lo in stored && Replayable(stored[lo])
    ensures Wanted(stored, lo, hi) == [lo] + Wanted(stored, lo + 1, hi)
  {
    hide Replayable;
  }

  lemma DeliverOne(m: Message, env: Env)
    ensures DeliveredMsgs([Deliver(m)] + Thrown(env)) == [m]
  {
    DeliveredMsgsConcat([Deliver(m)], Thrown(env));
    assert [Deliver(m)][1..] == [];
    if env.throws { assert Thrown(env)[1..] == []; }
  }

  lemma {:induction false} TilesOrder(
    cfg: Config, env: Env, stored: map<nat, bytes>, frames: seq<Outgoing>, lo: nat, hi: nat)
    requires Tiles(cfg, env, stored, frames, lo, hi)
    ensures lo <= hi
    decreases |frames|
  {
    hide Copy, Fill, NoneReplayable, EnvelopeFor;
    if frames != [] && Tiles(cfg, env, stored, frames[1..], lo + 1, hi) {
      TilesOrder(cfg, env, stored, frames[1..], lo + 1, hi);
    }
  }

  // ---------------------------------------------------------------------
  // Main results
  // ---------------------------------------------------------------------

  /**
   End-to-end recovery. For any contents of the sender's store and any Active receiver that expects `begin`, the
   answer to ResendRequest(begin, 0) brings the receiver to the sender's next number, and delivers every stored
   application message from `begin` on exactly once, in order, with its original type and body. The receiver sends
   nothing meanwhile, and its gap is closed as soon as there was anything to recover.
   */
  lemma {:induction false} ReplayRecovers(
    a: Config, sa: Endpoint, b: Config, sb: Endpoint, request: Message, env: Env, envs: seq<Env>)
    requires Mirrored(a, b) && CanSend(a, env) && sb.phase == Active
    requires 1 <= sb.nextTarget <= sa.nextSender < TWO63
    requires |envs| == |Emitted(AnswerResend(a, sa, request, sb.nextTarget, 0, env).out)|
    ensures
      var frames := Emitted(AnswerResend(a, sa, request, sb.nextTarget, 0, env).out);
      var r := Run(b, sb, Arrivals(Meanings(frames), envs));
      && r.s.phase == Active && r.s.nextTarget == sa.nextSender && r.s.nextSender == sb.nextSender
      && (sb.nextTarget < sa.nextSender ==> !r.s.gapOpen)
      && RecoversAll(sa.outbound, Wanted(sa.outbound, sb.nextTarget, sa.nextSender), DeliveredMsgs(r.out))
  {
    hide Tiles, CanSend, RecoversAll, Run, Wanted, DeliveredMsgs, Emitted, Replay;
    var frames := Emitted(AnswerResend(a, sa, request, sb.nextTarget, 0, env).out);
    if sb.nextTarget < sa.nextSender {
      ReplayTiling(a, sa, request, sb.nextTarget, 0, env);
      TilesSome(a, env, sa.outbound, frames, sb.nextTarget, sa.nextSender);
    } else {
      EmittedNothing([]);
      TilesEmpty(a, env, sa.outbound, sb.nextTarget);
    }
    ReceiveTiles(a, b, env, sa.outbound, frames, sb, sa.nextSender, envs);
  }

  lemma {:induction false} TilesSome(cfg: Config, env: Env, stored: map<nat, bytes>, frames: seq<Outgoing>, lo: nat, hi: nat)
    requires Tiles(cfg, env, stored, frames, lo, hi) && lo < hi
    ensures frames != []
  {
    hide Copy, Fill, NoneReplayable, EnvelopeFor;
  }

  lemma MeaningsAreMessages(frames: seq<Outgoing>)
    ensures Meanings(frames) == MessagesOf(FramesOf(frames))
  {
    hide Frame.Meaning;
    MessagesAt(FramesOf(frames));
  }

  /**
   The same at the level of bytes: the frames of the answer, concatenated and cut in any way, are read by the
   receiver's parser and processed; the receiver catches up as in ReplayRecovers.
   */
  lemma {:induction false} ReplayBytesRecover(
    a: Config, sa: Endpoint, b: Config, sb: Endpoint, request: Message, env: Env, envs: seq<Env>,
    o: Options, chunks: seq<bytes>)
    requires Mirrored(a, b) && CanSend(a, env) && sb.phase == Active
    requires 1 <= sb.nextTarget <= sa.nextSender < TWO63
    requires
      var frames := Emitted(AnswerResend(a, sa, request, sb.nextTarget, 0, env).out);
      && |envs| == |frames|
      && (forall i :: 0 <= i < |frames| ==> frames[i].Sendable(o))
      && Concat(chunks) == Stream(o, frames)
    ensures
      var d := FeedAll(o, [], chunks);
      && d.rest == [] && |d.msgs| == |envs|
      && var r := Run(b, sb, Arrivals(d.msgs, envs));
      && r.s.phase == Active && r.s.nextTarget == sa.nextSender
      && RecoversAll(sa.outbound, Wanted(sa.outbound, sb.nextTarget, sa.nextSender), DeliveredMsgs(r.out))
  {
    hide FeedAll, CanSend, RecoversAll, Run, Wanted, DeliveredMsgs, Emitted, AnswerResend, Outgoing.Sendable;
    var frames := Emitted(AnswerResend(a, sa, request, sb.nextTarget, 0, env).out);
    StreamIsWires(o, frames);
    StreamRoundTrip(o, FramesOf(frames), chunks);
    MeaningsAreMessages(frames);
    ReplayRecovers(a, sa, b, sb, request, env, envs);
  }
}
