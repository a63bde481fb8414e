/**
 A gap from detection to recovery: one ResendRequest and its answer bring the receiver level with the sender, and what
 it is given is what the sender's application sent.
 */
module Healing {
  import opened Bytes
  import opened Messages
  import opened Framing
  import opened Serializing
  import opened Streams
  import opened Stores
  import opened Protocol
  import opened Emitting
  import opened Replaying
  import opened Recovery
  import opened Handshake
  import opened Link

  // ---------------------------------------------------------------------
  // The stored frame of a sent message
  // ---------------------------------------------------------------------

  lemma {:induction false} FeedOnce(o: Options, wire: bytes)
    ensures FeedAll(o, [], [wire]).msgs != [] ==> FeedAll(o, [], [wire]).msgs == Feed(o, [], wire).msgs
  {
    hide Feed;
    assert [wire][1..] == [];
  }

  /** The replayer finds in a stored frame exactly the message the peer would have parsed. */
  lemma StoredIsMeaning(x: Outgoing)
    requires x.Sendable(KEEP_DEFAULTS)
    ensures ParseStored(Serialize(x.fields, x.envelope).value) == Some(Meaning(x))
  {
    hide FeedAll, Feed, Serialize, Outgoing.Sendable, Frame.Meaning, Stream;
    var wire := SerializedOf(x);
    var xs := [x];
    assert forall i :: 0 <= i < |xs| ==> xs[i].Sendable(KEEP_DEFAULTS);
    assert Concat([wire]) == Stream(KEEP_DEFAULTS, xs) by { OneChunk(x, wire); }
    StreamIsWires(KEEP_DEFAULTS, xs);
    StreamRoundTrip(KEEP_DEFAULTS, FramesOf(xs), [wire]);
    MessagesAt(FramesOf(xs));
    FeedOnce(KEEP_DEFAULTS, wire);
  }

  function SerializedOf(x: Outgoing): bytes
    requires x.Sendable(KEEP_DEFAULTS)
  {
    Serialize(x.fields, x.envelope).value
  }

  lemma OneChunk(x: Outgoing, wire: bytes)
    requires x.Sendable(KEEP_DEFAULTS) && wire == SerializedOf(x)
    ensures Concat([wire]) == Stream(KEEP_DEFAULTS, [x])
  {
    hide Serialize, Outgoing.Sendable;
    assert [wire][1..] == [] && [x][1..] == [];
    assert wire + [] == wire;
  }

  /**
   A recovered message is the one that was sent: if number `n` in the store is an application message that was
   serialized from `x`, then a message that recovers `n` has the type and the body fields of `x`.
   */
  lemma RecoveredIsSent(stored: map<nat, bytes>, n: nat, x: Outgoing, d: Message)
    requires x.Sendable(KEEP_DEFAULTS) && NoRepeats(x.fields)
    requires n in stored && stored[n] == Serialize(x.fields, x.envelope).value
    requires KindOf(x) != [] && !IsAdmin(KindOf(x))
    ensures Replayable(stored[n])
    ensures Recovers(stored, n, d) ==> MsgType(d) == KindOf(x) && BodyFields(d.fields) == BodyFields(x.fields)
  {
    hide ParseStored, Serialize, Outgoing.Sendable, Frame.Meaning, NoRepeats, IsAdmin, BodyFields, Get, SeqNum;
    StoredIsMeaning(x);
    ParsedGet(x.fields, x.envelope, MSG_TYPE);
    MessageRoundTrip(x.fields, x.envelope);
  }

  // ---------------------------------------------------------------------
  // The request
  // ---------------------------------------------------------------------

  lemma RequestTags()
    ensures Plain(BEGIN_SEQ_NO) && Plain(END_SEQ_NO)
  {
    hide IsHeaderTag;
    SevenAndSixteen();
  }

  lemma SevenAndSixteen()
    ensures !IsHeaderTag(BEGIN_SEQ_NO) && !IsHeaderTag(END_SEQ_NO)
  {
  }

  /** A ResendRequest says what it asks for. */
  lemma RequestFields(begin: nat)
    requires begin < TWO63
    ensures
      var fs := ResendRequestFields(begin, 0);
      && Tidy(fs, RESEND_REQUEST)
      && GetInt(fs, BEGIN_SEQ_NO) == Some(begin) && GetInt(fs, END_SEQ_NO) == Some(0)
  {
    hide SetField, Tidy, Plain, Get, ParseInt64, Dec, Clean;
    RequestTags();
    KindClean();
    TidyType(RESEND_REQUEST);
    var a := SetField(OfType(RESEND_REQUEST), BEGIN_SEQ_NO, DecInt(begin));
    TidySet(OfType(RESEND_REQUEST), RESEND_REQUEST, BEGIN_SEQ_NO, DecInt(begin));
    TidySet(a, RESEND_REQUEST, END_SEQ_NO, DecInt(0));
    SetFieldOther(a, END_SEQ_NO, DecInt(0), BEGIN_SEQ_NO);
    DecIntClean(begin);
    DecIntClean(0);
    ParseInt64Dec(begin);
    ParseInt64Dec(0);
  }

  lemma KindClean()
    ensures Clean(RESEND_REQUEST)
  {
  }

  function Request(b: Config, s: Endpoint, env: Env): Outgoing {
    Outgoing(ResendRequestFields(s.nextTarget, 0), EnvelopeFor(b, s.nextSender, env))
  }

  lemma RequestGood(b: Config, s: Endpoint, env: Env)
    requires CanSend(b, env) && s.nextTarget < TWO63
    ensures GoodFrame(b, Request(b, s, env), s.nextSender) && KindOf(Request(b, s, env)) == RESEND_REQUEST
  {
    hide ResendRequestFields, Serialize, CanSend, VersionText, AllClean, ValidTags;
    RequestFields(s.nextTarget);
    TidyParts(ResendRequestFields(s.nextTarget, 0), RESEND_REQUEST);
    CleanSerializes(b, ResendRequestFields(s.nextTarget, 0), s.nextSender, env);
  }

  /** A frame from beyond the expected number makes the receiver ask, once, for everything from there on. */
  lemma GapAsks(a: Config, b: Config, s: Endpoint, x: Outgoing, n: nat, env: Env)
    requires Mirrored(a, b) && CanSend(b, env) && Judged(s.phase) && !s.gapOpen
    requires GoodFrame(a, x, n) && KindOf(x) != SEQUENCE_RESET && s.nextTarget < n < TWO63
    ensures
      var r := ProcessMessage(b, s, Meaning(x), env);
      && Emitted(r.out) == [Request(b, s, env)]
      && r.s.phase == s.phase && r.s.nextTarget == s.nextTarget && r.s.nextSender == s.nextSender + 1 && r.s.gapOpen
  {
    hide Get, ParseVersion, Identified, SeqNum, MsgType, NoRepeats, KindOf, GoodFrame, PossDup, Frame.Meaning, Serialize,
      ResendRequestFields, CanSend, Emitted, VersionText, Ascii;
    Seen(a, b, x, n);
    RequestGood(b, s, env);
    GoodSerializes(b, Request(b, s, env), s.nextSender);
    var notice := [OnGap(s.nextTarget, n)] + Thrown(env);
    EmittedAfter(notice, [Emit(Request(b, s, env))]);
    EmittedEmit(Request(b, s, env));
  }

  lemma GoodSerializes(cfg: Config, x: Outgoing, n: nat)
    requires GoodFrame(cfg, x, n)
    ensures Serialize(x.fields, x.envelope).Some?
  {
  }

  // ---------------------------------------------------------------------
  // The answer
  // ---------------------------------------------------------------------

  lemma RequestKind()
    ensures IsAdmin(RESEND_REQUEST) && RESEND_REQUEST != SEQUENCE_RESET && RESEND_REQUEST != LOGON
    ensures RESEND_REQUEST != LOGOUT && RESEND_REQUEST != TEST_REQUEST
  {
    assert RESEND_REQUEST[0] != SEQUENCE_RESET[0] && RESEND_REQUEST[0] != LOGON[0];
    assert RESEND_REQUEST[0] != LOGOUT[0] && RESEND_REQUEST[0] != TEST_REQUEST[0];
  }

  /** What the sender sees of the request. */
  lemma RequestSeen(a: Config, b: Config, s: Endpoint, env: Env)
    requires Mirrored(b, a) && CanSend(b, env) && s.nextTarget < TWO63 && s.nextSender < TWO63
    ensures
      var m := Meaning(Request(b, s, env));
      && ParseVersion(GetOr(m.fields, BEGIN_STRING, [])) == a.version && Identified(a, m) && Has(m.fields, MSG_TYPE)
      && MsgType(m) == RESEND_REQUEST && SeqNum(m) == s.nextSender && !m.duplicateHeader
      && GetInt(m.fields, BEGIN_SEQ_NO) == Some(s.nextTarget) && EndOf(m) == 0
  {
    hide Get, ParseVersion, Identified, SeqNum, MsgType, NoRepeats, KindOf, GoodFrame, Frame.Meaning, ResendRequestFields,
      CanSend, EnvelopeFor, ParseInt64, Tidy;
    var y := Request(b, s, env);
    RequestGood(b, s, env);
    RequestFields(s.nextTarget);
    TidyParts(y.fields, RESEND_REQUEST);
    Seen(b, a, y, s.nextSender);
    SeenTag(y, BEGIN_SEQ_NO);
    SeenTag(y, END_SEQ_NO);
  }

  /** A request in sequence is answered with the replay, and nothing else of the sender's numbering changes. */
  lemma RequestAnswered(a: Config, sa: Endpoint, m: Message, begin: nat, env: Env)
    requires ParseVersion(GetOr(m.fields, BEGIN_STRING, [])) == a.version && Identified(a, m) && Has(m.fields, MSG_TYPE)
    requires MsgType(m) == RESEND_REQUEST && !m.duplicateHeader
    requires GetInt(m.fields, BEGIN_SEQ_NO) == Some(begin) && EndOf(m) == 0 && begin >= 1
    requires Judged(sa.phase) && 1 <= SeqNum(m) == sa.nextTarget < TWO63 && begin <= sa.nextSender
    ensures
      var seen := ClearGap(sa.(lastRecv := env.now, testPending := false));
      var r := ProcessMessage(a, sa, m, env);
      && Emitted(r.out) == Emitted(AnswerResend(a, seen, m, begin, 0, env).out)
      && r.s.nextSender == sa.nextSender && r.s.outbound == sa.outbound
      && r.s.phase == sa.phase && r.s.nextTarget == sa.nextTarget + 1 && !r.s.gapOpen
  {
    hide Get, GetInt, ParseVersion, Identified, SeqNum, MsgType, PossDup, Replay, Ascending, IsAdmin, Emitted, Emissions,
      EndOf, Ascii, TakeSlot;
    RequestKind();
    var seen := ClearGap(sa.(lastRecv := env.now, testPending := false));
    var answer := AnswerResend(a, seen, m, begin, 0, env);
    EmittedAfter([OnResendRequest(begin, 0)] + Thrown(env), answer.out);
    SlotKeeps(answer.s, m);
  }

  lemma SlotKeeps(s: Endpoint, m: Message)
    ensures TakeSlot(s, m).nextSender == s.nextSender && TakeSlot(s, m).outbound == s.outbound
    ensures TakeSlot(s, m).phase == s.phase && TakeSlot(s, m).gapOpen == s.gapOpen
    ensures SeqNum(m) == s.nextTarget < TWO63 ==> TakeSlot(s, m).nextTarget == s.nextTarget + 1
  {
  }

  // ---------------------------------------------------------------------
  // Frames that arrive between the request and its answer
  // ---------------------------------------------------------------------

  /** Good frames from beyond the expectation; SequenceReset has rules of its own. */
  predicate Ahead(a: Config, xs: seq<Outgoing>, expected: nat) {
    forall i :: 0 <= i < |xs| ==>
      expected < xs[i].envelope.seqNum < TWO63 && GoodFrame(a, xs[i], xs[i].envelope.seqNum) && KindOf(xs[i]) != SEQUENCE_RESET
  }

  /** While a gap is open such a frame is neither asked for again nor delivered; only its arrival is noted. */
  lemma AheadIgnored(a: Config, b: Config, s: Endpoint, x: Outgoing, env: Env)
    requires Mirrored(a, b) && Judged(s.phase) && s.gapOpen
    requires s.nextTarget < x.envelope.seqNum < TWO63 && GoodFrame(a, x, x.envelope.seqNum) && KindOf(x) != SEQUENCE_RESET
    ensures
      var r := ProcessMessage(b, s, Meaning(x), env);
      r.s == s.(lastRecv := env.now, testPending := false) && Emitted(r.out) == [] && DeliveredMsgs(r.out) == []
  {
    hide Get, ParseVersion, Identified, SeqNum, MsgType, NoRepeats, KindOf, GoodFrame, PossDup, Frame.Meaning, Serialize,
      ResendRequestFields, Emitted, VersionText, Ascii, DeliveredMsgs;
    Seen(a, b, x, x.envelope.seqNum);
    var out := ProcessMessage(b, s, Meaning(x), env).out;
    EmittedNothing(out);
    NothingDelivered(out);
  }

  lemma {:induction false} NothingDelivered(out: seq<Out>)
    requires forall i :: 0 <= i < |out| ==> !out[i].Deliver?
    ensures DeliveredMsgs(out) == []
  {
    if out != [] { NothingDelivered(out[1..]); }
  }

  lemma {:induction false} AheadRun(a: Config, b: Config, s: Endpoint, xs: seq<Outgoing>, envs: seq<Env>)
    requires Mirrored(a, b) && s.phase == Active && s.gapOpen && Ahead(a, xs, s.nextTarget) && |envs| == |xs|
    ensures
      var r := Run(b, s, Arrivals(Meanings(xs), envs));
      && r.s == s.(lastRecv := r.s.lastRecv, testPending := r.s.testPending)
      && Emitted(r.out) == [] && DeliveredMsgs(r.out) == []
    decreases |xs|
  {
    hide ProcessMessage, Meaning, GoodFrame, KindOf, Emitted, DeliveredMsgs;
    if xs == [] {
      EmittedNothing([]);
      NothingDelivered([]);
    } else {
      AheadIgnored(a, b, s, xs[0], envs[0]);
      var evs := Arrivals(Meanings(xs), envs);
      assert evs[1..] == Arrivals(Meanings(xs[1..]), envs[1..]);
      var r := ProcessMessage(b, s, Meaning(xs[0]), envs[0]);
      AheadRun(a, b, r.s, xs[1..], envs[1..]);
      var later := Run(b, r.s, evs[1..]);
      EmittedConcat(r.out, later.out);
      DeliveredMsgsConcat(r.out, later.out);
    }
  }

  /** A run in two parts. */
  lemma {:induction false} RunParts(cfg: Config, s: Endpoint, xs: seq<Event>, ys: seq<Event>)
    ensures
      var r := Run(cfg, s, xs);
      Run(cfg, s, xs + ys) == Run(cfg, r.s, ys).After(r.out)
    decreases |xs|
  {
    hide Perform;
    if xs == [] {
      assert xs + ys == ys;
      NothingBefore(Run(cfg, s, ys).out);
    } else {
      TailOfConcat(xs, ys);
      var r := Perform(cfg, s, xs[0]);
      RunParts(cfg, r.s, xs[1..], ys);
      Associates(r.out, Run(cfg, r.s, xs[1..]).out, Run(cfg, Run(cfg, r.s, xs[1..]).s, ys).out);
    }
  }

  // ---------------------------------------------------------------------
  // Main result
  // ---------------------------------------------------------------------

  /**
   Every detected gap heals in one exchange. An Active receiver that sees a frame from beyond its expectation sends
   one request. Whatever further frames from beyond are in flight arrive before the answer and are passed by. The
   sender's answer, processed in order, takes the receiver to the sender's next number with every stored application
   message in between delivered exactly once. The gap is then closed and both sides agree on the numbers of both
   directions, so that the link is again one on which recovery never starts.
   */
  lemma {:induction false} GapHeals(
    a: Config, sa: Endpoint, b: Config, sb: Endpoint, x: Outgoing, n: nat, late: seq<Outgoing>, e1: Env, e2: Env,
    lateEnvs: seq<Env>, envs: seq<Env>)
    requires Mirrored(a, b) && CanSend(b, e1) && CanSend(a, e2)
    requires sb.phase == Active && !sb.gapOpen && Judged(sa.phase)
    requires GoodFrame(a, x, n) && KindOf(x) != SEQUENCE_RESET
    requires 1 <= sb.nextTarget < n < sa.nextSender < TWO63
    requires 1 <= sb.nextSender == sa.nextTarget < TWO63
    requires Ahead(a, late, sb.nextTarget) && |lateEnvs| == |late|
    ensures
      var asked := ProcessMessage(b, sb, Meaning(x), e1);
      && |Emitted(asked.out)| == 1
      && var answered := ProcessMessage(a, sa, Meaning(Emitted(asked.out)[0]), e2);
      && answered.s.nextSender == sa.nextSender && answered.s.outbound == sa.outbound
      && (|envs| == |Emitted(answered.out)| ==>
            var r := Run(b, asked.s,
                         Arrivals(Meanings(late), lateEnvs) + Arrivals(Meanings(Emitted(answered.out)), envs));
            && r.s.phase == Active && r.s.nextTarget == sa.nextSender && !r.s.gapOpen
            && RecoversAll(sa.outbound, Wanted(sa.outbound, sb.nextTarget, sa.nextSender), DeliveredMsgs(r.out))
            && Agreed(a, b, System(answered.s, r.s, [], [])))
  {
    hide ProcessMessage, Meaning, GoodFrame, KindOf, CanSend, Emitted, RecoversAll, Run, Wanted, DeliveredMsgs, AnswerResend,
      SeqNum, MsgType, Identified, ParseVersion, GetOr, Has, GetInt, EndOf, Request, Ahead;
    GapAsks(a, b, sb, x, n, e1);
    RequestSeen(a, b, sb, e1);
    var asked := ProcessMessage(b, sb, Meaning(x), e1);
    var m := Meaning(Request(b, sb, e1));
    RequestAnswered(a, sa, m, sb.nextTarget, e2);
    var seen := ClearGap(sa.(lastRecv := e2.now, testPending := false));
    var frames := Emitted(AnswerResend(a, seen, m, sb.nextTarget, 0, e2).out);
    if |envs| == |frames| {
      var first, second := Arrivals(Meanings(late), lateEnvs), Arrivals(Meanings(frames), envs);
      AheadRun(a, b, asked.s, late, lateEnvs);
      var t := Run(b, asked.s, first);
      RunParts(b, asked.s, first, second);
      ReplayRecovers(a, seen, b, t.s, m, e2, envs);
      DeliveredMsgsConcat(t.out, Run(b, t.s, second).out);
      NothingBefore(DeliveredMsgs(Run(b, t.s, second).out));
    }
  }
}
