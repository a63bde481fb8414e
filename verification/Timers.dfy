/**
 The life of a gap: which operations open, retry and close it, its ResendRequest budget, and when it ends the session.
 */
module Timers {
  import opened Bytes
  import opened Messages
  import opened Serializing
  import opened Streams
  import opened Stores
  import opened Protocol
  import opened Emitting

  // ---------------------------------------------------------------------
  // ResendRequests emitted
  // ---------------------------------------------------------------------

  function Resends(frames: seq<Outgoing>): nat {
    if frames == [] then 0
    else (if KindOf(frames[0]) == RESEND_REQUEST then 1 else 0) + Resends(frames[1..])
  }

  lemma {:induction false} ResendsConcat(a: seq<Outgoing>, b: seq<Outgoing>)
    ensures Resends(a + b) == Resends(a) + Resends(b)
  {
    hide KindOf;
    if a == [] {
      assert a + b == b;
    } else {
      assert (a + b)[1..] == a[1..] + b;
      ResendsConcat(a[1..], b);
    }
  }

  lemma {:induction false} NoResends(frames: seq<Outgoing>)
    requires forall i :: 0 <= i < |frames| ==> KindOf(frames[i]) != RESEND_REQUEST
    ensures Resends(frames) == 0
  {
    hide KindOf;
    if frames != [] { NoResends(frames[1..]); }
  }

  lemma SendsNoResends(cfg: Config, s: Endpoint, r: Step)
    requires Sends(cfg, s, r)
    ensures Resends(Emitted(r.out)) == 0
  {
    hide KindOf, GoodFrame;
    NoResends(Emitted(r.out));
  }

  lemma SendResends(cfg: Config, s: Endpoint, fs: seq<Field>, env: Env)
    ensures Resends(Emitted(Send(cfg, s, fs, env).out)) <= 1
  {
    hide Serialize, KindOf, EnvelopeFor;
    var out := Send(cfg, s, fs, env).out;
    assert Emitted([]) == [] && Resends([]) == 0;
    if out != [] {
      assert out[1..] == [];
      assert Emitted(out) == [out[0].frame];
      assert [out[0].frame][1..] == [];
    }
  }

  lemma {:induction false} EmissionsEmitted(frames: seq<Outgoing>)
    ensures Emitted(Emissions(frames)) == frames
  {
    if frames != [] {
      assert Emissions(frames)[1..] == Emissions(frames[1..]);
      EmissionsEmitted(frames[1..]);
    }
  }

  // ---------------------------------------------------------------------
  // The replay emits no ResendRequest
  // ---------------------------------------------------------------------

  predicate NoneIsResend(frames: seq<Outgoing>) {
    forall i :: 0 <= i < |frames| ==> KindOf(frames[i]) != RESEND_REQUEST
  }

  lemma GapFillKind(upTo: nat)
    ensures GetOr(GapFillFields(upTo), MSG_TYPE, []) == SEQUENCE_RESET && ValidTags(GapFillFields(upTo))
  {
    hide Get, SetField, ValidTags;
    TypeSet(SEQUENCE_RESET);
    var a := OfType(SEQUENCE_RESET);
    KindKept(a, GAP_FILL_FLAG, YES);
    var b := SetField(a, GAP_FILL_FLAG, YES);
    KindKept(b, POSS_DUP_FLAG, YES);
    KindKept(SetField(b, POSS_DUP_FLAG, YES), NEW_SEQ_NO, DecInt(ToInt64(upTo)));
  }

  lemma RetaggedKind(stored: Message)
    ensures GetOr(Retagged(stored), MSG_TYPE, []) == MsgType(stored)
  {
    hide Get, SetField;
    var dup := SetField(stored.fields, POSS_DUP_FLAG, YES);
    SetFieldOther(stored.fields, POSS_DUP_FLAG, YES, MSG_TYPE);
    match Get(dup, SENDING_TIME)
    case Some(orig) => SetFieldOther(dup, ORIG_SENDING_TIME, orig, MSG_TYPE);
    case None =>
  }

  lemma FlushGapKinds(cfg: Config, r: Replayed, upTo: nat, env: Env)
    requires NoneIsResend(r.frames)
    ensures NoneIsResend(FlushGap(cfg, r, upTo, env).frames)
  {
    hide GapFillFields, Serialize, EnvelopeFor;
    GapFillKind(upTo);
    assert SEQUENCE_RESET[0] != RESEND_REQUEST[0];
  }

  lemma ReplayOneKinds(cfg: Config, r: Replayed, frame: StoredFrame, env: Env)
    requires NoneIsResend(r.frames)
    ensures NoneIsResend(ReplayOne(cfg, r, frame, env).frames)
  {
    hide FlushGap, Retagged, ParseStored, Serialize, EnvelopeFor, MsgType;
    FlushGapKinds(cfg, r, frame.seqNum, env);
    var filled := FlushGap(cfg, r, frame.seqNum, env);
    FlushGapKinds(cfg, filled, frame.seqNum + 1, env);
    if Replayable(frame.wire) {
      RetaggedKind(ParseStored(frame.wire).value);
    }
  }

  lemma {:induction false} ReplayFramesKinds(
    cfg: Config, r: Replayed, frames: seq<StoredFrame>, rangeEnd: nat, env: Env)
    requires NoneIsResend(r.frames)
    ensures NoneIsResend(ReplayFrames(cfg, r, frames, rangeEnd, env).frames)
    decreases |frames|
  {
    hide ReplayOne, KindOf;
    if frames != [] {
      ReplayOneKinds(cfg, r, frames[0], env);
      ReplayFramesKinds(cfg, ReplayOne(cfg, r, frames[0], env), frames[1..], rangeEnd, env);
      ReplayFramesKinds(cfg, r, frames[1..], rangeEnd, env);
    }
  }

  lemma ReplayNoResends(cfg: Config, frames: seq<StoredFrame>, begin: nat, rangeEnd: nat, env: Env)
    ensures Resends(Replay(cfg, frames, begin, rangeEnd, env)) == 0
  {
    hide ReplayFrames, FlushGap, KindOf;
    ReplayFramesKinds(cfg, Replayed([], begin), frames, rangeEnd, env);
    var r := ReplayFrames(cfg, Replayed([], begin), frames, rangeEnd, env);
    FlushGapKinds(cfg, r, rangeEnd + 1, env);
    NoResends(Replay(cfg, frames, begin, rangeEnd, env));
  }

  // ---------------------------------------------------------------------
  // What one operation does to an open gap
  // ---------------------------------------------------------------------

  predicate SameGap(s: Endpoint, t: Endpoint) {
    t.gapOpen == s.gapOpen && t.gapAttempts == s.gapAttempts && t.gapLast == s.gapLast && t.heartbeat == s.heartbeat
  }

  predicate NoGap(s: Endpoint) {
    !s.gapOpen && s.gapAttempts == 0
  }

  /** No ResendRequest, and the gap is left alone or closed. */
  predicate GapKept(s: Endpoint, r: Step) {
    Resends(Emitted(r.out)) == 0 && (SameGap(s, r.s) || NoGap(r.s))
  }

  /** A gap is opened by its first request. */
  predicate GapOpened(s: Endpoint, r: Step, now: int) {
    && Resends(Emitted(r.out)) <= 1
    && !s.gapOpen && r.s.gapOpen && r.s.gapAttempts == 1 && r.s.gapLast == now
  }

  /** An open gap is requested again, not before 1.2 heartbeat intervals after the last request. */
  predicate GapRetried(s: Endpoint, r: Step, now: int) {
    && Resends(Emitted(r.out)) <= 1
    && s.gapOpen && r.s.gapOpen && r.s.gapAttempts == s.gapAttempts + 1 <= MAX_GAP_RETRIES
    && r.s.gapLast == now && now - s.gapLast >= Patience(s.heartbeat) && r.s.heartbeat == s.heartbeat
  }

  lemma SendKeepsGap(cfg: Config, s: Endpoint, fs: seq<Field>, env: Env)
    ensures
      var t := Send(cfg, s, fs, env).s;
      SameGap(s, t) && t.phase == s.phase && t.testPending == s.testPending && t.testSent == s.testSent
  {
    hide Serialize;
  }

  lemma LogoutGap(cfg: Config, s: Endpoint, reason: bytes, env: Env)
    ensures GapKept(s, LogoutAndDrop(cfg, s, reason, env))
  {
    hide Send;
    LogoutSends(cfg, s, reason, env);
    SendsNoResends(cfg, s, LogoutAndDrop(cfg, s, reason, env));
  }

  lemma RejectGap(
    cfg: Config, s: Endpoint, refSeq: nat, reason: nat, refType: bytes, refTag: nat, text: bytes, env: Env)
    requires refTag < TWO32
    ensures GapKept(s, SendReject(cfg, s, refSeq, reason, refType, refTag, text, env))
  {
    hide Send, RejectFields;
    RejectSends(cfg, s, refSeq, reason, refType, refTag, text, env);
    SendsNoResends(cfg, s, SendReject(cfg, s, refSeq, reason, refType, refTag, text, env));
    SendKeepsGap(cfg, s, RejectFields(refSeq, reason, refType, refTag, text), env);
  }

  lemma AnswerGap(cfg: Config, s: Endpoint, m: Message, begin: nat, end: nat, env: Env)
    ensures GapKept(s, AnswerResend(cfg, s, m, begin, end, env))
  {
    hide SendReject, Replay, Snapshot, SeqNum, MsgType, Ascii, Emissions, RangeEnd, Emitted, Resends;
    NothingEmitted();
    if begin > s.nextSender {
      RejectGap(cfg, s, SeqNum(m), 5, MsgType(m), BEGIN_SEQ_NO, Ascii("BeginSeqNo > NextSenderMsgSeqNum"), env);
    } else if begin <= RangeEnd(s.nextSender, end) {
      var stored, last := Snapshot(s.outbound, begin, end), RangeEnd(s.nextSender, end);
      ReplayNoResends(cfg, stored, begin, last, env);
      EmissionsEmitted(Replay(cfg, stored, begin, last, env));
    }
  }

  lemma NothingEmitted()
    ensures Emitted([]) == [] && Resends([]) == 0
  {
  }

  lemma ResendGap(cfg: Config, s: Endpoint, m: Message, env: Env)
    ensures GapKept(s, HandleResendRequest(cfg, s, m, env))
  {
    hide SendReject, AnswerResend, EndOf, GetInt, SeqNum, MsgType, Ascii, Emitted, Resends;
    RejectGap(cfg, s, SeqNum(m), 1, MsgType(m), BEGIN_SEQ_NO, Ascii("missing BeginSeqNo"), env);
    RejectGap(cfg, s, SeqNum(m), 5, MsgType(m), BEGIN_SEQ_NO, Ascii("BeginSeqNo must be >= 1"), env);
    var begin := GetInt(m.fields, BEGIN_SEQ_NO);
    if begin.Some? && begin.value >= 1 {
      AnswerGap(cfg, s, m, begin.value, EndOf(m), env);
      EmittedAfter([OnResendRequest(begin.value, EndOf(m))] + Thrown(env),
                   AnswerResend(cfg, s, m, begin.value, EndOf(m), env).out);
    }
  }

  lemma AdminGap(cfg: Config, s: Endpoint, m: Message, env: Env)
    requires MsgType(m) != SEQUENCE_RESET
    ensures GapKept(s, ProcessAdmin(cfg, s, m, env))
  {
    hide HandleResendRequest, HandleLogon, HandleLogout, HandleReject, Send, Get, HeartbeatFields, MsgType;
    ResendGap(cfg, s, m, env);
    LogonGap(cfg, s, m, env);
    LogoutHandledGap(cfg, s, m, env);
    RejectHandledGap(s, m, env);
    var id := GetOr(m.fields, TEST_REQ_ID, Ascii("TEST"));
    TestRequestSends(cfg, s, id, env);
    SendsNoResends(cfg, s, Send(cfg, s, HeartbeatFields(id), env));
    SendKeepsGap(cfg, s, HeartbeatFields(id), env);
    assert Emitted([]) == [] && Resends([]) == 0;
  }

  lemma LogonKind(cfg: Config, hb: int)
    ensures Built(LogonFields(cfg, hb), LOGON)
  {
    hide Get, SetField, ValidTags;
    TypeSet(LOGON);
    var a := SetField(OfType(LOGON), ENCRYPT_METHOD, [48]);
    KindKept(OfType(LOGON), ENCRYPT_METHOD, [48]);
    var b := SetField(a, HEART_BT_INT, DecInt(hb));
    KindKept(a, HEART_BT_INT, DecInt(hb));
    var c := if cfg.resetOnLogon then SetField(b, RESET_SEQ_NUM_FLAG, YES) else b;
    KindKept(b, RESET_SEQ_NUM_FLAG, YES);
    var d := SetUnlessEmpty(c, 553, cfg.username);
    KindKept(c, 553, cfg.username);
    KindKept(d, 554, cfg.password);
    KindKept(SetUnlessEmpty(d, 554, cfg.password), 1137, cfg.defaultApplVerId);
  }

  lemma SendNotResend(cfg: Config, s: Endpoint, fs: seq<Field>, env: Env)
    requires GetOr(fs, MSG_TYPE, []) != RESEND_REQUEST
    ensures Resends(Emitted(Send(cfg, s, fs, env).out)) == 0
  {
    hide Serialize, EnvelopeFor, GetOr;
    var out := Send(cfg, s, fs, env).out;
    NothingEmitted();
    if out != [] {
      assert out[1..] == [];
      assert Emitted(out) == [out[0].frame];
      assert [out[0].frame][1..] == [];
    }
  }

  /** A Logon is no ResendRequest and, sent with no gap open, opens none. */
  lemma SendLogonGap(cfg: Config, s: Endpoint, env: Env)
    requires NoGap(s)
    ensures var r := SendLogon(cfg, s, env).0; Resends(Emitted(r.out)) == 0 && NoGap(r.s)
  {
    hide Send, LogonFields, Emitted, Resends;
    NothingEmitted();
    LogonKind(cfg, s.heartbeat);
    assert LOGON[0] != RESEND_REQUEST[0];
    var published := s.(logonSent := env.now, phase := if cfg.initiator then LogonSent else WaitingLogon);
    var rewound := if cfg.resetOnLogon then
                     ClearGap(published.(nextSender := 1, nextTarget := 1, outbound := map[], inbound := map[]))
                   else published;
    SendNotResend(cfg, rewound, LogonFields(cfg, s.heartbeat), env);
    SendKeepsGap(cfg, rewound, LogonFields(cfg, s.heartbeat), env);
  }

  lemma AnswerLogonGap(cfg: Config, s: Endpoint, t: Endpoint, env: Env)
    requires NoGap(t)
    ensures
      var r := SendLogon(cfg, t, env).0;
      GapKept(s, LogonCompleted(r.s, env).After(r.out)) && GapKept(s, Step(r.s, r.out + [Report]))
  {
    hide SendLogon, Emitted, Resends;
    SendLogonGap(cfg, t, env);
    NothingEmitted();
    var r := SendLogon(cfg, t, env).0;
    EmittedConcat(r.out, [OnLogon] + Thrown(env));
    EmittedNothing([OnLogon] + Thrown(env));
    EmittedConcat(r.out, [Report]);
    EmittedNothing([Report]);
    assert Emitted(r.out) + [] == Emitted(r.out);
  }

  lemma LogonGap(cfg: Config, s: Endpoint, m: Message, env: Env)
    ensures GapKept(s, HandleLogon(cfg, s, m, env))
  {
    hide LogoutAndDrop, GetInt, GetOr, SendLogon, LogonCompleted, Emitted, Resends, Ascii, GapKept, ToInt32;
    LogoutGap(cfg, s, Ascii("HeartBtInt required"), env);
    LogoutGap(cfg, s, Ascii("HeartBtInt mismatch"), env);
    var hb := GetInt(m.fields, HEART_BT_INT);
    if hb.Some? {
      var adopted := s.(heartbeat := ToInt32(hb.value));
      TakenGap(cfg, s, ClearGap(adopted), env);
      TakenGap(cfg, s, ClearGap(adopted.(nextTarget := 1)), env);
    }
  }

  /** Whatever follows once a Logon's interval was taken over, the gap is closed. */
  lemma TakenGap(cfg: Config, s: Endpoint, t: Endpoint, env: Env)
    requires NoGap(t)
    ensures
      var r := SendLogon(cfg, t, env).0;
      && GapKept(s, LogonCompleted(r.s, env).After(r.out)) && GapKept(s, Step(r.s, r.out + [Report]))
      && GapKept(s, LogonCompleted(t, env)) && GapKept(s, LogoutAndDrop(cfg, t, Ascii("Duplicate Logon"), env))
      && GapKept(s, Step(t, []))
  {
    hide SendLogon, LogoutAndDrop, Emitted, Resends, Ascii;
    AnswerLogonGap(cfg, s, t, env);
    LogoutGap(cfg, t, Ascii("Duplicate Logon"), env);
    NothingEmitted();
    EmittedNothing([OnLogon] + Thrown(env));
  }

  lemma LogoutHandledGap(cfg: Config, s: Endpoint, m: Message, env: Env)
    ensures GapKept(s, HandleLogout(cfg, s, m, env))
  {
    hide Send, Get, OfType;
    HandleLogoutSends(cfg, s, m, env);
    SendsNoResends(cfg, s, HandleLogout(cfg, s, m, env));
  }

  lemma RejectHandledGap(s: Endpoint, m: Message, env: Env)
    ensures GapKept(s, HandleReject(s, m, env))
  {
    hide Get, RejectInfo;
    EmittedNothing(HandleReject(s, m, env).out);
  }

  lemma AppGap(cfg: Config, s: Endpoint, m: Message, env: Env)
    ensures GapKept(s, ProcessApp(cfg, s, m, env))
  {
    hide SendReject, SeqNum, MsgType, Emitted, Resends, Ascii;
    NothingEmitted();
    RejectGap(cfg, s, SeqNum(m), 99, MsgType(m), 0, Ascii("Session not active"), env);
    EmittedNothing([Deliver(m)] + Thrown(env));
  }

  lemma ConsumeGap(s: Endpoint, r: Step, m: Message, judged: bool)
    requires GapKept(s, r)
    ensures GapKept(s, Step(ConsumeInbound(r.s, m, judged), r.out))
  {
    hide SeqNum, PossDup, Emitted, Resends;
  }

  lemma AcceptedGap(cfg: Config, s: Endpoint, m: Message, judged: bool, env: Env)
    requires MsgType(m) != SEQUENCE_RESET
    ensures GapKept(s, Accepted(cfg, s, m, judged, env))
  {
    hide SendReject, ProcessAdmin, ProcessApp, SeqNum, MsgType, IsAdmin, GapKept, ConsumeInbound, Ascii;
    RejectGap(cfg, s, SeqNum(m), 13, MsgType(m), 0, Ascii("Tag appears more than once"), env);
    AdminGap(cfg, s, m, env);
    AppGap(cfg, s, m, env);
    var r := if m.duplicateHeader then SendReject(cfg, s, SeqNum(m), 13, MsgType(m), 0,
                                                  Ascii("Tag appears more than once"), env)
             else if IsAdmin(MsgType(m)) then ProcessAdmin(cfg, s, m, env)
             else ProcessApp(cfg, s, m, env);
    ConsumeGap(s, r, m, judged);
  }

  lemma RequestGapStep(cfg: Config, s: Endpoint, begin: nat, env: Env)
    ensures var r := RequestGap(cfg, s, begin, env); GapKept(s, r) || GapOpened(s, r, env.now)
  {
    hide Send, ResendRequestFields;
    var t := s.(gapOpen := true, gapAttempts := 1, gapLast := env.now);
    SendResends(cfg, t, ResendRequestFields(begin, 0), env);
    SendKeepsGap(cfg, t, ResendRequestFields(begin, 0), env);
    assert Emitted([]) == [] && Resends([]) == 0;
  }

  lemma ResetGap(cfg: Config, s: Endpoint, m: Message, env: Env)
    ensures var r := HandleSequenceReset(cfg, s, m, env); GapKept(s, r) || GapOpened(s, r, env.now)
  {
    hide LogoutAndDrop, RequestGap, SeqNum, PossDup, IsGapFill, GetInt;
    LogoutGap(cfg, s, Ascii("SequenceReset GapFill requires PossDupFlag"), env);
    LogoutGap(cfg, s, Ascii("invalid NewSeqNo"), env);
    RequestGapStep(cfg, s, s.nextTarget, env);
    assert Emitted([]) == [] && Resends([]) == 0;
  }

  lemma OutOfSequenceGap(cfg: Config, s: Endpoint, m: Message, env: Env)
    requires ValidateSeqNum(cfg, s, m, env).OutOfSequence?
    ensures var r := ValidateSeqNum(cfg, s, m, env).step; GapKept(s, r) || GapOpened(s, r, env.now)
  {
    hide SendReject, LogoutAndDrop, RequestGap, SeqNum, MsgType, PossDup;
    RejectGap(cfg, s, 0, 1, MsgType(m), MSG_SEQ_NUM, [], env);
    LogoutGap(cfg, s, Ascii("MsgSeqNum too low"), env);
    RequestGapStep(cfg, s, s.nextTarget, env);
    var notice := [OnGap(s.nextTarget, SeqNum(m))] + Thrown(env);
    EmittedAfter(notice, RequestGap(cfg, s, s.nextTarget, env).out);
    assert Emitted([]) == [] && Resends([]) == 0;
  }

  lemma MessageGap(cfg: Config, s0: Endpoint, m: Message, env: Env)
    ensures var r := ProcessMessage(cfg, s0, m, env); GapKept(s0, r) || GapOpened(s0, r, env.now)
  {
    hide LogoutAndDrop, SendReject, HandleSequenceReset, ValidateSeqNum, Accepted, SeqNum, MsgType, PossDup, Get,
      ParseVersion, Identified, Ascii, Resends, Emitted;
    var s := s0.(lastRecv := env.now, testPending := false);
    if ParseVersion(GetOr(m.fields, BEGIN_STRING, [])) != cfg.version {
      LogoutGap(cfg, s, Ascii("BeginString does not match session"), env);
    } else if !Identified(cfg, m) {
      LogoutGap(cfg, s, Ascii("CompID mismatch"), env);
    } else if !Has(m.fields, MSG_TYPE) {
      RejectGap(cfg, s, SeqNum(m), 1, [], MSG_TYPE, Ascii("Missing MsgType"), env);
      RejectGap(cfg, TakeSlot(s, m), SeqNum(m), 1, [], MSG_TYPE, Ascii("Missing MsgType"), env);
    } else if MsgType(m) == SEQUENCE_RESET {
      ResetGap(cfg, s, m, env);
    } else if !Judged(s.phase) {
      AcceptedGap(cfg, s, m, false, env);
    } else if ValidateSeqNum(cfg, s, m, env).OutOfSequence? {
      OutOfSequenceGap(cfg, s, m, env);
    } else {
      AcceptedGap(cfg, ClearGap(s), m, true, env);
    }
  }

  // ---------------------------------------------------------------------
  // One event
  // ---------------------------------------------------------------------

  lemma HeartbeatGap(cfg: Config, s: Endpoint, env: Env)
    ensures var a := TickHeartbeat(cfg, s, env); GapKept(s, a) && SameGap(s, a.s)
  {
    hide Send, HeartbeatFields;
    NothingEmitted();
    TestRequestSends(cfg, s, [], env);
    SendsNoResends(cfg, s, Send(cfg, s, HeartbeatFields([]), env));
    SendKeepsGap(cfg, s, HeartbeatFields([]), env);
  }

  lemma TestRequestGap(cfg: Config, s: Endpoint, env: Env)
    ensures GapKept(s, TickTestRequest(cfg, s, env))
  {
    hide Send, TestRequestFields, Patience;
    NothingEmitted();
    var t := s.(testSent := env.now, testPending := true);
    TestRequestSends(cfg, t, env.testId, env);
    SendsNoResends(cfg, t, Send(cfg, t, TestRequestFields(env.testId), env));
    SendKeepsGap(cfg, t, TestRequestFields(env.testId), env);
    EmittedNothing([OnHeartbeatTimeout] + [Drop]);
  }

  lemma RetryGap(cfg: Config, s: Endpoint, env: Env)
    ensures var c := TickGap(cfg, s, env); GapKept(s, c) || GapRetried(s, c, env.now)
  {
    hide Send, ResendRequestFields, Patience;
    NothingEmitted();
    var u := s.(gapAttempts := s.gapAttempts + 1, gapLast := env.now);
    SendResends(cfg, u, ResendRequestFields(s.nextTarget, 0), env);
    SendKeepsGap(cfg, u, ResendRequestFields(s.nextTarget, 0), env);
    EmittedNothing([Report] + [Drop]);
  }

  lemma TickActiveStep(cfg: Config, s: Endpoint, env: Env)
    ensures var r := TickActive(cfg, s, env); GapKept(s, r) || GapRetried(s, r, env.now)
  {
    hide TickHeartbeat, TickTestRequest, TickGap, TestOverdue, Patience, Emitted, Resends;
    var a := TickHeartbeat(cfg, s, env);
    var b := TickTestRequest(cfg, a.s, env);
    var c := TickGap(cfg, b.s, env);
    HeartbeatGap(cfg, s, env);
    TestRequestGap(cfg, a.s, env);
    RetryGap(cfg, b.s, env);
    EmittedConcat(a.out, [OnHeartbeatTimeout]);
    EmittedNothing([OnHeartbeatTimeout]);
    NothingEmitted();
    ResendsConcat(Emitted(a.out), []);
    EmittedConcat(a.out, b.out);
    EmittedConcat(a.out + b.out, c.out);
    ResendsConcat(Emitted(a.out), Emitted(b.out));
    ResendsConcat(Emitted(a.out) + Emitted(b.out), Emitted(c.out));
  }

  lemma TickStep(cfg: Config, s: Endpoint, env: Env)
    ensures var r := Tick(cfg, s, env); GapKept(s, r) || GapRetried(s, r, env.now)
  {
    hide TickHeartbeat, TickActive, Ascii;
    NothingEmitted();
    HeartbeatGap(cfg, s, env);
    if s.phase == Active {
      TickActiveStep(cfg, s, env);
    } else if s.phase == LogoutSent && env.now - s.logoutSent >= cfg.logoutTimeout * 1000 {
      EmittedNothing(Tick(cfg, s, env).out);
    }
  }

  /** Applications do not send administrative messages themselves. */
  predicate FromApplication(ev: Event) {
    ev.UserSend? ==> ValidTags(ev.fields) && !IsAdmin(GetOr(ev.fields, MSG_TYPE, []))
  }

  predicate GapInv(s: Endpoint) {
    s.gapAttempts <= MAX_GAP_RETRIES && (s.gapOpen <==> s.gapAttempts >= 1)
  }

  lemma SendOrdinary(cfg: Config, s: Endpoint, fs: seq<Field>, env: Env)
    requires ValidTags(fs) && !IsAdmin(GetOr(fs, MSG_TYPE, []))
    ensures Sends(cfg, s, Send(cfg, s, fs, env))
  {
    hide Send, GetOr, ValidTags, Sends;
    SendSends(cfg, s, fs, env);
  }

  /** What one event does to the gap. */
  lemma EventGap(cfg: Config, s: Endpoint, ev: Event)
    requires GapInv(s) && FromApplication(ev)
    ensures
      var r := Perform(cfg, s, ev);
      && GapInv(r.s)
      && (GapKept(s, r) || GapOpened(s, r, ev.env.now) || (ev.Timer? && GapRetried(s, r, ev.env.now)))
  {
    hide ProcessMessage, Tick, Send, LogoutFields, Emitted, Resends, ValidTags, GetOr, IsAdmin, Patience;
    NothingEmitted();
    match ev
    case Inbound(m, env) => MessageGap(cfg, s, m, env);
    case Timer(env) => TickStep(cfg, s, env);
    case UserSend(fs, env) =>
      SendOrdinary(cfg, s, fs, env);
      SendsNoResends(cfg, s, Send(cfg, s, fs, env));
      SendKeepsGap(cfg, s, fs, env);
    case UserLogout(reason, env) =>
      LogoutSends(cfg, s, reason, env);
      SendsNoResends(cfg, s, SendLogout(cfg, s, reason, env));
      SendKeepsGap(cfg, s, LogoutFields(reason), env);
  }

  // ---------------------------------------------------------------------
  // Runs
  // ---------------------------------------------------------------------

  predicate AllFromApplication(evs: seq<Event>) {
    forall i :: 0 <= i < |evs| ==> FromApplication(evs[i])
  }

  /** When ResendRequests went out. */
  function ResendTimes(cfg: Config, s: Endpoint, evs: seq<Event>): seq<int>
    decreases |evs|
  {
    if evs == [] then []
    else
      var r := Perform(cfg, s, evs[0]);
      (if Resends(Emitted(r.out)) > 0 then [evs[0].env.now] else []) + ResendTimes(cfg, r.s, evs[1..])
  }

  /** All ResendRequests of a run. */
  function ResendCount(cfg: Config, s: Endpoint, evs: seq<Event>): nat
    decreases |evs|
  {
    if evs == [] then 0
    else
      var r := Perform(cfg, s, evs[0]);
      Resends(Emitted(r.out)) + ResendCount(cfg, r.s, evs[1..])
  }

  /** The gap is open after every event of the run. */
  predicate StaysOpen(cfg: Config, s: Endpoint, evs: seq<Event>)
    decreases |evs|
  {
    evs == [] || (Perform(cfg, s, evs[0]).s.gapOpen && StaysOpen(cfg, Perform(cfg, s, evs[0]).s, evs[1..]))
  }

  /** Times at least `d` apart, the first not before `from`. */
  predicate Spaced(ts: seq<int>, from: int, d: int) {
    && (|ts| > 0 ==> ts[0] >= from)
    && forall i :: 0 <= i < |ts| - 1 ==> ts[i + 1] >= ts[i] + d
  }

  /** Retries of an open gap. */
  lemma {:induction false} RetriesBounded(cfg: Config, s: Endpoint, evs: seq<Event>)
    requires GapInv(s) && s.gapOpen && AllFromApplication(evs) && StaysOpen(cfg, s, evs)
    ensures ResendCount(cfg, s, evs) <= MAX_GAP_RETRIES - s.gapAttempts
    ensures |ResendTimes(cfg, s, evs)| == ResendCount(cfg, s, evs)
    ensures Patience(s.heartbeat) >= 0 ==>
      Spaced(ResendTimes(cfg, s, evs), s.gapLast + Patience(s.heartbeat), Patience(s.heartbeat))
    decreases |evs|
  {
    hide Perform, Emitted, Resends, FromApplication, Patience;
    if evs != [] {
      EventGap(cfg, s, evs[0]);
      RetriesBounded(cfg, Perform(cfg, s, evs[0]).s, evs[1..]);
    }
  }

  /** From the event that opens a gap on. */
  lemma {:induction false} OpenedGapBounded(cfg: Config, s: Endpoint, evs: seq<Event>)
    requires GapInv(s) && !s.gapOpen && AllFromApplication(evs) && StaysOpen(cfg, s, evs) && evs != []
    ensures ResendCount(cfg, s, evs) <= MAX_GAP_RETRIES
    ensures |ResendTimes(cfg, s, evs)| == ResendCount(cfg, s, evs)
    ensures
      var ts, d := ResendTimes(cfg, s, evs), Patience(Perform(cfg, s, evs[0]).s.heartbeat);
      d >= 0 ==> forall i :: 0 <= i < |ts| - 1 ==> ts[i + 1] - ts[i] >= d
  {
    hide Perform, Emitted, Resends, FromApplication, Patience;
    EventGap(cfg, s, evs[0]);
    RetriesBounded(cfg, Perform(cfg, s, evs[0]).s, evs[1..]);
  }

  lemma {:induction false} RunGapInv(cfg: Config, s: Endpoint, evs: seq<Event>, i: nat)
    requires GapInv(s) && AllFromApplication(evs) && i <= |evs|
    ensures GapInv(StateAt(cfg, s, evs, i))
    decreases i
  {
    hide Perform, Emitted, Resends, FromApplication, Patience;
    if i > 0 {
      EventGap(cfg, s, evs[0]);
      RunGapInv(cfg, Perform(cfg, s, evs[0]).s, evs[1..], i - 1);
    }
  }

  lemma ConnectedGap(cfg: Config, s: Endpoint, env: Env)
    ensures GapInv(TransportConnected(cfg, s, env).s)
  {
    hide SendLogon, Emitted, Resends;
    var t := FreshConnection(s, env);
    SendLogonGap(cfg, t, env);
    SendLogonGap(cfg, t.(phase := Disconnected), env);
  }

  /** In every run of a connection, in every phase, the budget counter and the open flag agree. */
  lemma {:induction false} BudgetFollowsGap(cfg: Config, s: Endpoint, env: Env, evs: seq<Event>, i: nat)
    requires AllFromApplication(evs) && i <= |evs|
    ensures GapInv(StateAt(cfg, TransportConnected(cfg, s, env).s, evs, i))
  {
    hide TransportConnected, FromApplication;
    ConnectedGap(cfg, s, env);
    RunGapInv(cfg, TransportConnected(cfg, s, env).s, evs, i);
  }

  /**
   Gap retry budget: in every run of a connection, whatever its phases and however many gaps it has, for each gap, from
   the event that opens it for as long as it stays open, at most five ResendRequests go out, each at least 1.2
   heartbeat intervals after the one before.
   */
  lemma {:induction false} GapRetryBudget(
    cfg: Config, s0: Endpoint, env: Env, evs: seq<Event>, i: nat, j: nat)
    requires AllFromApplication(evs) && i < j <= |evs|
    requires
      var s := StateAt(cfg, TransportConnected(cfg, s0, env).s, evs, i);
      !s.gapOpen && StaysOpen(cfg, s, evs[i..j])
    ensures
      var s := StateAt(cfg, TransportConnected(cfg, s0, env).s, evs, i);
      var ts, d := ResendTimes(cfg, s, evs[i..j]), Patience(Perform(cfg, s, evs[i]).s.heartbeat);
      && |ts| == ResendCount(cfg, s, evs[i..j]) <= MAX_GAP_RETRIES
      && (d >= 0 ==> forall k :: 0 <= k < |ts| - 1 ==> ts[k + 1] - ts[k] >= d)
  {
    hide TransportConnected, Perform, FromApplication, ResendTimes, ResendCount, StaysOpen, Patience;
    BudgetFollowsGap(cfg, s0, env, evs, i);
    assert evs[i..j][0] == evs[i];
    OpenedGapBounded(cfg, StateAt(cfg, TransportConnected(cfg, s0, env).s, evs, i), evs[i..j]);
  }

  /** 1.2 intervals is exact: an interval is a whole number of seconds. */
  lemma PatienceIs(hb: nat)
    ensures Patience(hb) == hb * 1200
  {
  }

  // ---------------------------------------------------------------------
  // Giving up
  // ---------------------------------------------------------------------

  /** A tick is cut short when the TestRequest is overdue and the timeout callback throws. */
  predicate CutShort(s: Endpoint, env: Env) {
    env.throws && TestOverdue(s, env.now)
  }

  lemma TickPartsKeepGap(cfg: Config, s: Endpoint, env: Env)
    ensures
      var t := TickHeartbeat(cfg, s, env).s;
      SameGap(s, t) && t.phase == s.phase && t.testPending == s.testPending && t.testSent == s.testSent
    ensures
      var t := TickTestRequest(cfg, s, env).s;
      t.phase == Disconnected || (SameGap(s, t) && t.phase == s.phase)
  {
    hide Send, HeartbeatFields, TestRequestFields, Patience;
    SendKeepsGap(cfg, s, HeartbeatFields([]), env);
    SendKeepsGap(cfg, s.(testSent := env.now, testPending := true), TestRequestFields(env.testId), env);
  }

  /** A whole tick after the patience ran out either ends the session or spends one attempt. */
  lemma OverdueTick(cfg: Config, s: Endpoint, env: Env)
    requires s.phase == Active && s.gapOpen && s.gapAttempts >= 1 && !CutShort(s, env)
    requires env.now - s.gapLast >= Patience(s.heartbeat)
    ensures
      var t := Tick(cfg, s, env).s;
      || t.phase == Disconnected
      || (s.gapAttempts < MAX_GAP_RETRIES && t.phase == Active && t.gapOpen && t.gapAttempts == s.gapAttempts + 1
          && t.gapLast == env.now && t.heartbeat == s.heartbeat)
  {
    hide TickHeartbeat, TickTestRequest, Send, ResendRequestFields, Patience;
    var a := TickHeartbeat(cfg, s, env).s;
    var b := TickTestRequest(cfg, a, env).s;
    TickPartsKeepGap(cfg, s, env);
    TickPartsKeepGap(cfg, a, env);
    SendKeepsGap(
      cfg, b.(gapAttempts := b.gapAttempts + 1, gapLast := env.now), ResendRequestFields(b.nextTarget, 0), env);
  }

  /** How many whole ticks of a run lie at least `d` after the last one counted. */
  function Paces(cfg: Config, s: Endpoint, evs: seq<Event>, last: int, d: int): nat
    decreases |evs|
  {
    if evs == [] then 0
    else
      var ev := evs[0];
      var t := Perform(cfg, s, ev).s;
      if ev.Timer? && !CutShort(s, ev.env) && ev.env.now >= last + d then 1 + Paces(cfg, t, evs[1..], ev.env.now, d)
      else Paces(cfg, t, evs[1..], last, d)
  }

  /** No event closes the gap or leaves the Active phase, except by disconnecting. */
  predicate Unanswered(cfg: Config, s: Endpoint, evs: seq<Event>)
    decreases |evs|
  {
    evs == [] ||
    var t := Perform(cfg, s, evs[0]).s;
    ((t.phase == Active && t.gapOpen) || t.phase == Disconnected) && Unanswered(cfg, t, evs[1..])
  }

  /** Once disconnected, a run stays there. */
  lemma {:induction false} StaysDown(cfg: Config, s: Endpoint, evs: seq<Event>)
    requires s.phase == Disconnected
    ensures Run(cfg, s, evs).s == s
    decreases |evs|
  {
    if evs != [] { StaysDown(cfg, s, evs[1..]); }
  }

  /** Clock readings never go back. */
  predicate Monotone(from: int, evs: seq<Event>) {
    && (|evs| > 0 ==> from <= evs[0].env.now)
    && forall i, j :: 0 <= i < j < |evs| ==> evs[i].env.now <= evs[j].env.now
  }

  lemma MonotoneTail(from: int, evs: seq<Event>)
    requires Monotone(from, evs) && evs != []
    ensures Monotone(evs[0].env.now, evs[1..]) && Monotone(from, evs[1..])
  {
  }

  /** An attempt made after the last tick counted is one the count does not need. */
  function Ahead(s: Endpoint, last: int): nat {
    if s.gapLast > last then 1 else 0
  }

  lemma {:induction false} GapWearsOut(cfg: Config, s: Endpoint, evs: seq<Event>, last: int, d: int)
    requires GapInv(s) && s.phase == Active && s.gapOpen && d == Patience(s.heartbeat)
    requires AllFromApplication(evs) && Unanswered(cfg, s, evs)
    requires Monotone(LaterOf(last, s.gapLast), evs)
    requires Paces(cfg, s, evs, last, d) > MAX_GAP_RETRIES - s.gapAttempts + Ahead(s, last)
    ensures Run(cfg, s, evs).s.phase == Disconnected
    decreases |evs|
  {
    hide Perform, Patience, FromApplication, CutShort, Emitted, Resends, Monotone;
    var ev := evs[0];
    var t := Perform(cfg, s, ev).s;
    MonotoneMeans(LaterOf(last, s.gapLast), evs);
    MonotoneTail(LaterOf(last, s.gapLast), evs);
    EventGap(cfg, s, ev);
    if t.phase == Disconnected {
      StaysDown(cfg, t, evs[1..]);
    } else {
      if ev.Timer? && !CutShort(s, ev.env) && ev.env.now - s.gapLast >= d { OverdueTimer(cfg, s, ev); }
      var counted := ev.Timer? && !CutShort(s, ev.env) && ev.env.now >= last + d;
      GapWearsOut(cfg, t, evs[1..], if counted then ev.env.now else last, d);
    }
  }

  lemma MonotoneMeans(from: int, evs: seq<Event>)
    requires Monotone(from, evs) && evs != []
    ensures from <= evs[0].env.now
  {
  }

  lemma OverdueTimer(cfg: Config, s: Endpoint, ev: Event)
    requires s.phase == Active && s.gapOpen && s.gapAttempts >= 1 && ev.Timer? && !CutShort(s, ev.env)
    requires ev.env.now - s.gapLast >= Patience(s.heartbeat)
    ensures
      var t := Perform(cfg, s, ev).s;
      t.phase == Disconnected || (t.gapAttempts == s.gapAttempts + 1 && t.gapLast == ev.env.now)
  {
    hide Tick, Patience;
    OverdueTick(cfg, s, ev.env);
  }

  /**
   A gap that is never closed ends the session, whatever else happens meanwhile: messages out of sequence, application
   sends, ticks of any spacing. It takes as many whole ticks 1.2 intervals apart as attempts are left, and one more.
   */
  lemma {:induction false} OpenGapEnds(cfg: Config, s: Endpoint, evs: seq<Event>)
    requires GapInv(s) && s.phase == Active && s.gapOpen
    requires AllFromApplication(evs) && Unanswered(cfg, s, evs) && Monotone(s.gapLast, evs)
    requires Paces(cfg, s, evs, s.gapLast, Patience(s.heartbeat)) > MAX_GAP_RETRIES - s.gapAttempts
    ensures Run(cfg, s, evs).s.phase == Disconnected
  {
    hide Perform, Patience, FromApplication, Monotone, Run, Unanswered;
    GapWearsOut(cfg, s, evs, s.gapLast, Patience(s.heartbeat));
  }
}
