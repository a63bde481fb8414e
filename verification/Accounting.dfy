/**
 Inbound accounting: over any run of an established session, the expected number never decreases, application
 messages are delivered in strictly increasing order, and no number is passed over unaccounted for.
 */
module Accounting {
  import opened Bytes
  import opened Messages
  import opened Serializing
  import opened Stores
  import opened Protocol

  // ---------------------------------------------------------------------
  // What single operations leave alone
  // ---------------------------------------------------------------------

  /** No application message is delivered. */
  predicate Silent(out: seq<Out>) {
    forall i :: 0 <= i < |out| ==> !out[i].Deliver?
  }

  /** Sending leaves the inbound side, the gap and the phase alone and delivers nothing. */
  lemma SendKeeps(cfg: Config, s: Endpoint, fs: seq<Field>, env: Env)
    ensures
      var r := Send(cfg, s, fs, env);
      && Silent(r.out)
      && r.s == s.(nextSender := r.s.nextSender, outbound := r.s.outbound, lastSend := r.s.lastSend)
      && s.nextSender <= r.s.nextSender
  {
    hide Serialize;
  }

  /** The inbound side and the set of judged phases are kept. */
  predicate Keeps(s: Endpoint, r: Step) {
    Silent(r.out) && r.s.nextTarget == s.nextTarget && Judged(r.s.phase)
  }

  lemma LogoutKeeps(cfg: Config, s: Endpoint, reason: bytes, env: Env)
    requires Judged(s.phase)
    ensures Keeps(s, LogoutAndDrop(cfg, s, reason, env))
    ensures Keeps(s, SendLogout(cfg, s, reason, env))
  {
    hide Send;
    SendKeeps(cfg, s, LogoutFields(reason), env);
  }

  lemma RejectKeeps(
    cfg: Config, s: Endpoint, refSeq: nat, reason: nat, refType: bytes, refTag: nat, text: bytes, env: Env)
    requires Judged(s.phase)
    ensures Keeps(s, SendReject(cfg, s, refSeq, reason, refType, refTag, text, env))
    ensures SendReject(cfg, s, refSeq, reason, refType, refTag, text, env).s.phase == s.phase
  {
    hide Send;
    SendKeeps(cfg, s, RejectFields(refSeq, reason, refType, refTag, text), env);
  }

  lemma RequestGapKeeps(cfg: Config, s: Endpoint, begin: nat, env: Env)
    requires Judged(s.phase)
    ensures Keeps(s, RequestGap(cfg, s, begin, env))
  {
    hide Send;
    SendKeeps(cfg, s.(gapOpen := true, gapAttempts := 1, gapLast := env.now), ResendRequestFields(begin, 0), env);
  }

  lemma ResendKeeps(cfg: Config, s: Endpoint, m: Message, env: Env)
    requires Judged(s.phase)
    ensures Keeps(s, HandleResendRequest(cfg, s, m, env))
  {
    hide Send, SendReject, Replay, Snapshot, GetInt, EndOf, SeqNum, MsgType;
    RejectKeeps(cfg, s, SeqNum(m), 1, MsgType(m), BEGIN_SEQ_NO, Ascii("missing BeginSeqNo"), env);
    RejectKeeps(cfg, s, SeqNum(m), 5, MsgType(m), BEGIN_SEQ_NO, Ascii("BeginSeqNo must be >= 1"), env);
    RejectKeeps(cfg, s, SeqNum(m), 5, MsgType(m), BEGIN_SEQ_NO, Ascii("BeginSeqNo > NextSenderMsgSeqNum"), env);
  }

  lemma LogonKeeps(cfg: Config, s: Endpoint, m: Message, env: Env)
    requires Judged(s.phase)
    ensures Keeps(s, HandleLogon(cfg, s, m, env))
  {
    hide LogoutAndDrop, Get, SendLogon;
    LogoutKeeps(cfg, s, Ascii("HeartBtInt required"), env);
    var hb := GetInt(m.fields, HEART_BT_INT);
    if hb.Some? {
      LogoutKeeps(cfg, ClearGap(s.(heartbeat := ToInt32(hb.value))), Ascii("Duplicate Logon"), env);
    }
  }

  lemma LogoutHandled(cfg: Config, s: Endpoint, m: Message, env: Env)
    requires Judged(s.phase)
    ensures Keeps(s, HandleLogout(cfg, s, m, env))
  {
    hide Send, Get;
    SendKeeps(cfg, s, OfType(LOGOUT), env);
  }

  lemma AdminKeeps(cfg: Config, s: Endpoint, m: Message, env: Env)
    requires Judged(s.phase) && MsgType(m) != SEQUENCE_RESET
    ensures Keeps(s, ProcessAdmin(cfg, s, m, env))
  {
    hide Send, Get, HandleResendRequest, HandleLogon, HandleLogout, HeartbeatFields;
    ResendKeeps(cfg, s, m, env);
    LogonKeeps(cfg, s, m, env);
    LogoutHandled(cfg, s, m, env);
    SendKeeps(cfg, s, HeartbeatFields(GetOr(m.fields, TEST_REQ_ID, Ascii("TEST"))), env);
  }

  lemma AppKeeps(cfg: Config, s: Endpoint, m: Message, env: Env)
    requires Judged(s.phase)
    ensures
      var r := ProcessApp(cfg, s, m, env);
      && r.s.nextTarget == s.nextTarget && Judged(r.s.phase)
      && (Silent(r.out) || (s.phase == Active && r == Step(s, [Deliver(m)] + Thrown(env))))
  {
    hide SendReject;
    RejectKeeps(cfg, s, SeqNum(m), 99, MsgType(m), 0, Ascii("Session not active"), env);
  }

  // ---------------------------------------------------------------------
  // One inbound message
  // ---------------------------------------------------------------------

  /** A SequenceReset in reset mode, which rebases the numbering. */
  predicate IsReset(m: Message) {
    MsgType(m) == SEQUENCE_RESET && !IsGapFill(m)
  }

  /** The numbers a message claims: its own, or for a gap-fill those up to NewSeqNo. */
  predicate Claims(m: Message, n: nat) {
    || n == SeqNum(m)
    || (MsgType(m) == SEQUENCE_RESET && IsGapFill(m) && PossDup(m) && GetInt(m.fields, NEW_SEQ_NO).Some?
        && SeqNum(m) <= n < GetInt(m.fields, NEW_SEQ_NO).value % TWO64)
  }

  /** The step either leaves the expected number, or the message carries it and claims all that is passed over. */
  predicate Accounted(s: Endpoint, m: Message, r: Step) {
    && Judged(r.s.phase)
    && s.nextTarget <= r.s.nextTarget
    && (s.nextTarget < r.s.nextTarget ==>
        SeqNum(m) == s.nextTarget && forall n :: s.nextTarget <= n < r.s.nextTarget ==> Claims(m, n))
    && (Silent(r.out) || (r.out == [Deliver(m)] || r.out == [Deliver(m), Report]))
    && (!Silent(r.out) ==> SeqNum(m) == s.nextTarget)
    && (!Silent(r.out) && s.nextTarget < TWO64 - 1 ==> r.s.nextTarget == s.nextTarget + 1)
  }

  lemma AcceptedAccounted(cfg: Config, s: Endpoint, m: Message, env: Env)
    requires Judged(s.phase) && SeqNum(m) == s.nextTarget && MsgType(m) != SEQUENCE_RESET
    ensures Accounted(s, m, Accepted(cfg, s, m, true, env))
  {
    hide SendReject, ProcessAdmin, ProcessApp, SeqNum, MsgType, IsAdmin, PossDup, IsGapFill;
    RejectKeeps(cfg, s, SeqNum(m), 13, MsgType(m), 0, Ascii("Tag appears more than once"), env);
    AdminKeeps(cfg, s, m, env);
    AppKeeps(cfg, s, m, env);
  }

  lemma ResetAccounted(cfg: Config, s: Endpoint, m: Message, env: Env)
    requires Judged(s.phase) && MsgType(m) == SEQUENCE_RESET && IsGapFill(m)
    ensures Accounted(s, m, HandleSequenceReset(cfg, s, m, env))
  {
    hide LogoutAndDrop, RequestGap, SeqNum, MsgType, PossDup, IsGapFill, GetInt, Ascii;
    LogoutKeeps(cfg, s, Ascii("SequenceReset GapFill requires PossDupFlag"), env);
    LogoutKeeps(cfg, s, Ascii("invalid NewSeqNo"), env);
    RequestGapKeeps(cfg, s, s.nextTarget, env);
  }

  lemma OutOfSequenceKeeps(cfg: Config, s: Endpoint, m: Message, env: Env)
    requires Judged(s.phase) && ValidateSeqNum(cfg, s, m, env).OutOfSequence?
    ensures Keeps(s, ValidateSeqNum(cfg, s, m, env).step)
  {
    hide SendReject, LogoutAndDrop, RequestGap, SeqNum, MsgType, PossDup;
    RejectKeeps(cfg, s, 0, 1, MsgType(m), MSG_SEQ_NUM, [], env);
    RequestGapKeeps(cfg, s, s.nextTarget, env);
    LogoutKeeps(cfg, s, Ascii("MsgSeqNum too low"), env);
  }

  /** One inbound message of an established session is accounted for. */
  lemma MessageAccounted(cfg: Config, s0: Endpoint, m: Message, env: Env)
    requires Judged(s0.phase) && !IsReset(m)
    ensures Accounted(s0, m, ProcessMessage(cfg, s0, m, env))
  {
    hide LogoutAndDrop, SendReject, HandleSequenceReset, ValidateSeqNum, Accepted, SeqNum, MsgType, PossDup, IsGapFill,
      Get, ParseVersion, Identified, Claims, Ascii;
    var s := s0.(lastRecv := env.now, testPending := false);
    if ParseVersion(GetOr(m.fields, BEGIN_STRING, [])) != cfg.version {
      LogoutKeeps(cfg, s, Ascii("BeginString does not match session"), env);
    } else if !Identified(cfg, m) {
      LogoutKeeps(cfg, s, Ascii("CompID mismatch"), env);
    } else if !Has(m.fields, MSG_TYPE) {
      MissingTypeAccounted(cfg, s, m, env);
    } else if MsgType(m) == SEQUENCE_RESET {
      ResetAccounted(cfg, s, m, env);
    } else if ValidateSeqNum(cfg, s, m, env).OutOfSequence? {
      OutOfSequenceKeeps(cfg, s, m, env);
    } else {
      InSequenceMeans(cfg, s, m, env);
      AcceptedAccounted(cfg, ClearGap(s), m, env);
    }
  }

  lemma MissingTypeAccounted(cfg: Config, s: Endpoint, m: Message, env: Env)
    requires Judged(s.phase)
    ensures
      var t := if !PossDup(m) && SeqNum(m) == s.nextTarget then TakeSlot(s, m) else s;
      Accounted(s, m, SendReject(cfg, t, SeqNum(m), 1, [], MSG_TYPE, Ascii("Missing MsgType"), env))
  {
    hide SendReject, SeqNum, MsgType, PossDup, IsGapFill, GetInt;
    var t := if !PossDup(m) && SeqNum(m) == s.nextTarget then TakeSlot(s, m) else s;
    RejectKeeps(cfg, t, SeqNum(m), 1, [], MSG_TYPE, Ascii("Missing MsgType"), env);
  }

  lemma InSequenceMeans(cfg: Config, s: Endpoint, m: Message, env: Env)
    requires ValidateSeqNum(cfg, s, m, env).InSequence?
    ensures SeqNum(m) == s.nextTarget
  {
  }

  // ---------------------------------------------------------------------
  // Runs
  // ---------------------------------------------------------------------

  lemma TickKeeps(cfg: Config, s: Endpoint, env: Env)
    requires Judged(s.phase)
    ensures Keeps(s, Tick(cfg, s, env))
  {
    hide TickHeartbeat, TickTestRequest, TickGap, Ascii, TestOverdue;
    TickPartsKeep(cfg, s, env);
    var a := TickHeartbeat(cfg, s, env).s;
    TickPartsKeep(cfg, a, env);
    TickPartsKeep(cfg, TickTestRequest(cfg, a, env).s, env);
  }

  lemma TickPartsKeep(cfg: Config, s: Endpoint, env: Env)
    requires Judged(s.phase)
    ensures Keeps(s, TickHeartbeat(cfg, s, env)) && Keeps(s, TickTestRequest(cfg, s, env))
    ensures Keeps(s, TickGap(cfg, s, env))
  {
    hide Send, HeartbeatFields, TestRequestFields, ResendRequestFields, Patience;
    SendKeeps(cfg, s, HeartbeatFields([]), env);
    SendKeeps(cfg, s.(testSent := env.now, testPending := true), TestRequestFields(env.testId), env);
    SendKeeps(cfg, s.(gapAttempts := s.gapAttempts + 1, gapLast := env.now),
              ResendRequestFields(s.nextTarget, 0), env);
  }

  /** Every other event leaves the inbound side alone. */
  lemma OtherKeeps(cfg: Config, s: Endpoint, ev: Event)
    requires Judged(s.phase) && (ev.Inbound? ==> s.phase == Disconnected)
    ensures Keeps(s, Perform(cfg, s, ev))
  {
    hide Send, Tick, LogoutFields;
    match ev
    case Inbound(_, _) =>
    case Timer(env) => TickKeeps(cfg, s, env);
    case UserSend(fields, env) => SendKeeps(cfg, s, fields, env);
    case UserLogout(reason, env) => LogoutKeeps(cfg, s, reason, env);
  }

  predicate NoResets(evs: seq<Event>) {
    forall i :: 0 <= i < |evs| && evs[i].Inbound? ==> !IsReset(evs[i].msg)
  }

  /** The numbers of the application messages delivered, in order of delivery. */
  function Delivered(out: seq<Out>): seq<nat> {
    if out == [] then []
    else (if out[0].Deliver? then [SeqNum(out[0].msg)] else []) + Delivered(out[1..])
  }

  lemma {:induction false} DeliveredConcat(a: seq<Out>, b: seq<Out>)
    ensures Delivered(a + b) == Delivered(a) + Delivered(b)
  {
    hide SeqNum;
    if a == [] {
      assert a + b == b;
    } else {
      TailOfConcat(a, b);
      DeliveredConcat(a[1..], b);
      Associates(if a[0].Deliver? then [SeqNum(a[0].msg)] else [], Delivered(a[1..]), Delivered(b));
    }
  }

  lemma {:induction false} SilentDelivers(out: seq<Out>)
    requires Silent(out)
    ensures Delivered(out) == []
  {
    if out != [] { SilentDelivers(out[1..]); }
  }

  predicate IncreasingWithin(ns: seq<nat>, lo: nat, hi: nat) {
    Increasing(ns) && forall i :: 0 <= i < |ns| ==> lo <= ns[i] < hi
  }

  /** Some message carried the expected number and claimed `n` while the expectation moved past it. */
  ghost predicate CoveredAt(cfg: Config, s: Endpoint, evs: seq<Event>, n: nat, i: nat)
    requires i < |evs|
  {
    && evs[i].Inbound? && Claims(evs[i].msg, n)
    && SeqNum(evs[i].msg) == StateAt(cfg, s, evs, i).nextTarget <= n < StateAt(cfg, s, evs, i + 1).nextTarget
  }

  ghost predicate Covered(cfg: Config, s: Endpoint, evs: seq<Event>, n: nat) {
    exists i :: 0 <= i < |evs| && CoveredAt(cfg, s, evs, n, i)
  }

  /** One event: the expectation moves forward only past numbers a message claims, and deliveries lie in between. */
  lemma EventAccounted(cfg: Config, s: Endpoint, ev: Event)
    requires Judged(s.phase) && (ev.Inbound? ==> !IsReset(ev.msg))
    ensures
      var r := Perform(cfg, s, ev);
      && Judged(r.s.phase) && s.nextTarget <= r.s.nextTarget
      && (s.nextTarget < r.s.nextTarget ==>
          && ev.Inbound? && SeqNum(ev.msg) == s.nextTarget
          && forall n :: s.nextTarget <= n < r.s.nextTarget ==> Claims(ev.msg, n))
      && (r.s.nextTarget < TWO64 - 1 ==> IncreasingWithin(Delivered(r.out), s.nextTarget, r.s.nextTarget))
  {
    hide SeqNum, IsReset, Claims, ProcessMessage, Tick, AppSend, Logout;
    var r := Perform(cfg, s, ev);
    if ev.Inbound? && s.phase != Disconnected {
      MessageAccounted(cfg, s, ev.msg, ev.env);
      if !Silent(r.out) {
        assert r.out[..1] == [Deliver(ev.msg)] && Delivered(r.out[1..]) == [];
      } else {
        SilentDelivers(r.out);
      }
    } else {
      OtherKeeps(cfg, s, ev);
      SilentDelivers(r.out);
    }
  }

  /**
   Exactly-once inbound accounting over every run without a reset-mode SequenceReset, whatever the messages and
   whether or not callbacks throw: the expected number never decreases; delivered application messages carry
   strictly increasing numbers among those passed over; and each number passed over was carried by a message that
   was accepted, or lies in an accepted gap-fill.
   */
  lemma {:induction false} InboundAccounting(cfg: Config, s: Endpoint, evs: seq<Event>)
    requires Judged(s.phase) && NoResets(evs)
    ensures
      var r := Run(cfg, s, evs);
      && s.nextTarget <= r.s.nextTarget
      && (r.s.nextTarget < TWO64 - 1 ==> IncreasingWithin(Delivered(r.out), s.nextTarget, r.s.nextTarget))
      && forall n :: s.nextTarget <= n < r.s.nextTarget ==> Covered(cfg, s, evs, n)
    decreases |evs|
  {
    hide SeqNum, IsReset, Claims, Perform;
    if evs != [] {
      var first := Perform(cfg, s, evs[0]);
      EventAccounted(cfg, s, evs[0]);
      InboundAccounting(cfg, first.s, evs[1..]);
      var rest := Run(cfg, first.s, evs[1..]);
      DeliveredConcat(first.out, rest.out);
      forall n | s.nextTarget <= n < rest.s.nextTarget
        ensures Covered(cfg, s, evs, n)
      {
        if n < first.s.nextTarget {
          assert CoveredAt(cfg, s, evs, n, 0);
        } else {
          assert Covered(cfg, first.s, evs[1..], n);
          var i :| 0 <= i < |evs[1..]| && CoveredAt(cfg, first.s, evs[1..], n, i);
          assert StateAt(cfg, s, evs, i + 1) == StateAt(cfg, first.s, evs[1..], i);
          assert StateAt(cfg, s, evs, i + 2) == StateAt(cfg, first.s, evs[1..], i + 1);
          assert CoveredAt(cfg, s, evs, n, i + 1);
        }
      }
    } else {
      assert Delivered([]) == [];
    }
  }
}
