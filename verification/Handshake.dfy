/**
 The Logon handshake: when a completed handshake leaves the two sides agreed on the next numbers.
 */
module Handshake {
  import opened Bytes
  import opened Messages
  import opened Serializing
  import opened Streams
  import opened Protocol
  import opened Emitting
  import opened Replaying
  import opened Recovery

  // ---------------------------------------------------------------------
  // The Logon message
  // ---------------------------------------------------------------------

  /** A tag that is not a standard-header tag of its own, or one the serializer writes itself. */
  predicate Plain(tag: nat) {
    tag < TWO32 && tag != MSG_TYPE && (IsHeaderTag(tag) ==> Handled(tag))
  }

  lemma PlainTags()
    ensures Plain(ENCRYPT_METHOD) && Plain(HEART_BT_INT) && Plain(RESET_SEQ_NUM_FLAG)
    ensures Plain(553) && Plain(554) && Plain(1137)
  {
    hide IsHeaderTag;
    NotStandard(98);
    NotStandard(108);
    NotStandard(141);
    NotStandard(553);
    NotStandard(554);
    NotStandard(1137);
  }

  lemma NotStandard(tag: nat)
    requires tag == 98 || tag == 108 || tag == 141 || tag == 553 || tag == 554 || tag == 1137
    ensures !IsHeaderTag(tag)
  {
  }

  /** Fields of type `kind` without repeated header tags and without PossDupFlag. */
  ghost predicate Tidy(fs: seq<Field>, kind: bytes) {
    && AllClean(fs) && ValidTags(fs) && GetOr(fs, MSG_TYPE, []) == kind && Get(fs, POSS_DUP_FLAG) == None
    && forall t :: IsHeaderTag(t) && !Handled(t) ==> GetAll(fs, t) == []
  }

  lemma {:induction false} TidySet(fs: seq<Field>, kind: bytes, tag: nat, value: bytes)
    requires Tidy(fs, kind) && Plain(tag) && tag != POSS_DUP_FLAG
    ensures Tidy(SetField(fs, tag, value), kind)
  {
    hide SetField, Get, GetAll, IsHeaderTag, AllClean, ValidTags;
    KindKept(fs, tag, value);
    CleanSet(fs, tag, value);
    SetFieldOther(fs, tag, value, POSS_DUP_FLAG);
    forall t | IsHeaderTag(t) && !Handled(t)
      ensures GetAll(SetField(fs, tag, value), t) == []
    {
      SetFieldOther(fs, tag, value, t);
    }
  }

  lemma TidyType(kind: bytes)
    requires Clean(kind)
    ensures Tidy(OfType(kind), kind)
  {
    hide IsHeaderTag;
    var fs := OfType(kind);
    assert fs == [Field(MSG_TYPE, kind)] && fs[1..] == [];
    assert AllClean(fs);
    assert ValidTags(fs);
    assert Get(fs, POSS_DUP_FLAG) == None;
    assert Handled(MSG_TYPE);
    assert forall t :: t != MSG_TYPE ==> GetAll(fs, t) == [];
  }

  lemma TidyLogon(cfg: Config, hb: nat)
    requires 1 <= hb < TWO63
    ensures
      var fs := LogonFields(cfg, hb);
      && Tidy(fs, LOGON) && GetInt(fs, HEART_BT_INT) == Some(hb)
      && (GetOr(fs, RESET_SEQ_NUM_FLAG, NO) == YES <==> cfg.resetOnLogon)
  {
    hide SetField, Tidy, Plain, Get, ParseInt64, Dec, Clean, AllClean;
    PlainTags();
    LogonKindClean();
    TidyType(LOGON);
    var a := SetField(OfType(LOGON), ENCRYPT_METHOD, [48]);
    var b := SetField(a, HEART_BT_INT, DecInt(hb));
    var c := if cfg.resetOnLogon then SetField(b, RESET_SEQ_NUM_FLAG, YES) else b;
    TidySet(OfType(LOGON), LOGON, ENCRYPT_METHOD, [48]);
    TidySet(a, LOGON, HEART_BT_INT, DecInt(hb));
    TidySet(b, LOGON, RESET_SEQ_NUM_FLAG, YES);
    TidyExtras(cfg, c);
    DecIntClean(hb);
    ParseInt64Dec(hb);
    LogonFlag(b, cfg);
    SetFieldOther(b, RESET_SEQ_NUM_FLAG, YES, HEART_BT_INT);
    SetFieldOther(a, HEART_BT_INT, DecInt(hb), RESET_SEQ_NUM_FLAG);
    SetFieldOther(OfType(LOGON), ENCRYPT_METHOD, [48], RESET_SEQ_NUM_FLAG);
    NoFlagInType();
  }

  lemma LogonKindClean()
    ensures Clean(LOGON) && Clean(YES)
  {
  }

  lemma NoFlagInType()
    ensures Get(OfType(LOGON), RESET_SEQ_NUM_FLAG) == None
  {
    assert OfType(LOGON) == [Field(MSG_TYPE, LOGON)] && OfType(LOGON)[1..] == [];
  }

  lemma {:induction false} LogonFlag(b: seq<Field>, cfg: Config)
    ensures YES != NO && (Clean(YES) ==> Get(SetField(b, RESET_SEQ_NUM_FLAG, YES), RESET_SEQ_NUM_FLAG) == Some(YES))
  {
    assert YES[0] != NO[0];
  }

  /** User name, password and default version are added last and disturb nothing. */
  lemma {:induction false} TidyExtras(cfg: Config, c: seq<Field>)
    requires Tidy(c, LOGON)
    ensures
      var fs := SetUnlessEmpty(SetUnlessEmpty(SetUnlessEmpty(c, 553, cfg.username), 554, cfg.password), 1137,
                               cfg.defaultApplVerId);
      && Tidy(fs, LOGON) && Get(fs, HEART_BT_INT) == Get(c, HEART_BT_INT)
      && Get(fs, RESET_SEQ_NUM_FLAG) == Get(c, RESET_SEQ_NUM_FLAG)
  {
    hide SetField, Tidy, Plain, Get;
    PlainTags();
    var d := SetUnlessEmpty(c, 553, cfg.username);
    var e := SetUnlessEmpty(d, 554, cfg.password);
    TidySet(c, LOGON, 553, cfg.username);
    TidySet(d, LOGON, 554, cfg.password);
    TidySet(e, LOGON, 1137, cfg.defaultApplVerId);
    SetFieldOther(c, 553, cfg.username, HEART_BT_INT);
    SetFieldOther(c, 553, cfg.username, RESET_SEQ_NUM_FLAG);
    SetFieldOther(d, 554, cfg.password, HEART_BT_INT);
    SetFieldOther(d, 554, cfg.password, RESET_SEQ_NUM_FLAG);
    SetFieldOther(e, 1137, cfg.defaultApplVerId, HEART_BT_INT);
    SetFieldOther(e, 1137, cfg.defaultApplVerId, RESET_SEQ_NUM_FLAG);
  }

  // ---------------------------------------------------------------------
  // Sending and receiving a Logon
  // ---------------------------------------------------------------------

  /** The numbers a side starts the connection with once its own reset is applied. */
  function StartSender(cfg: Config, s: Endpoint): nat {
    if cfg.resetOnLogon then 1 else s.nextSender
  }

  function StartTarget(cfg: Config, s: Endpoint): nat {
    if cfg.resetOnLogon then 1 else s.nextTarget
  }

  function LogonFrame(cfg: Config, s: Endpoint, env: Env): Outgoing {
    Outgoing(LogonFields(cfg, s.heartbeat), EnvelopeFor(cfg, StartSender(cfg, s), env))
  }

  predicate ValidHeartbeat(hb: int) {
    1 <= hb < 0x8000_0000
  }

  /** A Logon goes out under the first number, after the reset it announces. */
  lemma LogonGoesOut(cfg: Config, s: Endpoint, env: Env)
    requires CanSend(cfg, env) && ValidHeartbeat(s.heartbeat)
    requires s.phase == NotConnected || s.phase == Disconnected || (s.phase == WaitingLogon && !cfg.initiator)
    ensures
      var (r, sent) := SendLogon(cfg, s, env);
      && sent && r.out == [Emit(LogonFrame(cfg, s, env))]
      && r.s.phase == (if cfg.initiator then LogonSent else WaitingLogon)
      && r.s.nextSender == StartSender(cfg, s) + 1 && r.s.nextTarget == StartTarget(cfg, s)
      && r.s.heartbeat == s.heartbeat && (r.s.gapOpen ==> s.gapOpen)
      && GoodFrame(cfg, LogonFrame(cfg, s, env), StartSender(cfg, s))
  {
    hide LogonFields, Serialize, CanSend, VersionText, AllClean, ValidTags;
    TidyLogon(cfg, s.heartbeat);
    TidyParts(LogonFields(cfg, s.heartbeat), LOGON);
    CleanSerializes(cfg, LogonFields(cfg, s.heartbeat), StartSender(cfg, s), env);
  }

  lemma {:induction false} TidyParts(fs: seq<Field>, kind: bytes)
    requires Tidy(fs, kind)
    ensures AllClean(fs) && ValidTags(fs) && GetOr(fs, MSG_TYPE, []) == kind && Get(fs, POSS_DUP_FLAG) == None
    ensures NoRepeats(fs)
  {
    hide IsHeaderTag, GetAll, AllClean, ValidTags, Get;
  }

  /** What a Logon looks like to its receiver. */
  lemma LogonSeen(a: Config, b: Config, s: Endpoint, env: Env)
    requires Mirrored(a, b) && CanSend(a, env) && ValidHeartbeat(s.heartbeat) && StartSender(a, s) < TWO63
    requires GoodFrame(a, LogonFrame(a, s, env), StartSender(a, s))
    ensures
      var m := Meaning(LogonFrame(a, s, env));
      && ParseVersion(GetOr(m.fields, BEGIN_STRING, [])) == b.version && Identified(b, m)
      && Has(m.fields, MSG_TYPE) && MsgType(m) == LOGON && SeqNum(m) == StartSender(a, s)
      && !PossDup(m) && !m.duplicateHeader
      && GetInt(m.fields, HEART_BT_INT) == Some(s.heartbeat)
      && (GetOr(m.fields, RESET_SEQ_NUM_FLAG, NO) == YES <==> a.resetOnLogon)
  {
    hide LogonFields, Get, ParseVersion, Identified, SeqNum, MsgType, NoRepeats, GoodFrame, ParseInt64, Frame.Meaning,
      CanSend, EnvelopeFor, AllClean, ValidTags;
    var x := LogonFrame(a, s, env);
    TidyLogon(a, s.heartbeat);
    TidyParts(x.fields, LOGON);
    Seen(a, b, x, StartSender(a, s));
    SeenTag(x, HEART_BT_INT);
    SeenTag(x, RESET_SEQ_NUM_FLAG);
    SeenTag(x, POSS_DUP_FLAG);
    assert NO[0] != YES[0];
  }

  /** The number expected after a Logon numbered `n`, announcing a reset or not, was taken. */
  function Expect(announced: bool, target: nat, n: nat): nat {
    Max(if announced then 1 else target, n + 1)
  }

  lemma AdminLogon()
    ensures IsAdmin(LOGON) && LOGON != SEQUENCE_RESET
  {
    assert LOGON[0] != SEQUENCE_RESET[0];
  }

  /** A Logon for this session, while its number is not judged. */
  lemma LogonProcessed(cfg: Config, s: Endpoint, m: Message, env: Env)
    requires ParseVersion(GetOr(m.fields, BEGIN_STRING, [])) == cfg.version && Identified(cfg, m)
    requires Has(m.fields, MSG_TYPE) && MsgType(m) == LOGON && !PossDup(m) && !m.duplicateHeader
    requires s.phase == WaitingLogon || s.phase == LogonSent
    ensures
      var r := HandleLogon(cfg, s.(lastRecv := env.now, testPending := false), m, env);
      ProcessMessage(cfg, s, m, env) == Step(TakeSlot(r.s, m), r.out)
  {
    hide Get, ParseVersion, Identified, SeqNum, MsgType, PossDup, HandleLogon, TakeSlot, IsAdmin, Ascii;
    AdminLogon();
  }

  /** The acceptor answers the initiator's Logon and becomes Active. */
  lemma AcceptorAnswers(i: Config, si: Endpoint, ei: Env, a: Config, sa: Endpoint, ea: Env)
    requires Mirrored(i, a) && CanSend(i, ei) && CanSend(a, ea) && !a.initiator && sa.phase == WaitingLogon
    requires ValidHeartbeat(si.heartbeat) && StartSender(i, si) < TWO63
    requires GoodFrame(i, LogonFrame(i, si, ei), StartSender(i, si))
    ensures
      var r := ProcessMessage(a, sa, Meaning(LogonFrame(i, si, ei)), ea);
      var answering := sa.(heartbeat := si.heartbeat);
      && r.s.phase == Active && r.s.heartbeat == si.heartbeat && !r.s.gapOpen
      && Emitted(r.out) == [LogonFrame(a, answering, ea)]
      && GoodFrame(a, LogonFrame(a, answering, ea), StartSender(a, answering))
      && r.s.nextSender == StartSender(a, sa) + 1
      && r.s.nextTarget == Expect(i.resetOnLogon || a.resetOnLogon, sa.nextTarget, StartSender(i, si))
  {
    hide LogonFrame, Get, ParseVersion, Identified, SeqNum, MsgType, PossDup, GoodFrame, Meaning, CanSend, SendLogon, IsAdmin,
      Ascii, ProcessMessage, Emitted, LogoutAndDrop;
    LogonSeen(i, a, si, ei);
    LogonProcessed(a, sa, Meaning(LogonFrame(i, si, ei)), ea);
    var adopted := sa.(lastRecv := ea.now, testPending := false, heartbeat := si.heartbeat);
    var t := ClearGap(if i.resetOnLogon then adopted.(nextTarget := 1) else adopted);
    LogonGoesOut(a, t, ea);
    SameFrame(a, t, sa.(heartbeat := si.heartbeat), ea);
    EmittedFirst(LogonFrame(a, t, ea), [OnLogon] + Thrown(ea));
  }

  lemma {:induction false} EmittedFirst(x: Outgoing, out: seq<Out>)
    requires forall i :: 0 <= i < |out| ==> !out[i].Emit?
    ensures Emitted([Emit(x)] + out) == [x]
  {
    EmittedConcat([Emit(x)], out);
    EmittedNothing(out);
    EmittedEmit(x);
  }

  lemma EmittedEmit(x: Outgoing)
    ensures Emitted([Emit(x)]) == [x]
  {
    assert [Emit(x)][1..] == [];
  }

  /** The Logon depends only on the interval and the next number. */
  lemma SameFrame(cfg: Config, s: Endpoint, t: Endpoint, env: Env)
    requires s.heartbeat == t.heartbeat && s.nextSender == t.nextSender
    ensures LogonFrame(cfg, s, env) == LogonFrame(cfg, t, env)
  {
  }

  /** The initiator takes the answer and becomes Active. */
  lemma InitiatorCompletes(i: Config, si: Endpoint, ei: Env, a: Config, sa: Endpoint, ea: Env)
    requires Mirrored(a, i) && CanSend(a, ea) && i.initiator && si.phase == LogonSent
    requires ValidHeartbeat(sa.heartbeat) && sa.heartbeat == si.heartbeat && StartSender(a, sa) < TWO63
    requires GoodFrame(a, LogonFrame(a, sa, ea), StartSender(a, sa))
    ensures
      var r := ProcessMessage(i, si, Meaning(LogonFrame(a, sa, ea)), ei);
      && r.s.phase == Active && r.s.heartbeat == si.heartbeat && !r.s.gapOpen && r.s.nextSender == si.nextSender
      && r.s.nextTarget == Expect(a.resetOnLogon, si.nextTarget, StartSender(a, sa))
  {
    hide LogonFrame, Get, ParseVersion, Identified, SeqNum, MsgType, PossDup, GoodFrame, Meaning, CanSend, SendLogon, IsAdmin,
      Ascii, ProcessMessage, LogoutAndDrop;
    LogonSeen(a, i, sa, ea);
    LogonProcessed(i, si, Meaning(LogonFrame(a, sa, ea)), ei);
  }

  // ---------------------------------------------------------------------
  // The handshake
  // ---------------------------------------------------------------------

  datatype Pair = Pair(initiator: Endpoint, acceptor: Endpoint)

  /** Both transports connect, the initiator's Logon is processed by the acceptor, and its answer by the initiator. */
  ghost function Connect(i: Config, si: Endpoint, a: Config, sa: Endpoint, e1: Env, e2: Env, e3: Env): Pair {
    var started := TransportConnected(i, si, e1);
    var waiting := TransportConnected(a, sa, e1).s;
    var frames := Emitted(started.out);
    if frames == [] then Pair(started.s, waiting)
    else
      var answered := ProcessMessage(a, waiting, Meaning(frames[0]), e2);
      var answers := Emitted(answered.out);
      if answers == [] then Pair(started.s, answered.s)
      else Pair(ProcessMessage(i, started.s, Meaning(answers[0]), e3).s, answered.s)
  }

  lemma InitiatorOpens(i: Config, si: Endpoint, env: Env)
    requires i.initiator && CanSend(i, env) && ValidHeartbeat(si.heartbeat)
    ensures
      var r := TransportConnected(i, si, env);
      && Emitted(r.out) == [LogonFrame(i, si, env)] && r.s.phase == LogonSent && r.s.heartbeat == si.heartbeat
      && r.s.nextSender == StartSender(i, si) + 1 && r.s.nextTarget == StartTarget(i, si)
      && GoodFrame(i, LogonFrame(i, si, env), StartSender(i, si))
  {
    hide LogonFrame, GoodFrame, CanSend, SendLogon;
    var t := FreshConnection(si, env);
    var idle := if t.phase == NotConnected then t else t.(phase := Disconnected);
    LogonGoesOut(i, idle, env);
    SameFrame(i, idle, si, env);
    EmittedEmit(LogonFrame(i, si, env));
  }

  /**
   Handshake convergence: for every starting state and all four reset_on_logon combinations both sides become
   Active, and they agree on both next numbers if and only if some side resets, or neither expectation exceeds
   the peer's next number plus one.
   */
  lemma HandshakeConverges(i: Config, si: Endpoint, a: Config, sa: Endpoint, e1: Env, e2: Env, e3: Env)
    requires Mirrored(i, a) && i.initiator && !a.initiator && CanSend(i, e1) && CanSend(a, e2)
    requires ValidHeartbeat(si.heartbeat)
    requires si.nextSender < TWO63 && sa.nextSender < TWO63
    ensures
      var p := Connect(i, si, a, sa, e1, e2, e3);
      && p.initiator.phase == Active && p.acceptor.phase == Active
      && p.initiator.heartbeat == p.acceptor.heartbeat == si.heartbeat
      && !p.initiator.gapOpen && !p.acceptor.gapOpen && p.initiator.nextTarget >= 1 && p.acceptor.nextTarget >= 1
      && ((p.initiator.nextSender == p.acceptor.nextTarget && p.acceptor.nextSender == p.initiator.nextTarget)
          <==> (i.resetOnLogon || a.resetOnLogon
                || (sa.nextTarget <= si.nextSender + 1 && si.nextTarget <= sa.nextSender + 1)))
  {
    hide LogonFrame, GoodFrame, CanSend, ProcessMessage, Meaning, Emitted, TransportConnected;
    InitiatorOpens(i, si, e1);
    var started := TransportConnected(i, si, e1).s;
    var waiting := TransportConnected(a, sa, e1).s;
    AcceptorWaits(a, sa, e1);
    AcceptorAnswers(i, si, e1, a, waiting, e2);
    InitiatorCompletes(i, started, e3, a, waiting.(heartbeat := si.heartbeat), e2);
  }

  /** An expectation moves from `before` to `after` past `n`, which the Logon that moved it did not carry. */
  predicate PassedOver(before: nat, after: nat, logon: nat, n: int) {
    before <= n < after && n != logon
  }

  /**
   What a handshake passes over. A Logon numbered above the expectation moves it forward and nothing is asked for, since
   no gap is open afterwards. For all counters and all four reset combinations, the numbers a side passes over without a
   message carrying them are exactly those from its expectation up to the number of the peer's Logon.
   */
  lemma HandshakePassesOver(i: Config, si: Endpoint, a: Config, sa: Endpoint, e1: Env, e2: Env, e3: Env)
    requires Mirrored(i, a) && i.initiator && !a.initiator && CanSend(i, e1) && CanSend(a, e2)
    requires ValidHeartbeat(si.heartbeat)
    requires si.nextSender < TWO63 && sa.nextSender < TWO63
    ensures
      var p := Connect(i, si, a, sa, e1, e2, e3);
      var x, y := StartSender(i, si), StartSender(a, sa);
      && !p.initiator.gapOpen && !p.acceptor.gapOpen
      && (forall n :: PassedOver(sa.nextTarget, p.acceptor.nextTarget, x, n) <==> sa.nextTarget <= n < x)
      && (forall n :: PassedOver(si.nextTarget, p.initiator.nextTarget, y, n) <==> si.nextTarget <= n < y)
  {
    hide LogonFrame, GoodFrame, CanSend, ProcessMessage, Meaning, Emitted, TransportConnected;
    InitiatorOpens(i, si, e1);
    var started := TransportConnected(i, si, e1).s;
    var waiting := TransportConnected(a, sa, e1).s;
    AcceptorWaits(a, sa, e1);
    AcceptorAnswers(i, si, e1, a, waiting, e2);
    InitiatorCompletes(i, started, e3, a, waiting.(heartbeat := si.heartbeat), e2);
  }

  /** So, without any reset, numbers are passed over if and only if an expectation is below the peer's Logon. */
  lemma PassesOverIff(i: Config, si: Endpoint, a: Config, sa: Endpoint, e1: Env, e2: Env, e3: Env)
    requires Mirrored(i, a) && i.initiator && !a.initiator && CanSend(i, e1) && CanSend(a, e2)
    requires ValidHeartbeat(si.heartbeat) && !i.resetOnLogon && !a.resetOnLogon
    requires si.nextSender < TWO63 && sa.nextSender < TWO63
    ensures
      var p := Connect(i, si, a, sa, e1, e2, e3);
      ((exists n :: PassedOver(sa.nextTarget, p.acceptor.nextTarget, si.nextSender, n))
       || (exists n :: PassedOver(si.nextTarget, p.initiator.nextTarget, sa.nextSender, n)))
      <==> sa.nextTarget < si.nextSender || si.nextTarget < sa.nextSender
  {
    hide Connect, PassedOver;
    HandshakePassesOver(i, si, a, sa, e1, e2, e3);
    var p := Connect(i, si, a, sa, e1, e2, e3);
    assert StartSender(i, si) == si.nextSender && StartSender(a, sa) == sa.nextSender;
    assert forall n ::
        PassedOver(sa.nextTarget, p.acceptor.nextTarget, si.nextSender, n) <==> sa.nextTarget <= n < si.nextSender;
    assert forall n ::
        PassedOver(si.nextTarget, p.initiator.nextTarget, sa.nextSender, n) <==> si.nextTarget <= n < sa.nextSender;
    if sa.nextTarget < si.nextSender {
      assert PassedOver(sa.nextTarget, p.acceptor.nextTarget, si.nextSender, sa.nextTarget);
    } else if si.nextTarget < sa.nextSender {
      assert PassedOver(si.nextTarget, p.initiator.nextTarget, sa.nextSender, si.nextTarget);
    }
  }

  lemma AcceptorWaits(a: Config, sa: Endpoint, env: Env)
    requires !a.initiator
    ensures
      var t := TransportConnected(a, sa, env).s;
      t.phase == WaitingLogon && t.nextSender == sa.nextSender && t.nextTarget == sa.nextTarget
  {
  }
}
