/**
 What the session hands to the transport: kinds and numbers of the frames each operation emits.
 */
module Emitting {
  import opened Bytes
  import opened Messages
  import opened Serializing
  import opened Streams
  import opened Protocol

  /** The frames handed to the transport. */
  function Emitted(out: seq<Out>): seq<Outgoing> {
    if out == [] then []
    else (if out[0].Emit? then [out[0].frame] else []) + Emitted(out[1..])
  }

  lemma {:induction false} EmittedConcat(a: seq<Out>, b: seq<Out>)
    ensures Emitted(a + b) == Emitted(a) + Emitted(b)
  {
    if a == [] {
      assert a + b == b;
    } else {
      TailOfConcat(a, b);
      EmittedConcat(a[1..], b);
      Associates(if a[0].Emit? then [a[0].frame] else [], Emitted(a[1..]), Emitted(b));
    }
  }

  lemma {:induction false} EmittedNothing(out: seq<Out>)
    requires forall i :: 0 <= i < |out| ==> !out[i].Emit?
    ensures Emitted(out) == []
  {
    if out != [] { EmittedNothing(out[1..]); }
  }

  /** Notices before the emissions do not matter. */
  lemma {:induction false} EmittedAfter(notice: seq<Out>, out: seq<Out>)
    requires forall i :: 0 <= i < |notice| ==> !notice[i].Emit?
    ensures Emitted(notice + out) == Emitted(out) && Emitted(notice) == []
  {
    EmittedNothing(notice);
    EmittedConcat(notice, out);
  }

  function KindOf(x: Outgoing): bytes {
    GetOr(x.fields, MSG_TYPE, [])
  }

  /** A frame numbered `n` that this session can put on the wire. */
  predicate GoodFrame(cfg: Config, x: Outgoing, n: nat) {
    && x.envelope.beginString == VersionText(cfg.version) && x.envelope.seqNum == n
    && x.envelope.sender == cfg.sender && x.envelope.target == cfg.target
    && ValidTags(x.fields) && Serialize(x.fields, x.envelope).Some?
  }

  /** Kinds that carry no sequence-number protocol of their own. */
  predicate Ordinary(kind: bytes) {
    kind != RESEND_REQUEST && kind != SEQUENCE_RESET && kind != LOGON
  }

  /** The step emits ordinary frames only, numbered consecutively from NextSender, which moves past them. */
  predicate Sends(cfg: Config, s: Endpoint, r: Step) {
    var frames := Emitted(r.out);
    && r.s.nextSender == s.nextSender + |frames|
    && forall i :: 0 <= i < |frames| ==>
        GoodFrame(cfg, frames[i], s.nextSender + i) && Ordinary(KindOf(frames[i]))
  }

  lemma SendSends(cfg: Config, s: Endpoint, fs: seq<Field>, env: Env)
    requires ValidTags(fs) && Ordinary(GetOr(fs, MSG_TYPE, []))
    ensures Sends(cfg, s, Send(cfg, s, fs, env))
  {
    hide Serialize, VersionText, Get, ValidTags;
    assert Emitted([]) == [];
    var e := EnvelopeFor(cfg, s.nextSender, env);
    assert Emitted([Emit(Outgoing(fs, e))]) == [Outgoing(fs, e)] by { assert [Emit(Outgoing(fs, e))][1..] == []; }
  }

  /** Two operations in a row; `t` is the state between them up to bookkeeping. */
  lemma SendsThen(cfg: Config, s: Endpoint, a: Step, t: Endpoint, b: Step)
    requires Sends(cfg, s, a) && t.nextSender == a.s.nextSender && Sends(cfg, t, b)
    ensures Sends(cfg, s, b.After(a.out))
  {
    hide GoodFrame, Ordinary, KindOf;
    EmittedConcat(a.out, b.out);
    var x, y := Emitted(a.out), Emitted(b.out);
    forall i | 0 <= i < |x + y|
      ensures GoodFrame(cfg, (x + y)[i], s.nextSender + i) && Ordinary(KindOf((x + y)[i]))
    {
      if i >= |x| { assert (x + y)[i] == y[i - |x|]; }
    }
  }

  lemma SendsNothing(cfg: Config, s: Endpoint, r: Step)
    requires r.s.nextSender == s.nextSender && forall i :: 0 <= i < |r.out| ==> !r.out[i].Emit?
    ensures Sends(cfg, s, r)
  {
    EmittedNothing(r.out);
  }

  // ---------------------------------------------------------------------
  // The messages the session builds
  // ---------------------------------------------------------------------

  lemma {:induction false} SetFieldTags(fs: seq<Field>, tag: nat, value: bytes)
    requires ValidTags(fs) && tag < TWO32
    ensures ValidTags(SetField(fs, tag, value))
  {
    if fs != [] && fs[0].tag != tag && Clean(value) {
      SetFieldTags(fs[1..], tag, value);
      var r := SetField(fs[1..], tag, value);
      assert forall i :: 1 <= i < |r| + 1 ==> SetField(fs, tag, value)[i] == r[i - 1];
    } else if fs != [] && Clean(value) {
      assert forall i :: 1 <= i < |fs| ==> SetField(fs, tag, value)[i] == fs[i];
    }
  }

  lemma {:induction false} KindKept(fs: seq<Field>, tag: nat, value: bytes)
    requires tag != MSG_TYPE && ValidTags(fs) && tag < TWO32
    ensures GetOr(SetField(fs, tag, value), MSG_TYPE, []) == GetOr(fs, MSG_TYPE, [])
    ensures ValidTags(SetField(fs, tag, value))
  {
    SetFieldOther(fs, tag, value, MSG_TYPE);
    SetFieldTags(fs, tag, value);
  }

  lemma TypeSet(kind: bytes)
    requires Clean(kind)
    ensures GetOr(OfType(kind), MSG_TYPE, []) == kind && ValidTags(OfType(kind))
  {
  }

  predicate Built(fs: seq<Field>, kind: bytes) {
    GetOr(fs, MSG_TYPE, []) == kind && ValidTags(fs)
  }

  lemma BuiltMessages(reason: bytes, testId: bytes)
    ensures Built(OfType(LOGOUT), LOGOUT) && Built(LogoutFields(reason), LOGOUT)
    ensures Built(HeartbeatFields(testId), HEARTBEAT) && Built(TestRequestFields(testId), TEST_REQUEST)
  {
    hide Get, SetField, ValidTags;
    TypeSet(LOGOUT);
    TypeSet(HEARTBEAT);
    TypeSet(TEST_REQUEST);
    KindKept(OfType(LOGOUT), TEXT, reason);
    KindKept(OfType(HEARTBEAT), TEST_REQ_ID, testId);
    KindKept(OfType(TEST_REQUEST), TEST_REQ_ID, testId);
  }

  lemma BuiltReject(refSeq: nat, reason: nat, refType: bytes, refTag: nat, text: bytes)
    requires refTag < TWO32
    ensures Built(RejectFields(refSeq, reason, refType, refTag, text), REJECT)
  {
    hide Get, SetField, ValidTags;
    TypeSet(REJECT);
    var a := SetField(OfType(REJECT), REF_SEQ_NUM, DecInt(ToInt64(refSeq)));
    KindKept(OfType(REJECT), REF_SEQ_NUM, DecInt(ToInt64(refSeq)));
    var b := SetField(a, SESSION_REJECT_REASON, DecInt(reason));
    KindKept(a, SESSION_REJECT_REASON, DecInt(reason));
    var c := SetUnlessEmpty(b, REF_MSG_TYPE, refType);
    KindKept(b, REF_MSG_TYPE, refType);
    var d := if refTag == 0 then c else SetField(c, REF_TAG_ID, DecInt(refTag));
    KindKept(c, REF_TAG_ID, DecInt(refTag));
    KindKept(d, TEXT, text);
  }

  // ---------------------------------------------------------------------
  // Operations that only send ordinary frames
  // ---------------------------------------------------------------------

  lemma LogoutSends(cfg: Config, s: Endpoint, reason: bytes, env: Env)
    ensures Sends(cfg, s, SendLogout(cfg, s, reason, env)) && Sends(cfg, s, LogoutAndDrop(cfg, s, reason, env))
  {
    hide Send, LogoutFields, GoodFrame, Ordinary, KindOf;
    BuiltMessages(reason, []);
    OrdinaryKinds();
    SendSends(cfg, s, LogoutFields(reason), env);
    var r := SendLogout(cfg, s, reason, env);
    SendsNothing(cfg, r.s, Disconnect(r.s));
    SendsThen(cfg, s, r, r.s, Disconnect(r.s));
  }

  lemma OrdinaryKinds()
    ensures Ordinary(LOGOUT) && Ordinary(HEARTBEAT) && Ordinary(TEST_REQUEST) && Ordinary(REJECT)
  {
    assert LOGOUT[0] != RESEND_REQUEST[0] && LOGOUT[0] != SEQUENCE_RESET[0] && LOGOUT[0] != LOGON[0];
    assert HEARTBEAT[0] != RESEND_REQUEST[0] && HEARTBEAT[0] != SEQUENCE_RESET[0] && HEARTBEAT[0] != LOGON[0];
    assert TEST_REQUEST[0] != RESEND_REQUEST[0] && TEST_REQUEST[0] != SEQUENCE_RESET[0] && TEST_REQUEST[0] != LOGON[0];
    assert REJECT[0] != RESEND_REQUEST[0] && REJECT[0] != SEQUENCE_RESET[0] && REJECT[0] != LOGON[0];
  }

  lemma RejectSends(
    cfg: Config, s: Endpoint, refSeq: nat, reason: nat, refType: bytes, refTag: nat, text: bytes, env: Env)
    requires refTag < TWO32
    ensures Sends(cfg, s, SendReject(cfg, s, refSeq, reason, refType, refTag, text, env))
  {
    hide Send, RejectFields;
    BuiltReject(refSeq, reason, refType, refTag, text);
    OrdinaryKinds();
    SendSends(cfg, s, RejectFields(refSeq, reason, refType, refTag, text), env);
  }

  lemma HandleLogoutSends(cfg: Config, s: Endpoint, m: Message, env: Env)
    ensures Sends(cfg, s, HandleLogout(cfg, s, m, env))
  {
    hide Send, OfType, GoodFrame, Ordinary, KindOf, Get, ValidTags;
    BuiltMessages([], []);
    OrdinaryKinds();
    var a := Send(cfg, s, OfType(LOGOUT), env);
    SendSends(cfg, s, OfType(LOGOUT), env);
    SendsNothing(cfg, a.s, Disconnect(a.s));
    SendsThen(cfg, s, a, a.s, Disconnect(a.s));
    SendsNothing(cfg, s, Disconnect(s));
    var ended := if s.phase == LogoutSent then Disconnect(s) else Disconnect(a.s).After(a.out);
    var n := NotifyLogout(ended.s, GetOr(m.fields, TEXT, []), env);
    SendsNothing(cfg, ended.s, n);
    SendsThen(cfg, s, ended, ended.s, n);
  }

  lemma TestRequestSends(cfg: Config, s: Endpoint, testId: bytes, env: Env)
    ensures Sends(cfg, s, Send(cfg, s, HeartbeatFields(testId), env))
    ensures Sends(cfg, s, Send(cfg, s, TestRequestFields(testId), env))
  {
    hide Send, HeartbeatFields, TestRequestFields, ValidTags;
    BuiltMessages([], testId);
    OrdinaryKinds();
    SendSends(cfg, s, HeartbeatFields(testId), env);
    SendSends(cfg, s, TestRequestFields(testId), env);
  }
}
