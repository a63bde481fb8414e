/**
 Two sessions over a reliable FIFO channel: in every run from an agreed state the numbers in flight are exactly those
 between the receiver's expectation and the sender's next number, so sequence recovery never starts.
 */
module Link {
  import opened Bytes
  import opened Messages
  import opened Serializing
  import opened Streams
  import opened Protocol
  import opened Emitting
  import opened Timers
  import opened Replaying
  import opened Recovery
  import opened Handshake

  // ---------------------------------------------------------------------
  // The two-sided system
  // ---------------------------------------------------------------------

  /** Two endpoints and the frames in flight in each direction. */
  datatype System = System(a: Endpoint, b: Endpoint, ab: seq<Outgoing>, ba: seq<Outgoing>) {
    function Flip(): System {
      System(b, a, ba, ab)
    }
  }

  /** What one side does: take the next frame off its channel, or act on a timer or user call. */
  datatype Move = Receive(env: Env) | Local(ev: Event)

  datatype Action = Action(onA: bool, move: Move)

  /** A move of side `a`; nothing is received after teardown or from an empty channel. */
  ghost function MoveA(ca: Config, l: System, move: Move): Step {
    match move
    case Receive(env) =>
      if l.ba == [] || l.a.phase == Disconnected then Step(l.a, [])
      else ProcessMessage(ca, l.a, Meaning(l.ba[0]), env)
    case Local(ev) => if ev.Inbound? then Step(l.a, []) else Perform(ca, l.a, ev)
  }

  ghost function AfterA(ca: Config, l: System, move: Move): System {
    var r := MoveA(ca, l, move);
    var taken := move.Receive? && l.ba != [] && l.a.phase != Disconnected;
    System(r.s, l.b, l.ab + Emitted(r.out), if taken then l.ba[1..] else l.ba)
  }

  ghost function Next(ca: Config, cb: Config, l: System, act: Action): System {
    if act.onA then AfterA(ca, l, act.move) else AfterA(cb, l.Flip(), act.move).Flip()
  }

  /** The system after the first `i` actions. */
  ghost function SystemAt(ca: Config, cb: Config, l: System, acts: seq<Action>, i: nat): System
    requires i <= |acts|
    decreases i
  {
    if i == 0 then l else Next(ca, cb, SystemAt(ca, cb, l, acts, i - 1), acts[i - 1])
  }

  // ---------------------------------------------------------------------
  // The invariant
  // ---------------------------------------------------------------------

  /** Ordinary frames carrying exactly the numbers from `lo` up to (excluding) `hi`, in order. */
  predicate InFlight(cfg: Config, frames: seq<Outgoing>, lo: nat, hi: nat) {
    && hi == lo + |frames|
    && forall i :: 0 <= i < |frames| ==> GoodFrame(cfg, frames[i], lo + i) && Ordinary(KindOf(frames[i]))
  }

  predicate Settled(s: Endpoint) {
    Judged(s.phase) && !s.gapOpen && 1 <= s.nextTarget
  }

  predicate Agreed(ca: Config, cb: Config, l: System) {
    && Settled(l.a) && Settled(l.b)
    && InFlight(ca, l.ab, l.b.nextTarget, l.a.nextSender)
    && InFlight(cb, l.ba, l.a.nextTarget, l.b.nextSender)
  }

  /** MsgSeqNum is read as a signed 64-bit integer. */
  predicate Representable(l: System) {
    l.a.nextSender < TWO63 && l.b.nextSender < TWO63
  }

  predicate FromUsers(acts: seq<Action>) {
    forall i :: 0 <= i < |acts| ==> acts[i].move.Local? ==> FromApplication(acts[i].move.ev)
  }

  /** A completed handshake that agrees on the numbers is such a state, with nothing in flight. */
  lemma HandshakeAgrees(i: Config, si: Endpoint, a: Config, sa: Endpoint, e1: Env, e2: Env, e3: Env)
    requires Mirrored(i, a) && i.initiator && !a.initiator && CanSend(i, e1) && CanSend(a, e2)
    requires ValidHeartbeat(si.heartbeat) && si.nextSender < TWO63 && sa.nextSender < TWO63
    requires i.resetOnLogon || a.resetOnLogon
          || (sa.nextTarget <= si.nextSender + 1 && si.nextTarget <= sa.nextSender + 1)
    ensures
      var p := Connect(i, si, a, sa, e1, e2, e3);
      Agreed(i, a, System(p.initiator, p.acceptor, [], []))
  {
    hide Connect, CanSend;
    HandshakeConverges(i, si, a, sa, e1, e2, e3);
  }

  /** No frame of the step is a Logout. */
  predicate NoLogout(out: seq<Out>) {
    forall i :: 0 <= i < |Emitted(out)| ==> KindOf(Emitted(out)[i]) != LOGOUT
  }

  // ---------------------------------------------------------------------
  // Timer and user calls
  // ---------------------------------------------------------------------

  lemma TickParts(cfg: Config, s: Endpoint, env: Env)
    requires Settled(s)
    ensures Sends(cfg, s, TickHeartbeat(cfg, s, env)) && Settled(TickHeartbeat(cfg, s, env).s)
    ensures Sends(cfg, s, TickTestRequest(cfg, s, env)) && Settled(TickTestRequest(cfg, s, env).s)
    ensures TickHeartbeat(cfg, s, env).s.nextTarget == s.nextTarget
    ensures TickTestRequest(cfg, s, env).s.nextTarget == s.nextTarget
  {
    hide GoodFrame, KindOf, Ordinary, Serialize, HeartbeatFields, TestRequestFields, Patience, Emitted;
    TestRequestSends(cfg, s, [], env);
    TestRequestSends(cfg, s.(testSent := env.now, testPending := true), env.testId, env);
    SendsNothing(cfg, s, Step(s, []));
    SendsNothing(cfg, s, Disconnect(s).After([OnHeartbeatTimeout]));
  }

  lemma TickActiveSends(cfg: Config, s: Endpoint, env: Env)
    requires Settled(s)
    ensures
      var r := TickActive(cfg, s, env);
      Sends(cfg, s, r) && Settled(r.s) && r.s.nextTarget == s.nextTarget
  {
    hide TickHeartbeat, TickTestRequest, Sends, TestOverdue, Patience;
    var a := TickHeartbeat(cfg, s, env);
    TickParts(cfg, s, env);
    TickParts(cfg, a.s, env);
    var b := TickTestRequest(cfg, a.s, env);
    var timeout := Step(a.s, [OnHeartbeatTimeout]);
    SendsNothing(cfg, a.s, timeout);
    SendsThen(cfg, s, a, a.s, timeout);
    SendsThen(cfg, s, a, a.s, b);
    SendsNothing(cfg, b.s, Step(b.s, []));
    SendsThen(cfg, s, b.After(a.out), b.s, Step(b.s, []));
  }

  lemma LocalSends(cfg: Config, s: Endpoint, ev: Event)
    requires Settled(s) && FromApplication(ev) && !ev.Inbound?
    ensures
      var r := Perform(cfg, s, ev);
      Sends(cfg, s, r) && Settled(r.s) && r.s.nextTarget == s.nextTarget
  {
    hide Sends, TickActive, TickHeartbeat, Serialize, LogoutFields, IsAdmin, GetOr, ValidTags, Ascii;
    SendsNothing(cfg, s, Step(s, []));
    match ev
    case Timer(env) =>
      TickActiveSends(cfg, s, env);
      TickParts(cfg, s, env);
      var n := NotifyLogout(s, Ascii("logout timeout"), env);
      SendsNothing(cfg, s, Disconnect(n.s).After(n.out));
    case UserSend(fs, env) => SendOrdinary(cfg, s, fs, env);
    case UserLogout(reason, env) => LogoutSends(cfg, s, reason, env);
  }

  // ---------------------------------------------------------------------
  // Receiving the expected frame
  // ---------------------------------------------------------------------

  lemma SendKind(cfg: Config, s: Endpoint, fs: seq<Field>, env: Env)
    requires GetOr(fs, MSG_TYPE, []) != LOGOUT
    ensures NoLogout(Send(cfg, s, fs, env).out)
  {
    hide Serialize, GetOr, EnvelopeFor;
    var out := Send(cfg, s, fs, env).out;
    if out != [] { EmittedEmit(out[0].frame); }
  }

  lemma NotLogout()
    ensures REJECT != LOGOUT && HEARTBEAT != LOGOUT
  {
    assert REJECT[0] != LOGOUT[0] && HEARTBEAT[0] != LOGOUT[0];
  }

  lemma RejectReply(cfg: Config, s: Endpoint, m: Message, reason: nat, text: bytes, env: Env)
    ensures
      var r := SendReject(cfg, s, SeqNum(m), reason, MsgType(m), 0, text, env);
      Sends(cfg, s, r) && NoLogout(r.out)
  {
    hide RejectFields, Send, Sends, NoLogout, SeqNum, MsgType;
    RejectSends(cfg, s, SeqNum(m), reason, MsgType(m), 0, text, env);
    BuiltReject(SeqNum(m), reason, MsgType(m), 0, text);
    NotLogout();
    SendKind(cfg, s, RejectFields(SeqNum(m), reason, MsgType(m), 0, text), env);
  }

  lemma QuietStep(cfg: Config, s: Endpoint, r: Step)
    requires r.s.nextSender == s.nextSender && forall i :: 0 <= i < |r.out| ==> !r.out[i].Emit?
    ensures Sends(cfg, s, r) && NoLogout(r.out)
  {
    EmittedNothing(r.out);
  }

  lemma AdminReply(cfg: Config, s: Endpoint, m: Message, env: Env)
    requires Ordinary(MsgType(m)) && s.phase != LogonSent
    ensures
      var r := ProcessAdmin(cfg, s, m, env);
      Sends(cfg, s, r) && (MsgType(m) != LOGOUT ==> NoLogout(r.out))
  {
    hide HandleLogon, HandleLogout, HandleResendRequest, HandleSequenceReset, Send, Sends, NoLogout, MsgType,
      HeartbeatFields, Get, Ascii, RejectInfo;
    QuietStep(cfg, s, Step(s, []));
    if MsgType(m) == LOGOUT {
      HandleLogoutSends(cfg, s, m, env);
    } else if MsgType(m) == TEST_REQUEST {
      var id := GetOr(m.fields, TEST_REQ_ID, Ascii("TEST"));
      TestRequestSends(cfg, s, id, env);
      BuiltMessages([], id);
      NotLogout();
      SendKind(cfg, s, HeartbeatFields(id), env);
    } else if MsgType(m) == REJECT {
      QuietStep(cfg, s, HandleReject(s, m, env));
    }
  }

  lemma AcceptedReply(cfg: Config, s: Endpoint, m: Message, env: Env)
    requires Ordinary(MsgType(m)) && s.phase != LogonSent
    ensures
      var r := Accepted(cfg, s, m, true, env);
      Sends(cfg, s, r) && (MsgType(m) != LOGOUT ==> NoLogout(r.out))
  {
    hide ProcessAdmin, SendReject, NoLogout, MsgType, Ascii, SeqNum, IsAdmin, Emitted, GoodFrame, KindOf, Ordinary;
    RejectReply(cfg, s, m, 13, Ascii("Tag appears more than once"), env);
    RejectReply(cfg, s, m, 99, Ascii("Session not active"), env);
    AdminReply(cfg, s, m, env);
    QuietStep(cfg, s, Step(s, [Deliver(m)] + Thrown(env)));
  }

  /** A step that may tear down or log out but does not touch inbound accounting. */
  predicate KeepsInbound(s: Endpoint, t: Endpoint) {
    t.nextTarget == s.nextTarget && !t.gapOpen && Judged(t.phase)
  }

  lemma SendKeepsInbound(cfg: Config, s: Endpoint, fs: seq<Field>, env: Env)
    requires Settled(s)
    ensures KeepsInbound(s, Send(cfg, s, fs, env).s)
  {
    hide Serialize;
  }

  lemma LogoutKeepsInbound(cfg: Config, s: Endpoint, m: Message, env: Env)
    requires Settled(s)
    ensures KeepsInbound(s, HandleLogout(cfg, s, m, env).s)
  {
    hide Send, OfType, GetOr;
    SendKeepsInbound(cfg, s, OfType(LOGOUT), env);
  }

  lemma AdminKeepsInbound(cfg: Config, s: Endpoint, m: Message, env: Env)
    requires Settled(s) && Ordinary(MsgType(m))
    ensures KeepsInbound(s, ProcessAdmin(cfg, s, m, env).s)
  {
    hide Send, HandleLogon, HandleLogout, HandleResendRequest, HandleSequenceReset, MsgType, GetOr, GetInt, HeartbeatFields,
      RejectInfo, Ascii;
    LogoutKeepsInbound(cfg, s, m, env);
    SendKeepsInbound(cfg, s, HeartbeatFields(GetOr(m.fields, TEST_REQ_ID, Ascii("TEST"))), env);
  }

  lemma AppKeepsInbound(cfg: Config, s: Endpoint, m: Message, env: Env)
    requires Settled(s)
    ensures KeepsInbound(s, ProcessApp(cfg, s, m, env).s)
  {
    hide Send, RejectFields, MsgType, SeqNum, Ascii;
    SendKeepsInbound(cfg, s, RejectFields(SeqNum(m), 99, MsgType(m), 0, Ascii("Session not active")), env);
  }

  /** Accepting an ordinary message takes its number, opens no gap and leaves the session judged. */
  lemma AcceptedState(cfg: Config, s: Endpoint, m: Message, env: Env)
    requires Ordinary(MsgType(m)) && Settled(s) && SeqNum(m) == s.nextTarget < TWO63
    ensures
      var t := Accepted(cfg, s, m, true, env).s;
      Settled(t) && t.nextTarget == s.nextTarget + 1
  {
    hide ProcessAdmin, ProcessApp, Send, RejectFields, MsgType, SeqNum, Ascii, IsAdmin;
    AdminKeepsInbound(cfg, s, m, env);
    AppKeepsInbound(cfg, s, m, env);
    SendKeepsInbound(cfg, s, RejectFields(SeqNum(m), 13, MsgType(m), 0, Ascii("Tag appears more than once")), env);
  }

  /** The expected frame is accepted: neither the gap nor the too-low branch is taken. */
  lemma ReceiveExpected(a: Config, b: Config, s: Endpoint, x: Outgoing, env: Env)
    requires Mirrored(a, b) && GoodFrame(a, x, s.nextTarget) && Ordinary(KindOf(x))
    requires Settled(s) && s.nextTarget < TWO63
    ensures
      var m := Meaning(x);
      var seen := ClearGap(s.(lastRecv := env.now, testPending := false));
      ProcessMessage(b, s, m, env) == Accepted(b, seen, m, true, env)
      && SeqNum(m) == s.nextTarget && MsgType(m) == KindOf(x)
  {
    hide Get, ParseVersion, Identified, SeqNum, MsgType, NoRepeats, KindOf, GoodFrame, PossDup, Meaning, Accepted, Ascii;
    Seen(a, b, x, s.nextTarget);
  }

  lemma ReceiveSends(a: Config, b: Config, s: Endpoint, x: Outgoing, env: Env)
    requires Mirrored(a, b) && GoodFrame(a, x, s.nextTarget) && Ordinary(KindOf(x))
    requires Settled(s) && s.nextTarget < TWO63
    ensures
      var r := ProcessMessage(b, s, Meaning(x), env);
      && Sends(b, s, r) && Settled(r.s) && r.s.nextTarget == s.nextTarget + 1
      && (KindOf(x) != LOGOUT ==> NoLogout(r.out))
  {
    hide Accepted, ProcessMessage, KindOf, GoodFrame, Meaning, SeqNum, MsgType, NoLogout, Emitted, Ordinary;
    var seen := ClearGap(s.(lastRecv := env.now, testPending := false));
    ReceiveExpected(a, b, s, x, env);
    AcceptedReply(b, seen, Meaning(x), env);
    AcceptedState(b, seen, Meaning(x), env);
  }

  // ---------------------------------------------------------------------
  // One action, and whole runs
  // ---------------------------------------------------------------------

  lemma InFlightAppend(cfg: Config, frames: seq<Outgoing>, lo: nat, s: Endpoint, r: Step)
    requires InFlight(cfg, frames, lo, s.nextSender) && Sends(cfg, s, r)
    ensures InFlight(cfg, frames + Emitted(r.out), lo, r.s.nextSender)
  {
    hide GoodFrame, KindOf, Ordinary, Emitted;
    var more := Emitted(r.out);
    forall i | 0 <= i < |frames + more|
      ensures GoodFrame(cfg, (frames + more)[i], lo + i) && Ordinary(KindOf((frames + more)[i]))
    {
      if i >= |frames| { assert (frames + more)[i] == more[i - |frames|]; }
    }
  }

  lemma MoveKeepsAgreed(ca: Config, cb: Config, l: System, move: Move)
    requires Mirrored(ca, cb) && Agreed(ca, cb, l) && Representable(l)
    requires move.Local? ==> FromApplication(move.ev)
    ensures Agreed(ca, cb, AfterA(ca, l, move))
  {
    hide GoodFrame, KindOf, Ordinary, Emitted, Sends, ProcessMessage, Perform, Meaning, NoLogout;
    var r := MoveA(ca, l, move);
    match move {
      case Receive(env) =>
        if l.ba != [] && l.a.phase != Disconnected {
          assert GoodFrame(cb, l.ba[0], l.a.nextTarget + 0);
          ReceiveSends(cb, ca, l.a, l.ba[0], env);
          assert InFlight(cb, l.ba[1..], r.s.nextTarget, l.b.nextSender) by {
            forall i | 0 <= i < |l.ba[1..]|
              ensures GoodFrame(cb, l.ba[1..][i], l.a.nextTarget + 1 + i) && Ordinary(KindOf(l.ba[1..][i]))
            {
              assert GoodFrame(cb, l.ba[i + 1], l.a.nextTarget + (i + 1));
            }
          }
        } else {
          SendsNothing(ca, l.a, r);
        }
      case Local(ev) =>
        SendsNothing(ca, l.a, Step(l.a, []));
        if !ev.Inbound? { LocalSends(ca, l.a, ev); }
    }
    InFlightAppend(ca, l.ab, l.b.nextTarget, l.a, r);
  }

  lemma NextKeepsAgreed(ca: Config, cb: Config, l: System, act: Action)
    requires Mirrored(ca, cb) && Agreed(ca, cb, l) && Representable(l)
    requires act.move.Local? ==> FromApplication(act.move.ev)
    ensures Agreed(ca, cb, Next(ca, cb, l, act))
  {
    hide AfterA, InFlight, Settled;
    if act.onA {
      MoveKeepsAgreed(ca, cb, l, act.move);
    } else {
      MoveKeepsAgreed(cb, ca, l.Flip(), act.move);
    }
  }

  /**
   Lossless link safety: in every run from an agreed state, at every point, the numbers in flight are exactly
   those from the receiver's NextTarget up to the sender's NextSender and no side has an open gap.
   */
  lemma {:induction false} LosslessLink(ca: Config, cb: Config, l: System, acts: seq<Action>, i: nat)
    requires Mirrored(ca, cb) && Agreed(ca, cb, l) && FromUsers(acts) && i <= |acts|
    requires forall j :: 0 <= j < i ==> Representable(SystemAt(ca, cb, l, acts, j))
    ensures Agreed(ca, cb, SystemAt(ca, cb, l, acts, i))
    decreases i
  {
    hide Agreed, Next, Representable, FromApplication;
    if i > 0 {
      LosslessLink(ca, cb, l, acts, i - 1);
      NextKeepsAgreed(ca, cb, SystemAt(ca, cb, l, acts, i - 1), acts[i - 1]);
    }
  }

  /**
   So in such a run a received frame always carries the expected number, is neither a gap nor too low, and
   neither side ever sends a ResendRequest, nor a Logout in answer to anything but a Logout.
   */
  lemma {:induction false} NoRecoveryOnLosslessLink(ca: Config, cb: Config, l: System, acts: seq<Action>, i: nat)
    requires Mirrored(ca, cb) && Agreed(ca, cb, l) && FromUsers(acts) && i < |acts|
    requires forall j :: 0 <= j <= i ==> Representable(SystemAt(ca, cb, l, acts, j))
    ensures
      var t := SystemAt(ca, cb, l, acts, i);
      var (cfg, here) := if acts[i].onA then (ca, t) else (cb, t.Flip());
      var r := MoveA(cfg, here, acts[i].move);
      && (forall k :: 0 <= k < |Emitted(r.out)| ==> Ordinary(KindOf(Emitted(r.out)[k])))
      && (acts[i].move.Receive? && here.ba != [] && here.a.phase != Disconnected ==>
            && SeqNum(Meaning(here.ba[0])) == here.a.nextTarget
            && (KindOf(here.ba[0]) != LOGOUT ==> NoLogout(r.out)))
  {
    hide Agreed, SystemAt, Representable, FromApplication, MoveA, Emitted, KindOf, NoLogout, Meaning, SeqNum;
    LosslessLink(ca, cb, l, acts, i);
    var t := SystemAt(ca, cb, l, acts, i);
    if acts[i].onA {
      MoveQuiet(ca, cb, t, acts[i].move);
    } else {
      Mirror(ca, cb, t);
      MoveQuiet(cb, ca, t.Flip(), acts[i].move);
    }
  }

  lemma Mirror(ca: Config, cb: Config, l: System)
    requires Agreed(ca, cb, l) && Representable(l)
    ensures Agreed(cb, ca, l.Flip()) && Representable(l.Flip())
  {
  }

  lemma MoveQuiet(ca: Config, cb: Config, l: System, move: Move)
    requires Mirrored(ca, cb) && Agreed(ca, cb, l) && Representable(l)
    requires move.Local? ==> FromApplication(move.ev)
    ensures
      var r := MoveA(ca, l, move);
      && (forall k :: 0 <= k < |Emitted(r.out)| ==> Ordinary(KindOf(Emitted(r.out)[k])))
      && (move.Receive? && l.ba != [] && l.a.phase != Disconnected ==>
            SeqNum(Meaning(l.ba[0])) == l.a.nextTarget && (KindOf(l.ba[0]) != LOGOUT ==> NoLogout(r.out)))
  {
    hide GoodFrame, KindOf, Ordinary, Emitted, ProcessMessage, Perform, Meaning, NoLogout, Accepted, SeqNum, MsgType;
    var r := MoveA(ca, l, move);
    SendsNothing(ca, l.a, Step(l.a, []));
    match move
    case Receive(env) =>
      if l.ba != [] && l.a.phase != Disconnected {
        assert GoodFrame(cb, l.ba[0], l.a.nextTarget + 0);
        ReceiveExpected(cb, ca, l.a, l.ba[0], env);
        ReceiveSends(cb, ca, l.a, l.ba[0], env);
      }
    case Local(ev) =>
      if !ev.Inbound? { LocalSends(ca, l.a, ev); }
  }
}
