/**
 Liveness of the peer: the heartbeat and TestRequest timer reports only real silence, and drops a silent peer.
 */
module Liveness {
  import opened Bytes
  import opened Messages
  import opened Serializing
  import opened Stores
  import opened Protocol
  import opened Timers

  // ---------------------------------------------------------------------
  // Liveness of the peer
  // ---------------------------------------------------------------------

  /** A pending TestRequest was sent after at least one silent heartbeat interval. */
  predicate LiveInv(s: Endpoint) {
    s.testPending ==> s.testSent - s.lastRecv >= s.heartbeat * 1000
  }

  /** The time of the last inbound message is kept, no TestRequest becomes pending and no timeout is reported. */
  predicate Unhurried(s: Endpoint, r: Step) {
    && r.s.lastRecv == s.lastRecv && (r.s.testPending ==> s.testPending)
    && forall i :: 0 <= i < |r.out| ==> !r.out[i].OnHeartbeatTimeout?
  }

  /** Sending changes only the outbound side. */
  predicate OnlySent(s: Endpoint, t: Endpoint) {
    t == s.(nextSender := t.nextSender, outbound := t.outbound, lastSend := t.lastSend)
  }

  lemma SendUnhurried(cfg: Config)
    ensures forall s: Endpoint, fs: seq<Field>, env: Env {:trigger Send(cfg, s, fs, env)} ::
              Unhurried(s, Send(cfg, s, fs, env)) && OnlySent(s, Send(cfg, s, fs, env).s)
  {
    hide Serialize, EnvelopeFor;
  }

  lemma LogoutUnhurried(cfg: Config)
    ensures forall s: Endpoint, reason: bytes, env: Env {:trigger LogoutAndDrop(cfg, s, reason, env)} ::
              Unhurried(s, LogoutAndDrop(cfg, s, reason, env))
  {
    hide Send, LogoutFields;
    SendUnhurried(cfg);
  }

  lemma SendLogonUnhurried(cfg: Config, s: Endpoint, env: Env)
    ensures Unhurried(s, SendLogon(cfg, s, env).0)
  {
    hide Send, LogonFields;
    SendUnhurried(cfg);
  }

  lemma AnswerLogonUnhurried(cfg: Config, s: Endpoint, env: Env)
    ensures
      var (r, sent) := SendLogon(cfg, s, env);
      && Unhurried(s, LogonCompleted(r.s, env).After(r.out))
      && Unhurried(s, Step(r.s, r.out + [Report]))
  {
    hide SendLogon;
    SendLogonUnhurried(cfg, s, env);
  }

  lemma LogonUnhurried(cfg: Config, s: Endpoint, m: Message, env: Env)
    ensures Unhurried(s, HandleLogon(cfg, s, m, env))
  {
    hide LogoutAndDrop, SendLogon, GetInt, GetOr, Ascii, LogonCompleted;
    LogoutUnhurried(cfg);
    var hb := GetInt(m.fields, HEART_BT_INT);
    if hb.Some? {
      var adopted := s.(heartbeat := ToInt32(hb.value));
      AnswerLogonUnhurried(cfg, ClearGap(adopted), env);
      AnswerLogonUnhurried(cfg, ClearGap(adopted.(nextTarget := 1)), env);
      CompletedUnhurried(ClearGap(adopted), env);
      CompletedUnhurried(ClearGap(adopted.(nextTarget := 1)), env);
    }
  }

  lemma CompletedUnhurried(s: Endpoint, env: Env)
    ensures Unhurried(s, LogonCompleted(s, env))
  {
  }

  lemma NotifyUnhurried(s: Endpoint, reason: bytes, env: Env)
    ensures Unhurried(s, NotifyLogout(s, reason, env))
  {
  }

  lemma HandleLogoutUnhurried(cfg: Config, s: Endpoint, m: Message, env: Env)
    ensures Unhurried(s, HandleLogout(cfg, s, m, env))
  {
    hide Send, GetOr, OfType, NotifyLogout;
    SendUnhurried(cfg);
    var reason := GetOr(m.fields, TEXT, []);
    NotifyUnhurried(Disconnect(s).s, reason, env);
    NotifyUnhurried(Disconnect(Send(cfg, s, OfType(LOGOUT), env).s).s, reason, env);
  }

  lemma HandleRejectUnhurried(s: Endpoint, m: Message, env: Env)
    ensures Unhurried(s, HandleReject(s, m, env))
  {
    hide GetInt, Ascii, RejectInfo;
  }

  lemma LogoutRejectUnhurried(cfg: Config, s: Endpoint, m: Message, env: Env)
    ensures Unhurried(s, HandleLogout(cfg, s, m, env)) && Unhurried(s, HandleReject(s, m, env))
  {
    hide HandleLogout, HandleReject, Unhurried;
    HandleLogoutUnhurried(cfg, s, m, env);
    HandleRejectUnhurried(s, m, env);
  }

  lemma ResendUnhurried(cfg: Config, s: Endpoint, m: Message, env: Env)
    ensures Unhurried(s, HandleResendRequest(cfg, s, m, env))
  {
    hide Send, RejectFields, GetInt, Ascii, Replay, Snapshot, EndOf, SeqNum, MsgType;
    SendUnhurried(cfg);
  }

  lemma ResetUnhurried(cfg: Config, s: Endpoint, m: Message, env: Env)
    ensures Unhurried(s, HandleSequenceReset(cfg, s, m, env))
  {
    hide Send, LogoutAndDrop, ResendRequestFields, GetInt, Ascii, SeqNum, PossDup, IsGapFill;
    SendUnhurried(cfg);
    LogoutUnhurried(cfg);
  }

  lemma AcceptedUnhurried(cfg: Config, s: Endpoint, m: Message, judged: bool, env: Env)
    ensures Unhurried(s, Accepted(cfg, s, m, judged, env))
  {
    hide Send, RejectFields, HeartbeatFields, Get, Ascii, SeqNum, MsgType, PossDup, IsAdmin, HandleLogon, HandleLogout,
      HandleReject, HandleSequenceReset, HandleResendRequest;
    SendUnhurried(cfg);
    LogonUnhurried(cfg, s, m, env);
    LogoutRejectUnhurried(cfg, s, m, env);
    ResendUnhurried(cfg, s, m, env);
    ResetUnhurried(cfg, s, m, env);
  }

  lemma OutOfSequenceUnhurried(cfg: Config, s: Endpoint, m: Message, env: Env)
    requires ValidateSeqNum(cfg, s, m, env).OutOfSequence?
    ensures Unhurried(s, ValidateSeqNum(cfg, s, m, env).step)
  {
    hide Send, RejectFields, LogoutFields, ResendRequestFields, Ascii, SeqNum, MsgType, PossDup;
    SendUnhurried(cfg);
  }

  /** Any inbound message stamps its time and clears the pending TestRequest. */
  lemma MessageStamps(cfg: Config, s0: Endpoint, m: Message, env: Env)
    ensures
      var r := ProcessMessage(cfg, s0, m, env);
      && r.s.lastRecv == env.now && !r.s.testPending
      && forall i :: 0 <= i < |r.out| ==> !r.out[i].OnHeartbeatTimeout?
  {
    hide Send, RejectFields, LogoutFields, Ascii, SeqNum, MsgType, PossDup, Get, ParseVersion, Identified, Accepted,
      HandleSequenceReset, ValidateSeqNum;
    SendUnhurried(cfg);
    var s := s0.(lastRecv := env.now, testPending := false);
    ResetUnhurried(cfg, s, m, env);
    AcceptedUnhurried(cfg, ClearGap(s), m, true, env);
    AcceptedUnhurried(cfg, s, m, false, env);
    if ValidateSeqNum(cfg, s, m, env).OutOfSequence? { OutOfSequenceUnhurried(cfg, s, m, env); }
  }

  /** A timeout is reported only after 2.2 silent intervals. */
  predicate TimeoutJustified(s: Endpoint, r: Step, now: int) {
    forall i :: 0 <= i < |r.out| && r.out[i].OnHeartbeatTimeout? ==>
      s.phase == Active && now - s.lastRecv >= s.heartbeat * 1000 + Patience(s.heartbeat)
  }

  lemma TickHeartbeatLive(cfg: Config, s: Endpoint, env: Env)
    ensures var a := TickHeartbeat(cfg, s, env); Unhurried(s, a) && OnlySent(s, a.s)
  {
    hide Send, HeartbeatFields, TestRequestFields, ResendRequestFields, Patience;
    SendUnhurried(cfg);
  }

  lemma TickTestLive(cfg: Config, s: Endpoint, env: Env)
    requires LiveInv(s)
    ensures
      var b := TickTestRequest(cfg, s, env);
      && LiveInv(b.s) && b.s.lastRecv == s.lastRecv && b.s.heartbeat == s.heartbeat
      && forall i :: 0 <= i < |b.out| && b.out[i].OnHeartbeatTimeout? ==> TestOverdue(s, env.now)
  {
    hide Send, HeartbeatFields, TestRequestFields, ResendRequestFields, Patience;
    SendUnhurried(cfg);
  }

  lemma TickGapLive(cfg: Config, s: Endpoint, env: Env)
    requires LiveInv(s)
    ensures var c := TickGap(cfg, s, env); Unhurried(s, c) && LiveInv(c.s)
  {
    hide Send, HeartbeatFields, TestRequestFields, ResendRequestFields, Patience;
    SendUnhurried(cfg);
  }

  lemma TickLive(cfg: Config, s: Endpoint, env: Env)
    requires LiveInv(s)
    ensures
      var r := Tick(cfg, s, env);
      LiveInv(r.s) && r.s.lastRecv == s.lastRecv && TimeoutJustified(s, r, env.now)
  {
    hide TickHeartbeat, TickTestRequest, TickGap, Patience, Ascii;
    TickHeartbeatLive(cfg, s, env);
    var a := TickHeartbeat(cfg, s, env).s;
    TickTestLive(cfg, a, env);
    TickGapLive(cfg, TickTestRequest(cfg, a, env).s, env);
  }

  lemma EventLive(cfg: Config, s: Endpoint, ev: Event)
    requires LiveInv(s)
    ensures
      var r := Perform(cfg, s, ev);
      && LiveInv(r.s) && TimeoutJustified(s, r, ev.env.now)
      && r.s.lastRecv == if ev.Inbound? && s.phase != Disconnected then ev.env.now else s.lastRecv
  {
    hide Send, Tick, ProcessMessage, LogoutFields, Patience;
    SendUnhurried(cfg);
    match ev
    case Inbound(m, env) => MessageStamps(cfg, s, m, env);
    case Timer(env) => TickLive(cfg, s, env);
    case UserSend(_, _) =>
    case UserLogout(_, _) =>
  }

  /** The recorded time is not before any inbound message processed so far. */
  lemma {:induction false} LastRecvCovers(cfg: Config, s: Endpoint, evs: seq<Event>, i: nat, j: nat)
    requires LiveInv(s) && Monotone(s.lastRecv, evs) && j <= i <= |evs|
    ensures LiveInv(StateAt(cfg, s, evs, i))
    ensures s.lastRecv <= StateAt(cfg, s, evs, i).lastRecv
    ensures j < i && evs[j].Inbound? && StateAt(cfg, s, evs, j).phase != Disconnected ==>
      evs[j].env.now <= StateAt(cfg, s, evs, i).lastRecv
    decreases i
  {
    hide Perform, LiveInv;
    if i > 0 {
      EventLive(cfg, s, evs[0]);
      var t := Perform(cfg, s, evs[0]).s;
      LastRecvCovers(cfg, t, evs[1..], i - 1, if j > 0 then j - 1 else 0);
    }
  }

  /** The same from any state in which a pending TestRequest is justified. */
  lemma {:induction false} TimeoutSoundFrom(cfg: Config, s: Endpoint, evs: seq<Event>, i: nat, k: nat)
    requires LiveInv(s) && Monotone(s.lastRecv, evs) && i < |evs|
    requires
      var out := Perform(cfg, StateAt(cfg, s, evs, i), evs[i]).out;
      k < |out| && out[k].OnHeartbeatTimeout?
    ensures
      var silence := StateAt(cfg, s, evs, i).heartbeat * 1000 + Patience(StateAt(cfg, s, evs, i).heartbeat);
      && evs[i].env.now - s.lastRecv >= silence
      && forall j :: 0 <= j < i && evs[j].Inbound? && StateAt(cfg, s, evs, j).phase != Disconnected ==>
           evs[i].env.now - evs[j].env.now >= silence
  {
    hide Perform, LiveInv, Patience;
    var t := StateAt(cfg, s, evs, i);
    LastRecvCovers(cfg, s, evs, i, 0);
    EventLive(cfg, t, evs[i]);
    forall j | 0 <= j < i && evs[j].Inbound? && StateAt(cfg, s, evs, j).phase != Disconnected
      ensures evs[j].env.now <= t.lastRecv
    {
      LastRecvCovers(cfg, s, evs, i, j);
    }
  }

  lemma ConnectedLive(cfg: Config, s: Endpoint, env: Env)
    ensures var t := TransportConnected(cfg, s, env).s; LiveInv(t) && t.lastRecv == env.now
  {
    hide SendLogon;
    var t := FreshConnection(s, env);
    SendLogonUnhurried(cfg, if t.phase == NotConnected then t else t.(phase := Disconnected), env);
  }

  /**
   Liveness timer soundness: in every run of a connection with a clock that never goes back, when a heartbeat timeout is
   reported, the connecting and every inbound message processed since lie at least 2.2 heartbeat intervals in the past.
   */
  lemma {:induction false} HeartbeatTimeoutSound(cfg: Config, s0: Endpoint, env: Env, evs: seq<Event>, i: nat, k: nat)
    requires Monotone(env.now, evs) && i < |evs|
    requires
      var out := Perform(cfg, StateAt(cfg, TransportConnected(cfg, s0, env).s, evs, i), evs[i]).out;
      k < |out| && out[k].OnHeartbeatTimeout?
    ensures
      var s := TransportConnected(cfg, s0, env).s;
      var silence := StateAt(cfg, s, evs, i).heartbeat * 1000 + Patience(StateAt(cfg, s, evs, i).heartbeat);
      && evs[i].env.now - env.now >= silence
      && forall j :: 0 <= j < i && evs[j].Inbound? && StateAt(cfg, s, evs, j).phase != Disconnected ==>
           evs[i].env.now - evs[j].env.now >= silence
  {
    hide Perform, LiveInv, Patience, TransportConnected;
    ConnectedLive(cfg, s0, env);
    TimeoutSoundFrom(cfg, TransportConnected(cfg, s0, env).s, evs, i, k);
  }

  // ---------------------------------------------------------------------
  // A silent peer is dropped
  // ---------------------------------------------------------------------

  /** Nothing arrives: only ticks and application sends. */
  predicate Silent(evs: seq<Event>) {
    forall i :: 0 <= i < |evs| ==> evs[i].Timer? || evs[i].UserSend?
  }

  /** While the peer is silent a TestRequest stays pending until the session is dropped. */
  predicate Probing(s: Endpoint, since: int, hb: int) {
    s.phase == Disconnected || (s.phase == Active && s.testPending && s.testSent <= since && s.heartbeat == hb)
  }

  /** A tick of a probing session, part by part. */
  lemma ProbeTick(cfg: Config, s: Endpoint, env: Env, since: int)
    requires s.phase == Active && Probing(s, since, s.heartbeat)
    ensures Probing(Tick(cfg, s, env).s, since, s.heartbeat)
    ensures !env.throws && env.now - since >= Patience(s.heartbeat) ==> Tick(cfg, s, env).s.phase == Disconnected
  {
    hide TickHeartbeat, TickGap, Send, TestRequestFields, Patience, HeartbeatFields, ResendRequestFields;
    TickHeartbeatLive(cfg, s, env);
    var b := TickTestRequest(cfg, TickHeartbeat(cfg, s, env).s, env).s;
    GapKeepsProbe(cfg, b, env);
  }

  lemma GapKeepsProbe(cfg: Config, s: Endpoint, env: Env)
    ensures
      var c := TickGap(cfg, s, env).s;
      || c.phase == Disconnected
      || (c.testPending == s.testPending && c.testSent == s.testSent && c.heartbeat == s.heartbeat && c.phase == s.phase)
  {
    hide Send, ResendRequestFields, Patience;
    SendUnhurried(cfg);
  }

  lemma ProbeEvent(cfg: Config, s: Endpoint, ev: Event, since: int)
    requires Probing(s, since, s.heartbeat) && (ev.Timer? || ev.UserSend?)
    ensures Probing(Perform(cfg, s, ev).s, since, s.heartbeat)
    ensures ev.Timer? && !ev.env.throws && ev.env.now - since >= Patience(s.heartbeat) ==>
      Perform(cfg, s, ev).s.phase == Disconnected
  {
    hide Send, TickActive, Patience;
    if s.phase == Active && ev.Timer? {
      ProbeTick(cfg, s, ev.env, since);
    } else {
      SendUnhurried(cfg);
    }
  }

  lemma {:induction false} ProbeEnds(cfg: Config, s: Endpoint, evs: seq<Event>, since: int, hb: int, j: nat)
    requires Probing(s, since, hb) && Silent(evs) && j < |evs|
    requires evs[j].Timer? && !evs[j].env.throws && evs[j].env.now - since >= Patience(hb)
    ensures Run(cfg, s, evs).s.phase == Disconnected
    decreases |evs|
  {
    hide Perform, Patience;
    if s.phase == Disconnected {
      StaysDown(cfg, s, evs);
    } else {
      ProbeEvent(cfg, s, evs[0], since);
      var t := Perform(cfg, s, evs[0]).s;
      if j == 0 {
        StaysDown(cfg, t, evs[1..]);
      } else {
        ProbeEnds(cfg, t, evs[1..], since, hb, j - 1);
      }
    }
  }

  /** Before the probe: a silent event keeps the last time heard, and any probe it sends is not in the future. */
  predicate Waiting(s: Endpoint, heard: int, hb: int, now: int) {
    || s.phase == Disconnected
    || (s.phase == Active && s.lastRecv == heard && s.heartbeat == hb && (s.testPending ==> s.testSent <= now))
  }

  lemma HeartbeatOnlySends(cfg: Config, s: Endpoint, env: Env)
    ensures OnlySent(s, TickHeartbeat(cfg, s, env).s)
  {
    hide Send, HeartbeatFields;
    SendUnhurried(cfg);
  }

  lemma TestRequestWaits(cfg: Config, s: Endpoint, env: Env, heard: int, hb: int)
    requires Waiting(s, heard, hb, env.now) && s.phase == Active
    ensures Waiting(TickTestRequest(cfg, s, env).s, heard, hb, env.now)
    ensures env.now - heard >= hb * 1000 ==> Probing(TickTestRequest(cfg, s, env).s, env.now, hb)
  {
    hide Send, TestRequestFields, Patience;
    SendUnhurried(cfg);
  }

  lemma GapRetryWaits(cfg: Config, s: Endpoint, env: Env, heard: int, hb: int)
    ensures Waiting(s, heard, hb, env.now) ==> Waiting(TickGap(cfg, s, env).s, heard, hb, env.now)
    ensures Probing(s, env.now, hb) ==> Probing(TickGap(cfg, s, env).s, env.now, hb)
  {
    hide Send, ResendRequestFields, Patience;
    SendUnhurried(cfg);
  }

  lemma WaitingTick(cfg: Config, s: Endpoint, env: Env, heard: int, hb: int)
    requires Waiting(s, heard, hb, env.now) && s.phase == Active
    ensures Waiting(TickActive(cfg, s, env).s, heard, hb, env.now)
    ensures env.now - heard >= hb * 1000 ==> Probing(TickActive(cfg, s, env).s, env.now, hb)
  {
    hide TickHeartbeat, TickTestRequest, TickGap, Patience;
    HeartbeatOnlySends(cfg, s, env);
    var a := TickHeartbeat(cfg, s, env).s;
    TestRequestWaits(cfg, a, env, heard, hb);
    GapRetryWaits(cfg, TickTestRequest(cfg, a, env).s, env, heard, hb);
  }

  lemma WaitingEvent(cfg: Config, s: Endpoint, ev: Event, heard: int, hb: int)
    requires Waiting(s, heard, hb, ev.env.now) && (ev.Timer? || ev.UserSend?)
    ensures Waiting(Perform(cfg, s, ev).s, heard, hb, ev.env.now)
    ensures ev.Timer? && ev.env.now - heard >= hb * 1000 ==> Probing(Perform(cfg, s, ev).s, ev.env.now, hb)
  {
    hide Send, TickActive;
    SendUnhurried(cfg);
    if ev.Timer? && s.phase == Active { WaitingTick(cfg, s, ev.env, heard, hb); }
  }

  lemma {:induction false} SilenceEnds(cfg: Config, s: Endpoint, evs: seq<Event>, heard: int, hb: int, i: nat, j: nat)
    requires Silent(evs) && i < j < |evs| && Waiting(s, heard, hb, evs[0].env.now) && Monotone(evs[0].env.now, evs)
    requires evs[i].Timer? && evs[i].env.now - heard >= hb * 1000
    requires evs[j].Timer? && !evs[j].env.throws && evs[j].env.now - evs[i].env.now >= Patience(hb)
    ensures Run(cfg, s, evs).s.phase == Disconnected
    decreases |evs|
  {
    hide Perform, Patience;
    var t := Perform(cfg, s, evs[0]).s;
    WaitingEvent(cfg, s, evs[0], heard, hb);
    if i == 0 {
      ProbeEnds(cfg, t, evs[1..], evs[0].env.now, hb, j - 1);
    } else {
      assert evs[0].env.now <= evs[1].env.now;
      SilenceEnds(cfg, t, evs[1..], heard, hb, i - 1, j - 1);
    }
  }

  /**
   A dead peer is dropped even while the application keeps sending to it: an Active session that hears nothing, is
   ticked at some point after a silent interval, and once more 1.2 intervals after that by a tick whose timeout callback
   does not throw, ends up disconnected.
   */
  lemma {:induction false} SilenceDrops(cfg: Config, s: Endpoint, evs: seq<Event>, i: nat, j: nat)
    requires s.phase == Active && Silent(evs) && i < j < |evs| && Monotone(evs[0].env.now, evs)
    requires s.testPending ==> s.testSent <= evs[0].env.now
    requires evs[i].Timer? && evs[i].env.now - s.lastRecv >= s.heartbeat * 1000
    requires evs[j].Timer? && !evs[j].env.throws && evs[j].env.now - evs[i].env.now >= Patience(s.heartbeat)
    ensures Run(cfg, s, evs).s.phase == Disconnected
  {
    hide Run, Patience;
    SilenceEnds(cfg, s, evs, s.lastRecv, s.heartbeat, i, j);
  }

  // ---------------------------------------------------------------------
  // When the timeout callback throws
  // ---------------------------------------------------------------------

  /** The tick that would drop the session. */
  predicate Drops(s: Endpoint, ev: Event) {
    ev.Timer? && !ev.env.throws && ev.env.now - s.testSent >= Patience(s.heartbeat)
  }

  lemma PendingEvent(cfg: Config, s: Endpoint, ev: Event)
    requires s.phase == Active && s.testPending && !s.gapOpen && (ev.Timer? || ev.UserSend?) && !Drops(s, ev)
    ensures
      var t := Perform(cfg, s, ev).s;
      t.phase == Active && t.testPending && !t.gapOpen && t.testSent == s.testSent && t.heartbeat == s.heartbeat
  {
    hide Send, HeartbeatFields, ResendRequestFields, TestRequestFields, Patience;
    SendUnhurried(cfg);
  }

  lemma {:induction false} PendingStays(cfg: Config, s: Endpoint, evs: seq<Event>)
    requires s.phase == Active && s.testPending && !s.gapOpen && Silent(evs)
    requires forall i :: 0 <= i < |evs| ==> !Drops(s, evs[i])
    ensures Run(cfg, s, evs).s.phase == Active
    decreases |evs|
  {
    hide Perform, Patience;
    if evs != [] {
      PendingEvent(cfg, s, evs[0]);
      PendingStays(cfg, Perform(cfg, s, evs[0]).s, evs[1..]);
    }
  }

  /**
   The exact condition: with a TestRequest pending, no gap open and nothing arriving, the session is dropped if and
   only if some tick at or after the deadline does not throw. A callback that always throws keeps a dead peer up.
   */
  lemma {:induction false} SilenceIff(cfg: Config, s: Endpoint, evs: seq<Event>)
    requires s.phase == Active && s.testPending && !s.gapOpen && Silent(evs)
    ensures Run(cfg, s, evs).s.phase == Disconnected <==> exists j :: 0 <= j < |evs| && Drops(s, evs[j])
  {
    hide Run, Patience;
    if j :| 0 <= j < |evs| && Drops(s, evs[j]) {
      ProbeEnds(cfg, s, evs, s.testSent, s.heartbeat, j);
    } else {
      PendingStays(cfg, s, evs);
    }
  }

  /** Such a callback also stops the retries of an open gap: the tick ends before it gets to them. */
  lemma {:induction false} ThrowingStopsRetries(cfg: Config, s: Endpoint, evs: seq<Event>)
    requires s.phase == Active && s.testPending && Silent(evs)
    requires forall i :: 0 <= i < |evs| ==> evs[i].Timer? ==> CutShort(s, evs[i].env)
    ensures var t := Run(cfg, s, evs).s; t.phase == Active && SameGap(s, t)
    decreases |evs|
  {
    hide Perform, Patience;
    if evs != [] {
      CutShortEvent(cfg, s, evs[0]);
      ThrowingStopsRetries(cfg, Perform(cfg, s, evs[0]).s, evs[1..]);
    }
  }

  lemma CutShortEvent(cfg: Config, s: Endpoint, ev: Event)
    requires s.phase == Active && s.testPending && (ev.Timer? || ev.UserSend?) && (ev.Timer? ==> CutShort(s, ev.env))
    ensures
      var t := Perform(cfg, s, ev).s;
      t.phase == Active && t.testPending && t.testSent == s.testSent && SameGap(s, t)
  {
    hide Send, HeartbeatFields, Patience;
    SendUnhurried(cfg);
  }
}
