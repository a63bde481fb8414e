/**
 Session as an object: every method changes the fields and the store in place, and does to them exactly what the
 corresponding function of the protocol does to an endpoint.
 */
module Sessions {
  import opened Bytes
  import opened Messages
  import opened Serializing
  import opened Streams
  import opened Stores
  import opened Builder
  import opened Protocol

  lemma EmissionsSnoc(frames: seq<Outgoing>, x: Outgoing)
    ensures Emissions(frames + [x]) == Emissions(frames) + [Emit(x)]
  {
  }

  class Session {
    const cfg: Config
    const store: MemoryStore
    var phase: Phase
    var gapOpen: bool
    var gapAttempts: nat
    var gapLast: int
    var testPending: bool
    var testSent: int
    var lastSend: int
    var lastRecv: int
    var logonSent: int
    var logoutSent: int
    var heartbeat: int
    var logoutNotified: bool
    /** Everything handed to the transport and the application so far. */
    var out: seq<Out>

    ghost function View(): Endpoint
      reads this, store
    {
      Endpoint(phase, store.nextSender, store.nextTarget, store.outbound, store.inbound, gapOpen, gapAttempts, gapLast,
               testPending, testSent, lastSend, lastRecv, logonSent, logoutSent, heartbeat, logoutNotified)
    }

    /** The 64-bit sender counter has room for `n` more numbers. */
    predicate Room(n: nat)
      reads store
    {
      store.nextSender + n < TWO64
    }

    constructor (cfg: Config, store: MemoryStore, heartbeat: int, now: int)
      ensures this.cfg == cfg && this.store == store && out == []
      ensures phase == NotConnected && !gapOpen && !testPending && this.heartbeat == heartbeat
    {
      this.cfg, this.store, this.heartbeat := cfg, store, heartbeat;
      phase, gapOpen, gapAttempts, gapLast := NotConnected, false, 0, 0;
      testPending, logoutNotified, out := false, false, [];
      testSent, lastSend, lastRecv, logonSent, logoutSent := now, now, now, now, now;
    }

    // -- Sending -----------------------------------------------------------

    /** Claims a number, serializes, stores, emits; a message that cannot be serialized gives its number back. */
    method SendMessage(fs: seq<Field>, env: Env) returns (ok: bool)
      requires Room(1)
      modifies this`lastSend, this`out, store
      ensures
        var r := Send(cfg, old(View()), fs, env);
        View() == r.s && out == old(out) + r.out && ok == (r.out != [])
      ensures store.nextSender <= old(store.nextSender) + 1
    {
      hide Serialize;
      var seqNum := store.Claim();
      var e := EnvelopeFor(cfg, seqNum, env);
      var builder := new MessageBuilder();
      var wire := builder.TrySerialize(fs, e);
      if wire.None? {
        store.nextSender := seqNum;
        return false;
      }
      store.StoreOutbound(seqNum, wire.value);
      out := out + [Emit(Outgoing(fs, e))];
      lastSend := env.now;
      ok := true;
    }

    method SendLogoutMessage(reason: bytes, env: Env)
      requires Room(1)
      modifies this`lastSend, this`out, this`phase, this`logoutSent, store
      ensures
        var r := SendLogout(cfg, old(View()), reason, env);
        View() == r.s && out == old(out) + r.out
      ensures store.nextSender <= old(store.nextSender) + 1
    {
      hide Send, LogoutFields;
      var _ := SendMessage(LogoutFields(reason), env);
      logoutSent := env.now;
      if phase != Disconnected { phase := LogoutSent; }
    }

    method CloseGap()
      modifies this`gapOpen, this`gapAttempts, this`gapLast
      ensures View() == ClearGap(old(View()))
    {
      gapOpen, gapAttempts, gapLast := false, 0, 0;
    }

    method Drop()
      modifies this`phase, this`testPending, this`gapOpen, this`gapAttempts, this`gapLast, this`out
      ensures
        var r := Disconnect(old(View()));
        View() == r.s && out == old(out) + r.out
    {
      phase, testPending := Disconnected, false;
      CloseGap();
      out := out + [Out.Drop];
    }

    method EndWith(reason: bytes, env: Env)
      requires Room(1)
      modifies this, store
      ensures
        var r := LogoutAndDrop(cfg, old(View()), reason, env);
        View() == r.s && out == old(out) + r.out
      ensures store.nextSender <= old(store.nextSender) + 1
    {
      hide SendLogout;
      SendLogoutMessage(reason, env);
      Drop();
    }

    method Notify(reason: bytes, env: Env)
      modifies this`logoutNotified, this`out
      ensures
        var r := NotifyLogout(old(View()), reason, env);
        View() == r.s && out == old(out) + r.out
    {
      if !logoutNotified {
        logoutNotified := true;
        out := out + ([OnLogout(reason)] + Thrown(env));
      }
    }

    // -- Inbound sequence accounting ---------------------------------------

    method Consume(m: Message, judged: bool)
      modifies store
      ensures View() == ConsumeInbound(old(View()), m, judged) && store.nextSender == old(store.nextSender)
    {
      hide SeqNum, PossDup;
      if !judged && PossDup(m) { return; }
      TakeNext(m);
    }

    method TakeNext(m: Message)
      modifies store
      ensures View() == TakeSlot(old(View()), m) && store.nextSender == old(store.nextSender)
    {
      hide SeqNum;
      var received := SeqNum(m);
      store.AdvanceTarget((received + 1) % TWO64, []);
      store.StoreInbound(received, m.raw);
    }

    /** Only the first detection of a gap asks for a resend. */
    method AskForGap(begin: nat, env: Env)
      requires Room(1)
      modifies this, store
      ensures
        var r := RequestGap(cfg, old(View()), begin, env);
        View() == r.s && out == old(out) + r.out
      ensures store.nextSender <= old(store.nextSender) + 1
    {
      hide Send, ResendRequestFields;
      if !gapOpen {
        gapAttempts, gapLast := 1, env.now;
        gapOpen := true;
        var _ := SendMessage(ResendRequestFields(begin, 0), env);
      }
    }

    method CheckSeqNum(m: Message, env: Env) returns (ok: bool)
      requires Room(1)
      modifies this, store
      ensures
        match ValidateSeqNum(cfg, old(View()), m, env)
        case InSequence => ok && View() == old(View()) && out == old(out)
        case OutOfSequence(r) => !ok && View() == r.s && out == old(out) + r.out
      ensures store.nextSender <= old(store.nextSender) + 1
    {
      hide SeqNum, MsgType, PossDup, RequestGap, LogoutAndDrop, Send, RejectFields, Ascii;
      var expected, received := store.nextTarget, SeqNum(m);
      if received == 0 {
        var _ := SendMessage(RejectFields(0, 1, MsgType(m), MSG_SEQ_NUM, []), env);
        return false;
      }
      if received > expected {
        ghost var notice := [OnGap(expected, received)] + Thrown(env);
        out := out + ([OnGap(expected, received)] + Thrown(env));
        AskForGap(expected, env);
        assert old(out) + notice + RequestGap(cfg, old(View()), expected, env).out
            == old(out) + (notice + RequestGap(cfg, old(View()), expected, env).out);
        return false;
      }
      if received < expected {
        if !PossDup(m) { EndWith(Ascii("MsgSeqNum too low"), env); }
        return false;
      }
      ok := true;
    }

    method OnSequenceReset(m: Message, env: Env)
      requires Room(1)
      modifies this, store
      ensures
        var r := HandleSequenceReset(cfg, old(View()), m, env);
        View() == r.s && out == old(out) + r.out
      ensures store.nextSender <= old(store.nextSender) + 1
    {
      hide SeqNum, PossDup, GetInt, GetOr, RequestGap, LogoutAndDrop, Ascii;
      var expected, received, newSeqNo := store.nextTarget, SeqNum(m), GetInt(m.fields, NEW_SEQ_NO);
      if IsGapFill(m) {
        if !PossDup(m) {
          EndWith(Ascii("SequenceReset GapFill requires PossDupFlag"), env);
          return;
        }
        if received > expected {
          AskForGap(expected, env);
          return;
        }
        if received < expected { return; }
        if newSeqNo.None? || newSeqNo.value % TWO64 <= expected {
          EndWith(Ascii("invalid NewSeqNo"), env);
          return;
        }
        store.nextTarget := newSeqNo.value % TWO64;
        CloseGap();
        return;
      }
      if newSeqNo.None? || newSeqNo.value <= 0 {
        EndWith(Ascii("invalid NewSeqNo"), env);
        return;
      }
      store.nextTarget := newSeqNo.value % TWO64;
      CloseGap();
    }

    // -- Replay ------------------------------------------------------------

    /** The replay has emitted `done` since the output was `base` and the endpoint `start`. */
    ghost predicate ReplaySoFar(base: seq<Out>, start: Endpoint, done: seq<Outgoing>, env: Env)
      reads this, store
    {
      out == base + Emissions(done) && View() == if done == [] then start else start.(lastSend := env.now)
    }

    /** Puts a replayed frame on the wire: no number is consumed and nothing is stored. */
    method EmitWire(x: Outgoing, env: Env, ghost base: seq<Out>, ghost start: Endpoint, ghost done: seq<Outgoing>)
      requires ReplaySoFar(base, start, done, env)
      modifies this`out, this`lastSend
      ensures ReplaySoFar(base, start, done + [x], env)
    {
      EmissionsSnoc(done, x);
      Associates(base, Emissions(done), [Emit(x)]);
      out := out + [Emit(x)];
      lastSend := env.now;
    }

    /** One gap-fill from the cursor to `upTo`. */
    method FlushGapTo(
      cursor: nat, upTo: nat, env: Env, ghost base: seq<Out>, ghost start: Endpoint, ghost done: seq<Outgoing>)
      returns (next: nat, ghost all: seq<Outgoing>)
      requires ReplaySoFar(base, start, done, env)
      modifies this`out, this`lastSend
      ensures Replayed(all, next) == FlushGap(cfg, Replayed(done, cursor), upTo, env)
      ensures ReplaySoFar(base, start, all, env)
    {
      hide Serialize, GapFillFields, ReplaySoFar;
      next, all := cursor, done;
      if cursor >= upTo { return; }
      var e := EnvelopeFor(cfg, cursor, env);
      var builder := new MessageBuilder();
      var wire := builder.TrySerialize(GapFillFields(upTo), e);
      if wire.None? { return; }
      EmitWire(Outgoing(GapFillFields(upTo), e), env, base, start, done);
      next, all := upTo, done + [Outgoing(GapFillFields(upTo), e)];
    }

    /** One stored frame of the replay. */
    method ReplayStored(
      cursor: nat, frame: StoredFrame, env: Env, ghost base: seq<Out>, ghost start: Endpoint, ghost done: seq<Outgoing>)
      returns (next: nat, ghost all: seq<Outgoing>)
      requires ReplaySoFar(base, start, done, env)
      modifies this`out, this`lastSend
      ensures Replayed(all, next) == ReplayOne(cfg, Replayed(done, cursor), frame, env)
      ensures ReplaySoFar(base, start, all, env)
    {
      hide Serialize, ParseStored, Retagged, FlushGap, MsgType, IsAdmin, ReplaySoFar;
      next, all := cursor, done;
      var stored := ParseStored(frame.wire);
      if stored.None? || MsgType(stored.value) == [] || IsAdmin(MsgType(stored.value)) { return; }
      next, all := FlushGapTo(cursor, frame.seqNum, env, base, start, done);
      var fs := Retagged(stored.value);
      var e := EnvelopeFor(cfg, frame.seqNum, env);
      var builder := new MessageBuilder();
      var wire := builder.TrySerialize(fs, e);
      if wire.Some? {
        EmitWire(Outgoing(fs, e), env, base, start, all);
        next, all := frame.seqNum + 1, all + [Outgoing(fs, e)];
      } else {
        next, all := FlushGapTo(next, frame.seqNum + 1, env, base, start, all);
      }
    }

    /** The replay window [begin, rangeEnd]: stored application messages and gap-fills between them. */
    method ReplayWindow(frames: seq<StoredFrame>, begin: nat, rangeEnd: nat, env: Env)
      modifies this`out, this`lastSend
      ensures ReplaySoFar(old(out), old(View()), Replay(cfg, frames, begin, rangeEnd, env), env)
    {
      hide ReplayOne, FlushGap, ReplaySoFar;
      ghost var base, start := out, View();
      NothingReplayed(env);
      var cursor := begin;
      ghost var done: seq<Outgoing> := [];
      var i := 0;
      while i < |frames| && frames[i].seqNum <= rangeEnd
        invariant i <= |frames| && ReplaySoFar(base, start, done, env)
        invariant ReplayFrames(cfg, Replayed(done, cursor), frames[i..], rangeEnd, env)
               == ReplayFrames(cfg, Replayed([], begin), frames, rangeEnd, env)
      {
        assert frames[i..][0] == frames[i] && frames[i..][1..] == frames[i + 1..];
        if frames[i].seqNum >= cursor {
          cursor, done := ReplayStored(cursor, frames[i], env, base, start, done);
        }
        i := i + 1;
      }
      cursor, done := FlushGapTo(cursor, rangeEnd + 1, env, base, start, done);
    }

    lemma NothingReplayed(env: Env)
      ensures ReplaySoFar(out, View(), [], env)
    {
      assert out + [] == out;
    }

    method OnResend(m: Message, env: Env)
      requires Room(1)
      modifies this, store
      ensures
        var r := HandleResendRequest(cfg, old(View()), m, env);
        View() == r.s && out == old(out) + r.out
      ensures store.nextSender <= old(store.nextSender) + 1
    {
      hide SeqNum, MsgType, GetInt, Replay, Send, RejectFields, Ascii, Emissions, Ascending;
      var beginOpt := GetInt(m.fields, BEGIN_SEQ_NO);
      if beginOpt.None? {
        var _ := SendMessage(RejectFields(SeqNum(m), 1, MsgType(m), BEGIN_SEQ_NO, Ascii("missing BeginSeqNo")), env);
        return;
      }
      if beginOpt.value < 1 {
        var _ := SendMessage(
          RejectFields(SeqNum(m), 5, MsgType(m), BEGIN_SEQ_NO, Ascii("BeginSeqNo must be >= 1")), env);
        return;
      }
      AnswerRange(m, beginOpt.value, EndOf(m), env);
    }

    /** A well-formed request: tell the application, then refuse or replay. */
    method AnswerRange(m: Message, begin: nat, end: nat, env: Env)
      requires Room(1)
      modifies this, store
      ensures
        var r := AnswerResend(cfg, old(View()), m, begin, end, env).After([OnResendRequest(begin, end)] + Thrown(env));
        View() == r.s && out == old(out) + r.out
      ensures store.nextSender <= old(store.nextSender) + 1
    {
      hide AnswerResend;
      ghost var before, notice := out, [OnResendRequest(begin, end)] + Thrown(env);
      out := out + ([OnResendRequest(begin, end)] + Thrown(env));
      Associates(before, notice, AnswerResend(cfg, View(), m, begin, end, env).out);
      Answer(m, begin, end, env);
    }

    method Answer(m: Message, begin: nat, end: nat, env: Env)
      requires Room(1)
      modifies this, store
      ensures
        var r := AnswerResend(cfg, old(View()), m, begin, end, env);
        View() == r.s && out == old(out) + r.out
      ensures store.nextSender <= old(store.nextSender) + 1
    {
      hide SeqNum, MsgType, Replay, Send, RejectFields, Ascii, Emissions, Snapshot;
      var nextSender := store.nextSender;
      if begin > nextSender {
        var _ := SendMessage(
          RejectFields(SeqNum(m), 5, MsgType(m), BEGIN_SEQ_NO, Ascii("BeginSeqNo > NextSenderMsgSeqNum")), env);
        return;
      }
      var frames := store.GetMessages(begin, end);
      var rangeEnd := if end == 0 || end >= nextSender then nextSender - 1 else end;
      if begin > rangeEnd { return; }
      ReplayWindow(frames, begin, rangeEnd, env);
    }

    // -- Logon and the other administrative messages -----------------------

    /** Publishes the handshake state and starts the numbering over if configured to, before the Logon is numbered. */
    method PrepareLogon(env: Env)
      modifies this, store
      ensures View() == LogonPrepared(cfg, old(View()), env) && out == old(out)
      ensures store.nextSender <= Max(old(store.nextSender), 1)
    {
      logonSent := env.now;
      phase := if cfg.initiator then LogonSent else WaitingLogon;
      if cfg.resetOnLogon {
        store.Reset();
        CloseGap();
      }
    }

    method SendLogonMessage(env: Env) returns (sent: bool)
      requires Room(1)
      modifies this, store
      ensures
        var (r, ok) := SendLogon(cfg, old(View()), env);
        View() == r.s && out == old(out) + r.out && sent == ok
      ensures store.nextSender <= Max(old(store.nextSender), 1) + 1
    {
      hide Send, LogonFields;
      var desired := if cfg.initiator then LogonSent else WaitingLogon;
      var prev := phase;
      if prev != desired {
        if prev != NotConnected && prev != Disconnected { return false; }
      } else if cfg.initiator {
        return false;
      }
      PrepareLogon(env);
      sent := SendMessage(LogonFields(cfg, heartbeat), env);
      if !sent { phase := prev; }
    }

    method OnLogonMessage(m: Message, env: Env)
      requires Room(1)
      modifies this, store
      ensures
        var r := HandleLogon(cfg, old(View()), m, env);
        View() == r.s && out == old(out) + r.out
      ensures store.nextSender <= Max(old(store.nextSender), 1) + 1
    {
      hide GetInt, GetOr, LogoutAndDrop, LogonAnswered, LogonTaken, Ascii;
      var st := phase;
      var hb := GetInt(m.fields, HEART_BT_INT);
      if hb.None? || hb.value <= 0 {
        EndWith(Ascii("HeartBtInt required"), env);
        return;
      }
      if cfg.initiator && st == LogonSent && hb.value != heartbeat {
        EndWith(Ascii("HeartBtInt mismatch"), env);
        return;
      }
      var reset := GetOr(m.fields, RESET_SEQ_NUM_FLAG, NO) == YES && (st == WaitingLogon || st == LogonSent);
      AdoptLogon(hb.value, reset);
      FinishLogon(st, env);
    }

    /** Takes over the peer's interval and, if told to, its reset. */
    method AdoptLogon(hb: int, reset: bool)
      modifies this, store
      ensures View() == LogonTaken(old(View()), hb, reset) && out == old(out)
      ensures store.nextSender == old(store.nextSender)
    {
      heartbeat := ToInt32(hb);
      if reset { store.nextTarget := 1; }
      CloseGap();
    }

    method CompleteLogon(env: Env)
      modifies this`phase, this`logoutNotified, this`out
      ensures
        var r := LogonCompleted(old(View()), env);
        View() == r.s && out == old(out) + r.out
    {
      phase, logoutNotified := Active, false;
      out := out + ([OnLogon] + Thrown(env));
    }

    method FinishLogon(st: Phase, env: Env)
      requires Room(1)
      modifies this, store
      ensures
        var r := LogonAnswered(cfg, st, old(View()), env);
        View() == r.s && out == old(out) + r.out
      ensures store.nextSender <= Max(old(store.nextSender), 1) + 1
    {
      hide LogoutAndDrop, SendLogon, Ascii, LogonCompleted;
      if st == WaitingLogon {
        AnswerLogon(env);
      } else if st == LogonSent {
        CompleteLogon(env);
      } else if st == Active {
        EndWith(Ascii("Duplicate Logon"), env);
      }
    }

    /** The acceptor's answer to a Logon. */
    method AnswerLogon(env: Env)
      requires Room(1)
      modifies this, store
      ensures
        var (r, sent) := SendLogon(cfg, old(View()), env);
        var done := if sent && r.s.phase == WaitingLogon then LogonCompleted(r.s, env).After(r.out)
                    else Step(r.s, r.out + [Report]);
        View() == done.s && out == old(out) + done.out
      ensures store.nextSender <= Max(old(store.nextSender), 1) + 1
    {
      hide SendLogon;
      var sent := SendLogonMessage(env);
      if sent && phase == WaitingLogon {
        CompleteLogon(env);
      } else {
        out := out + [Report];
      }
    }

    method OnLogoutMessage(m: Message, env: Env)
      requires Room(1)
      modifies this, store
      ensures
        var r := HandleLogout(cfg, old(View()), m, env);
        View() == r.s && out == old(out) + r.out
      ensures store.nextSender <= old(store.nextSender) + 1
    {
      hide GetOr, Send;
      if phase != LogoutSent { var _ := SendMessage(OfType(LOGOUT), env); }
      Drop();
      Notify(GetOr(m.fields, TEXT, []), env);
    }

    method OnRejectMessage(m: Message, env: Env)
      modifies this
      ensures
        var r := HandleReject(old(View()), m, env);
        View() == r.s && out == old(out) + r.out
    {
      hide GetInt, RejectInfo, Ascii;
      var refSeq: nat := match GetInt(m.fields, REF_SEQ_NUM) case Some(v) => v % TWO64 case None => 0;
      var info := RejectInfo(m);
      if phase == LogonSent {
        Notify(Ascii("Logon rejected: ") + (if info == [] then Ascii("unknown") else info), env);
        Drop();
        return;
      }
      out := out + ([OnReject(refSeq, info)] + Thrown(env));
    }

    method DispatchAdmin(m: Message, env: Env)
      requires Room(1)
      modifies this, store
      ensures
        var r := ProcessAdmin(cfg, old(View()), m, env);
        View() == r.s && out == old(out) + r.out
      ensures store.nextSender <= Max(old(store.nextSender), 1) + 1
    {
      hide MsgType, HandleLogon, HandleLogout, HandleResendRequest, HandleSequenceReset, HandleReject, Send, GetOr,
        HeartbeatFields, Ascii;
      var kind := MsgType(m);
      if kind == LOGON {
        OnLogonMessage(m, env);
      } else if kind == LOGOUT {
        OnLogoutMessage(m, env);
      } else if kind == TEST_REQUEST {
        var _ := SendMessage(HeartbeatFields(GetOr(m.fields, TEST_REQ_ID, Ascii("TEST"))), env);
      } else if kind == RESEND_REQUEST {
        OnResend(m, env);
      } else if kind == SEQUENCE_RESET {
        OnSequenceReset(m, env);
      } else if kind == REJECT {
        OnRejectMessage(m, env);
      }
    }

    method DispatchApp(m: Message, env: Env)
      requires Room(1)
      modifies this, store
      ensures
        var r := ProcessApp(cfg, old(View()), m, env);
        View() == r.s && out == old(out) + r.out
      ensures store.nextSender <= old(store.nextSender) + 1
    {
      hide SeqNum, MsgType, Send, RejectFields, Ascii;
      if phase != Active {
        var _ := SendMessage(RejectFields(SeqNum(m), 99, MsgType(m), 0, Ascii("Session not active")), env);
        return;
      }
      out := out + ([Deliver(m)] + Thrown(env));
    }

    // -- One inbound message -----------------------------------------------

    /** The part of process_message after sequence validation. */
    method Accept(m: Message, judged: bool, env: Env)
      requires Room(1)
      modifies this, store
      ensures
        var r := Accepted(cfg, old(View()), m, judged, env);
        View() == r.s && out == old(out) + r.out
      ensures store.nextSender <= Max(old(store.nextSender), 1) + 1
    {
      hide SeqNum, MsgType, Send, RejectFields, ProcessAdmin, ProcessApp, ConsumeInbound, Ascii, IsAdmin;
      if m.duplicateHeader {
        var _ := SendMessage(RejectFields(SeqNum(m), 13, MsgType(m), 0, Ascii("Tag appears more than once")), env);
      } else if IsAdmin(MsgType(m)) {
        DispatchAdmin(m, env);
      } else {
        DispatchApp(m, env);
      }
      Consume(m, judged);
    }

    /** A message without MsgType is rejected, and takes its slot only if it is the expected one. */
    method RejectUntyped(m: Message, judged: bool, env: Env)
      requires Room(1)
      modifies this, store
      ensures
        var s := old(View());
        var t := if judged && !PossDup(m) && SeqNum(m) == s.nextTarget then TakeSlot(s, m) else s;
        var r := SendReject(cfg, t, SeqNum(m), 1, [], MSG_TYPE, Ascii("Missing MsgType"), env);
        View() == r.s && out == old(out) + r.out
      ensures store.nextSender <= old(store.nextSender) + 1
    {
      hide SeqNum, PossDup, Send, RejectFields, TakeSlot, Ascii;
      if judged && !PossDup(m) && SeqNum(m) == store.nextTarget { TakeNext(m); }
      var _ := SendMessage(RejectFields(SeqNum(m), 1, [], MSG_TYPE, Ascii("Missing MsgType")), env);
    }

    method Process(m: Message, env: Env)
      requires Room(1)
      modifies this, store
      ensures
        var r := ProcessMessage(cfg, old(View()), m, env);
        View() == r.s && out == old(out) + r.out
      ensures store.nextSender <= Max(old(store.nextSender), 1) + 1
    {
      hide SeqNum, MsgType, PossDup, SendReject, LogoutAndDrop, Accepted, ValidateSeqNum, HandleSequenceReset,
        TakeSlot, Ascii, ParseVersion, GetOr, Identified, Has;
      lastRecv, testPending := env.now, false;
      if ParseVersion(GetOr(m.fields, BEGIN_STRING, [])) != cfg.version {
        EndWith(Ascii("BeginString does not match session"), env);
        return;
      }
      if !Identified(cfg, m) {
        EndWith(Ascii("CompID mismatch"), env);
        return;
      }
      var judged := phase != WaitingLogon && phase != LogonSent && phase != NotConnected;
      if !Has(m.fields, MSG_TYPE) {
        RejectUntyped(m, judged, env);
        return;
      }
      if MsgType(m) == SEQUENCE_RESET {
        OnSequenceReset(m, env);
        return;
      }
      if judged {
        var ok := CheckSeqNum(m, env);
        if !ok { return; }
        CloseGap();
      }
      Accept(m, judged, env);
    }

    /** The dispatch loop of on_data over the messages a feed produced. */
    method Dispatch(ms: seq<Message>, env: Env)
      requires Max(store.nextSender, 1) + |ms| < TWO64
      modifies this, store
      ensures
        var r := ProcessAll(cfg, old(View()), ms, env);
        View() == r.s && out == old(out) + r.out
    {
      hide ProcessMessage;
      var i := 0;
      ghost var before := [];
      while i < |ms| && phase != Disconnected
        invariant i <= |ms| && Max(store.nextSender, 1) + |ms| - i < TWO64
        invariant out == old(out) + before
        invariant ProcessAll(cfg, View(), ms[i..], env).After(before) == ProcessAll(cfg, old(View()), ms, env)
      {
        ghost var step := ProcessMessage(cfg, View(), ms[i], env);
        ghost var rest := ProcessAll(cfg, step.s, ms[i..][1..], env);
        assert ms[i..][0] == ms[i] && ms[i..][1..] == ms[i + 1..];
        assert (before + step.out) + rest.out == before + (step.out + rest.out);
        Process(ms[i], env);
        before := before + step.out;
        i := i + 1;
      }
      assert before + [] == before;
    }

    // -- User calls, connection and timer ----------------------------------

    method SendApplication(fs: seq<Field>, env: Env) returns (ok: bool)
      requires Room(1)
      modifies this, store
      ensures
        var r := AppSend(cfg, old(View()), fs, env);
        View() == r.s && out == old(out) + r.out
      ensures ok <==> old(phase) == Active && Serialize(fs, EnvelopeFor(cfg, old(store.nextSender), env)).Some?
    {
      hide Serialize, EnvelopeFor;
      if phase != Active { return false; }
      ok := SendMessage(fs, env);
    }

    method StartLogout(reason: bytes, env: Env) returns (ok: bool)
      requires Room(1)
      modifies this, store
      ensures
        var r := Logout(cfg, old(View()), reason, env);
        View() == r.s && out == old(out) + r.out
      ensures ok <==> old(phase) == Active || old(phase) == LogonSent || old(phase) == WaitingLogon
      ensures ok ==> phase == LogoutSent
    {
      hide Send, LogoutFields;
      if phase != Active && phase != LogonSent && phase != WaitingLogon { return false; }
      SendLogoutMessage(reason, env);
      ok := true;
    }

    method OnTransportConnected(env: Env)
      requires Room(1)
      modifies this, store
      ensures
        var r := TransportConnected(cfg, old(View()), env);
        View() == r.s && out == old(out) + r.out
    {
      hide SendLogon;
      StartOver(env);
      if cfg.initiator {
        if phase != NotConnected && phase != Disconnected { phase := Disconnected; }
        LogOnAgain(env);
      } else {
        phase := WaitingLogon;
      }
    }

    /** Nothing of the previous connection's timers or gap survives. */
    method StartOver(env: Env)
      modifies this
      ensures View() == FreshConnection(old(View()), env) && out == old(out)
    {
      CloseGap();
      testPending, logoutNotified := false, false;
      lastSend, lastRecv, logonSent, logoutSent := env.now, env.now, env.now, env.now;
    }

    method LogOnAgain(env: Env)
      requires Room(1)
      modifies this, store
      ensures
        var (r, sent) := SendLogon(cfg, old(View()), env);
        View() == r.s && out == old(out) + if sent then r.out else r.out + [Report]
    {
      hide SendLogon;
      var sent := SendLogonMessage(env);
      if !sent { out := out + [Report]; }
    }

    method KeepAlive(env: Env)
      requires Room(1)
      modifies this, store
      ensures
        var r := TickHeartbeat(cfg, old(View()), env);
        View() == r.s && out == old(out) + r.out
      ensures store.nextSender <= old(store.nextSender) + 1
    {
      hide Send, HeartbeatFields;
      if env.now - lastSend >= heartbeat * 1000 { var _ := SendMessage(HeartbeatFields([]), env); }
    }

    method Probe(env: Env)
      requires Room(1)
      modifies this, store
      ensures
        var r := TickTestRequest(cfg, old(View()), env);
        View() == r.s && out == old(out) + r.out
      ensures store.nextSender <= old(store.nextSender) + 1
    {
      hide Send, TestRequestFields;
      if !testPending {
        if env.now - lastRecv >= heartbeat * 1000 {
          testSent, testPending := env.now, true;
          var _ := SendMessage(TestRequestFields(env.testId), env);
        }
      } else if env.now - testSent >= heartbeat * 1000 + heartbeat * 1000 / 5 {
        out := out + [OnHeartbeatTimeout];
        Drop();
      }
    }

    method RetryGap(env: Env)
      requires Room(1)
      modifies this, store
      ensures
        var r := TickGap(cfg, old(View()), env);
        View() == r.s && out == old(out) + r.out
    {
      hide Send, ResendRequestFields;
      if gapOpen && gapAttempts >= 1 && env.now - gapLast >= heartbeat * 1000 + heartbeat * 1000 / 5 {
        gapAttempts := gapAttempts + 1;
        if gapAttempts > MAX_GAP_RETRIES {
          out := out + [Report];
          Drop();
        } else {
          gapLast := env.now;
          var _ := SendMessage(ResendRequestFields(store.nextTarget, 0), env);
        }
      }
    }

    method OnTimer(env: Env)
      requires Room(3)
      modifies this, store
      ensures
        var r := Tick(cfg, old(View()), env);
        View() == r.s && out == old(out) + r.out
    {
      hide TickHeartbeat, TickTestRequest, TickGap, Ascii;
      if phase == Active {
        TimerWhileActive(env);
      } else if phase == LogonSent {
        if env.now - logonSent >= cfg.logonTimeout * 1000 { Drop(); }
      } else if phase == LogoutSent {
        if env.now - logoutSent >= cfg.logoutTimeout * 1000 {
          Notify(Ascii("logout timeout"), env);
          Drop();
        } else {
          KeepAlive(env);
        }
      }
    }

    method TimerWhileActive(env: Env)
      requires Room(3)
      modifies this, store
      ensures
        var r := TickActive(cfg, old(View()), env);
        View() == r.s && out == old(out) + r.out
    {
      hide TickHeartbeat, TickTestRequest, TickGap;
      KeepAlive(env);
      if testPending && env.now - testSent >= heartbeat * 1000 + heartbeat * 1000 / 5 && env.throws {
        out := out + [OnHeartbeatTimeout];
        return;
      }
      Probe(env);
      RetryGap(env);
    }
  }
}
