/**
 Sending over FileStore, with everything that can fail: the method takes exactly the steps of the numbering machine.
 */
module FileSending {
  import opened Bytes
  import opened Messages
  import opened Serializing
  import opened Builder
  import opened SeqFile
  import opened FileLog
  import opened FileStores
  import opened Numbering
  import Protocol

  /** How a persist that the process survives ends. */
  function Ended(ok: bool): Outcome {
    if ok then Saved else Refused
  }

  /** The store and the machine stand at the same point, between two sends. */
  ghost predicate Tracks(store: FileStore, st: Sending)
    reads store
  {
    st.q == store.Numbers() && st.stage == Idle && (st.closed ==> !store.streamGood)
  }

  lemma AppendNeedsGood(l: Log, n: nat, raw: bytes, written: nat, synced: bool)
    ensures Append(l, n, raw, written, synced).ok ==> l.good
    ensures Append(l, n, raw, written, synced).log.good ==> l.good
  {
    hide Rec;
  }

  /** The counters after a claim was taken back, or could not be. */
  function Returned(q: Seqs, n: nat, back: Outcome): Seqs {
    var claimed := Save(q, Pair(n + 1, q.target), true);
    if back == Saved then Save(claimed, Pair(n, q.target), true) else claimed
  }

  /** What a send that is given up does to the machine: the claim fails, or the serializing, or the storing. */
  lemma {:induction false} StepsAborted(st: Sending, back: Outcome)
    requires st.stage == Idle && (back == Saved || back == Refused)
    ensures ActAll(st, [Take(Refused)]) == st
    ensures st.q.sender < SIZE_MAX ==>
      var n := st.q.sender;
      var a := ActAll(st, [Take(Saved), Encode(false, back)]);
      var b := ActAll(st, [Take(Saved), Encode(true, back), Keep(false, back)]);
      && a.q == b.q == Returned(st.q, n, back) && a.stage == b.stage == Idle && a.sent == b.sent == st.sent
      && a.closed == b.closed == st.closed
  {
    hide Load, Print, ActAll;
    var t, e := Take(Saved), Encode(true, back);
    ActOne(st, Take(Refused));
    ActOne(st, t);
    ActThen(st, [t], Encode(false, back));
    ActThen(st, [t], e);
    ActThen(st, [t, e], Keep(false, back));
    assert [t] + [Encode(false, back)] == [t, Encode(false, back)];
    assert [t] + [e] == [t, e] && [t, e] + [Keep(false, back)] == [t, e, Keep(false, back)];
  }

  /** What a send that is stored and handed over does to it. */
  lemma {:induction false} StepsFinished(st: Sending, back: Outcome)
    requires st.stage == Idle && st.q.sender < SIZE_MAX && !st.closed
    ensures
      var n := st.q.sender;
      var c := ActAll(st, [Take(Saved), Encode(true, back), Keep(true, back), HandOver]);
      c.q == Save(st.q, Pair(n + 1, st.q.target), true) && c.stage == Idle && c.sent == st.sent + [n] && !c.closed
  {
    hide Load, Print, ActAll;
    var t, e, k := Take(Saved), Encode(true, back), Keep(true, back);
    ActOne(st, t);
    ActThen(st, [t], e);
    ActThen(st, [t, e], k);
    ActThen(st, [t, e, k], HandOver);
    assert [t] + [e] == [t, e] && [t, e] + [k] == [t, e, k] && [t, e, k] + [HandOver] == [t, e, k, HandOver];
  }

  lemma {:induction false} ActOne(st: Sending, a: Action)
    ensures ActAll(st, [a]) == Act(st, a)
  {
    ActThen(st, [], a);
    assert [] + [a] == [a];
  }

  /**
   send_message over a file store. `claim` and `rollback` are the operating system's answers to the two persists,
   `written` and `synced` those to the append. `acts` are the steps taken: a failed claim stops at once, a message that
   cannot be serialized or stored gives its number back, and only a stored one is handed over.
   */
  method SendMessage(
    store: FileStore, fs: seq<Field>, e: Envelope, claim: seq<Answer>, rollback: seq<Answer>, written: nat, synced: bool,
    ghost st: Sending)
    returns (wire: Option<bytes>, ghost acts: seq<Action>)
    requires Tracks(store, st)
    modifies store
    ensures Tracks(store, ActAll(st, acts))
    ensures ActAll(st, acts).sent == if wire.Some? then st.sent + [old(store.sender)] else st.sent
    ensures
      var n := old(store.sender);
      var claimed := n < SIZE_MAX && Persists(Print(Pair(n + 1, old(store.target))), claim);
      var frame := Serialize(fs, e.(seqNum := n));
      var back := Ended(Persists(Print(Pair(n, old(store.target))), rollback));
      if !claimed then wire == None && acts == [Take(Refused)] && store.OutLog() == old(store.OutLog())
      else if frame.None? then
        wire == None && acts == [Take(Saved), Encode(false, back)] && store.OutLog() == old(store.OutLog())
      else
        var stored := Append(old(store.OutLog()), n, frame.value, written, synced);
        && store.OutLog() == stored.log
        && if stored.ok then
             wire == frame && acts == [Take(Saved), Encode(true, back), Keep(true, back), HandOver]
           else wire == None && acts == [Take(Saved), Encode(true, back), Keep(false, back)]
  {
    hide Serialize, Persists, Print, Append, ActAll;
    ghost var n, target := store.sender, store.target;
    ghost var back := Ended(Persists(Print(Pair(n, target)), rollback));
    StepsAborted(st, back);
    if st.q.sender < SIZE_MAX && !st.closed { StepsFinished(st, back); }
    var claimed := store.NextSenderIncr(claim);
    if claimed.None? {
      return None, [Take(Refused)];
    }
    var builder := new MessageBuilder();
    wire := builder.TrySerialize(fs, e.(seqNum := claimed.value));
    if wire.None? {
      var _ := store.SetNextSender(claimed.value, rollback);
      return None, [Take(Saved), Encode(false, back)];
    }
    AppendNeedsGood(store.OutLog(), claimed.value, wire.value, written, synced);
    var ok := store.StoreOutbound(claimed.value, wire.value, written, synced);
    if !ok {
      var _ := store.SetNextSender(claimed.value, rollback);
      return None, [Take(Saved), Encode(true, back), Keep(false, back)];
    }
    acts := [Take(Saved), Encode(true, back), Keep(true, back), HandOver];
  }

  // ---------------------------------------------------------------------
  // Logging on
  // ---------------------------------------------------------------------

  /** The state a Logon is sent in. */
  function Desired(cfg: Protocol.Config): Protocol.Phase {
    if cfg.initiator then Protocol.LogonSent else Protocol.WaitingLogon
  }

  /** Only a state before the logon may send one, and an initiator sends it once. */
  predicate MayLogOn(cfg: Protocol.Config, phase: Protocol.Phase) {
    if phase == Desired(cfg) then !cfg.initiator else phase == Protocol.NotConnected || phase == Protocol.Disconnected
  }

  /** What the environment answers to a reset of the store. */
  datatype ResetAnswers = ResetAnswers(outCut: bool, inCut: bool, persist: seq<Answer>, opens: bool)

  predicate Resets(r: ResetAnswers) {
    r.outCut && r.inCut && Persists(Print(Pair(1, 1)), r.persist)
  }

  lemma {:induction false} ResetTaken(st: Sending, o: Outcome)
    requires st.stage == Idle && (o == Saved || o == Refused)
    ensures
      ActAll(st, [Reset(o)]) == if o == Saved then Rewound(st.q) else st.(q := Seqs(1, 1, st.q.file), closed := true)
  {
    hide Print;
    ActOne(st, Reset(o));
  }

  /**
   send_logon over a file store. The state is published first and taken back if no Logon goes out, so that logging on can
   be tried again. With reset_on_logon the store is rewound before the Logon is numbered: if that fails nothing is
   numbered and nothing sent, and the machine takes the refused reset; otherwise the Logon carries number 1. The rest is
   a send.
   */
  method SendLogon(
    cfg: Protocol.Config, phase: Protocol.Phase, heartbeat: int, env: Protocol.Env, store: FileStore, reset: ResetAnswers,
    claim: seq<Answer>, rollback: seq<Answer>, written: nat, synced: bool, ghost st: Sending)
    returns (after: Protocol.Phase, wire: Option<bytes>, ghost acts: seq<Action>)
    requires Tracks(store, st)
    modifies store
    ensures Tracks(store, ActAll(st, acts))
    ensures after == if wire.Some? then Desired(cfg) else phase
    ensures !MayLogOn(cfg, phase) ==> wire == None && acts == [] && unchanged(store)
    ensures MayLogOn(cfg, phase) && cfg.resetOnLogon && !Resets(reset) ==> wire == None && acts == [Reset(Refused)]
    ensures
      var n := if cfg.resetOnLogon then 1 else old(store.sender);
      var target := if cfg.resetOnLogon then 1 else old(store.target);
      var log := if cfg.resetOnLogon then Log([], map[], reset.opens) else old(store.OutLog());
      var frame := Serialize(Protocol.LogonFields(cfg, heartbeat), Protocol.EnvelopeFor(cfg, n, env));
      && (wire.Some? <==>
            && MayLogOn(cfg, phase) && (cfg.resetOnLogon ==> Resets(reset))
            && n < SIZE_MAX && Persists(Print(Pair(n + 1, target)), claim)
            && frame.Some? && Append(log, n, frame.value, written, synced).ok)
      && (wire.Some? ==>
            wire == frame && ActAll(st, acts).sent == (if cfg.resetOnLogon then [] else st.sent) + [n])
  {
    hide Serialize, Persists, Print, Append, ActAll, Protocol.LogonFields, Save;
    if phase != Desired(cfg) {
      if phase != Protocol.NotConnected && phase != Protocol.Disconnected {
        NoSteps(st);
        return phase, None, [];
      }
    } else if cfg.initiator {
      NoSteps(st);
      return phase, None, [];
    }
    after := Desired(cfg);
    acts := [];
    NoSteps(st);
    ghost var rewound := st;
    if cfg.resetOnLogon {
      ResetTaken(st, Ended(Resets(reset)));
      var ok := store.Reset(reset.outCut, reset.inCut, reset.persist, reset.opens);
      acts := [Reset(Ended(ok))];
      rewound := ActAll(st, acts);
      Rewinds(st.q);
      if !ok { return phase, None, acts; }
    }
    ghost var more;
    wire, more := SendMessage(store, Protocol.LogonFields(cfg, heartbeat), Protocol.EnvelopeFor(cfg, 0, env), claim,
                              rollback, written, synced, rewound);
    ActConcat(st, acts, more);
    acts := acts + more;
    if wire.None? { after := phase; }
  }

  lemma {:induction false} NoSteps(st: Sending)
    ensures ActAll(st, []) == st
  {
  }

  lemma Rewinds(q: Seqs)
    ensures Save(q, Pair(1, 1), true) == Seqs(1, 1, Some(Print(Pair(1, 1))))
  {
    hide Print;
  }
}
