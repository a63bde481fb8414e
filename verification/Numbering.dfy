/**
 Outbound numbering across failures and crashes: claim, serialize, store, hand over, with rollback of the claim.
 */
module Numbering {
  import opened Bytes
  import opened SeqFile

  // ---------------------------------------------------------------------
  // The machine
  // ---------------------------------------------------------------------

  datatype Held = Numbered | Encoded | Kept

  datatype Stage = Idle | Busy(n: nat, at: Held)

  /**
   Counters and file; the send in progress; the numbers handed to the transport since `base`, the first number after
   the last reset; and the numbers that were claimed but will never be used. A reset whose persist was refused leaves
   the log closed.
   */
  datatype Sending = Sending(q: Seqs, stage: Stage, base: nat, sent: seq<nat>, burned: set<nat>, closed: bool)

  /** How a persist ends: saved, refused, or the process dies before or after the rename. */
  datatype Outcome = Saved | Refused | DiedBefore | DiedAfter

  /** What can happen next. `Receive` is the inbound side, which shares the sequence file and runs at any time. */
  datatype Action =
    | Take(o: Outcome)
    | Encode(ok: bool, rollback: Outcome)
    | Keep(ok: bool, rollback: Outcome)
    | HandOver
    | Receive(n: nat, o: Outcome)
    | Reset(o: Outcome)
    | Die

  /** The process starts again from the file; a number it held is lost unless the file gives it out again. */
  function Restart(st: Sending, file: Option<bytes>): Sending {
    match Load(file)
    case None => st
    case Some(p) =>
      var lost := st.stage.Busy? && st.stage.n < p.sender;
      Sending(Seqs(p.sender, p.target, file), Idle, st.base, st.sent,
              if lost then st.burned + {st.stage.n} else st.burned, false)
  }

  /** Persists a pair: `saved` and `refused` say what else changes in the process that lives on. */
  function Persist(st: Sending, p: Pair, o: Outcome, saved: Sending, refused: Sending): Sending {
    match o
    case Saved => saved.(q := Save(st.q, p, true))
    case Refused => refused
    case DiedBefore => Restart(st, st.q.file)
    case DiedAfter => Restart(st, Some(Print(p)))
  }

  /** The claim is taken back; if that cannot be persisted the number stays claimed and is never used. */
  function RollBack(st: Sending, n: nat, o: Outcome): Sending {
    Persist(st, Pair(n, st.q.target), o, st.(stage := Idle), st.(stage := Idle, burned := st.burned + {n}))
  }

  function Act(st: Sending, a: Action): Sending {
    match a
    case Take(o) =>
      if st.stage != Idle || st.q.sender >= SIZE_MAX then st
      else
        var busy := st.(stage := Busy(st.q.sender, Numbered));
        Persist(busy, Pair(st.q.sender + 1, st.q.target), o, busy, st)
    case Encode(ok, rollback) =>
      if !st.stage.Busy? || st.stage.at != Numbered then st
      else if ok then st.(stage := Busy(st.stage.n, Encoded))
      else RollBack(st, st.stage.n, rollback)
    case Keep(ok, rollback) =>
      if !st.stage.Busy? || st.stage.at != Encoded then st
      else if ok && !st.closed then st.(stage := Busy(st.stage.n, Kept))
      else RollBack(st, st.stage.n, rollback)
    case HandOver =>
      if !st.stage.Busy? || st.stage.at != Kept then st
      else st.(stage := Idle, sent := st.sent + [st.stage.n])
    case Receive(n, o) =>
      if n <= st.q.target || n > SIZE_MAX then st else Persist(st, Pair(st.q.sender, n), o, st, st)
    case Reset(o) =>
      if st.stage != Idle then st
      else if o == Saved || o == DiedAfter then Rewound(st.q)
      else if o == DiedBefore then Restart(st, st.q.file)
      else st.(q := Seqs(1, 1, st.q.file), closed := true)
    case Die => Restart(st, st.q.file)
  }

  /** After a reset: numbering starts over. */
  function Rewound(q: Seqs): Sending {
    Sending(Save(q, Pair(1, 1), true), Idle, 1, [], {}, false)
  }

  function ActAll(st: Sending, acts: seq<Action>): Sending {
    if acts == [] then st else Act(ActAll(st, acts[..|acts| - 1]), acts[|acts| - 1])
  }

  // ---------------------------------------------------------------------
  // The invariant
  // ---------------------------------------------------------------------

  /** The first number that is neither used nor lost. */
  function Frontier(st: Sending): nat {
    if st.stage.Busy? then st.stage.n else st.q.sender
  }

  ghost predicate Safe(st: Sending) {
    && Durable(st.q) && !st.closed
    && (st.stage.Busy? ==> st.stage.n + 1 == st.q.sender)
    && Increasing(st.sent)
    && (forall x :: x in st.sent ==> st.base <= x < Frontier(st))
    && (forall x :: x in st.burned ==> st.base <= x < Frontier(st) && x !in st.sent)
    && (forall x :: st.base <= x < Frontier(st) ==> x in st.sent || x in st.burned)
    && 1 <= st.base <= Frontier(st)
  }

  /** Only the process dying or a refused rollback can lose a number. */
  predicate Careful(a: Action) {
    match a
    case Take(o) => o == Saved || o == Refused
    case Encode(_, rollback) => rollback == Saved
    case Keep(_, rollback) => rollback == Saved
    case Receive(_, o) => o == Saved || o == Refused
    case Reset(o) => o == Saved
    case HandOver => true
    case Die => false
  }

  lemma RestartSafe(st: Sending, file: Option<bytes>)
    requires Safe(st) && Load(file).Some? && ValidPair(Load(file).value)
    requires Load(file).value.sender == Frontier(st) || Load(file).value.sender == st.q.sender
    ensures Safe(Restart(st, file))
  {
    hide Load;
  }

  lemma RollBackSafe(st: Sending, o: Outcome)
    requires Safe(st) && st.stage.Busy?
    ensures Safe(RollBack(st, st.stage.n, o))
    ensures o == Saved ==> RollBack(st, st.stage.n, o).burned == st.burned
  {
    hide Load, Print;
    var n := st.stage.n;
    HeldPositive(st);
    LoadPrint(Pair(n, st.q.target));
    if o == DiedBefore {
      RestartSafe(st, st.q.file);
    } else if o == DiedAfter {
      RestartSafe(st, Some(Print(Pair(n, st.q.target))));
    }
  }

  /** The number held is a valid one: it was the counter before the claim. */
  lemma HeldPositive(st: Sending)
    requires Safe(st) && st.stage.Busy?
    ensures ValidPair(Pair(st.stage.n, st.q.target))
  {
  }

  lemma TakeSafe(st: Sending, o: Outcome)
    requires Safe(st) && st.stage == Idle && st.q.sender < SIZE_MAX
    ensures Safe(Act(st, Take(o)))
  {
    hide Load, Print;
    var p := Pair(st.q.sender + 1, st.q.target);
    var busy := st.(stage := Busy(st.q.sender, Numbered));
    LoadPrint(p);
    var taken := busy.(q := Save(st.q, p, true));
    assert Safe(taken);
    if o == DiedAfter {
      RestartSafe(taken, Some(Print(p)));
    } else if o == DiedBefore {
      RestartSafe(st, st.q.file);
    }
  }

  lemma ReceiveSafe(st: Sending, n: nat, o: Outcome)
    requires Safe(st) && 1 <= n <= SIZE_MAX
    ensures Safe(Act(st, Receive(n, o)))
  {
    hide Load, Print;
    var p := Pair(st.q.sender, n);
    LoadPrint(p);
    if n > st.q.target && o == DiedAfter {
      RestartSafe(st, Some(Print(p)));
    } else if n > st.q.target && o == DiedBefore {
      RestartSafe(st, st.q.file);
    }
  }

  lemma HandOverSafe(st: Sending)
    requires Safe(st)
    ensures Safe(Act(st, HandOver))
  {
    hide Load;
    if st.stage.Busy? && st.stage.at == Kept {
      var t := Act(st, HandOver);
      assert forall x :: x in t.sent <==> x in st.sent || x == st.stage.n;
      assert forall i :: 0 <= i < |st.sent| ==> t.sent[i] == st.sent[i] && st.sent[i] in st.sent;
    }
  }

  lemma ActSafe(st: Sending, a: Action)
    requires Safe(st) && a != Reset(Refused)
    ensures Safe(Act(st, a))
    ensures Careful(a) ==> Act(st, a).burned == st.burned || a.Reset?
    ensures Careful(a) && a.Reset? ==> Act(st, a).burned <= st.burned
  {
    hide Load, Print, Safe;
    match a
    case Take(o) =>
      if st.stage == Idle && st.q.sender < SIZE_MAX { TakeSafe(st, o); }
    case Encode(ok, rollback) => EncodeSafe(st, a);
    case Keep(ok, rollback) => EncodeSafe(st, a);
    case HandOver => HandOverSafe(st);
    case Receive(n, o) =>
      if n > st.q.target && n <= SIZE_MAX { ReceiveSafe(st, n, o); }
    case Reset(o) => ResetSafe(st, o);
    case Die => DieSafe(st);
  }

  lemma EncodeSafe(st: Sending, a: Action)
    requires Safe(st) && (a.Encode? || a.Keep?)
    ensures Safe(Act(st, a))
    ensures Careful(a) ==> Act(st, a).burned == st.burned
  {
    hide Load, Print, RollBack;
    if st.stage.Busy? { RollBackSafe(st, a.rollback); }
  }

  lemma ResetSafe(st: Sending, o: Outcome)
    requires Safe(st) && o != Refused
    ensures Safe(Act(st, Reset(o)))
  {
    hide Load, Print;
    LoadPrint(Pair(1, 1));
    if st.stage == Idle && o == DiedBefore { RestartSafe(st, st.q.file); }
  }

  lemma DieSafe(st: Sending)
    requires Safe(st)
    ensures Safe(Act(st, Die))
  {
    hide Load;
    RestartSafe(st, st.q.file);
  }

  // ---------------------------------------------------------------------
  // Main results
  // ---------------------------------------------------------------------

  /** A store that was just opened. */
  ghost predicate Opened(st: Sending) {
    Durable(st.q) && st.stage == Idle && st.base == st.q.sender && st.sent == [] && st.burned == {} && !st.closed
  }

  /** No reset is refused by the sequence file. */
  predicate Tame(acts: seq<Action>) {
    forall i :: 0 <= i < |acts| ==> acts[i] != Reset(Refused)
  }

  lemma {:induction false} AlwaysSafe(st: Sending, acts: seq<Action>)
    requires Opened(st) && Tame(acts)
    ensures Safe(ActAll(st, acts))
  {
    hide Load, Act;
    if acts != [] {
      AlwaysSafe(st, acts[..|acts| - 1]);
      ActSafe(ActAll(st, acts[..|acts| - 1]), acts[|acts| - 1]);
    }
  }

  /**
   No reuse: over any run of sends with any failures and a crash at any point, the numbers handed to the transport
   since the last reset are strictly increasing, and the counter a restart would load exceeds all of them. Only a reset
   that the sequence file refuses is excepted: see RefusedResetReuses.
   */
  lemma {:induction false} NoReuse(st: Sending, acts: seq<Action>)
    requires Opened(st) && Tame(acts)
    ensures
      var t := ActAll(st, acts);
      && Increasing(t.sent) && Load(t.q.file).Some?
      && (forall i :: 0 <= i < |t.sent| ==> t.sent[i] < Load(t.q.file).value.sender)
  {
    hide Load, ActAll;
    AlwaysSafe(st, acts);
    var t := ActAll(st, acts);
    assert forall i :: 0 <= i < |t.sent| ==> t.sent[i] in t.sent;
  }

  /** Numbers that increase and fill a range are consecutive. */
  lemma {:induction false} FilledIsConsecutive(ns: seq<nat>, lo: nat, hi: nat)
    requires Increasing(ns) && lo <= hi && forall x :: x in ns <==> lo <= x < hi
    ensures |ns| == hi - lo && forall i :: 0 <= i < |ns| ==> ns[i] == lo + i
    decreases |ns|
  {
    if ns == [] {
      assert lo < hi ==> lo in ns;
    } else {
      assert ns[0] in ns && lo in ns;
      var k :| 0 <= k < |ns| && ns[k] == lo;
      assert ns[0] <= ns[k];
      var rest := ns[1..];
      assert ns == [lo] + rest;
      assert lo !in rest;
      assert forall x :: x in ns <==> x == lo || x in rest;
      FilledIsConsecutive(rest, lo + 1, hi);
    }
  }

  lemma {:induction false} NothingBurned(st: Sending, acts: seq<Action>)
    requires Opened(st) && forall i :: 0 <= i < |acts| ==> Careful(acts[i])
    ensures ActAll(st, acts).burned == {} && Tame(acts)
  {
    hide Load, Act;
    if acts != [] {
      var most := acts[..|acts| - 1];
      assert forall i :: 0 <= i < |most| ==> most[i] == acts[i];
      NothingBurned(st, most);
      AlwaysSafe(st, most);
      ActSafe(ActAll(st, most), acts[|acts| - 1]);
    }
  }

  /** If no rollback is refused and the process does not die, the numbers sent are consecutive, with none left out. */
  lemma {:induction false} ConsecutiveWithoutLoss(st: Sending, acts: seq<Action>)
    requires Opened(st) && forall i :: 0 <= i < |acts| ==> Careful(acts[i])
    ensures
      var t := ActAll(st, acts);
      && t.base + |t.sent| == Frontier(t)
      && (forall i :: 0 <= i < |t.sent| ==> t.sent[i] == t.base + i)
  {
    hide Load, ActAll, Careful;
    NothingBurned(st, acts);
    AlwaysSafe(st, acts);
    var t := ActAll(st, acts);
    FilledIsConsecutive(t.sent, t.base, Frontier(t));
  }

  /** In general every number below the frontier was either sent exactly once or lost. */
  lemma {:induction false} SentOrLost(st: Sending, acts: seq<Action>, x: nat)
    requires Opened(st) && Tame(acts)
    ensures
      var t := ActAll(st, acts);
      t.base <= x < Frontier(t) ==> (x in t.sent <==> x !in t.burned)
  {
    hide Load, ActAll;
    AlwaysSafe(st, acts);
  }

  lemma {:induction false} ActThen(st: Sending, acts: seq<Action>, a: Action)
    ensures ActAll(st, acts + [a]) == Act(ActAll(st, acts), a)
  {
    hide Act;
    assert (acts + [a])[..|acts|] == acts;
  }

  const SEND: seq<Action> := [Take(Saved), Encode(true, Saved), Keep(true, Saved), HandOver]

  /** One undisturbed send. */
  lemma {:induction false} SendOne(st: Sending)
    requires st.stage == Idle && st.q.sender < SIZE_MAX && !st.closed
    ensures
      var n := st.q.sender;
      ActAll(st, SEND) == st.(q := Save(st.q, Pair(n + 1, st.q.target), true), sent := st.sent + [n])
  {
    var a, b, c := [Take(Saved)], [Take(Saved), Encode(true, Saved)], [Take(Saved), Encode(true, Saved), Keep(true, Saved)];
    ActThen(st, [], Take(Saved));
    ActThen(st, a, Encode(true, Saved));
    ActThen(st, b, Keep(true, Saved));
    ActThen(st, c, HandOver);
    assert [] + [Take(Saved)] == a && a + [Encode(true, Saved)] == b && b + [Keep(true, Saved)] == c && c + [HandOver] == SEND;
  }

  /** A refused reset, a send that fails on the closed log, and a crash. */
  const BAD_RESET: seq<Action> := [Reset(Refused), Take(Saved), Encode(true, Saved), Keep(true, Saved), Die]

  lemma {:induction false} BadReset(st: Sending)
    requires st.stage == Idle
    ensures ActAll(st, BAD_RESET).sent == st.sent && Load(ActAll(st, BAD_RESET).q.file) == Some(Pair(1, 1))
  {
    hide Load, Print;
    LoadPrint(Pair(1, 1));
    var r := Reset(Refused);
    var a, b := [r], [r, Take(Saved)];
    var c, d := b + [Encode(true, Saved)], b + [Encode(true, Saved), Keep(true, Saved)];
    ActThen(st, [], r);
    ActThen(st, a, Take(Saved));
    ActThen(st, b, Encode(true, Saved));
    ActThen(st, c, Keep(true, Saved));
    ActThen(st, d, Die);
    assert [] + [r] == a && a + [Take(Saved)] == b && c + [Keep(true, Saved)] == d && d + [Die] == BAD_RESET;
  }

  lemma {:induction false} ActConcat(st: Sending, xs: seq<Action>, ys: seq<Action>)
    ensures ActAll(st, xs + ys) == ActAll(ActAll(st, xs), ys)
    decreases |ys|
  {
    hide Act;
    if ys == [] {
      assert xs + ys == xs;
    } else {
      var most := ys[..|ys| - 1];
      assert (xs + ys)[..|xs + ys| - 1] == xs + most;
      ActConcat(st, xs, most);
    }
  }

  /**
   The law fails after a reset that the sequence file refuses: it rewinds the counter in memory only, the next claim
   writes the rewound counter out, and a restart then gives out again, from 1 on, numbers that were already used.
   */
  lemma {:induction false} RefusedResetReuses(st: Sending)
    requires Opened(st) && st.q.sender < SIZE_MAX
    ensures
      var t := ActAll(st, SEND + BAD_RESET);
      t.sent == [st.q.sender] && Load(t.q.file) == Some(Pair(1, 1)) && t.sent[0] >= Load(t.q.file).value.sender
  {
    hide ActAll, Load;
    SendOne(st);
    BadReset(ActAll(st, SEND));
    ActConcat(st, SEND, BAD_RESET);
    assert [] + [st.q.sender] == [st.q.sender];
  }

  /** What NoReuse promises of a state. */
  ghost predicate Lawful(st: Sending) {
    && Increasing(st.sent) && Load(st.q.file).Some?
    && (forall i :: 0 <= i < |st.sent| ==> st.sent[i] < Load(st.q.file).value.sender)
  }

  /** What is left of Safe after a refused reset that nothing was sent before: memory and file agree after a restart. */
  ghost predicate Loose(st: Sending) {
    && Load(st.q.file).Some? && ValidPair(Load(st.q.file).value) && ValidPair(Pair(st.q.sender, st.q.target))
    && (st.stage.Busy? ==> 1 <= st.stage.n && st.stage.n + 1 == st.q.sender)
    && (st.closed ==> st.sent == [] && (st.stage.Busy? ==> st.stage.at != Kept))
    && (!st.closed ==> Durable(st.q) && Increasing(st.sent) && forall x :: x in st.sent ==> x < Frontier(st))
  }

  lemma LooseRestart(st: Sending, file: Option<bytes>)
    requires Loose(st) && Load(file).Some? && ValidPair(Load(file).value)
    requires st.closed || Load(file).value.sender >= Frontier(st)
    ensures Loose(Restart(st, file))
  {
    hide Load;
  }

  lemma LooseTake(st: Sending, o: Outcome)
    requires Loose(st) && st.stage == Idle && st.q.sender < SIZE_MAX
    ensures Loose(Act(st, Take(o)))
  {
    hide Load, Print;
    var p := Pair(st.q.sender + 1, st.q.target);
    LoadPrint(p);
    var taken := st.(stage := Busy(st.q.sender, Numbered), q := Save(st.q, p, true));
    assert Loose(taken);
    LooseRestart(taken, Some(Print(p)));
    LooseRestart(st, st.q.file);
  }

  lemma LooseRollBack(st: Sending, o: Outcome)
    requires Loose(st) && st.stage.Busy?
    ensures Loose(RollBack(st, st.stage.n, o))
  {
    hide Load, Print;
    var p := Pair(st.stage.n, st.q.target);
    LoadPrint(p);
    LooseRestart(st, st.q.file);
    LooseRestart(st, Some(Print(p)));
  }

  lemma LooseReceive(st: Sending, n: nat, o: Outcome)
    requires Loose(st) && st.q.target < n <= SIZE_MAX
    ensures Loose(Act(st, Receive(n, o)))
  {
    hide Load, Print;
    var p := Pair(st.q.sender, n);
    LoadPrint(p);
    LooseRestart(st, st.q.file);
    LooseRestart(st, Some(Print(p)));
  }

  lemma LooseHandOver(st: Sending)
    requires Loose(st)
    ensures Loose(Act(st, HandOver))
  {
    hide Load;
    if st.stage.Busy? && st.stage.at == Kept {
      var t := Act(st, HandOver);
      assert forall x :: x in t.sent <==> x in st.sent || x == st.stage.n;
      assert forall i :: 0 <= i < |st.sent| ==> t.sent[i] == st.sent[i] && st.sent[i] in st.sent;
    }
  }

  lemma LooseReset(st: Sending, o: Outcome)
    requires Loose(st) && o != Refused
    ensures Loose(Act(st, Reset(o)))
  {
    hide Load, Print;
    LoadPrint(Pair(1, 1));
    LooseRestart(st, st.q.file);
  }

  lemma LooseAct(st: Sending, a: Action)
    requires Loose(st) && a != Reset(Refused)
    ensures Loose(Act(st, a))
  {
    hide Load, Print, RollBack;
    match a
    case Take(o) => if st.stage == Idle && st.q.sender < SIZE_MAX { LooseTake(st, o); }
    case Encode(ok, rollback) => if st.stage.Busy? { LooseRollBack(st, rollback); }
    case Keep(ok, rollback) => if st.stage.Busy? { LooseRollBack(st, rollback); }
    case HandOver => LooseHandOver(st);
    case Receive(n, o) => if st.q.target < n <= SIZE_MAX { LooseReceive(st, n, o); }
    case Reset(o) => LooseReset(st, o);
    case Die => LooseRestart(st, st.q.file);
  }

  lemma {:induction false} AlwaysLoose(st: Sending, acts: seq<Action>)
    requires Loose(st) && Tame(acts)
    ensures Loose(ActAll(st, acts))
  {
    hide Load, Act, Loose;
    if acts != [] {
      AlwaysLoose(st, acts[..|acts| - 1]);
      LooseAct(ActAll(st, acts[..|acts| - 1]), acts[|acts| - 1]);
    }
  }

  lemma LooseLawful(st: Sending)
    requires Loose(st)
    ensures Lawful(st)
  {
    hide Load;
    assert forall i :: 0 <= i < |st.sent| ==> st.sent[i] in st.sent;
  }

  /**
   The exact condition: at any point of any run between two sends, a refused reset does no harm, whatever follows it, if
   and only if nothing was handed to the transport since the last reset.
   */
  lemma {:induction false} RefusedResetIff(st: Sending, acts: seq<Action>)
    requires Opened(st) && Tame(acts) && ActAll(st, acts).stage == Idle
    ensures
      var t := ActAll(st, acts);
      (forall more :: Tame(more) ==> Lawful(ActAll(t, [Reset(Refused)] + more))) <==> t.sent == []
  {
    hide ActAll, Load, Lawful;
    AlwaysSafe(st, acts);
    var t := ActAll(st, acts);
    if t.sent == [] {
      RefusedLoose(t);
      forall more | Tame(more)
        ensures Lawful(ActAll(t, [Reset(Refused)] + more))
      {
        ActConcat(t, [Reset(Refused)], more);
        AlwaysLoose(ActAll(t, [Reset(Refused)]), more);
        LooseLawful(ActAll(t, [Reset(Refused)] + more));
      }
    } else {
      var more := BAD_RESET[1..];
      assert BAD_RESET == [Reset(Refused)] + more;
      BadReset(t);
      BadUnlawful(t);
      assert Tame(more);
    }
  }

  lemma {:induction false} RefusedLoose(st: Sending)
    requires Safe(st) && st.stage == Idle && st.sent == []
    ensures Loose(ActAll(st, [Reset(Refused)]))
  {
    hide Load;
    ActThen(st, [], Reset(Refused));
    assert [] + [Reset(Refused)] == [Reset(Refused)];
  }

  lemma {:induction false} BadUnlawful(st: Sending)
    requires Safe(st) && st.stage == Idle && st.sent != []
    ensures !Lawful(ActAll(st, BAD_RESET))
  {
    hide Load, ActAll;
    BadReset(st);
    assert st.sent[0] in st.sent;
  }
}
