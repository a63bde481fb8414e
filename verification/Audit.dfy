/**
 The audit log: producers, flush callers and one writer thread, interleaved at every release of the queue lock.
 */
module Audit {
  import opened Bytes

  datatype Entry = Entry(session: bytes, outbound: bool, raw: bytes)

  /** Where the writer is: holding the queue lock, writing an entry, flushing the file, or done flushing it. */
  datatype Writer = Ready | Writing(entry: Entry) | Flushing | Flushed

  /** What becomes of an entry handed to write_entry. */
  datatype WriteResult = Wrote | NotOpen | StreamError

  /**
   The shared state, and its history: every entry accepted, every entry handed to write_entry, how many of those the
   last file flush covered, and for each flush token how many entries had been accepted when it was drawn.
   */
  datatype State = State(
    maxQueue: nat, queue: seq<Entry>, writer: Writer, requested: nat, acknowledged: nat,
    calls: nat, written: nat, dropped: nat, failed: nat,
    accepted: seq<Entry>, handed: seq<Entry>, flushedUpTo: nat, drawnAt: seq<nat>)

  datatype Action =
    | Log(entry: Entry)
    | RequestFlush
    | Pop
    | WriteEntry(result: WriteResult)
    | StartFlush
    | FlushFile
    | Acknowledge

  /** One atomic region; an action that is not enabled changes nothing. */
  function Next(s: State, a: Action): State {
    match a
    case Log(e) =>
      if s.maxQueue > 0 && |s.queue| >= s.maxQueue then s.(calls := s.calls + 1, dropped := s.dropped + 1)
      else s.(calls := s.calls + 1, queue := s.queue + [e], accepted := s.accepted + [e])
    case RequestFlush => s.(requested := s.requested + 1, drawnAt := s.drawnAt + [|s.accepted|])
    case Pop =>
      if s.writer != Ready || s.queue == [] then s else s.(writer := Writing(s.queue[0]), queue := s.queue[1..])
    case WriteEntry(result) =>
      if !s.writer.Writing? then s
      else
        var t := s.(writer := Ready, handed := s.handed + [s.writer.entry]);
        (match result
         case Wrote => t.(written := t.written + 1)
         case NotOpen => t.(dropped := t.dropped + 1)
         case StreamError => t.(failed := t.failed + 1))
    case StartFlush =>
      if s.writer != Ready || s.queue != [] || s.requested <= s.acknowledged then s else s.(writer := Flushing)
    case FlushFile => if s.writer != Flushing then s else s.(writer := Flushed, flushedUpTo := |s.handed|)
    case Acknowledge =>
      if s.writer != Flushed then s
      else s.(writer := Ready, acknowledged := if s.queue == [] then s.requested else s.acknowledged)
  }

  function NextAll(s: State, acts: seq<Action>): State {
    if acts == [] then s else Next(NextAll(s, acts[..|acts| - 1]), acts[|acts| - 1])
  }

  function Initial(maxQueue: nat): State {
    State(maxQueue, [], Ready, 0, 0, 0, 0, 0, 0, [], [], 0, [])
  }

  // ---------------------------------------------------------------------
  // The invariant
  // ---------------------------------------------------------------------

  function InFlight(s: State): seq<Entry> {
    if s.writer.Writing? then [s.writer.entry] else []
  }

  predicate Inv(s: State) {
    && s.handed + InFlight(s) + s.queue == s.accepted
    && s.calls == s.written + s.failed + s.dropped + |s.queue| + |InFlight(s)|
    && s.acknowledged <= s.requested == |s.drawnAt|
    && (forall i :: 0 <= i < |s.drawnAt| ==> s.drawnAt[i] <= |s.accepted|)
    && (forall i :: 0 <= i < s.acknowledged ==> s.drawnAt[i] <= s.flushedUpTo)
    && s.flushedUpTo <= |s.handed|
    && (s.writer == Flushed ==> s.flushedUpTo == |s.handed|)
    && (s.maxQueue > 0 ==> |s.queue| <= s.maxQueue)
  }

  lemma LogKeeps(s: State, e: Entry)
    requires Inv(s)
    ensures Inv(Next(s, Log(e)))
  {
    Associates(s.handed + InFlight(s), s.queue, [e]);
  }

  lemma PopKeeps(s: State)
    requires Inv(s)
    ensures Inv(Next(s, Pop))
  {
    if s.writer == Ready && s.queue != [] {
      assert s.queue == [s.queue[0]] + s.queue[1..];
      Associates(s.handed, [s.queue[0]], s.queue[1..]);
      assert s.handed + [] == s.handed;
    }
  }

  lemma WriteKeeps(s: State, result: WriteResult)
    requires Inv(s)
    ensures Inv(Next(s, WriteEntry(result)))
  {
    if s.writer.Writing? {
      assert s.handed + [s.writer.entry] + [] == s.handed + [s.writer.entry];
    }
  }

  lemma TokenKeeps(s: State)
    requires Inv(s)
    ensures Inv(Next(s, RequestFlush)) && Inv(Next(s, StartFlush)) && Inv(Next(s, FlushFile))
  {
  }

  lemma AcknowledgeKeeps(s: State)
    requires Inv(s)
    ensures Inv(Next(s, Acknowledge))
  {
    if s.queue == [] { assert s.handed + InFlight(s) + [] == s.handed + InFlight(s); }
    assert s.handed + [] == s.handed;
  }

  lemma NextKeeps(s: State, a: Action)
    requires Inv(s)
    ensures Inv(Next(s, a))
  {
    hide Inv, Next;
    match a
    case Log(e) => LogKeeps(s, e);
    case Pop => PopKeeps(s);
    case WriteEntry(result) => WriteKeeps(s, result);
    case RequestFlush => TokenKeeps(s);
    case StartFlush => TokenKeeps(s);
    case FlushFile => TokenKeeps(s);
    case Acknowledge => AcknowledgeKeeps(s);
  }

  lemma {:induction false} AlwaysInv(maxQueue: nat, acts: seq<Action>)
    ensures Inv(NextAll(Initial(maxQueue), acts))
  {
    hide Inv, Next;
    if acts != [] {
      AlwaysInv(maxQueue, acts[..|acts| - 1]);
      NextKeeps(NextAll(Initial(maxQueue), acts[..|acts| - 1]), acts[|acts| - 1]);
    } else {
      InitialInv(maxQueue);
    }
  }

  lemma InitialInv(maxQueue: nat)
    ensures Inv(Initial(maxQueue))
  {
  }

  // ---------------------------------------------------------------------
  // Main results
  // ---------------------------------------------------------------------

  /** flush() with the `k`-th token returns once that token is acknowledged. */
  predicate MayReturn(s: State, k: nat) {
    1 <= k <= s.acknowledged
  }

  /**
   The flush guarantee: in every interleaving, when flush() may return, every entry accepted before its token was drawn
   has been handed to write_entry, in the order of acceptance, and a file flush came after the last of them.
   */
  lemma {:induction false} FlushGuarantee(maxQueue: nat, acts: seq<Action>, k: nat)
    requires MayReturn(NextAll(Initial(maxQueue), acts), k)
    ensures
      var s := NextAll(Initial(maxQueue), acts);
      && k <= |s.drawnAt| && s.drawnAt[k - 1] <= s.flushedUpTo <= |s.handed| <= |s.accepted|
      && s.handed == s.accepted[..|s.handed|]
  {
    hide NextAll, Next;
    AlwaysInv(maxQueue, acts);
    var s := NextAll(Initial(maxQueue), acts);
    assert s.accepted[..|s.handed|] == s.handed;
  }

  /** Every call of log() is accounted for: written, failed, dropped, queued or being written. */
  lemma {:induction false} CallsConserved(maxQueue: nat, acts: seq<Action>)
    ensures
      var s := NextAll(Initial(maxQueue), acts);
      && s.calls == s.written + s.failed + s.dropped + |s.queue| + |InFlight(s)|
      && s.accepted == s.handed + InFlight(s) + s.queue
      && (maxQueue > 0 ==> |s.queue| <= maxQueue)
  {
    hide NextAll, Next;
    AlwaysInv(maxQueue, acts);
    SameLimit(maxQueue, acts);
  }

  lemma {:induction false} SameLimit(maxQueue: nat, acts: seq<Action>)
    ensures NextAll(Initial(maxQueue), acts).maxQueue == maxQueue
  {
    if acts != [] { SameLimit(maxQueue, acts[..|acts| - 1]); }
  }

  /** What the writer does next, given how the write it may be in turns out. */
  function WriterAction(s: State, result: WriteResult): Action {
    match s.writer
    case Writing(_) => WriteEntry(result)
    case Flushing => FlushFile
    case Flushed => Acknowledge
    case Ready => if s.queue != [] then Pop else StartFlush
  }

  /** The writer alone, for as many steps as there are results. */
  function WriterRun(s: State, results: seq<WriteResult>): State
    decreases |results|
  {
    if results == [] then s else WriterRun(Next(s, WriterAction(s, results[0])), results[1..])
  }

  /** Steps the writer needs at most before it has acknowledged every request. */
  function Distance(s: State): nat {
    2 * |s.queue| +
    match s.writer
    case Ready => 3
    case Writing(_) => 4
    case Flushing => 2
    case Flushed => 1
  }

  /** A flush that raced with new entries goes round once more. */
  function Rounds(s: State): nat {
    if s.queue != [] && (s.writer == Flushing || s.writer == Flushed) then Distance(s) + 3 else Distance(s)
  }

  /** No flush waits forever: left alone, the writer acknowledges every request in a bounded number of steps. */
  lemma {:induction false} FlushTerminates(s: State, results: seq<WriteResult>)
    requires Inv(s) && |results| >= Rounds(s)
    ensures WriterRun(s, results).acknowledged == s.requested
    decreases |results|
  {
    if s.acknowledged == s.requested {
      AcknowledgedStays(s, results);
    } else {
      OneStepCloser(s, results[0]);
      var t := Next(s, WriterAction(s, results[0]));
      if t.acknowledged < s.requested {
        FlushTerminates(t, results[1..]);
      } else {
        AcknowledgedStays(t, results[1..]);
      }
    }
  }

  lemma OneStepCloser(s: State, result: WriteResult)
    requires Inv(s) && s.acknowledged < s.requested
    ensures
      var t := Next(s, WriterAction(s, result));
      && Inv(t) && t.requested == s.requested
      && (t.acknowledged == s.requested || (t.acknowledged == s.acknowledged && Rounds(t) < Rounds(s)))
  {
    NextKeeps(s, WriterAction(s, result));
  }

  lemma {:induction false} AcknowledgedStays(s: State, results: seq<WriteResult>)
    requires Inv(s) && s.acknowledged == s.requested
    ensures WriterRun(s, results).acknowledged == s.requested
    decreases |results|
  {
    if results != [] {
      NextKeeps(s, WriterAction(s, results[0]));
      AcknowledgedStays(Next(s, WriterAction(s, results[0])), results[1..]);
    }
  }

  // ---------------------------------------------------------------------
  // The log object
  // ---------------------------------------------------------------------

  /** The text of an entry: SOH is shown as a bar. */
  function Readable(raw: bytes): (r: bytes)
    ensures |r| == |raw| && SOH !in r
  {
    seq(|raw|, i requires 0 <= i < |raw| => if raw[i] == SOH then BAR else raw[i])
  }

  /** One line of the audit file; `stamp` is the formatted time of the event. */
  function LineOf(e: Entry, stamp: bytes): bytes {
    stamp + [32] + (if e.outbound then [79, 85, 84, 32] else [73, 78, 32, 32]) + e.session + [32] + Readable(e.raw) + [NEWLINE]
  }

  method Render(raw: bytes) returns (text: bytes)
    ensures text == Readable(raw)
  {
    text := [];
    for i := 0 to |raw|
      invariant text == Readable(raw[..i])
    {
      text := text + [if raw[i] == SOH then BAR else raw[i]];
    }
    assert raw[..|raw|] == raw;
  }

  class FileAuditLog {
    const maxQueue: nat
    var queue: seq<Entry>
    var requested: nat
    var acknowledged: nat
    var dropped: nat
    var failed: nat
    var file: bytes
    var open: bool
    var writer: Writer
    ghost var history: State

    ghost predicate Valid()
      reads this
    {
      && Inv(history) && history.maxQueue == maxQueue && history.queue == queue && history.writer == writer
      && history.requested == requested && history.acknowledged == acknowledged
      && history.dropped == dropped && history.failed == failed
    }

    constructor (limit: nat)
      ensures Valid() && history == Initial(limit) && maxQueue == limit
    {
      maxQueue, queue, requested, acknowledged, dropped, failed := limit, [], 0, 0, 0, 0;
      file, open, writer, history := [], true, Ready, Initial(limit);
    }

    /** A full queue drops the new entry and counts it. */
    method Log(entry: Entry)
      requires Valid()
      modifies this
      ensures Valid() && history == Next(old(history), Action.Log(entry)) && file == old(file)
    {
      NextKeeps(history, Action.Log(entry));
      history := Next(history, Action.Log(entry));
      if maxQueue > 0 && |queue| >= maxQueue {
        dropped := dropped + 1;
      } else {
        queue := queue + [entry];
      }
    }

    /** The first half of flush(): the token whose acknowledgement the caller waits for. */
    method RequestFlush() returns (token: nat)
      requires Valid()
      modifies this
      ensures Valid() && history == Next(old(history), Action.RequestFlush)
      ensures token == requested == |history.drawnAt| && history.drawnAt[token - 1] == |history.accepted|
    {
      NextKeeps(history, Action.RequestFlush);
      history := Next(history, Action.RequestFlush);
      requested := requested + 1;
      token := requested;
    }

    /** Appends one line, or counts the loss; `streamOk` says whether the stream takes it. */
    method WriteEntry(stamp: bytes, streamOk: bool)
      requires Valid() && writer.Writing?
      modifies this
      ensures Valid() && queue == old(queue) && writer == Ready
      ensures
        var result := if !open then NotOpen else if !streamOk then StreamError else Wrote;
        && history == Next(old(history), Action.WriteEntry(result)) && open == old(open)
        && (result == Wrote ==> file == old(file) + LineOf(old(writer).entry, stamp))
    {
      var e := writer.entry;
      var result := if !open then NotOpen else if !streamOk then StreamError else Wrote;
      NextKeeps(history, Action.WriteEntry(result));
      history := Next(history, Action.WriteEntry(result));
      writer := Ready;
      if !open {
        dropped := dropped + 1;
        return;
      }
      var text := Render(e.raw);
      if !streamOk {
        failed := failed + 1;
        return;
      }
      var mark := if e.outbound then [79, 85, 84, 32] else [73, 78, 32, 32];
      file := file + (stamp + [32] + mark + e.session + [32] + text + [NEWLINE]);
    }

    /** The inner loop of write_loop, undisturbed: the queue is emptied in order. */
    method Drain(stamp: bytes, streamOk: bool)
      requires Valid() && writer == Ready
      modifies this
      ensures Valid() && writer == Ready && queue == []
      ensures history.handed == old(history).handed + old(queue) && history.accepted == old(history).accepted
      ensures requested == old(requested) && acknowledged == old(acknowledged)
    {
      ghost var all := history.handed + queue;
      while queue != []
        invariant Valid() && writer == Ready && history.handed + queue == all
        invariant history.accepted == old(history).accepted
        invariant requested == old(requested) && acknowledged == old(acknowledged)
        decreases |queue|
      {
        NextKeeps(history, Action.Pop);
        history := Next(history, Action.Pop);
        writer := Writing(queue[0]);
        assert history.handed + [queue[0]] + queue[1..] == all;
        queue := queue[1..];
        WriteEntry(stamp, streamOk);
      }
    }

    /** One undisturbed round of write_loop: drain, flush the file, acknowledge. */
    method Round(stamp: bytes, streamOk: bool)
      requires Valid() && writer == Ready
      modifies this
      ensures Valid() && writer == Ready && queue == [] && acknowledged == requested == old(requested)
      ensures history.handed == history.accepted == old(history).accepted
      ensures old(requested) > old(acknowledged) ==> history.flushedUpTo == |history.accepted|
    {
      Drain(stamp, streamOk);
      assert history.handed + [] + [] == history.handed;
      if requested > acknowledged {
        NextKeeps(history, Action.StartFlush);
        history := Next(history, Action.StartFlush);
        NextKeeps(history, Action.FlushFile);
        history := Next(history, Action.FlushFile);
        NextKeeps(history, Action.Acknowledge);
        history := Next(history, Action.Acknowledge);
        acknowledged := requested;
      }
    }
  }
}
