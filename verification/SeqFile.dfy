/**
 The sequence file of FileStore: its text, strict loading, and the write-tmp, fsync, rename protocol under crashes.
 */
module SeqFile {
  import opened Bytes

  datatype Pair = Pair(sender: nat, target: nat)

  // ---------------------------------------------------------------------
  // Text
  // ---------------------------------------------------------------------

  function Print(p: Pair): bytes {
    Dec(p.sender) + [NEWLINE] + Dec(p.target) + [NEWLINE]
  }

  predicate IsSpace(c: byte) {
    c == 32 || c == 9 || c == 13 || c == NEWLINE
  }

  /** First position at or after `pos` that holds no white space. */
  function SkipSpaces(s: bytes, pos: nat): (r: nat)
    requires pos <= |s|
    ensures pos <= r <= |s| && (r < |s| ==> !IsSpace(s[r]))
    ensures forall i :: pos <= i < r ==> IsSpace(s[i])
    decreases |s| - pos
  {
    if pos < |s| && IsSpace(s[pos]) then SkipSpaces(s, pos + 1) else pos
  }

  /** First position at or after `pos` that holds no digit. */
  function SkipDigits(s: bytes, pos: nat): (r: nat)
    requires pos <= |s|
    ensures pos <= r <= |s| && (r < |s| ==> !IsDigit(s[r]))
    ensures AllDigits(s[pos..r])
    decreases |s| - pos
  {
    if pos < |s| && IsDigit(s[pos]) then
      var r := SkipDigits(s, pos + 1);
      assert s[pos..r] == [s[pos]] + s[pos + 1..r];
      r
    else pos
  }

  predicate Plausible(s: bytes) {
    forall i :: 0 <= i < |s| ==> IsDigit(s[i]) || IsSpace(s[i])
  }

  /** Exactly two 64-bit numbers, both at least 1, separated and surrounded by white space only. */
  function Parse(s: bytes): Option<Pair> {
    var a := SkipSpaces(s, 0);
    var aEnd := SkipDigits(s, a);
    var b := SkipSpaces(s, aEnd);
    var bEnd := SkipDigits(s, b);
    if !Plausible(s) || a == |s| || Val(s[a..aEnd]) > SIZE_MAX then None
    else if b == |s| || Val(s[b..bEnd]) > SIZE_MAX || SkipSpaces(s, bEnd) != |s| then None
    else if Val(s[a..aEnd]) < 1 || Val(s[b..bEnd]) < 1 then None
    else Some(Pair(Val(s[a..aEnd]), Val(s[b..bEnd])))
  }

  /** A missing file is a fresh session; anything unparsable refuses to load. */
  function Load(file: Option<bytes>): Option<Pair> {
    match file case None => Some(Pair(1, 1)) case Some(s) => Parse(s)
  }

  predicate ValidPair(p: Pair) {
    1 <= p.sender <= SIZE_MAX && 1 <= p.target <= SIZE_MAX
  }

  // ---------------------------------------------------------------------
  // Loading printed text, and parts of it
  // ---------------------------------------------------------------------

  lemma {:induction false} SkipDigitsIs(s: bytes, pos: nat, end: nat)
    requires pos <= end <= |s| && AllDigits(s[pos..end]) && (end < |s| ==> !IsDigit(s[end]))
    ensures SkipDigits(s, pos) == end
  {
    var r := SkipDigits(s, pos);
    assert forall i :: pos <= i < end ==> s[i] == s[pos..end][i - pos];
    assert forall i :: pos <= i < r ==> s[i] == s[pos..r][i - pos];
  }

  lemma {:induction false} SkipSpacesIs(s: bytes, pos: nat, end: nat)
    requires pos <= end <= |s| && (forall i :: pos <= i < end ==> IsSpace(s[i])) && (end < |s| ==> !IsSpace(s[end]))
    ensures SkipSpaces(s, pos) == end
  {
  }

  lemma PlausibleTwo(a: bytes, b: bytes, tail: bytes)
    requires AllDigits(a) && AllDigits(b) && (tail == [] || tail == [NEWLINE])
    ensures Plausible(a + [NEWLINE] + b + tail)
  {
  }

  /** Two runs of digits with one newline between and at most one after. */
  lemma {:induction false} ParseTwo(a: bytes, b: bytes, tail: bytes)
    requires a != [] && AllDigits(a) && b != [] && AllDigits(b) && (tail == [] || tail == [NEWLINE])
    requires 1 <= Val(a) <= SIZE_MAX && 1 <= Val(b) <= SIZE_MAX
    ensures Parse(a + [NEWLINE] + b + tail) == Some(Pair(Val(a), Val(b)))
  {
    hide Val, SkipDigits, SkipSpaces, Plausible;
    var s := a + [NEWLINE] + b + tail;
    var at, end := |a| + 1, |a| + 1 + |b|;
    PlausibleTwo(a, b, tail);
    assert s[0..|a|] == a && s[at..end] == b;
    assert s[0] == a[0] && s[|a|] == NEWLINE && s[at] == b[0];
    assert end < |s| ==> s[end] == NEWLINE;
    SkipSpacesIs(s, 0, 0);
    SkipDigitsIs(s, 0, |a|);
    SkipSpacesIs(s, |a|, at);
    SkipDigitsIs(s, at, end);
    SkipSpacesIs(s, end, |s|);
  }

  /** Loading the printed form of a pair returns the pair. */
  lemma LoadPrint(p: Pair)
    requires ValidPair(p)
    ensures Load(Some(Print(p))) == Some(p)
  {
    hide Parse;
    DecDigits(p.sender);
    DecDigits(p.target);
    ParseTwo(Dec(p.sender), Dec(p.target), [NEWLINE]);
  }

  lemma {:induction false} DecHead(n: nat)
    requires n >= 1
    ensures Dec(n)[0] != 48
  {
    if n >= 10 { DecHead(n / 10); }
  }

  lemma {:induction false} ValPrefix(s: bytes, k: nat)
    requires AllDigits(s) && k <= |s|
    ensures AllDigits(s[..k]) && Val(s[..k]) <= Val(s)
    decreases |s|
  {
    if k < |s| {
      ValPrefix(s[..|s| - 1], k);
      assert s[..|s| - 1][..k] == s[..k];
    } else {
      assert s[..k] == s;
    }
  }

  lemma {:induction false} ValPositive(s: bytes)
    requires s != [] && AllDigits(s) && s[0] != 48
    ensures Val(s) >= 1
  {
    if |s| > 1 { ValPositive(s[..|s| - 1]); }
  }

  /**
   A strict prefix of a printed pair still loads exactly when it reaches into the second number, and then with that
   number cut short: only the rename keeps such a file from ever being the sequence file.
   */
  lemma TornTextLoads(p: Pair, n: nat)
    requires ValidPair(p) && n < |Print(p)|
    ensures Load(Some(Print(p)[..n])).Some? <==> n >= |Dec(p.sender)| + 2
    ensures n >= |Dec(p.sender)| + 2 ==>
      var cut := Dec(p.target)[..n - |Dec(p.sender)| - 1];
      AllDigits(cut) && Load(Some(Print(p)[..n])) == Some(Pair(p.sender, Val(cut)))
  {
    var a, b := Dec(p.sender), Dec(p.target);
    DecDigits(p.sender);
    DecDigits(p.target);
    var s := Print(p)[..n];
    if n >= |a| + 2 {
      var cut := b[..n - |a| - 1];
      assert s == a + [NEWLINE] + cut + [];
      DecHead(p.target);
      ValPrefix(b, |cut|);
      ValPositive(cut);
      ParseTwo(a, cut, []);
    } else {
      TornTooShort(p, n);
    }
  }

  lemma TornTooShort(p: Pair, n: nat)
    requires n < |Dec(p.sender)| + 2
    ensures Parse(Print(p)[..n]) == None
  {
    hide Val;
    var a := Dec(p.sender);
    DecDigits(p.sender);
    var s := Print(p)[..n];
    if n > 0 {
      var k := Min(n, |a|);
      assert s[0..k] == a[..k];
      assert s[0] == a[0] && IsDigit(s[0]);
      assert n == |a| + 1 ==> s[|a|] == NEWLINE;
      SkipDigitsIs(s, 0, k);
    }
  }

  // ---------------------------------------------------------------------
  // The persist protocol, one system call at a time
  // ---------------------------------------------------------------------

  datatype Disk = Disk(seqFile: Option<bytes>, tmp: Option<bytes>)

  datatype Progress = NotOpened | Writing(written: nat) | Synced | Closed | Renamed | Failed

  datatype Persisting = Persisting(disk: Disk, at: Progress)

  /** What the operating system answers: an error, an interruption, or success, for a write with the bytes taken. */
  datatype Answer = Error | Interrupted | Took(n: nat)

  function Abandon(p: Persisting): Persisting {
    Persisting(Disk(p.disk.seqFile, None), Failed)
  }

  /** One system call of persist_seqs: open, write, fsync, close or rename. Only an interrupted write is repeated. */
  function PersistStep(p: Persisting, data: bytes, io: Answer): Persisting {
    match p.at
    case NotOpened =>
      if !io.Took? then Persisting(p.disk, Failed) else Persisting(p.disk.(tmp := Some([])), Writing(0))
    case Writing(done) =>
      if done < |data| then
        match io
        case Error => Abandon(p)
        case Interrupted => p
        case Took(n) =>
          if n == 0 then Abandon(p)
          else
            var end := Min(done + n, |data|);
            Persisting(p.disk.(tmp := Some(data[..end])), Writing(end))
      else if !io.Took? then Abandon(p)
      else Persisting(p.disk, Synced)
    case Synced => if !io.Took? then Abandon(p) else Persisting(p.disk, Closed)
    case Closed => if !io.Took? then Abandon(p) else Persisting(Disk(p.disk.tmp, None), Renamed)
    case _ => p
  }

  function PersistRun(p: Persisting, data: bytes, ios: seq<Answer>): Persisting {
    if ios == [] then p else PersistStep(PersistRun(p, data, ios[..|ios| - 1]), data, ios[|ios| - 1])
  }

  /** The `k`-th answer of the operating system; later calls all succeed. */
  function AnswerAt(answers: seq<Answer>, k: nat): Answer {
    if k < |answers| then answers[k] else Took(SIZE_MAX)
  }

  /** How far the protocol is from its end. */
  function Remaining(p: Persisting, data: bytes): nat {
    match p.at
    case NotOpened => |data| + 4
    case Writing(done) => (if done < |data| then |data| - done else 0) + 3
    case Synced => 2
    case Closed => 1
    case _ => 0
  }

  /** The protocol run to its end on the given answers, from the `k`-th on. */
  function Outcome(p: Persisting, data: bytes, answers: seq<Answer>, k: nat): Persisting
    decreases if k < |answers| then |answers| - k else 0, Remaining(p, data)
  {
    if p.at == Renamed || p.at == Failed then p
    else Outcome(PersistStep(p, data, AnswerAt(answers, k)), data, answers, k + 1)
  }

  /** Whether persisting `data` succeeds under the given answers. */
  predicate Persists(data: bytes, answers: seq<Answer>) {
    Outcome(Persisting(Disk(None, None), NotOpened), data, answers, 0).at == Renamed
  }

  /** The files on disk have no say in how the protocol goes on. */
  lemma {:induction false} OutcomeAt(p: Persisting, q: Persisting, data: bytes, answers: seq<Answer>, k: nat)
    requires p.at == q.at
    ensures Outcome(p, data, answers, k).at == Outcome(q, data, answers, k).at
    decreases if k < |answers| then |answers| - k else 0, Remaining(p, data)
  {
    if p.at != Renamed && p.at != Failed {
      var io := AnswerAt(answers, k);
      OutcomeAt(PersistStep(p, data, io), PersistStep(q, data, io), data, answers, k + 1);
    }
  }

  // ---------------------------------------------------------------------
  // When a persist succeeds
  // ---------------------------------------------------------------------

  /** The bytes that the calls from the `k`-th up to, not including, the `w`-th take. */
  function BytesTaken(answers: seq<Answer>, k: nat, w: nat): nat
    decreases w - k
  {
    if k >= w then 0
    else (if AnswerAt(answers, k).Took? then AnswerAt(answers, k).n else 0) + BytesTaken(answers, k + 1, w)
  }

  /** The calls from the `k`-th on, up to the `w`-th, write `n` bytes: none fails or takes nothing, and none is idle. */
  predicate WrittenBy(n: nat, answers: seq<Answer>, k: nat, w: nat) {
    && k <= w
    && (forall i :: k <= i < w ==> AnswerAt(answers, i) != Error && AnswerAt(answers, i) != Took(0))
    && BytesTaken(answers, k, w) >= n
    && (k < w ==> BytesTaken(answers, k, w - 1) < n)
  }

  /** The fsync, the close and the rename, from the `w`-th call on, all succeed. */
  predicate Commits(answers: seq<Answer>, w: nat) {
    AnswerAt(answers, w).Took? && AnswerAt(answers, w + 1).Took? && AnswerAt(answers, w + 2).Took?
  }

  /** One write of those that are left. */
  lemma WrittenStep(n: nat, answers: seq<Answer>, k: nat, w: nat)
    requires n > 0
    ensures
      var io := AnswerAt(answers, k);
      WrittenBy(n, answers, k, w) <==>
        io != Error && io != Took(0) && WrittenBy(if io.Took? then Max(n, io.n) - io.n else n, answers, k + 1, w)
  {
  }

  lemma {:induction false} WritesDecide(p: Persisting, data: bytes, answers: seq<Answer>, k: nat)
    requires p.at.Writing? && p.at.written <= |data|
    ensures
      Outcome(p, data, answers, k).at == Renamed <==>
        exists w :: WrittenBy(|data| - p.at.written, answers, k, w) && Commits(answers, w)
    decreases if k < |answers| then |answers| - k else 0, Remaining(p, data)
  {
    var n, io := |data| - p.at.written, AnswerAt(answers, k);
    if n == 0 {
      CommitDecides(p, data, answers, k);
      assert WrittenBy(0, answers, k, k);
    } else {
      forall w
        ensures WrittenBy(n, answers, k, w) <==>
          io != Error && io != Took(0) && WrittenBy(if io.Took? then Max(n, io.n) - io.n else n, answers, k + 1, w)
      {
        WrittenStep(n, answers, k, w);
      }
      if io != Error && io != Took(0) { WritesDecide(PersistStep(p, data, io), data, answers, k + 1); }
    }
  }

  lemma {:induction false} CommitDecides(p: Persisting, data: bytes, answers: seq<Answer>, k: nat)
    requires p.at == Writing(|data|)
    ensures Outcome(p, data, answers, k).at == Renamed <==> Commits(answers, k)
  {
    var synced := PersistStep(p, data, AnswerAt(answers, k));
    var closed := PersistStep(synced, data, AnswerAt(answers, k + 1));
    assert Outcome(p, data, answers, k) == Outcome(synced, data, answers, k + 1);
    if synced.at == Synced {
      assert Outcome(synced, data, answers, k + 1) == Outcome(closed, data, answers, k + 2);
    }
  }

  /**
   Exactly when a persist succeeds: the open succeeds, the writes take all bytes with none of them failing or taking
   nothing, and the fsync, the close and the rename succeed.
   */
  lemma {:induction false} PersistsIff(data: bytes, answers: seq<Answer>)
    ensures
      Persists(data, answers) <==>
        AnswerAt(answers, 0).Took? && exists w :: WrittenBy(|data|, answers, 1, w) && Commits(answers, w)
  {
    var start := Persisting(Disk(None, None), NotOpened);
    var ready := PersistStep(start, data, AnswerAt(answers, 0));
    assert Outcome(start, data, answers, 0) == Outcome(ready, data, answers, 1);
    if ready.at.Writing? { WritesDecide(ready, data, answers, 1); }
  }

  /** The outcome is that of the state reached by the first calls. */
  lemma {:induction false} OutcomeFrom(p: Persisting, data: bytes, answers: seq<Answer>, i: nat)
    requires i <= |answers|
    ensures Outcome(p, data, answers, 0) == Outcome(PersistRun(p, data, answers[..i]), data, answers, i)
  {
    hide PersistStep;
    if i > 0 {
      OutcomeFrom(p, data, answers, i - 1);
      var q := PersistRun(p, data, answers[..i - 1]);
      assert answers[..i][..i - 1] == answers[..i - 1];
      EndStays(q, data, answers[i - 1]);
    }
  }

  lemma EndStays(p: Persisting, data: bytes, io: Answer)
    ensures p.at == Renamed || p.at == Failed ==> PersistStep(p, data, io) == p
  {
  }

  /** Only the answers still to come matter. */
  lemma {:induction false} OutcomeLater(p: Persisting, data: bytes, a: seq<Answer>, i: nat, b: seq<Answer>, j: nat)
    requires i <= |a| && j <= |b| && a[i..] == b[j..]
    ensures Outcome(p, data, a, i) == Outcome(p, data, b, j)
    decreases |a| - i, Remaining(p, data)
  {
    if p.at != Renamed && p.at != Failed {
      if i < |a| {
        assert a[i..][0] == b[j..][0] && a[i..][1..] == a[i + 1..] && b[j..][1..] == b[j + 1..];
        OutcomeLater(PersistStep(p, data, a[i]), data, a, i + 1, b, j + 1);
      } else {
        assert |b| == j;
        OutcomeExhausted(p, data, a, i, b, j);
      }
    }
  }

  lemma {:induction false} OutcomeExhausted(p: Persisting, data: bytes, a: seq<Answer>, i: nat, b: seq<Answer>, j: nat)
    requires |a| <= i && |b| <= j
    ensures Outcome(p, data, a, i) == Outcome(p, data, b, j)
    decreases Remaining(p, data)
  {
    if p.at != Renamed && p.at != Failed {
      OutcomeExhausted(PersistStep(p, data, AnswerAt(a, i)), data, a, i + 1, b, j + 1);
    }
  }

  /**
   Where an interruption is harmless: one more of them, before the `i`-th call, leaves a persist successful if and only
   if that call is a write, or comes after the rename.
   */
  lemma {:induction false} InterruptionIff(data: bytes, answers: seq<Answer>, i: nat)
    requires i <= |answers|
    ensures
      var p := PersistRun(Persisting(Disk(None, None), NotOpened), data, answers[..i]);
      Persists(data, answers[..i] + [Interrupted] + answers[i..]) <==>
        Persists(data, answers) && (p.at == Renamed || (p.at.Writing? && p.at.written < |data|))
  {
    hide PersistRun, Outcome;
    var start := Persisting(Disk(None, None), NotOpened);
    var more := answers[..i] + [Interrupted] + answers[i..];
    assert more[..i] == answers[..i] && more[i + 1..] == answers[i..];
    OutcomeFrom(start, data, answers, i);
    OutcomeFrom(start, data, more, i);
    var p := PersistRun(start, data, answers[..i]);
    OutcomeOne(p, data, more, i);
    OutcomeOne(p, data, answers, i);
    var q := PersistStep(p, data, Interrupted);
    OutcomeOne(q, data, more, i + 1);
    if q == p { OutcomeLater(p, data, more, i + 1, answers, i); }
  }

  lemma OutcomeOne(p: Persisting, data: bytes, answers: seq<Answer>, k: nat)
    ensures
      if p.at == Renamed || p.at == Failed then Outcome(p, data, answers, k) == p
      else Outcome(p, data, answers, k) == Outcome(PersistStep(p, data, AnswerAt(answers, k)), data, answers, k + 1)
  {
  }

  /** So an interrupted fsync makes a persist fail that otherwise succeeds, although nothing went wrong. */
  lemma {:induction false} InterruptedSyncFails(data: bytes)
    requires data != []
    ensures Persists(data, [Took(0), Took(|data|)]) && !Persists(data, [Took(0), Took(|data|), Interrupted])
  {
    hide Persists;
    var a := [Took(0), Took(|data|)];
    PersistsIff(data, a);
    assert WrittenBy(|data|, a, 1, 2) by { assert BytesTaken(a, 1, 2) == |data| + BytesTaken(a, 2, 2); }
    assert Commits(a, 2);
    InterruptionIff(data, a, 2);
    assert a[..2] + [Interrupted] + a[2..] == [Took(0), Took(|data|), Interrupted];
    TwoCalls(data);
  }

  lemma {:induction false} TwoCalls(data: bytes)
    requires data != []
    ensures PersistRun(Persisting(Disk(None, None), NotOpened), data, [Took(0), Took(|data|)]).at == Writing(|data|)
  {
    var a, start := [Took(0), Took(|data|)], Persisting(Disk(None, None), NotOpened);
    assert a[..1] == [Took(0)] && a[..1][..0] == [];
    assert PersistRun(start, data, []) == start;
    assert PersistRun(start, data, [Took(0)]) == PersistStep(start, data, Took(0));
  }

  /** The temporary file holds what was written so far; the sequence file changes only by the rename. */
  predicate PersistInv(prior: Option<bytes>, data: bytes, p: Persisting) {
    match p.at
    case Writing(done) => done <= |data| && p.disk == Disk(prior, Some(data[..done]))
    case Synced => p.disk == Disk(prior, Some(data))
    case Closed => p.disk == Disk(prior, Some(data))
    case Renamed => p.disk == Disk(Some(data), None)
    case _ => p.disk.seqFile == prior
  }

  lemma {:induction false} PersistKeeps(before: Disk, data: bytes, ios: seq<Answer>)
    ensures PersistInv(before.seqFile, data, PersistRun(Persisting(before, NotOpened), data, ios))
  {
    if ios != [] {
      PersistKeeps(before, data, ios[..|ios| - 1]);
      var p := PersistRun(Persisting(before, NotOpened), data, ios[..|ios| - 1]);
      assert p.at.Writing? && p.at.written == |data| ==> data[..p.at.written] == data;
    }
  }

  /**
   Crash atomicity: stop the protocol after any number of system calls with any answers. The sequence file then loads
   to exactly the old or exactly the new pair; it is the new one once the rename is done and the old one if the
   protocol gave up.
   */
  lemma {:induction false} CrashAtomic(before: Disk, pair: Pair, ios: seq<Answer>)
    requires ValidPair(pair)
    ensures
      var p := PersistRun(Persisting(before, NotOpened), Print(pair), ios);
      && (p.disk.seqFile == before.seqFile || p.disk.seqFile == Some(Print(pair)))
      && (Load(p.disk.seqFile) == Load(before.seqFile) || Load(p.disk.seqFile) == Some(pair))
      && (p.at.Renamed? ==> Load(p.disk.seqFile) == Some(pair))
      && (p.at.Failed? ==> p.disk.seqFile == before.seqFile)
  {
    hide Load, Print;
    PersistKeeps(before, Print(pair), ios);
    LoadPrint(pair);
  }

  // ---------------------------------------------------------------------
  // The counters and the file together
  // ---------------------------------------------------------------------

  /** The counters in memory and the sequence file on disk. */
  datatype Seqs = Seqs(sender: nat, target: nat, file: Option<bytes>)

  /** What memory holds is what a restart would load. */
  predicate Durable(q: Seqs) {
    Load(q.file) == Some(Pair(q.sender, q.target)) && ValidPair(Pair(q.sender, q.target))
  }

  /** Stores a pair; a failed persist takes the counters back. */
  function Save(q: Seqs, p: Pair, persisted: bool): Seqs {
    if persisted then Seqs(p.sender, p.target, Some(Print(p))) else q
  }

  function SetSender(q: Seqs, n: nat, persisted: bool): Seqs {
    Save(q, Pair(n, q.target), persisted)
  }

  function SetTarget(q: Seqs, n: nat, persisted: bool): Seqs {
    Save(q, Pair(q.sender, n), persisted)
  }

  datatype Claimed = Claimed(q: Seqs, number: Option<nat>)

  /** Reads and advances the sender counter, unless it is exhausted or cannot be persisted. */
  function Claim(q: Seqs, persisted: bool): Claimed {
    if q.sender >= SIZE_MAX || !persisted then Claimed(q, None)
    else Claimed(SetSender(q, q.sender + 1, true), Some(q.sender))
  }

  function AdvanceTarget(q: Seqs, n: nat, persisted: bool): Seqs {
    if n <= q.target then q else SetTarget(q, n, persisted)
  }

  /** Every counter operation, whether its persist succeeds or fails, keeps memory and disk in step. */
  lemma OperationsDurable(q: Seqs, n: nat, persisted: bool)
    requires Durable(q)
    ensures Durable(Claim(q, persisted).q)
    ensures 1 <= n <= SIZE_MAX ==>
      Durable(SetSender(q, n, persisted)) && Durable(SetTarget(q, n, persisted)) && Durable(AdvanceTarget(q, n, persisted))
  {
    hide Load, Print;
    if q.sender < SIZE_MAX { LoadPrint(Pair(q.sender + 1, q.target)); }
    if 1 <= n <= SIZE_MAX {
      LoadPrint(Pair(n, q.target));
      LoadPrint(Pair(q.sender, n));
    }
  }
}
