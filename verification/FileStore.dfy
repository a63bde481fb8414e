/**
 FileStore as an object: counters, sequence file, outbound log and offset index, changed in place.
 */
module FileStores {
  import opened Bytes
  import opened Stores
  import opened SeqFile
  import opened FileLog

  lemma {:induction false} PersistSnoc(p: Persisting, data: bytes, ios: seq<Answer>, io: Answer)
    ensures PersistRun(p, data, ios + [io]) == PersistStep(PersistRun(p, data, ios), data, io)
  {
    assert (ios + [io])[..|ios|] == ios;
  }

  /** std::getline: the line at `pos`, and whether it ends in a newline. */
  method GetLine(file: bytes, pos: nat) returns (line: bytes, terminated: bool)
    requires pos <= |file|
    ensures line == file[pos..LineEnd(file, pos)]
    ensures terminated <==> LineEnd(file, pos) < |file|
  {
    var end := pos;
    while end < |file| && file[end] != NEWLINE
      invariant pos <= end <= |file|
      invariant LineEnd(file, pos) == LineEnd(file, end)
    {
      end := end + 1;
    }
    line := file[pos..end];
    terminated := end < |file|;
  }

  /** Index of the first bar, the length if there is none. */
  method FindBar(line: bytes) returns (sep: nat)
    ensures sep == FindEither(line, 0, BAR, BAR)
  {
    sep := 0;
    while sep < |line| && line[sep] != BAR
      invariant sep <= |line|
      invariant FindEither(line, 0, BAR, BAR) == FindEither(line, sep, BAR, BAR)
    {
      sep := sep + 1;
    }
  }

  /** Skips white space from `pos`. */
  method SkipWhite(s: bytes, pos: nat) returns (r: nat)
    requires pos <= |s|
    ensures r == SkipSpaces(s, pos)
  {
    r := pos;
    while r < |s| && IsSpace(s[r])
      invariant pos <= r <= |s|
      invariant SkipSpaces(s, pos) == SkipSpaces(s, r)
    {
      r := r + 1;
    }
  }

  lemma {:induction false} ValSnoc(s: bytes, d: byte)
    requires AllDigits(s) && IsDigit(d)
    ensures AllDigits(s + [d]) && Val(s + [d]) == Val(s) * 10 + (d - 48)
  {
    assert (s + [d])[..|s|] == s;
  }

  /** std::from_chars into an unsigned number: the run of digits at `pos`. */
  method ReadNumber(s: bytes, pos: nat) returns (value: nat, end: nat)
    requires pos <= |s|
    ensures end == SkipDigits(s, pos) && value == Val(s[pos..end])
  {
    value, end := 0, pos;
    while end < |s| && IsDigit(s[end])
      invariant pos <= end <= |s|
      invariant SkipDigits(s, pos) == SkipDigits(s, end)
      invariant AllDigits(s[pos..end]) && value == Val(s[pos..end])
    {
      ValSnoc(s[pos..end], s[end]);
      assert s[pos..end + 1] == s[pos..end] + [s[end]];
      value := value * 10 + (s[end] - 48);
      end := end + 1;
    }
  }

  /** Strict parsing of the sequence file's text. */
  method ParseText(s: bytes) returns (p: Option<Pair>)
    ensures p == Parse(s)
  {
    hide Val, SkipSpaces, SkipDigits;
    for i := 0 to |s|
      invariant forall j :: 0 <= j < i ==> IsDigit(s[j]) || IsSpace(s[j])
    {
      if !IsDigit(s[i]) && !IsSpace(s[i]) { return None; }
    }
    var a := SkipWhite(s, 0);
    if a == |s| { return None; }
    var first, aEnd := ReadNumber(s, a);
    if first > SIZE_MAX { return None; }
    var b := SkipWhite(s, aEnd);
    if b == |s| { return None; }
    var second, bEnd := ReadNumber(s, b);
    if second > SIZE_MAX { return None; }
    var end := SkipWhite(s, bEnd);
    if end != |s| || first < 1 || second < 1 { return None; }
    p := Some(Pair(first, second));
  }

  /** The payload of the line at an offset. */
  method ReadLine(file: bytes, pos: nat) returns (raw: Option<bytes>)
    requires pos <= |file|
    ensures raw == ReadRaw(file, pos)
  {
    hide LineEnd, FindEither;
    var line, _ := GetLine(file, pos);
    var sep := FindBar(line);
    raw := if sep < |line| then Some(line[sep + 1..]) else None;
  }

  lemma ReadsNext(l: Log, k: nat, last: nat)
    requires k in l.index && k <= last
    ensures
      var raw := ReadRaw(l.file, l.index[k]);
      Ascending(Contents(l), k, last)
      == (if raw.Some? then [StoredFrame(k, raw.value)] else []) + Ascending(Contents(l), k + 1, last)
  {
    hide ReadRaw;
  }

  lemma {:induction false} NoneBetween(l: Log, lo: nat, mid: nat, hi: nat)
    requires lo <= mid && forall k :: lo <= k < mid ==> k !in l.index
    ensures Ascending(Contents(l), lo, hi) == Ascending(Contents(l), mid, hi)
  {
    hide ReadRaw;
    AscendingSkip(Contents(l), lo, mid, hi);
  }

  lemma {:induction false} AscendingPast(m: map<nat, bytes>, lo: nat, hi: nat)
    requires lo > hi
    ensures Ascending(m, lo, hi) == []
  {
  }

  class FileStore {
    var sender: nat
    var target: nat
    var seqFile: Option<bytes>
    var tmpFile: Option<bytes>
    var outFile: bytes
    var index: map<nat, nat>
    var streamGood: bool

    ghost function Numbers(): Seqs
      reads this
    {
      Seqs(sender, target, seqFile)
    }

    ghost function OutLog(): Log
      reads this
    {
      Log(outFile, index, streamGood)
    }

    ghost function OnDisk(): Disk
      reads this
    {
      Disk(seqFile, tmpFile)
    }

    // -- Sequence file -----------------------------------------------------

    /** Commits the counters only if the whole file is valid. */
    method LoadSeqs() returns (ok: bool)
      modifies this`sender, this`target
      ensures ok <==> Load(seqFile).Some?
      ensures ok ==> Pair(sender, target) == Load(seqFile).value
      ensures !ok ==> Numbers() == old(Numbers())
    {
      if seqFile == None {
        sender, target, ok := 1, 1, true;
      } else {
        var p := ParseText(seqFile.value);
        if p == None { return false; }
        sender, target, ok := p.value.sender, p.value.target, true;
      }
    }

    /**
     Writes the counters through a temporary file. `taken` are the answers of the system calls made, the first ones
     given: the disk goes through exactly the states of the persist protocol for them.
     */
    method PersistSeqs(answers: seq<Answer>) returns (ok: bool, ghost taken: seq<Answer>)
      modifies this`seqFile, this`tmpFile
      ensures forall i :: 0 <= i < |taken| ==> taken[i] == AnswerAt(answers, i)
      ensures
        var p := PersistRun(Persisting(old(OnDisk()), NotOpened), Print(Pair(sender, target)), taken);
        OnDisk() == p.disk && p.at == (if ok then Renamed else Failed)
      ensures ok <==> Persists(Print(Pair(sender, target)), answers)
      ensures seqFile == if ok then Some(Print(Pair(sender, target))) else old(seqFile)
    {
      hide Print, PersistRun, AnswerAt, Outcome, PersistStep;
      var data := Print(Pair(sender, target));
      ghost var start := Persisting(OnDisk(), NotOpened);
      StartOutcome(start, data, answers);
      taken := [];
      assert PersistRun(start, data, []) == start by { NoCalls(start, data); }

      var io := AnswerAt(answers, 0);
      CallMade(start, data, answers, taken);
      taken := taken + [io];
      OpenStep(start, data, io);
      if !io.Took? {
        DoneOutcome(PersistRun(start, data, taken), data, answers, 1);
        return false, taken;
      }
      tmpFile := Some([]);

      var off, k := 0, 1;
      while off < |data|
        invariant off <= |data| && unchanged(this`seqFile) && tmpFile == Some(data[..off]) && k == |taken|
        invariant Ongoing(start, data, answers, taken, Persisting(OnDisk(), Writing(off)))
        decreases |data| - off, |answers| - k
      {
        io := AnswerAt(answers, k);
        AnswersEnd(answers, k);
        CallMade(start, data, answers, taken);
        WriteStep(Persisting(OnDisk(), Writing(off)), data, io);
        k, taken := k + 1, taken + [io];
        if io == Error || io == Took(0) {
          tmpFile := None;
          DoneOutcome(PersistRun(start, data, taken), data, answers, k);
          return false, taken;
        }
        if io.Took? {
          off := Min(off + io.n, |data|);
          tmpFile := Some(data[..off]);
        }
      }
      assert data[..off] == data;

      io := AnswerAt(answers, k);
      CallMade(start, data, answers, taken);
      LastSteps(OnDisk(), data, io);
      k, taken := k + 1, taken + [io];
      if !io.Took? {
        tmpFile := None;
        DoneOutcome(PersistRun(start, data, taken), data, answers, k);
        return false, taken;
      }

      io := AnswerAt(answers, k);
      CallMade(start, data, answers, taken);
      LastSteps(OnDisk(), data, io);
      k, taken := k + 1, taken + [io];
      if !io.Took? {
        tmpFile := None;
        DoneOutcome(PersistRun(start, data, taken), data, answers, k);
        return false, taken;
      }

      io := AnswerAt(answers, k);
      CallMade(start, data, answers, taken);
      LastSteps(OnDisk(), data, io);
      k, taken := k + 1, taken + [io];
      if !io.Took? {
        tmpFile := None;
        DoneOutcome(PersistRun(start, data, taken), data, answers, k);
        return false, taken;
      }
      seqFile, tmpFile := tmpFile, None;
      DoneOutcome(PersistRun(start, data, taken), data, answers, k);
      return true, taken;
    }

    method SetNextSender(n: nat, answers: seq<Answer>) returns (ok: bool)
      modifies this`sender, this`seqFile, this`tmpFile
      ensures Numbers() == SetSender(old(Numbers()), n, ok)
      ensures ok <==> Persists(Print(Pair(n, target)), answers)
    {
      hide Persists, PersistRun;
      var prev := sender;
      sender := n;
      ghost var taken;
      ok, taken := PersistSeqs(answers);
      if !ok { sender := prev; }
    }

    /** Claim and persist as one step; a failed persist claims nothing. */
    method NextSenderIncr(answers: seq<Answer>) returns (claimed: Option<nat>)
      modifies this`sender, this`seqFile, this`tmpFile
      ensures
        var r := Claim(old(Numbers()), claimed.Some?);
        Numbers() == r.q && claimed == r.number
      ensures claimed.Some? <==>
        old(sender) < SIZE_MAX && Persists(Print(Pair(old(sender) + 1, target)), answers)
    {
      hide Persists, PersistRun;
      var number := sender;
      if number >= SIZE_MAX { return None; }
      sender := number + 1;
      var ok;
      ghost var taken;
      ok, taken := PersistSeqs(answers);
      if !ok {
        sender := number;
        return None;
      }
      claimed := Some(number);
    }

    method AdvanceNextTarget(n: nat, answers: seq<Answer>) returns (ok: bool)
      modifies this`target, this`seqFile, this`tmpFile
      ensures Numbers() == AdvanceTarget(old(Numbers()), n, ok)
      ensures ok <==> n <= old(target) || Persists(Print(Pair(sender, n)), answers)
    {
      hide Persists, PersistRun;
      var cur := target;
      if n <= cur { return true; }
      target := n;
      ghost var taken;
      ok, taken := PersistSeqs(answers);
      if !ok { target := cur; }
    }

    // -- Outbound log ------------------------------------------------------

    /** Only `written` bytes of the record reach the file; a short write latches the stream. */
    method StoreOutbound(seqNum: nat, raw: bytes, written: nat, synced: bool) returns (ok: bool)
      modifies this`outFile, this`index, this`streamGood
      ensures Appended(OutLog(), ok) == Append(old(OutLog()), seqNum, raw, written, synced)
    {
      hide Rec;
      if !streamGood { return false; }
      var pos := |outFile|;
      var rec := Rec(seqNum, raw);
      outFile := outFile + rec[..Min(written, |rec|)];
      if written < |rec| {
        streamGood := false;
        return false;
      }
      assert rec[..|rec|] == rec;
      if !synced { return false; }
      index := index[seqNum := pos];
      ok := true;
    }

    /** Re-indexes the log line by line and cuts off an unterminated last line. */
    method RebuildIndex()
      modifies this`outFile, this`index
      ensures Log(outFile, index, true) == Reopen(old(outFile))
    {
      hide LineEnd, SeqOf;
      index := map[];
      var pos := 0;
      while pos < |outFile|
        invariant pos <= |outFile| && unchanged(this`outFile)
        invariant Scan(outFile, 0, map[]) == Scan(outFile, pos, index)
      {
        var line, terminated := GetLine(outFile, pos);
        if !terminated { break; }
        var n := LineNumber(line);
        if n.Some? { index := index[n.value := pos]; }
        LineFits(outFile, pos);
        pos := pos + |line| + 1;
      }
      ScanEnds(outFile, pos, index);
      outFile := outFile[..pos];
    }

    method LineNumber(line: bytes) returns (n: Option<nat>)
      ensures n == SeqOf(line)
    {
      var sep := FindBar(line);
      if sep == |line| { return None; }
      n := ParseUint(line[..sep], SIZE_MAX);
      if n.Some? && n.value == 0 { n := None; }
    }

    /** Opens the store: refuses an invalid sequence file, repairs the log. */
    method Open() returns (ok: bool)
      modifies this
      ensures seqFile == old(seqFile)
      ensures ok <==> Load(seqFile).Some?
      ensures ok ==> Pair(sender, target) == Load(seqFile).value && OutLog() == Reopen(old(outFile))
    {
      ok := LoadSeqs();
      if ok {
        RebuildIndex();
        streamGood := true;
      }
    }

    /** Reads the line at each indexed offset, in ascending order of the numbers. */
    method GetMessages(begin: nat, end: nat) returns (frames: seq<StoredFrame>)
      requires forall k :: k in index ==> index[k] <= |outFile|
      ensures frames == ReadRange(OutLog(), begin, end)
    {
      hide ReadRaw, Contents, Ascending;
      var last := if end == 0 then MaxKey(index.Keys) else end;
      var it := LowerBound(index.Keys, begin);
      ghost var all := Contents(OutLog());
      ghost var at: nat := begin;
      frames := [];
      while it.Some? && it.value <= last
        invariant it == LowerBound(index.Keys, at)
        invariant ReadRange(OutLog(), begin, end) == frames + Ascending(all, at, last)
        decreases if it.Some? then last - it.value else -1, it.Some?
      {
        NoneBetween(OutLog(), at, it.value, last);
        ReadsNext(OutLog(), it.value, last);
        var raw := ReadLine(outFile, index[it.value]);
        if raw.Some? { frames := frames + [StoredFrame(it.value, raw.value)]; }
        at := it.value + 1;
        it := LowerBound(index.Keys, it.value + 1);
      }
      NoneBetween(OutLog(), at, Max(at, last + 1), last);
      AscendingPast(all, Max(at, last + 1), last);
    }

    /**
     Starts over, if both logs can be cut to nothing and the counters persisted; a failure on the way leaves the
     counters at 1 in memory only, and the log closed. Whether the log can be opened again is not part of the result.
     */
    method Reset(outCut: bool, inCut: bool, answers: seq<Answer>, opens: bool) returns (ok: bool)
      modifies this
      ensures sender == 1 && target == 1 && index == map[] && streamGood == (ok && opens)
      ensures outFile == if outCut then [] else old(outFile)
      ensures ok <==> outCut && inCut && Persists(Print(Pair(1, 1)), answers)
      ensures seqFile == if ok then Some(Print(Pair(1, 1))) else old(seqFile)
    {
      hide Persists, PersistRun;
      sender, target, index, streamGood := 1, 1, map[], false;
      if !outCut { return false; }
      outFile := [];
      if !inCut { return false; }
      ghost var taken;
      ok, taken := PersistSeqs(answers);
      if ok { streamGood := opens; }
    }
  }

  /** The run so far, on the answers taken, stands at `p`, and the rest of the answers decides. */
  ghost predicate Ongoing(start: Persisting, data: bytes, answers: seq<Answer>, taken: seq<Answer>, p: Persisting) {
    && (forall i :: 0 <= i < |taken| ==> taken[i] == AnswerAt(answers, i))
    && PersistRun(start, data, taken) == p
    && Persists(data, answers) == (Outcome(p, data, answers, |taken|).at == Renamed)
  }

  lemma {:induction false} StartOutcome(start: Persisting, data: bytes, answers: seq<Answer>)
    requires start.at == NotOpened
    ensures Ongoing(start, data, answers, [], start)
  {
    OutcomeAt(start, Persisting(Disk(None, None), NotOpened), data, answers, 0);
  }

  /** One more system call. */
  lemma {:induction false} CallMade(start: Persisting, data: bytes, answers: seq<Answer>, taken: seq<Answer>)
    requires Ongoing(start, data, answers, taken, PersistRun(start, data, taken))
    requires PersistRun(start, data, taken).at != Renamed && PersistRun(start, data, taken).at != Failed
    ensures
      var p, io := PersistRun(start, data, taken), AnswerAt(answers, |taken|);
      Ongoing(start, data, answers, taken + [io], PersistStep(p, data, io))
  {
    hide PersistStep, PersistRun, Persists;
    PersistSnoc(start, data, taken, AnswerAt(answers, |taken|));
  }

  lemma {:induction false} DoneOutcome(p: Persisting, data: bytes, answers: seq<Answer>, k: nat)
    requires p.at == Renamed || p.at == Failed
    ensures Outcome(p, data, answers, k) == p
  {
  }

  lemma OpenStep(p: Persisting, data: bytes, io: Answer)
    requires p.at == NotOpened
    ensures PersistStep(p, data, io) ==
      if !io.Took? then Persisting(p.disk, Failed) else Persisting(p.disk.(tmp := Some([])), Writing(0))
    ensures data[..0] == []
  {
  }

  lemma WriteStep(p: Persisting, data: bytes, io: Answer)
    requires p.at.Writing? && p.at.written < |data|
    ensures PersistStep(p, data, io) ==
      if io == Error || io == Took(0) then Abandon(p)
      else if io.Took? then
        var end := Min(p.at.written + io.n, |data|);
        Persisting(p.disk.(tmp := Some(data[..end])), Writing(end))
      else p
  {
  }

  lemma LastSteps(d: Disk, data: bytes, io: Answer)
    ensures PersistStep(Persisting(d, Writing(|data|)), data, io) ==
      if !io.Took? then Abandon(Persisting(d, Synced)) else Persisting(d, Synced)
    ensures PersistStep(Persisting(d, Synced), data, io) ==
      if !io.Took? then Abandon(Persisting(d, Synced)) else Persisting(d, Closed)
    ensures PersistStep(Persisting(d, Closed), data, io) ==
      if !io.Took? then Abandon(Persisting(d, Synced)) else Persisting(Disk(d.tmp, None), Renamed)
  {
  }

  lemma {:induction false} NoCalls(p: Persisting, data: bytes)
    ensures PersistRun(p, data, []) == p
  {
  }

  lemma AnswersEnd(answers: seq<Answer>, k: nat)
    ensures k >= |answers| ==> AnswerAt(answers, k) == Took(SIZE_MAX)
  {
  }

  lemma LineFits(file: bytes, pos: nat)
    requires pos <= |file| && LineEnd(file, pos) < |file|
    ensures |file[pos..LineEnd(file, pos)]| == LineEnd(file, pos) - pos
  {
  }

  lemma {:induction false} ScanEnds(file: bytes, pos: nat, index: map<nat, nat>)
    requires pos <= |file| && LineEnd(file, pos) == |file|
    ensures Scan(file, pos, index) == Scanned(index, pos)
  {
  }
}
