/**
 The append-only outbound log of FileStore: records, the offset index, and what a crash leaves of them.
 */
module FileLog {
  import opened Bytes
  import opened Stores

  // ---------------------------------------------------------------------
  // Records and lines
  // ---------------------------------------------------------------------

  function Rec(seqNum: nat, raw: bytes): bytes {
    Dec(seqNum) + [BAR] + raw + [NEWLINE]
  }

  function LineEnd(file: bytes, pos: nat): (r: nat)
    requires pos <= |file|
    ensures pos <= r <= |file|
  {
    FindEither(file, pos, NEWLINE, NEWLINE)
  }

  /** The number a complete line is indexed under, if any. */
  function SeqOf(line: bytes): Option<nat> {
    var sep := FindEither(line, 0, BAR, BAR);
    if sep == |line| then None
    else match ParseUint(line[..sep], SIZE_MAX)
      case Some(n) => if n > 0 then Some(n) else None
      case None => None
  }

  /** The payload of the line that starts at an offset. */
  function ReadRaw(file: bytes, pos: nat): Option<bytes> {
    if pos > |file| then None
    else
      var line := file[pos..LineEnd(file, pos)];
      var sep := FindEither(line, 0, BAR, BAR);
      if sep == |line| then None else Some(line[sep + 1..])
  }

  /** An index and the end of the last complete line. */
  datatype Scanned = Scanned(index: map<nat, nat>, end: nat)

  /** Every complete line is indexed at its offset; the scan stops before an unterminated one. */
  function Scan(file: bytes, pos: nat, index: map<nat, nat>): (r: Scanned)
    requires pos <= |file|
    ensures pos <= r.end <= |file|
    decreases |file| - pos
  {
    var nl := LineEnd(file, pos);
    if nl == |file| then Scanned(index, pos)
    else Scan(file, nl + 1, match SeqOf(file[pos..nl]) case Some(n) => index[n := pos] case None => index)
  }

  /** The log as the process sees it; `good` says whether the stream still accepts writes. */
  datatype Log = Log(file: bytes, index: map<nat, nat>, good: bool)

  const FRESH := Log([], map[], true)

  /** What opening the store makes of the file on disk: the index is rebuilt and a torn tail cut off. */
  function Reopen(file: bytes): Log {
    var r := Scan(file, 0, map[]);
    Log(file[..r.end], r.index, true)
  }

  datatype Appended = Appended(log: Log, ok: bool)

  /** store_outbound, of which `written` bytes reach the file and whose optional fsync succeeds or not. */
  function Append(l: Log, seqNum: nat, raw: bytes, written: nat, synced: bool): Appended {
    var rec := Rec(seqNum, raw);
    if !l.good then Appended(l, false)
    else if written < |rec| then Appended(Log(l.file + rec[..written], l.index, false), false)
    else if !synced then Appended(Log(l.file + rec, l.index, true), false)
    else Appended(Log(l.file + rec, l.index[seqNum := |l.file|], true), true)
  }

  /** What ranged reads see. */
  function Contents(l: Log): map<nat, bytes> {
    map k | k in l.index && ReadRaw(l.file, l.index[k]).Some? :: ReadRaw(l.file, l.index[k]).value
  }

  // ---------------------------------------------------------------------
  // The records a log stands for
  // ---------------------------------------------------------------------

  /** A complete record; `indexed` is false while only a later reopening can see it. */
  datatype Entry = Entry(seqNum: nat, raw: bytes, indexed: bool)

  predicate Storable(e: Entry) {
    1 <= e.seqNum <= SIZE_MAX && NEWLINE !in e.raw
  }

  predicate AllStorable(es: seq<Entry>) {
    forall i :: 0 <= i < |es| ==> Storable(es[i])
  }

  function Init(es: seq<Entry>): seq<Entry>
    requires es != []
  {
    es[..|es| - 1]
  }

  function Last(es: seq<Entry>): Entry
    requires es != []
  {
    es[|es| - 1]
  }

  function LogOf(es: seq<Entry>): bytes {
    if es == [] then [] else LogOf(Init(es)) + Rec(Last(es).seqNum, Last(es).raw)
  }

  function IndexOf(es: seq<Entry>): map<nat, nat> {
    if es == [] then map[]
    else if Last(es).indexed then IndexOf(Init(es))[Last(es).seqNum := |LogOf(Init(es))|]
    else IndexOf(Init(es))
  }

  /** The map of the records: the last write of a number wins. */
  function MapOf(es: seq<Entry>): map<nat, bytes> {
    if es == [] then map[]
    else if Last(es).indexed then MapOf(Init(es))[Last(es).seqNum := Last(es).raw]
    else MapOf(Init(es))
  }

  /** After a reopening every complete record is indexed. */
  function Found(es: seq<Entry>): (r: seq<Entry>)
    ensures |r| == |es| && forall i :: 0 <= i < |r| ==> r[i] == Entry(es[i].seqNum, es[i].raw, true)
  {
    seq(|es|, i requires 0 <= i < |es| => Entry(es[i].seqNum, es[i].raw, true))
  }

  /** The log stands for the records `es`, with an incomplete record at its end only once writing has failed. */
  ghost predicate Represents(l: Log, es: seq<Entry>) {
    && AllStorable(es) && l.index == IndexOf(es)
    && LogOf(es) <= l.file && NEWLINE !in l.file[|LogOf(es)|..]
    && (l.good ==> l.file == LogOf(es))
  }

  // ---------------------------------------------------------------------
  // One record in a file
  // ---------------------------------------------------------------------

  lemma {:induction false} DigitsClear(n: nat)
    ensures BAR !in Dec(n) && NEWLINE !in Dec(n)
  {
    DecDigits(n);
  }

  /** The text of a line. */
  function Line(seqNum: nat, raw: bytes): bytes {
    Dec(seqNum) + [BAR] + raw
  }

  lemma {:induction false} LineSplits(seqNum: nat, raw: bytes)
    ensures
      var line := Line(seqNum, raw);
      var sep := FindEither(line, 0, BAR, BAR);
      sep == |Dec(seqNum)| && line[..sep] == Dec(seqNum) && line[sep + 1..] == raw
  {
    DigitsClear(seqNum);
    var line := Line(seqNum, raw);
    var d := |Dec(seqNum)|;
    assert line[d] == BAR;
    assert forall i :: 0 <= i < d ==> line[i] == Dec(seqNum)[i];
    FindEitherIs(line, 0, BAR, BAR, d);
    assert line[..d] == Dec(seqNum) && line[d + 1..] == raw;
  }

  lemma LineIndexed(seqNum: nat, raw: bytes)
    requires 1 <= seqNum <= SIZE_MAX
    ensures SeqOf(Line(seqNum, raw)) == Some(seqNum)
  {
    hide FindEither;
    LineSplits(seqNum, raw);
    ParseDec(seqNum, SIZE_MAX);
  }

  /** A record surrounded by other bytes: its line, its number and its payload. */
  lemma RecordAt(pre: bytes, seqNum: nat, raw: bytes, post: bytes)
    requires 1 <= seqNum <= SIZE_MAX && NEWLINE !in raw
    ensures
      var file := pre + Rec(seqNum, raw) + post;
      var nl := LineEnd(file, |pre|);
      && nl + 1 == |pre| + |Rec(seqNum, raw)| <= |file| && file[|pre|..nl] == Line(seqNum, raw)
      && ReadRaw(file, |pre|) == Some(raw)
  {
    hide FindEither;
    DigitsClear(seqNum);
    var line := Line(seqNum, raw);
    var file := pre + Rec(seqNum, raw) + post;
    var nl := |pre| + |line|;
    assert Rec(seqNum, raw) == line + [NEWLINE];
    assert file[nl] == NEWLINE;
    assert file[|pre|..nl] == line;
    assert forall i :: |pre| <= i < nl ==> file[i] == line[i - |pre|];
    assert NEWLINE !in line;
    FindEitherIs(file, |pre|, NEWLINE, NEWLINE, nl);
    LineSplits(seqNum, raw);
  }

  /** A payload is read back unchanged exactly when it holds no newline. */
  lemma ReadBackIff(pre: bytes, seqNum: nat, raw: bytes, post: bytes)
    requires 1 <= seqNum <= SIZE_MAX
    ensures ReadRaw(pre + Rec(seqNum, raw) + post, |pre|) == Some(raw) <==> NEWLINE !in raw
  {
    if NEWLINE !in raw {
      RecordAt(pre, seqNum, raw, post);
    } else {
      hide FindEither;
      var cut := FindEither(raw, 0, NEWLINE, NEWLINE);
      assert cut < |raw| by {
        var i :| 0 <= i < |raw| && raw[i] == NEWLINE;
      }
      var rest := raw[cut + 1..] + [NEWLINE] + post;
      assert raw == raw[..cut] + [NEWLINE] + raw[cut + 1..];
      assert pre + Rec(seqNum, raw) + post == pre + Rec(seqNum, raw[..cut]) + rest;
      RecordAt(pre, seqNum, raw[..cut], rest);
      assert |raw[..cut]| < |raw|;
    }
  }

  // ---------------------------------------------------------------------
  // Scanning a log
  // ---------------------------------------------------------------------

  lemma {:induction false} LogPrefix(es: seq<Entry>, k: nat)
    requires k <= |es|
    ensures LogOf(es[..k]) <= LogOf(es)
    decreases |es|
  {
    if k == |es| {
      assert es[..k] == es;
    } else {
      LogPrefix(Init(es), k);
      assert Init(es)[..k] == es[..k];
    }
  }

  /** The `k`-th record sits where the index of the first `k` says. */
  lemma {:induction false} LogSplits(es: seq<Entry>, k: nat)
    requires k < |es|
    ensures
      var pre := LogOf(es[..k]);
      var rec := Rec(es[k].seqNum, es[k].raw);
      LogOf(es[..k + 1]) == pre + rec && pre + rec <= LogOf(es)
  {
    hide Rec, LogOf;
    LogPrefix(es, k + 1);
    assert Init(es[..k + 1]) == es[..k] && Last(es[..k + 1]) == es[k];
    LogSnoc(es[..k + 1]);
  }

  lemma {:induction false} LogSnoc(es: seq<Entry>)
    requires es != []
    ensures LogOf(es) == LogOf(Init(es)) + Rec(Last(es).seqNum, Last(es).raw)
  {
  }

  lemma FoundStep(es: seq<Entry>, k: nat)
    requires k < |es|
    ensures IndexOf(Found(es[..k + 1])) == IndexOf(Found(es[..k]))[es[k].seqNum := |LogOf(es[..k])|]
  {
    var f := Found(es[..k + 1]);
    assert Init(f) == Found(es[..k]) && Last(f) == Entry(es[k].seqNum, es[k].raw, true);
    FoundLog(es[..k]);
  }

  lemma {:induction false} FoundLog(es: seq<Entry>)
    ensures LogOf(Found(es)) == LogOf(es)
  {
    if es != [] {
      assert Init(Found(es)) == Found(Init(es));
      FoundLog(Init(es));
    }
  }

  lemma {:induction false} NoMoreLines(file: bytes, pos: nat, index: map<nat, nat>)
    requires pos <= |file| && NEWLINE !in file[pos..]
    ensures Scan(file, pos, index) == Scanned(index, pos)
  {
    assert forall i :: pos <= i < |file| ==> file[i] == file[pos..][i - pos];
  }

  lemma {:induction false} ScanLog(es: seq<Entry>, torn: bytes, k: nat)
    requires AllStorable(es) && NEWLINE !in torn && k <= |es| && LogOf(es[..k]) <= LogOf(es)
    ensures Scan(LogOf(es) + torn, |LogOf(es[..k])|, IndexOf(Found(es[..k]))) == Scanned(IndexOf(Found(es)), |LogOf(es)|)
    decreases |es| - k
  {
    hide Rec, LogOf, IndexOf, Found, ReadRaw, SeqOf, LineEnd;
    var file := LogOf(es) + torn;
    if k == |es| {
      assert es[..k] == es;
      assert file[|LogOf(es)|..] == torn;
      NoMoreLines(file, |LogOf(es)|, IndexOf(Found(es)));
    } else {
      var pre := LogOf(es[..k]);
      var rec := Rec(es[k].seqNum, es[k].raw);
      LogSplits(es, k);
      var post := file[|pre + rec|..];
      assert file == pre + rec + post;
      assert Storable(es[k]);
      RecordAt(pre, es[k].seqNum, es[k].raw, post);
      LineIndexed(es[k].seqNum, es[k].raw);
      FoundStep(es, k);
      ScanLog(es, torn, k + 1);
    }
  }

  /** Reopening a log with a torn tail: all complete records are indexed and the tail is gone. */
  lemma {:induction false} ReopenFinds(es: seq<Entry>, torn: bytes)
    requires AllStorable(es) && NEWLINE !in torn
    ensures Reopen(LogOf(es) + torn) == Log(LogOf(es), IndexOf(Found(es)), true)
  {
    assert es[..0] == [] && Found(es[..0]) == [];
    ScanLog(es, torn, 0);
    assert (LogOf(es) + torn)[..|LogOf(es)|] == LogOf(es);
  }

  // ---------------------------------------------------------------------
  // What a log reads as
  // ---------------------------------------------------------------------

  /** An indexed number points at its last indexed record. */
  lemma {:induction false} Latest(es: seq<Entry>, n: nat) returns (j: nat)
    requires n in IndexOf(es)
    ensures j < |es| && es[j].seqNum == n && IndexOf(es)[n] == |LogOf(es[..j])|
    ensures n in MapOf(es) && MapOf(es)[n] == es[j].raw
    decreases |es|
  {
    if Last(es).indexed && Last(es).seqNum == n {
      j := |es| - 1;
    } else {
      j := Latest(Init(es), n);
      assert Init(es)[..j] == es[..j];
    }
  }

  lemma {:induction false} SameKeys(es: seq<Entry>)
    ensures IndexOf(es).Keys == MapOf(es).Keys
  {
    if es != [] { SameKeys(Init(es)); }
  }

  /** Reads of a represented log see exactly the map of its records. */
  lemma {:induction false} ReadsAsMap(l: Log, es: seq<Entry>)
    requires Represents(l, es)
    ensures Contents(l) == MapOf(es) && Contents(l).Keys == l.index.Keys
  {
    hide Rec, LogOf, IndexOf, MapOf, ReadRaw;
    SameKeys(es);
    forall n | n in l.index
      ensures n in MapOf(es) && ReadRaw(l.file, l.index[n]) == Some(MapOf(es)[n])
    {
      var j := Latest(es, n);
      var pre, rec := LogOf(es[..j]), Rec(es[j].seqNum, es[j].raw);
      LogSplits(es, j);
      assert Storable(es[j]);
      assert l.file == pre + rec + l.file[|pre + rec|..];
      RecordAt(pre, es[j].seqNum, es[j].raw, l.file[|pre + rec|..]);
    }
  }

  // ---------------------------------------------------------------------
  // Appends and crashes
  // ---------------------------------------------------------------------

  /** The records after an append: only a complete write adds one. */
  function Kept(l: Log, es: seq<Entry>, seqNum: nat, raw: bytes, written: nat, synced: bool): seq<Entry> {
    if !l.good || written < |Rec(seqNum, raw)| then es else es + [Entry(seqNum, raw, synced)]
  }

  lemma AppendRepresents(l: Log, es: seq<Entry>, seqNum: nat, raw: bytes, written: nat, synced: bool)
    requires Represents(l, es) && Storable(Entry(seqNum, raw, synced))
    ensures Represents(Append(l, seqNum, raw, written, synced).log, Kept(l, es, seqNum, raw, written, synced))
  {
    hide Rec;
    var rec := Rec(seqNum, raw);
    if l.good && written < |rec| {
      assert NEWLINE !in rec[..written] by { TornRecord(seqNum, raw, written); }
      assert (l.file + rec[..written])[|LogOf(es)|..] == rec[..written];
    } else if l.good {
      var more := es + [Entry(seqNum, raw, synced)];
      assert Init(more) == es && Last(more) == Entry(seqNum, raw, synced);
    }
  }

  lemma TornRecord(seqNum: nat, raw: bytes, written: nat)
    requires written < |Rec(seqNum, raw)| && NEWLINE !in raw
    ensures NEWLINE !in Rec(seqNum, raw)[..written]
  {
    DigitsClear(seqNum);
    var line := Line(seqNum, raw);
    assert Rec(seqNum, raw)[..written] == line[..written];
    assert NEWLINE !in line;
  }

  /** How many records lie completely within the first `n` bytes. */
  function Complete(es: seq<Entry>, n: nat): (k: nat)
    ensures k <= |es| && |LogOf(es[..k])| <= n
    ensures k < |es| ==> n < |LogOf(es[..k + 1])|
  {
    if es == [] then 0
    else if |LogOf(es)| <= n then assert es[..|es|] == es; |es|
    else
      var k := Complete(Init(es), n);
      assert Init(es)[..k] == es[..k];
      assert k < |Init(es)| ==> Init(es)[..k + 1] == es[..k + 1];
      assert k == |Init(es)| ==> es[..k + 1] == es;
      k
  }

  /** Any prefix of a log is some of its records and the beginning of the next. */
  lemma {:induction false} PrefixIsTorn(es: seq<Entry>, n: nat)
    requires AllStorable(es) && n <= |LogOf(es)|
    ensures
      var kept := LogOf(es[..Complete(es, n)]);
      kept <= LogOf(es)[..n] && NEWLINE !in LogOf(es)[..n][|kept|..]
  {
    hide Rec, LogOf;
    var k := Complete(es, n);
    LogPrefix(es, k);
    var kept := LogOf(es[..k]);
    if k < |es| {
      LogSplits(es, k);
      var rec := Rec(es[k].seqNum, es[k].raw);
      assert Storable(es[k]);
      assert LogOf(es)[..n][|kept|..] == rec[..n - |kept|];
      TornRecord(es[k].seqNum, es[k].raw, n - |kept|);
    } else {
      assert es[..k] == es;
    }
  }

  /** The records found when only the first `n` bytes of a file survive. */
  function Surviving(es: seq<Entry>, n: nat): seq<Entry> {
    Found(es[..Complete(es, n)])
  }

  /**
   A crash at any byte: whatever prefix of the file survives, reopening finds exactly the records that are
   complete in it and leaves the file ending on a record boundary.
   */
  lemma CrashRepresents(l: Log, es: seq<Entry>, n: nat)
    requires Represents(l, es) && n <= |l.file|
    ensures Represents(Reopen(l.file[..n]), Surviving(es, n))
  {
    hide Rec, LogOf, IndexOf, Reopen;
    var k := Complete(es, n);
    var some := es[..k];
    var m := Min(n, |LogOf(es)|);
    assert AllStorable(some);
    CompleteWithin(es, n);
    PrefixIsTorn(es, m);
    var torn := l.file[..n][|LogOf(some)|..];
    assert LogOf(some) <= l.file[..n] && NEWLINE !in torn by {
      if n <= |LogOf(es)| {
        assert l.file[..n] == LogOf(es)[..n];
      } else {
        assert some == es;
        assert torn == l.file[|LogOf(es)|..][..n - |LogOf(es)|];
      }
    }
    assert l.file[..n] == LogOf(some) + torn;
    ReopenFinds(some, torn);
    FoundLog(some);
    assert AllStorable(Found(some));
    assert LogOf(some)[|LogOf(some)|..] == [];
  }

  lemma {:induction false} CompleteWithin(es: seq<Entry>, n: nat)
    ensures Complete(es, n) == Complete(es, Min(n, |LogOf(es)|))
    ensures n >= |LogOf(es)| ==> es[..Complete(es, n)] == es
  {
    hide Rec, LogOf;
    if n >= |LogOf(es)| { assert es[..|es|] == es; }
  }

  // ---------------------------------------------------------------------
  // Runs
  // ---------------------------------------------------------------------

  /** `Crash(survives)`: the process dies, only the first `survives` bytes of the file outlive it, and it is reopened. */
  datatype LogEvent = Store(seqNum: nat, raw: bytes, written: nat, synced: bool) | Crash(survives: nat)

  predicate StorableEvents(evs: seq<LogEvent>) {
    forall i :: 0 <= i < |evs| ==> evs[i].Store? ==> Storable(Entry(evs[i].seqNum, evs[i].raw, true))
  }

  function After(l: Log, ev: LogEvent): Log {
    match ev
    case Store(n, raw, written, synced) => Append(l, n, raw, written, synced).log
    case Crash(survives) => Reopen(l.file[..Min(survives, |l.file|)])
  }

  function LogRun(l: Log, evs: seq<LogEvent>): Log
    decreases |evs|
  {
    if evs == [] then l else LogRun(After(l, evs[0]), evs[1..])
  }

  function RecordsAfter(l: Log, es: seq<Entry>, ev: LogEvent): seq<Entry> {
    match ev
    case Store(n, raw, written, synced) => Kept(l, es, n, raw, written, synced)
    case Crash(survives) => Surviving(es, Min(survives, |l.file|))
  }

  function RecordsRun(l: Log, es: seq<Entry>, evs: seq<LogEvent>): seq<Entry>
    decreases |evs|
  {
    if evs == [] then es else RecordsRun(After(l, evs[0]), RecordsAfter(l, es, evs[0]), evs[1..])
  }

  lemma {:induction false} RunRepresents(l: Log, es: seq<Entry>, evs: seq<LogEvent>)
    requires Represents(l, es) && StorableEvents(evs)
    ensures Represents(LogRun(l, evs), RecordsRun(l, es, evs))
    decreases |evs|
  {
    hide Represents, Append, Reopen, Kept, Surviving, Storable;
    if evs != [] {
      match evs[0] {
        case Store(n, raw, written, synced) =>
          StorableUnsynced(n, raw, synced);
          AppendRepresents(l, es, n, raw, written, synced);
        case Crash(survives) => CrashRepresents(l, es, Min(survives, |l.file|));
      }
      RunRepresents(After(l, evs[0]), RecordsAfter(l, es, evs[0]), evs[1..]);
    }
  }

  lemma StorableUnsynced(n: nat, raw: bytes, synced: bool)
    requires Storable(Entry(n, raw, true))
    ensures Storable(Entry(n, raw, synced))
  {
  }

  /** get_messages on a log. */
  function ReadRange(l: Log, begin: nat, end: nat): seq<StoredFrame> {
    Ascending(Contents(l), begin, if end == 0 then MaxKey(l.index.Keys) else end)
  }

  /**
   FileStore refines the map store: after any run of appends that succeed, tear or fail to sync, and of crashes that
   keep any prefix of the file, a ranged read returns exactly what the map of complete records returns, and the file
   of a store that accepts writes ends on a record boundary.
   */
  lemma {:induction false} FileStoreRefines(evs: seq<LogEvent>, begin: nat, end: nat)
    requires StorableEvents(evs)
    ensures
      var l := LogRun(FRESH, evs);
      var es := RecordsRun(FRESH, [], evs);
      && ReadRange(l, begin, end) == Snapshot(MapOf(es), begin, end)
      && (l.good ==> l.file == LogOf(es))
  {
    hide RecordsRun, LogRun, LogOf, IndexOf, MapOf, Contents;
    FreshRepresents();
    RunRepresents(FRESH, [], evs);
    ReadsAsMap(LogRun(FRESH, evs), RecordsRun(FRESH, [], evs));
  }

  lemma FreshRepresents()
    ensures Represents(FRESH, [])
  {
  }

  // ---------------------------------------------------------------------
  // Against the in-memory store
  // ---------------------------------------------------------------------

  /** No crash loses written bytes and every fsync asked for succeeds. */
  predicate Lossless(l: Log, evs: seq<LogEvent>)
    decreases |evs|
  {
    evs != [] ==>
      && (match evs[0]
          case Store(_, _, _, synced) => synced
          case Crash(survives) => survives >= |l.file|)
      && Lossless(After(l, evs[0]), evs[1..])
  }

  /** What an in-memory map that sees the same acknowledged stores holds. */
  function MemoryRun(l: Log, m: map<nat, bytes>, evs: seq<LogEvent>): map<nat, bytes>
    decreases |evs|
  {
    if evs == [] then m
    else
      var next :=
        match evs[0]
        case Store(n, raw, written, synced) => if Append(l, n, raw, written, synced).ok then m[n := raw] else m
        case Crash(_) => m;
      MemoryRun(After(l, evs[0]), next, evs[1..])
  }

  predicate AllIndexed(es: seq<Entry>) {
    forall i :: 0 <= i < |es| ==> es[i].indexed
  }

  lemma SurvivesWhole(l: Log, es: seq<Entry>, n: nat)
    requires Represents(l, es) && n >= |l.file| && AllIndexed(es)
    ensures Surviving(es, n) == es
  {
    hide LogOf, IndexOf;
    CompleteWithin(es, n);
    assert Found(es) == es;
  }

  lemma {:induction false} MemoryStep(es: seq<Entry>, e: Entry)
    ensures e.indexed ==> MapOf(es + [e]) == MapOf(es)[e.seqNum := e.raw]
  {
    assert Init(es + [e]) == es && Last(es + [e]) == e;
  }

  /**
   Without loss, crashes are invisible: the log reads exactly as an in-memory map that was given the acknowledged
   stores, even though each crash may have torn the append in progress.
   */
  lemma {:induction false} CrashesInvisible(l: Log, es: seq<Entry>, evs: seq<LogEvent>)
    requires Represents(l, es) && AllIndexed(es) && StorableEvents(evs) && Lossless(l, evs)
    ensures Contents(LogRun(l, evs)) == MemoryRun(l, MapOf(es), evs)
    decreases |evs|
  {
    hide Represents, Rec, Reopen, Surviving, Storable, MapOf, Contents;
    if evs == [] {
      ReadsAsMap(l, es);
    } else {
      match evs[0] {
        case Store(n, raw, written, synced) =>
          StorableUnsynced(n, raw, synced);
          AppendRepresents(l, es, n, raw, written, synced);
          MemoryStep(es, Entry(n, raw, synced));
        case Crash(survives) =>
          CrashRepresents(l, es, |l.file|);
          SurvivesWhole(l, es, |l.file|);
          assert Min(survives, |l.file|) == |l.file|;
      }
      CrashesInvisible(After(l, evs[0]), RecordsAfter(l, es, evs[0]), evs[1..]);
    }
  }
}
