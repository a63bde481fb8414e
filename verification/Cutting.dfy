/**
 Chunking independence, the other direction: where the bounded scan can be made to pass over a frame start, two ways of
 cutting the same bytes end differently.
 */
module Cutting {
  import opened Bytes
  import opened Messages
  import opened Framing
  import opened Confluence

  // ---------------------------------------------------------------------
  // What some way of cutting leads to
  // ---------------------------------------------------------------------

  /** Feeding these chunks, all of the first `m` bytes, ends by draining the bytes from `a` on. */
  ghost predicate Cut(o: Options, s: bytes, a: nat, m: nat, chunks: seq<bytes>, msgs: seq<Message>)
    requires a <= m <= |s|
  {
    Concat(chunks) == s[..m] && FeedAll(o, [], chunks) == Prepend(msgs, Drain(o, s[a..m]))
  }

  ghost predicate At(o: Options, s: bytes, a: int, m: int) {
    0 <= a <= m <= |s| && exists chunks, msgs :: Cut(o, s, a, m, chunks, msgs)
  }

  lemma AtStart(o: Options, s: bytes)
    ensures At(o, s, 0, 0)
  {
    hide Drain, Feed, Prepend;
    DrainEmpty(o);
    PrependNothing(Drain(o, []));
    assert s[..0] == [] && s[0..0] == [];
    assert Cut(o, s, 0, 0, [], []);
  }

  /** Draining on from a later position. */
  lemma {:induction false} AtLater(o: Options, s: bytes, a: int, m: int, a': int, msgs: seq<Message>)
    requires At(o, s, a, m) && a <= a' <= m && Drain(o, s[a..m]) == Prepend(msgs, Drain(o, s[a'..m]))
    ensures At(o, s, a', m)
  {
    hide Drain, FeedAll;
    var chunks, before :| Cut(o, s, a, m, chunks, before);
    Associates(before, msgs, Drain(o, s[a'..m]).msgs);
    assert Cut(o, s, a', m, chunks, before + msgs);
  }

  lemma {:induction false} FeedAllSnoc(o: Options, held: bytes, chunks: seq<bytes>, x: bytes)
    requires x != []
    ensures
      var d := FeedAll(o, held, chunks);
      FeedAll(o, held, chunks + [x]) == Prepend(d.msgs, Feed(o, d.rest, x))
    decreases |chunks|
  {
    hide Feed, Drain, Prepend;
    if chunks == [] {
      assert chunks + [x] == [x] && [x][1..] == [];
      PrependEnd(Feed(o, held, x));
      PrependNothing(Feed(o, held, x));
    } else {
      TailOfConcat(chunks, [x]);
      if chunks[0] == [] {
        FeedAllSnoc(o, held, chunks[1..], x);
      } else {
        var d := Feed(o, held, chunks[0]);
        FeedAllSnoc(o, d.rest, chunks[1..], x);
        var later := FeedAll(o, d.rest, chunks[1..]);
        PrependPrepend(d.msgs, later, Feed(o, later.rest, x));
      }
    }
  }

  lemma PrependEnd(d: Drained)
    ensures Prepend(d.msgs, Drained([], d.rest)) == d
  {
  }

  lemma {:induction false} ConcatSnoc(chunks: seq<bytes>, x: bytes)
    ensures Concat(chunks + [x]) == Concat(chunks) + x
  {
    if chunks == [] {
      assert chunks + [x] == [x] && [x][1..] == [];
      assert x + [] == x && [] + x == x;
    } else {
      TailOfConcat(chunks, [x]);
      ConcatSnoc(chunks[1..], x);
      Associates(chunks[0], Concat(chunks[1..]), x);
    }
  }

  /** Input that fits the buffer is appended in one go. */
  lemma {:induction false} FeedAppends(o: Options, held: bytes, data: bytes)
    requires data != [] && Drain(o, held) == Drained([], held)
    requires o.maxMsgLen > 0 ==> |held| + |data| <= Cap(o)
    ensures Feed(o, held, data) == Drain(o, held + data)
  {
    hide Judge, Drain;
    assert Room(o, |held|, |data|) == |data| && data[..|data|] == data && data[|data|..] == [];
    PrependNothing(Feed(o, held + data, []));
  }

  /** The bytes from `a` to `m` wait for more. */
  ghost predicate Idle(o: Options, s: bytes, a: int, m: int) {
    0 <= a <= m <= |s| && Drain(o, s[a..m]) == Drained([], s[a..m])
  }

  /** A buffer that waits can be given any further bytes that fit. */
  lemma {:induction false} AtRead(o: Options, s: bytes, a: int, m: int, m': int)
    requires At(o, s, a, m) && Idle(o, s, a, m)
    requires m <= m' <= |s| && (o.maxMsgLen > 0 ==> m' - a <= Cap(o))
    ensures At(o, s, a, m')
  {
    hide Drain, Feed, FeedAll;
    if m < m' {
      var chunks, msgs :| Cut(o, s, a, m, chunks, msgs);
      var x := s[m..m'];
      FeedAllSnoc(o, [], chunks, x);
      ConcatSnoc(chunks, x);
      assert s[..m] + x == s[..m'] && s[a..m] + x == s[a..m'];
      FeedAppends(o, s[a..m], x);
      assert msgs + [] == msgs;
      assert Cut(o, s, a, m', chunks + [x], msgs);
    }
  }

  /** What becomes of the bytes from `p` to `m` when they are scanned. */
  ghost predicate Scanned(o: Options, s: bytes, p: int, m: int) {
    0 <= p <= m <= |s| && At(o, s, m - |Resync(o, s[p..m])|, m)
  }

  lemma ScannedKeeps(o: Options, s: bytes, p: int, m: int, n: nat)
    requires Scanned(o, s, p, m) && |Resync(o, s[p..m])| == n
    ensures At(o, s, m - n, m)
  {
    hide At, Resync;
  }

  /** From a scan of the bytes from `p` on to what it keeps. */
  lemma {:induction false} AtScan(o: Options, s: bytes, a: int, p: int, m: int)
    requires At(o, s, a, m) && a <= p <= m && Drain(o, s[a..m]) == Drain(o, Resync(o, s[p..m]))
    ensures Scanned(o, s, p, m)
  {
    hide Judge, Drain, Resync, At;
    AtBounds(o, s, a, m);
    var r := Resync(o, s[p..m]);
    assert r == s[m - |r|..m];
    PrependNothing(Drain(o, r));
    AtLater(o, s, a, m, m - |r|, []);
  }

  lemma {:induction false} AtVerdict(o: Options, s: bytes, a: int, m: int)
    requires At(o, s, a, m)
    ensures
      match Judge(o, s[a..m])
      case NeedMore(_) => Idle(o, s, a, m)
      case Accept(len, _) => At(o, s, a + len, m)
      case Garbage => Scanned(o, s, a, m)
      case Reject(skip, _) => Scanned(o, s, a + skip, m)
  {
    hide Judge, Drain, Resync, At, Scanned, Prepend;
    AtBounds(o, s, a, m);
    DrainStep(o, s[a..m]);
    match Judge(o, s[a..m])
    case NeedMore(_) =>
    case Accept(len, msg) =>
      assert s[a..m][len..] == s[a + len..m];
      AtLater(o, s, a, m, a + len, [msg]);
    case Garbage => AtScan(o, s, a, a, m);
    case Reject(skip, _) =>
      assert s[a..m][skip..] == s[a + skip..m];
      AtScan(o, s, a, a + skip, m);
  }

  lemma AtBounds(o: Options, s: bytes, a: int, m: int)
    requires At(o, s, a, m)
    ensures 0 <= a <= m <= |s|
  {
  }

  // ---------------------------------------------------------------------
  // Reading garbage byte by byte
  // ---------------------------------------------------------------------

  /** The next start at or after `t` stands at `e`. */
  predicate NextStart(s: bytes, t: int, e: int) {
    0 <= t <= e && e + 2 <= |s| && First(s[t..]) == e - t
  }

  lemma NextStartBounds(s: bytes, t: int, e: int)
    requires NextStart(s, t, e)
    ensures 0 <= t <= e && e + 2 <= |s| && StartAt(s, e)
  {
    hide First;
    FirstMeans(s[t..]);
  }

  lemma NextStartLater(s: bytes, t: int, t': int, e: int)
    requires NextStart(s, t, e) && t <= t' <= e
    ensures NextStart(s, t', e)
  {
    hide First;
    assert s[t'..] == s[t..][t' - t..];
    FirstDrop(s[t..], t' - t);
  }

  /** What a buffer shows of the next start. */
  lemma VisibleStart(s: bytes, t: int, m: int, e: int)
    requires NextStart(s, t, e) && t <= m <= |s|
    ensures First(s[t..m]) == if e + 2 <= m then e - t else m - t
  {
    hide First;
    assert s[t..m] == s[t..][..m - t];
    FirstInWindow(s[t..], m - t);
  }

  /** Without a start in it, at most seven bytes are kept, and wait. */
  lemma {:induction false} GarbageWaits(o: Options, s: bytes, t: int, m: int, e: int)
    requires NextStart(s, t, e) && t <= m <= e + 1 && m - t <= KEEP_TAIL
    ensures Idle(o, s, t, m)
  {
    hide First, Drain, Resync;
    VisibleStart(s, t, m, e);
    ScanWaits(o, s[t..m]);
    assert Tail(s[t..m]) == s[t..m];
  }

  /** Bytes that do not start a frame are scanned. */
  lemma GarbageScanned(o: Options, s: bytes, t: int, m: int, e: int)
    requires NextStart(s, t, e) && t < e && t + 2 <= m && At(o, s, t, m)
    ensures Scanned(o, s, t, m)
  {
    hide First, At, Judge;
    AtBounds(o, s, t, m);
    VisibleStart(s, t, m, e);
    FirstMeans(s[t..m]);
    NotAligned(o, s[t..m]);
    AtVerdict(o, s, t, m);
  }

  /** A scan that does not see the next start leaves the tail. */
  lemma ScanLeavesTail(o: Options, s: bytes, p: int, m: int, e: int)
    requires NextStart(s, p, e) && m <= e + 1 && Scanned(o, s, p, m)
    ensures At(o, s, m - Min(m - p, KEEP_TAIL), m)
  {
    hide First, At, Resync, Scanned, Tail, NextStart;
    ScannedBounds(o, s, p, m);
    VisibleStart(s, p, m, e);
    KeptLength(o, s[p..m]);
    ScannedKeeps(o, s, p, m, Min(m - p, KEEP_TAIL));
  }

  lemma ScannedBounds(o: Options, s: bytes, p: int, m: int)
    requires Scanned(o, s, p, m)
    ensures 0 <= p <= m <= |s|
  {
  }

  /** How many bytes a scan keeps. */
  lemma KeptLength(o: Options, c: bytes)
    ensures |Resync(o, c)| == if First(c) + 2 <= Window(o, c) then |c| - First(c) else Min(|c|, KEEP_TAIL)
  {
    hide First, Resync;
    ResyncCases(o, c);
  }

  /** A scan that sees the next start within its window stops there. */
  lemma ScanStops(o: Options, s: bytes, p: int, m: int, e: int)
    requires NextStart(s, p, e) && e + 2 <= m && (o.maxMsgLen > 0 ==> e - p + 2 <= o.maxMsgLen) && Scanned(o, s, p, m)
    ensures At(o, s, e, m)
  {
    hide First, At, Resync, Scanned, NextStart;
    ScannedBounds(o, s, p, m);
    VisibleStart(s, p, m, e);
    KeptLength(o, s[p..m]);
    ScannedKeeps(o, s, p, m, m - e);
  }

  /** A scan whose window ends before the next start leaves the tail. */
  lemma ScanMisses(o: Options, s: bytes, p: int, m: int, e: int)
    requires o.maxMsgLen > 0 && NextStart(s, p, e) && e + 2 <= m && e - p + 1 >= o.maxMsgLen && Scanned(o, s, p, m)
    ensures At(o, s, m - Min(m - p, KEEP_TAIL), m)
  {
    hide First, At, Resync, Scanned, NextStart;
    ScannedBounds(o, s, p, m);
    VisibleStart(s, p, m, e);
    KeptLength(o, s[p..m]);
    ScannedKeeps(o, s, p, m, Min(m - p, KEEP_TAIL));
  }

  /** But a start of which at most seven bytes are there is in the tail, and found next. */
  lemma ScanKeeps(o: Options, s: bytes, p: int, m: int, e: int)
    requires o.maxMsgLen > KEEP_TAIL && NextStart(s, p, e) && e + 2 <= m <= e + KEEP_TAIL && Scanned(o, s, p, m)
    ensures At(o, s, e, m)
  {
    hide First, At, Resync, Scanned, NextStart;
    NextStartBounds(s, p, e);
    if e - p + 1 < o.maxMsgLen {
      ScanStops(o, s, p, m, e);
    } else {
      ScanMisses(o, s, p, m, e);
      var t := m - Min(m - p, KEEP_TAIL);
      NextStartLater(s, p, t, e);
      if t < e {
        GarbageScanned(o, s, t, m, e);
        ScanStops(o, s, t, m, e);
      }
    }
  }

  /** One more byte of garbage. */
  lemma WalkStep(o: Options, s: bytes, t: int, m: int, e: int)
    requires o.maxMsgLen > 0 && NextStart(s, t, e) && m <= e && t <= m <= t + KEEP_TAIL && At(o, s, t, m)
    ensures
      var t' := if m + 1 - t > KEEP_TAIL then m + 1 - KEEP_TAIL else t;
      At(o, s, t', m + 1) && NextStart(s, t', e)
  {
    hide Idle, First, Drain, At, Scanned;
    GarbageWaits(o, s, t, m, e);
    AtRead(o, s, t, m, m + 1);
    if m + 1 - t > KEEP_TAIL {
      GarbageScanned(o, s, t, m + 1, e);
      ScanLeavesTail(o, s, t, m + 1, e);
      NextStartLater(s, t, m + 1 - KEEP_TAIL, e);
    }
  }

  /** Garbage read byte by byte up to `n`, not beyond the first byte of the next start. */
  lemma {:induction false} Walk(o: Options, s: bytes, t: int, m: int, e: int, n: int)
    requires o.maxMsgLen > 0 && NextStart(s, t, e) && t <= m <= t + KEEP_TAIL && At(o, s, t, m) && m <= n <= e + 1
    ensures At(o, s, LaterOf(t, n - KEEP_TAIL), n)
    decreases n - m
  {
    hide At, NextStart;
    if m < n {
      WalkStep(o, s, t, m, e);
      Walk(o, s, if m + 1 - t > KEEP_TAIL then m + 1 - KEEP_TAIL else t, m + 1, e, n);
    }
  }

  /** Read this way, the next start is found as soon as it is there. */
  lemma WalkToStart(o: Options, s: bytes, t: int, m: int, e: int)
    requires o.maxMsgLen > KEEP_TAIL && NextStart(s, t, e) && t <= m <= t + KEEP_TAIL && At(o, s, t, m) && m <= e + 1
    ensures At(o, s, e, e + 2)
  {
    hide Idle, At, First, Drain, Scanned, NextStart;
    Walk(o, s, t, m, e, e + 1);
    var u := LaterOf(t, e + 1 - KEEP_TAIL);
    NextStartBounds(s, t, e);
    NextStartLater(s, t, u, e);
    GarbageWaits(o, s, u, e + 1, e);
    AtRead(o, s, u, e + 1, e + 2);
    if u < e {
      GarbageScanned(o, s, u, e + 2, e);
      ScanStops(o, s, u, e + 2, e);
    }
  }

  /** From a tail that reaches into a start, read byte by byte, the start is kept, whatever the limit. */
  lemma {:induction false} WalkIn(o: Options, s: bytes, t: int, m: int, e: int)
    requires o.maxMsgLen > 0 && NextStart(s, t, e) && e + 8 <= |s|
    requires t <= e < m <= e + 8 && m <= t + KEEP_TAIL && At(o, s, t, m)
    ensures At(o, s, e, e + 8)
    decreases e - t, e + 8 - m
  {
    hide At, First, Drain, Scanned, NextStart, Judge;
    NextStartBounds(s, t, e);
    if t == e {
      FrontKept(o, s, e, m);
    } else {
      TailStep(o, s, t, m, e);
      if !At(o, s, e, m) && !At(o, s, e, m + 1) {
        var t' := if m + 1 - t > KEEP_TAIL then t + 1 else t;
        NextStartLater(s, t, t', e);
        WalkIn(o, s, t', m + 1, e);
      } else if At(o, s, e, m) {
        FrontKept(o, s, e, m);
      } else {
        FrontKept(o, s, e, m + 1);
      }
    }
  }

  /** The beginning of a start waits for its rest. */
  lemma FrontKept(o: Options, s: bytes, e: int, m: int)
    requires 0 <= e < m <= e + 8 <= |s| && StartAt(s, e) && At(o, s, e, m)
    ensures At(o, s, e, e + 8)
  {
    hide At, Judge, Drain;
    EarlyWaits(o, s[e..m]);
    DrainStep(o, s[e..m]);
    AtRead(o, s, e, m, e + 8);
  }

  /** One more byte on a tail that reaches into a start: the start is found, or the tail moves on. */
  lemma TailStep(o: Options, s: bytes, t: int, m: int, e: int)
    requires o.maxMsgLen > 0 && NextStart(s, t, e) && e + 8 <= |s|
    requires t < e < m <= t + KEEP_TAIL && At(o, s, t, m)
    ensures At(o, s, e, m) || At(o, s, e, m + 1) || At(o, s, if m + 1 - t > KEEP_TAIL then t + 1 else t, m + 1)
  {
    hide Idle, At, First, Drain, Scanned, NextStart, Judge;
    NextStartBounds(s, t, e);
    GarbageScanned(o, s, t, m, e);
    TailWaitsOrStops(o, s, t, m, e);
    if !At(o, s, e, m) {
      AtRead(o, s, t, m, m + 1);
      if m + 1 - t > KEEP_TAIL {
        GarbageScanned(o, s, t, m + 1, e);
        if e + 2 > m + 1 {
          ScanLeavesTail(o, s, t, m + 1, e);
        } else if e - t + 2 <= o.maxMsgLen {
          ScanStops(o, s, t, m + 1, e);
        } else {
          ScanMisses(o, s, t, m + 1, e);
        }
      }
    }
  }

  lemma {:induction false} TailWaitsOrStops(o: Options, s: bytes, t: int, m: int, e: int)
    requires o.maxMsgLen > 0 && NextStart(s, t, e) && t < e < m <= t + KEEP_TAIL && m <= |s| && Scanned(o, s, t, m)
    ensures At(o, s, e, m) || Idle(o, s, t, m)
  {
    hide At, First, Drain, Judge, Resync;
    VisibleStart(s, t, m, e);
    ResyncCases(o, s[t..m]);
    NotAligned(o, s[t..m]);
    FirstMeans(s[t..m]);
    if Resync(o, s[t..m]) == s[t..m] { DrainGarbage(o, s[t..m]); }
  }

  // ---------------------------------------------------------------------
  // Two endings that differ
  // ---------------------------------------------------------------------

  /** A frame start of which eight bytes were kept, and one of which seven were, cannot both be right. */
  lemma Differ(o: Options, s: bytes, e: int)
    requires 0 <= e && e + 8 <= |s| && StartAt(s, e)
    requires At(o, s, e, e + 8) && At(o, s, e + 1, e + 8)
    ensures !CutIndependent(o, s[..e + 8])
  {
    hide Drain, FeedAll, Judge;
    var n := e + 8;
    var xs, ms :| Cut(o, s, e, n, xs, ms);
    var ys, ns :| Cut(o, s, e + 1, n, ys, ns);
    EarlyWaits(o, s[e..n]);
    DrainStep(o, s[e..n]);
    assert |FeedAll(o, [], xs).rest| == 8 && |FeedAll(o, [], ys).rest| <= 7;
  }

  /** A scan of bytes that reach eight bytes into a start beyond the window passes over it. */
  lemma ScanPasses(o: Options, s: bytes, p: int, e: int)
    requires o.maxMsgLen > 0 && NextStart(s, p, e) && e + 8 <= |s| && e - p + 1 >= o.maxMsgLen
    requires Scanned(o, s, p, e + 8)
    ensures At(o, s, e + 1, e + 8)
  {
    hide At, First, Resync, Scanned, NextStart;
    NextStartBounds(s, p, e);
    ScanMisses(o, s, p, e + 8, e);
  }

  /** Garbage fed so that the scan starts just too far ahead of the start. */
  lemma FarTailPasses(o: Options, s: bytes, t: int, m: int, e: int)
    requires o.maxMsgLen > KEEP_TAIL && NextStart(s, t, e) && t <= m <= t + KEEP_TAIL && At(o, s, t, m)
    requires m <= e - o.maxMsgLen + 8 && e - t + 1 >= o.maxMsgLen && e + 8 <= |s|
    ensures At(o, s, e + 1, e + 8)
  {
    hide Idle, At, First, Drain, Scanned, NextStart;
    var u := e + 1 - o.maxMsgLen;
    Walk(o, s, t, m, e, u + KEEP_TAIL);
    NextStartLater(s, t, u, e);
    GarbageWaits(o, s, u, u + KEEP_TAIL, e);
    AtRead(o, s, u, u + KEEP_TAIL, e + 8);
    GarbageScanned(o, s, u, e + 8, e);
    ScanPasses(o, s, u, e);
  }

  // ---------------------------------------------------------------------
  // Following the stream to where a start can be passed over
  // ---------------------------------------------------------------------

  /** What a verdict leaves of the bytes it took fits the limit or one header scan. */
  lemma DecisionNear(o: Options, s: bytes)
    requires o.maxMsgLen > 0 && |s| < SIZE_MAX && !Judge(o, Head(o, s)).NeedMore?
    ensures
      var f := Decision(o, s);
      match Judge(o, s[..f])
      case Accept(len, _) => f <= o.maxMsgLen || f - len <= MAX_HEADER_SCAN
      case Reject(skip, _) => f <= o.maxMsgLen || f - skip <= MAX_HEADER_SCAN
      case _ => true
  {
    hide Judge;
    var f := Decision(o, s);
    if f > o.maxMsgLen && f > MAX_HEADER_SCAN {
      var b := s[..f - 1];
      assert Judge(o, b).NeedMore? && s[..f] == b + [s[f - 1]];
      LastByteNear(o, b, s[f - 1]);
    }
  }

  lemma LastByteNear(o: Options, b: bytes, x: byte)
    requires o.maxMsgLen > 0 && |b| >= Max(MAX_HEADER_SCAN, o.maxMsgLen) && |b| + 1 < SIZE_MAX
    requires Judge(o, b).NeedMore?
    ensures
      match Judge(o, b + [x])
      case Accept(len, _) => |b| + 1 - len <= MAX_HEADER_SCAN
      case Reject(skip, _) => |b| + 1 - skip <= MAX_HEADER_SCAN
      case _ => true
  {
    hide ParseHeader, JudgeAligned;
    if ParseHeader(b).HeaderPartial? {
      PartialNear(b, x);
      var h := ParseHeader(b + [x]);
      if h.HeaderOk? { AlignedPastHeader(o, b + [x], h); }
    } else {
      ParseHeaderExtend(b, [x]);
      OversizedNear(o, b, x, ParseHeader(b));
    }
  }

  /** A header of which the second field is still missing is settled past the first one. */
  lemma PartialNear(b: bytes, x: byte)
    requires |b| >= MAX_HEADER_SCAN && ParseHeader(b).HeaderPartial?
    ensures
      match ParseHeader(b + [x])
      case HeaderBad(skip, _) => |b| + 1 - skip <= MAX_HEADER_SCAN
      case HeaderOk(_, _, bodyStart) => |b| + 1 - bodyStart <= MAX_HEADER_SCAN
      case _ => true
  {
    ScanExtend(b, [x]);
  }

  lemma AlignedPastHeader(o: Options, b: bytes, h: Header)
    requires h.HeaderOk? && 1 <= h.bodyStart <= |b| < SIZE_MAX
    ensures
      match JudgeAligned(o, b, h)
      case Accept(len, _) => len >= h.bodyStart
      case Reject(skip, _) => skip >= h.bodyStart
      case _ => true
  {
    hide ParseField, ParseBody;
  }

  lemma OversizedNear(o: Options, b: bytes, x: byte, h: Header)
    requires h.HeaderOk? && 1 <= h.bodyStart <= |b| && 0 < o.maxMsgLen <= |b| && |b| + 1 < SIZE_MAX
    requires JudgeAligned(o, b, h).NeedMore?
    ensures
      match JudgeAligned(o, b + [x], h)
      case NeedMore(_) => true
      case Reject(skip, _) => skip == |b| + 1
      case _ => false
  {
    hide JudgeFrame;
  }

  /** Some cutting brings the bytes from `a` on to the front with any number of them from `lo` to `hi` there. */
  ghost predicate Reached(o: Options, s: bytes, a: int, lo: int, hi: int) {
    && 0 <= lo <= hi <= Cap(o) && 0 <= a && a + lo <= |s|
    && forall m :: a + lo <= m <= a + hi && m <= |s| ==> At(o, s, a, m)
  }

  /** The same for a scan that starts at `p`. */
  ghost predicate ScanReached(o: Options, s: bytes, p: int, have: int, top: int) {
    && 0 <= have <= top <= Cap(o) && 0 <= p && p + have <= |s|
    && forall m :: p + have <= m <= p + top && m <= |s| ==> Scanned(o, s, p, m)
  }

  lemma JudgeBetween(o: Options, x: bytes, m: nat)
    requires |x| < SIZE_MAX && !Judge(o, Head(o, x)).NeedMore? && Decision(o, x) <= m <= |x|
    requires o.maxMsgLen > 0 ==> m <= Cap(o)
    ensures Judge(o, x[..m]) == Judge(o, Head(o, x))
  {
    hide Judge;
    var f := Decision(o, x);
    var b := x[..m];
    assert b == x[..f] + x[f..m] && x == b + x[m..];
    Decided(o, x[..f], x[f..m]);
    HeadVerdict(o, b, x[m..]);
  }

  lemma {:induction false} UndecidedWaits(o: Options, s: bytes, a: int, lo: int)
    requires 0 <= a && 0 <= lo && a + lo <= |s| && !Judge(o, Head(o, s[a..])).NeedMore?
    requires lo < Decision(o, s[a..])
    ensures Idle(o, s, a, a + lo)
  {
    hide Judge, Drain;
    assert s[a..][..lo] == s[a..a + lo];
    DrainStep(o, s[a..a + lo]);
  }

  lemma AtBetween(o: Options, s: bytes, a: int, lo: int, hi: int, m: int)
    requires o.maxMsgLen > 0 && Reached(o, s, a, lo, hi) && !Judge(o, Head(o, s[a..])).NeedMore?
    requires a + Lower(o, s[a..], lo) <= m <= a + Upper(o, s[a..], lo, hi) && m <= |s|
    ensures At(o, s, a, m)
  {
    hide Idle, At, Judge, Drain, Decision;
    if lo < Decision(o, s[a..]) {
      assert At(o, s, a, a + lo);
      UndecidedWaits(o, s, a, lo);
      AtRead(o, s, a, a + lo, m);
    }
  }

  /** A front is judged with any number of bytes between the bounds, always with the same verdict. */
  lemma JudgedAt(o: Options, s: bytes, a: int, lo: int, hi: int, m: int)
    requires o.maxMsgLen > 0 && |s| < SIZE_MAX && Reached(o, s, a, lo, hi) && !Judge(o, Head(o, s[a..])).NeedMore?
    requires a + Lower(o, s[a..], lo) <= m <= a + Upper(o, s[a..], lo, hi) && m <= |s|
    ensures
      match Judge(o, Head(o, s[a..]))
      case Accept(len, _) => At(o, s, a + len, m)
      case Garbage => Scanned(o, s, a, m)
      case Reject(skip, _) => Scanned(o, s, a + skip, m)
      case _ => true
  {
    hide At, Judge, Drain, Scanned;
    AtBetween(o, s, a, lo, hi, m);
    JudgeBetween(o, s[a..], m - a);
    assert s[a..][..m - a] == s[a..m];
    AtVerdict(o, s, a, m);
  }

  /** From here on a start that is passed over was not there with eight bytes whatever the cutting. */
  const EXACT_LIMIT: nat := MAX_HEADER_SCAN - KEEP_TAIL + 1

  /** The bounds at the verdict. */
  lemma BoundsAt(o: Options, s: bytes, a: int, lo: int, hi: int)
    requires o.maxMsgLen >= EXACT_LIMIT && |s| < SIZE_MAX && Reached(o, s, a, lo, hi) && lo < o.maxMsgLen + KEEP_TAIL
    requires !Judge(o, Head(o, s[a..])).NeedMore?
    ensures
      var l, h := Lower(o, s[a..], lo), Upper(o, s[a..], lo, hi);
      && lo <= l <= h <= Cap(o) && a + l <= |s|
      && match Judge(o, Head(o, s[a..]))
         case Accept(len, _) => len <= l && l - len < o.maxMsgLen + KEEP_TAIL
         case Garbage => l < o.maxMsgLen + KEEP_TAIL
         case Reject(skip, _) => skip <= l && l - skip < o.maxMsgLen + KEEP_TAIL
         case _ => true
  {
    hide At, Judge;
    var x := s[a..];
    var f := Decision(o, x);
    DecisionNear(o, x);
    JudgeBetween(o, x, f);
    if Judge(o, Head(o, x)).Garbage? { GarbageDecision(o, x); }
  }

  lemma GarbageDecision(o: Options, x: bytes)
    requires o.maxMsgLen > 0 && |x| < SIZE_MAX && Judge(o, Head(o, x)).Garbage?
    ensures Decision(o, x) == 2
  {
    hide Judge;
    NotAligned(o, Head(o, x));
    NotAligned(o, x[..2]);
    DecisionPositive(o, x);
  }

  ghost predicate Broken(o: Options, s: bytes) {
    exists n :: 0 <= n <= |s| && !CutIndependent(o, s[..n])
  }

  /** Where a start can be passed over, one cutting passes over it and another does not. */
  lemma LossBreaks(o: Options, s: bytes, p: int, have: int, top: int)
    requires o.maxMsgLen > KEEP_TAIL && 0 <= have < o.maxMsgLen + KEEP_TAIL && ScanReached(o, s, p, have, top)
    requires Loses(o, s[p..], have, top)
    ensures Broken(o, s)
  {
    hide At, First, Scanned, CutIndependent;
    var c := s[p..];
    FirstMeans(c);
    var e := p + First(c);
    assert StartAt(s, e);
    assert Scanned(o, s, p, p + have);
    if have <= First(c) + 1 {
      ScanLeavesTail(o, s, p, p + have, e);
      var t := p + have - Min(have, KEEP_TAIL);
      NextStartLater(s, p, t, e);
      WalkToStart(o, s, t, p + have, e);
      FrontKept(o, s, e, e + 2);
      if First(c) + 8 > top { FarTailPasses(o, s, t, p + have, e); }
    } else {
      ScanKeeps(o, s, p, p + have, e);
      FrontKept(o, s, e, p + have);
    }
    if First(c) + 8 <= top {
      assert Scanned(o, s, p, e + 8);
      ScanPasses(o, s, p, e);
    }
    Differ(o, s, e);
  }

  /** From a front on, and from a scan on: where the condition fails, some prefix is not cut-independent. */
  lemma {:induction false} FrontBreaks(o: Options, s: bytes, a: int, lo: int, hi: int)
    requires o.maxMsgLen >= EXACT_LIMIT && |s| < SIZE_MAX && lo < o.maxMsgLen + KEEP_TAIL
    requires Reached(o, s, a, lo, hi) && !Clear(o, s[a..], lo, hi)
    ensures Broken(o, s)
    decreases 2 * (|s| - a)
  {
    hide At, Judge, Clear, Reference, Scanned, Broken, First, Lower, Upper;
    var x := s[a..];
    StepOf(o, x, lo, hi);
    BoundsAt(o, s, a, lo, hi);
    var l, h := Lower(o, x, lo), Upper(o, x, lo, hi);
    match Judge(o, Head(o, x))
    case Accept(len, _) =>
      var p := a + len;
      forall m | a + l <= m <= a + h && m <= |s|
        ensures At(o, s, p, m)
      {
        JudgedAt(o, s, a, lo, hi, m);
      }
      assert x[len..] == s[p..];
      FrontBreaks(o, s, p, l - len, h - len);
    case Garbage =>
      forall m | a + l <= m <= a + h && m <= |s|
        ensures Scanned(o, s, a, m)
      {
        JudgedAt(o, s, a, lo, hi, m);
      }
      NotAligned(o, Head(o, x));
      FirstMeans(x);
      ScanBreaks(o, s, a, l, h);
    case Reject(skip, _) =>
      var p := a + skip;
      forall m | a + l <= m <= a + h && m <= |s|
        ensures Scanned(o, s, p, m)
      {
        JudgedAt(o, s, a, lo, hi, m);
      }
      assert x[skip..] == s[p..];
      ScanBreaks(o, s, p, l - skip, h - skip);
    case _ =>
  }

  lemma {:induction false} ScanBreaks(o: Options, s: bytes, p: int, have: int, top: int)
    requires o.maxMsgLen >= EXACT_LIMIT && |s| < SIZE_MAX && have < o.maxMsgLen + KEEP_TAIL
    requires ScanReached(o, s, p, have, top) && !ClearAfter(o, s[p..], have, top)
    ensures Broken(o, s)
    decreases if First(s[p..]) == 0 then 2 * (|s| - p) + 1 else 2 * (|s| - p) - 1
  {
    hide At, Clear, Scanned, Broken, First;
    var c := s[p..];
    if Loses(o, c, have, top) {
      LossBreaks(o, s, p, have, top);
    } else {
      FirstMeans(c);
      var i := First(c);
      var e := p + i;
      assert c[i..] == s[e..];
      if have >= i + 2 {
        forall m | p + have <= m <= p + top && m <= |s|
          ensures At(o, s, e, m)
        {
          if i + 2 <= o.maxMsgLen { ScanStops(o, s, p, m, e); } else { ScanKeeps(o, s, p, m, e); }
        }
        FrontBreaks(o, s, e, have - i, top - i);
      } else {
        assert Scanned(o, s, p, p + have);
        ScanLeavesTail(o, s, p, p + have, e);
        var t := p + have - Min(have, KEEP_TAIL);
        NextStartLater(s, p, t, e);
        WalkToStart(o, s, t, p + have, e);
        FrontBreaks(o, s, e, 2, 2);
      }
    }
  }

  // ---------------------------------------------------------------------
  // Main results
  // ---------------------------------------------------------------------

  /** The condition is inherited by every prefix of a stream. */
  lemma {:induction false} ClearPrefix(o: Options, s: bytes, n: nat, lo: int, hi: int)
    requires |s| < SIZE_MAX && n <= |s| && Clear(o, s, lo, hi)
    ensures Clear(o, s[..n], lo, hi)
    decreases 2 * |s|
  {
    hide Judge, Clear, Reference, First, Lower, Upper, Head, ReferenceAfter, ClearAfter;
    var x := s[..n];
    StepOf(o, x, lo, hi);
    if !Judge(o, Head(o, x)).NeedMore? {
      SameVerdict(o, s, n, lo, hi);
      StepOf(o, s, lo, hi);
      var l, h := Lower(o, s, lo), Upper(o, s, lo, hi);
      match Judge(o, Head(o, s))
      case Accept(len, _) =>
        TakeOfDrop(s, len, n);
        ClearPrefix(o, s[len..], n - len, l - len, h - len);
      case Garbage =>
        NotAligned(o, Head(o, s));
        FirstMeans(s);
        ScanPrefix(o, s, n, l, h);
      case Reject(skip, _) =>
        TakeOfDrop(s, skip, n);
        ScanPrefix(o, s[skip..], n - skip, l - skip, h - skip);
      case _ =>
    }
  }

  lemma SameVerdict(o: Options, s: bytes, n: nat, lo: int, hi: int)
    requires |s| < SIZE_MAX && n <= |s| && !Judge(o, Head(o, s[..n])).NeedMore?
    ensures Judge(o, Head(o, s)) == Judge(o, Head(o, s[..n]))
    ensures Lower(o, s, lo) == Lower(o, s[..n], lo) && Upper(o, s, lo, hi) == Upper(o, s[..n], lo, hi)
  {
    hide Judge;
    var x := s[..n];
    var b := Head(o, x);
    assert s == b + s[|b|..] && x == b + x[|b|..];
    HeadVerdict(o, b, s[|b|..]);
    DecisionWithin(o, b, s[|b|..]);
    DecisionWithin(o, b, x[|b|..]);
    var f, g := Decision(o, s), Decision(o, x);
    assert s[..g] == x[..g] && s[..f] == x[..f];
  }

  lemma {:induction false} ScanPrefix(o: Options, c: bytes, n: nat, have: int, top: int)
    requires |c| < SIZE_MAX && n <= |c| && ClearAfter(o, c, have, top)
    ensures ClearAfter(o, c[..n], have, top)
    decreases if First(c) == 0 then 2 * |c| + 1 else 2 * |c| - 1
  {
    hide Clear, First;
    FirstMeans(c);
    FirstInWindow(c, n);
    var i := First(c);
    if i + 2 <= n {
      assert c[..n][i..] == c[i..][..n - i];
      ClearPrefix(o, c[i..], n - i, NextLo(c, have), NextHi(c, have, top));
    }
  }

  /**
   The exact condition for chunking independence. With no length limit, or with one of at least 58 bytes, every prefix of
   a stream is cut-independent if and only if no scan along it can pass over a start. ShortLimit shows that no smaller
   limit would do.
   */
  lemma ChunkingIff(o: Options, s: bytes)
    requires |s| < SIZE_MAX && (o.maxMsgLen == 0 || o.maxMsgLen >= EXACT_LIMIT)
    ensures (forall n :: 0 <= n <= |s| ==> CutIndependent(o, s[..n])) <==> ClearStream(o, s)
  {
    hide Clear, CutIndependent, At;
    if o.maxMsgLen == 0 {
      NoLimitClear(o, s, 0, Cap(o));
    }
    if ClearStream(o, s) {
      forall n | 0 <= n <= |s|
        ensures CutIndependent(o, s[..n])
      {
        ClearPrefix(o, s, n, 0, Cap(o));
        ClearIsIndependent(o, s[..n]);
      }
    } else {
      assert s[0..] == s;
      StartReached(o, s);
      FrontBreaks(o, s, 0, 0, Cap(o));
    }
  }

  lemma StartReached(o: Options, s: bytes)
    requires o.maxMsgLen > 0
    ensures Reached(o, s, 0, 0, Cap(o))
  {
    hide At, Drain;
    AtStart(o, s);
    DrainEmpty(o);
    assert s[0..0] == [];
    forall m | 0 <= m <= Cap(o) && m <= |s|
      ensures At(o, s, 0, m)
    {
      AtRead(o, s, 0, 0, m);
    }
  }

  /** Garbage: no byte of it is an '8'. */
  predicate NoEight(g: bytes) {
    forall i :: 0 <= i < |g| ==> g[i] != EIGHT
  }

  lemma FirstAfterGarbage(g: bytes, y: bytes)
    requires NoEight(g) && StartsFrame(y)
    ensures First(g + y) == |g|
  {
    hide First;
    assert forall j :: 0 <= j < |g| ==> !StartAt(g + y, j);
    FirstIs(g + y, |g|);
  }

  /** Garbage before the beginning of a frame, within the window or with no limit: nothing is passed over. */
  lemma GarbageClear(o: Options, g: bytes, y: bytes)
    requires |g + y| < SIZE_MAX && NoEight(g) && |y| == 8 && StartsFrame(y)
    requires o.maxMsgLen == 0 || g == [] || |g| + 2 <= o.maxMsgLen
    ensures ClearStream(o, g + y)
  {
    hide First, Judge, Clear;
    var s := g + y;
    FirstAfterGarbage(g, y);
    FirstMeans(s);
    if o.maxMsgLen == 0 {
      NoLimitClear(o, s, 0, Cap(o));
    } else if g == [] {
      assert s == y;
      BeginningClear(o, s, 0, Cap(o));
    } else {
      GarbageStep(o, s);
      assert s[First(s)..] == y;
      BeginningClear(o, y, 2, 2);
    }
  }

  lemma {:induction false} BeginningClear(o: Options, y: bytes, lo: int, hi: int)
    requires StartsFrame(y) && |y| <= 8
    ensures Clear(o, y, lo, hi)
  {
    hide Judge;
    EarlyWaits(o, Head(o, y));
    NotAligned(o, Head(o, y));
  }

  /** Fed byte by byte, the start after the garbage is kept; fed with too much garbage before it, it is passed over. */
  lemma GarbageBreaks(o: Options, s: bytes, e: int)
    requires NextStart(s, 0, e) && 0 < e && e + 8 <= |s| && 0 < o.maxMsgLen < e + 2
    ensures At(o, s, e, e + 8) && At(o, s, e + 1, e + 8)
  {
    hide At, First, NextStart, Scanned, Idle;
    AtStart(o, s);
    Walk(o, s, 0, 0, e, e + 1);
    var t := LaterOf(0, e + 1 - KEEP_TAIL);
    NextStartLater(s, 0, t, e);
    WalkIn(o, s, t, e + 1, e);
    if o.maxMsgLen > KEEP_TAIL {
      FarTailPasses(o, s, 0, 0, e);
    } else {
      GarbageWaits(o, s, t, e + 1, e);
      AtRead(o, s, t, e + 1, e + 8);
      GarbageScanned(o, s, t, e + 8, e);
      ScanPasses(o, s, t, e);
    }
  }

  lemma GarbageNext(g: bytes, y: bytes)
    requires NoEight(g) && StartsFrame(y)
    ensures NextStart(g + y, 0, |g|)
  {
    hide First;
    FirstAfterGarbage(g, y);
    assert (g + y)[0..] == g + y;
  }

  /**
   For garbage of any length before eight bytes of a frame the threshold is exact, whatever the limit: all cuttings agree
   if and only if there is no limit, no garbage, or the frame start lies wholly within the scan's window.
   */
  lemma GarbageIff(o: Options, g: bytes, y: bytes)
    requires |g + y| < SIZE_MAX && NoEight(g) && |y| == 8 && StartsFrame(y)
    ensures CutIndependent(o, g + y) <==> o.maxMsgLen == 0 || g == [] || |g| + 2 <= o.maxMsgLen
  {
    hide Clear, CutIndependent, At, NextStart;
    var s := g + y;
    if o.maxMsgLen == 0 || g == [] || |g| + 2 <= o.maxMsgLen {
      GarbageClear(o, g, y);
      ClearIsIndependent(o, s);
    } else {
      GarbageNext(g, y);
      GarbageBreaks(o, s, |g|);
      Differ(o, s, |g|);
      assert s[..|g| + 8] == s;
    }
  }

  // ---------------------------------------------------------------------
  // Limits shorter than a header scan
  // ---------------------------------------------------------------------

  /** A stream that is waited for up to its last byte is drained as a whole, however it is cut. */
  lemma {:induction false} WaitedWhole(o: Options, held: bytes, chunks: seq<bytes>)
    requires Drain(o, held) == Drained([], held)
    requires
      var s := held + Concat(chunks);
      (o.maxMsgLen > 0 ==> |s| <= Cap(o)) && forall k :: 0 <= k < |s| ==> Judge(o, s[..k]).NeedMore?
    ensures FeedAll(o, held, chunks) == Drain(o, held + Concat(chunks))
    decreases |chunks|
  {
    hide Judge, Drain, Feed, Prepend;
    var s := held + Concat(chunks);
    if chunks == [] {
      assert s == held;
    } else if chunks[0] == [] {
      assert Concat(chunks) == Concat(chunks[1..]);
      WaitedWhole(o, held, chunks[1..]);
    } else {
      var b, more := held + chunks[0], Concat(chunks[1..]);
      assert s == b + more && s[..|b|] == b;
      FeedAppends(o, held, chunks[0]);
      if |b| < |s| {
        DrainStep(o, b);
        WaitedWhole(o, b, chunks[1..]);
        PrependNothing(Drain(o, s));
      } else {
        assert more == [] && s == b;
        NothingMore(o, Drain(o, b).rest, chunks[1..]);
        PrependEnd(Drain(o, b));
      }
    }
  }

  lemma {:induction false} NothingMore(o: Options, held: bytes, chunks: seq<bytes>)
    requires Concat(chunks) == []
    ensures FeedAll(o, held, chunks) == Drained([], held)
    decreases |chunks|
  {
    hide Feed;
    if chunks != [] {
      assert |Concat(chunks)| == |chunks[0]| + |Concat(chunks[1..])|;
      NothingMore(o, held, chunks[1..]);
    }
  }

  lemma WaitedIndependent(o: Options, s: bytes, n: nat)
    requires o.maxMsgLen > 0 && |s| <= Cap(o) && n <= |s| && forall k :: 0 <= k < |s| ==> Judge(o, s[..k]).NeedMore?
    ensures CutIndependent(o, s[..n])
  {
    hide Judge, Drain, FeedAll;
    DrainEmpty(o);
    assert forall k :: 0 <= k < n ==> s[..n][..k] == s[..k];
    forall xs | Concat(xs) == s[..n]
      ensures FeedAll(o, [], xs) == Drain(o, s[..n])
    {
      NothingBefore(Concat(xs));
      WaitedWhole(o, [], xs);
    }
  }

  function Letters(n: nat): (r: bytes)
    ensures |r| == n && forall i :: 0 <= i < n ==> r[i] == 65
  {
    seq(n, _ => 65)
  }

  /** A BodyLength field that does not end within a header scan; the last eight bytes of the scan look like a start. */
  function EndlessLength(): (z: bytes)
    ensures |z| == MAX_HEADER_SCAN
  {
    [57, EQ] + Letters(54) + [EIGHT, EQ] + Letters(6)
  }

  function LateStart(): bytes {
    [EIGHT, EQ, 65, SOH] + EndlessLength()
  }

  /** Up to the end of the scan the header is incomplete; then it is bad. */
  lemma {:induction false} LateVerdict(o: Options, k: nat)
    requires k <= |LateStart()|
    ensures k < |LateStart()| ==> Judge(o, LateStart()[..k]).NeedMore?
    ensures Judge(o, LateStart()) == Reject(4, ParseError)
  {
    hide EndlessLength, ParseField, JudgeAligned;
    var s := LateStart();
    assert s[..|s|] == s;
    LateHeader(|s|);
    if k >= 2 { assert StartsFrame(s[..k]); }
    if k >= MIN_MSG_LEN { LateHeader(k); }
  }

  lemma LateHeader(k: nat)
    requires MIN_MSG_LEN <= k <= |LateStart()|
    ensures ParseHeader(LateStart()[..k]) == if k < |LateStart()| then HeaderPartial else HeaderBad(4, ParseError)
  {
    hide EndlessLength, ParseField;
    var s, z := LateStart(), EndlessLength();
    var b := s[..k];
    LateFirst(Scan(b));
    assert Scan(b[4..]) == z[..k - 4];
    LateSecond(k - 4);
  }

  lemma LateFirst(b: bytes)
    requires |b| >= 4 && b[..4] == [EIGHT, EQ, 65, SOH]
    ensures ParseField(b) == Ok(BEGIN_STRING, [65], 4)
  {
    var h := [EIGHT, EQ, 65, SOH];
    assert forall i :: 0 <= i < 4 ==> b[i] == b[..4][i];
    FindEitherIs(b, 0, EQ, SOH, 1);
    FindEitherIs(b, 2, SOH, SOH, 3);
    assert b[..1] == [EIGHT] && b[2..3] == [65];
    OneDigit(EIGHT, 8);
  }

  lemma LateSecond(k: nat)
    requires k <= MAX_HEADER_SCAN
    ensures ParseField(EndlessLength()[..k]).Incomplete?
  {
    var z := EndlessLength()[..k];
    assert SOH !in z;
    if k >= 2 {
      FindEitherIs(z, 0, EQ, SOH, 1);
      assert z[..1] == [57];
      OneDigit(57, 9);
    }
  }

  lemma OneDigit(d: byte, n: nat)
    requires 48 <= d <= 57 && n == d - 48
    ensures ParseUint([d], TWO32 - 1) == Some(n)
  {
    assert [d][..0] == [] && Val([]) == 0;
    assert Val([d]) == d - 48;
  }

  lemma LateFirstStart()
    ensures First(EndlessLength()) == 56
  {
    hide First;
    FirstIs(EndlessLength(), 56);
  }

  /**
   Below 58 the condition is not necessary: this stream has a start beyond the window, but it is there with eight bytes
   before the header in front of it can be rejected, so that every cutting passes over it.
   */
  lemma ShortLimit(o: Options)
    requires 1 <= o.maxMsgLen < EXACT_LIMIT
    ensures forall n :: 0 <= n <= |LateStart()| ==> CutIndependent(o, LateStart()[..n])
    ensures !ClearStream(o, LateStart())
  {
    hide Judge, EndlessLength, CutIndependent, Clear, First;
    var s := LateStart();
    forall k | 0 <= k <= |s|
      ensures k < |s| ==> Judge(o, s[..k]).NeedMore?
    {
      LateVerdict(o, k);
    }
    LateVerdict(o, 0);
    forall n | 0 <= n <= |s|
      ensures CutIndependent(o, s[..n])
    {
      WaitedIndependent(o, s, n);
    }
    assert Head(o, s) == s && s[4..] == EndlessLength();
    LateFirstStart();
    StepOf(o, s, 0, Cap(o));
    assert Decision(o, s) == |s|;
  }
}
