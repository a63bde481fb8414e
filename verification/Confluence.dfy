/**
 Chunking independence: what the parser delivers, and the bytes it keeps, depend only on the bytes fed in total,
 not on how they were cut into feed() calls.
 */
module Confluence {
  import opened Bytes
  import opened Messages
  import opened Framing

  // ---------------------------------------------------------------------
  // Verdicts are stable
  // ---------------------------------------------------------------------

  lemma ParseLengthExtend(b: bytes, d: bytes, bs: bytes, pos: nat)
    requires 1 <= pos <= |b| && !ParseLength(b, bs, pos).HeaderPartial?
    ensures ParseLength(b + d, bs, pos) == ParseLength(b, bs, pos)
  {
    assert (b + d)[pos..] == b[pos..] + d;
    ScanExtend(b[pos..], d);
  }

  lemma ScanExtend(b: bytes, d: bytes)
    ensures Scan(b) <= Scan(b + d)
    ensures |b| >= MAX_HEADER_SCAN ==> Scan(b + d) == Scan(b)
    ensures !ParseField(Scan(b)).Incomplete? ==> ParseField(Scan(b + d)) == ParseField(Scan(b))
  {
    if !ParseField(Scan(b)).Incomplete? {
      ParseFieldExtend(Scan(b), Scan(b + d));
    }
  }

  lemma ParseHeaderExtend(b: bytes, d: bytes)
    requires |b| >= MIN_MSG_LEN && !ParseHeader(b).HeaderPartial?
    ensures ParseHeader(b + d) == ParseHeader(b)
  {
    ScanExtend(b, d);
    var f := ParseField(Scan(b));
    if f.Ok? && f.tag == BEGIN_STRING {
      ParseLengthExtend(b, d, f.value, f.len);
    }
  }

  /** A verdict to reject or accept is final: further input does not change it. */
  lemma JudgeExtend(o: Options, b: bytes, d: bytes)
    requires Holds(o, |b + d|)
    requires Judge(o, b).Reject? || Judge(o, b).Accept?
    ensures Judge(o, b + d) == Judge(o, b)
  {
    hide ParseHeader, JudgeAligned;
    assert StartsFrame(b) && StartsFrame(b + d);
    ParseHeaderExtend(b, d);
    var h := ParseHeader(b);
    if h.HeaderOk? { JudgeAlignedExtend(o, b, d, h); }
  }

  lemma JudgeAlignedExtend(o: Options, b: bytes, d: bytes, h: Header)
    requires Holds(o, |b + d|) && h.HeaderOk? && 1 <= h.bodyStart <= |b|
    requires !JudgeAligned(o, b, h).NeedMore?
    ensures JudgeAligned(o, b + d, h) == JudgeAligned(o, b, h)
  {
    hide JudgeFrame;
    if |b| >= FrameEnd(h) {
      assert (b + d)[..FrameEnd(h)] == b[..FrameEnd(h)];
    }
  }

  lemma GarbageExtend(o: Options, b: bytes, d: bytes)
    requires Judge(o, b).Garbage?
    ensures Judge(o, b + d).Garbage?
  {
    hide ParseHeader, JudgeAligned;
  }

  // ---------------------------------------------------------------------
  // Frame starts
  // ---------------------------------------------------------------------

  predicate StartAt(s: bytes, i: int) {
    0 <= i < |s| - 1 && s[i] == EIGHT && s[i + 1] == EQ
  }

  lemma StartAtSlice(s: bytes, i: nat)
    requires i <= |s|
    ensures StartsFrame(s[i..]) <==> StartAt(s, i)
  {
  }

  /** FindStart in terms of positions. */
  lemma {:induction false} FindStartAt(s: bytes)
    ensures FindStart(s, 0) < |s| ==> StartAt(s, FindStart(s, 0))
    ensures forall i :: StartAt(s, i) ==> FindStart(s, 0) <= i
  {
    forall i | StartAt(s, i)
      ensures FindStart(s, 0) <= i
    {
      StartAtSlice(s, i);
    }
    StartAtSlice(s, FindStart(s, 0));
  }

  /** The position of the first frame start; the length if there is none. */
  function First(c: bytes): (i: nat)
    ensures i <= |c|
  {
    FindStart(c, 0)
  }

  lemma FirstMeans(c: bytes)
    ensures First(c) < |c| ==> First(c) + 2 <= |c| && StartAt(c, First(c))
    ensures forall j :: StartAt(c, j) ==> First(c) <= j
    ensures StartsFrame(c) <==> |c| >= 2 && First(c) == 0
  {
    FindStartAt(c);
    StartAtSlice(c, 0);
    assert c[0..] == c;
  }

  lemma FirstIs(c: bytes, i: nat)
    requires i <= |c| && (i < |c| ==> StartAt(c, i)) && forall j :: 0 <= j < i ==> !StartAt(c, j)
    ensures First(c) == i
  {
    hide First;
    FirstMeans(c);
  }

  /** Dropping bytes before the first start moves it; dropping any others leaves none in front. */
  lemma FirstDrop(c: bytes, k: nat)
    requires k <= First(c)
    ensures First(c[k..]) == First(c) - k
  {
    hide First;
    FirstMeans(c);
    assert forall j :: StartAt(c[k..], j) <==> j >= 0 && StartAt(c, j + k);
    FirstIs(c[k..], First(c) - k);
  }

  lemma FirstAppend(c: bytes, d: bytes)
    ensures First(c) < |c| ==> First(c + d) == First(c)
    ensures First(c) == |c| ==> First(c + d) >= |c| - 1
    ensures First(c + d) + 2 <= |c| ==> First(c) == First(c + d)
  {
    hide First;
    FirstMeans(c);
    FirstMeans(c + d);
    assert forall j :: 0 <= j < |c| - 1 ==> (StartAt(c + d, j) <==> StartAt(c, j));
    if First(c) < |c| { FirstIs(c + d, First(c)); }
  }

  /** The last seven bytes, or fewer. */
  function Tail(c: bytes): (t: bytes)
    ensures |t| == Min(|c|, KEEP_TAIL)
  {
    c[|c| - Min(|c|, KEEP_TAIL)..]
  }

  lemma FirstInWindow(c: bytes, w: nat)
    requires w <= |c|
    ensures First(c[..w]) == if First(c) + 2 <= w then First(c) else w
  {
    hide First;
    FirstMeans(c);
    assert forall j :: StartAt(c[..w], j) <==> StartAt(c, j) && j + 2 <= w;
    FirstIs(c[..w], if First(c) + 2 <= w then First(c) else w);
  }

  /** What the bounded scan keeps, in terms of the first start. */
  lemma ResyncCases(o: Options, c: bytes)
    ensures First(c) + 2 <= Window(o, c) ==> Resync(o, c) == c[First(c)..]
    ensures First(c) + 2 > Window(o, c) ==> Resync(o, c) == Tail(c)
  {
    hide FindStart;
    FirstInWindow(c, Window(o, c));
    assert c[0..] == c;
  }

  // ---------------------------------------------------------------------
  // Draining, step by step
  // ---------------------------------------------------------------------

  /** One step of draining, case by case. */
  lemma {:induction false} DrainStep(o: Options, b: bytes)
    ensures match Judge(o, b)
            case NeedMore(_) => Drain(o, b) == Drained([], b)
            case Garbage => Drain(o, b) == Drain(o, Resync(o, b))
            case Reject(skip, _) => Drain(o, b) == Drain(o, Resync(o, b[skip..]))
            case Accept(len, msg) => Drain(o, b) == Prepend([msg], Drain(o, b[len..]))
  {
    hide Judge, Resync;
  }

  lemma {:induction false} DrainGarbage(o: Options, b: bytes)
    requires Judge(o, b).Garbage? && Resync(o, b) == b
    ensures Drain(o, b) == Drained([], b)
  {
    hide Judge, Resync;
  }

  /** What is left after draining waits: draining it again does nothing. */
  lemma {:induction false} DrainIdle(o: Options, b: bytes)
    ensures Drain(o, Drain(o, b).rest) == Drained([], Drain(o, b).rest)
    decreases |b|
  {
    hide Judge;
    match Judge(o, b)
    case NeedMore(_) =>
    case Garbage => if Resync(o, b) != b { DrainIdle(o, Resync(o, b)); }
    case Reject(skip, _) => DrainIdle(o, Resync(o, b[skip..]));
    case Accept(len, _) => DrainIdle(o, b[len..]);
  }

  lemma {:induction false} DrainEmpty(o: Options)
    ensures Drain(o, []) == Drained([], [])
  {
  }

  // ---------------------------------------------------------------------
  // Reading a whole stream with an unbounded scan
  // ---------------------------------------------------------------------

  /** As much of a stream as the buffer can hold. */
  function Head(o: Options, s: bytes): (h: bytes)
    ensures |h| <= |s| && h == s[..|h|]
  {
    if o.maxMsgLen > 0 then s[..Min(|s|, Cap(o))] else s
  }

  /** The reference: verdicts as the parser gives them, but every scan finds the next start however far it is. */
  function Reference(o: Options, s: bytes): Drained
    decreases |s|
  {
    match Judge(o, Head(o, s))
    case NeedMore(_) => Drained([], s)
    case Accept(len, msg) => Prepend([msg], Reference(o, s[len..]))
    case Garbage =>
      FirstMeans(s);
      if First(s) == |s| then Drained([], Tail(s)) else Reference(o, s[First(s)..])
    case Reject(skip, _) =>
      var c := s[skip..];
      if First(c) == |c| then Drained([], Tail(c)) else Reference(o, c[First(c)..])
  }

  // ---------------------------------------------------------------------
  // When the bounded scan passes over a start
  // ---------------------------------------------------------------------

  /** How many bytes of a stream the verdict on its beginning takes. */
  function DecisionFrom(o: Options, s: bytes, n: nat): (f: nat)
    requires n <= |s| && !Judge(o, Head(o, s)).NeedMore? && n <= |Head(o, s)|
    ensures n <= f <= |Head(o, s)| && !Judge(o, s[..f]).NeedMore?
    ensures forall k :: n <= k < f ==> Judge(o, s[..k]).NeedMore?
    decreases |s| - n
  {
    if n == |Head(o, s)| || !Judge(o, s[..n]).NeedMore? then n else DecisionFrom(o, s, n + 1)
  }

  function Decision(o: Options, s: bytes): nat
    requires !Judge(o, Head(o, s)).NeedMore?
  {
    DecisionFrom(o, s, 0)
  }

  /**
   At a scan of `c` of which at least `have` and at most `top` bytes can be in the buffer, some way of cutting the
   input passes over the first start: it lies beyond the window, eight bytes of it have arrived, and either they fit
   the buffer together with all before, or even the tail kept of `have` bytes starts that far ahead of it.
   */
  predicate Loses(o: Options, c: bytes, have: int, top: int) {
    var i := First(c);
    && o.maxMsgLen > 0 && i < |c| && i + 1 >= o.maxMsgLen
    && (o.maxMsgLen <= KEEP_TAIL
        || (|c| - i > KEEP_TAIL
            && (i + 8 <= top || i - have + (if have < KEEP_TAIL then have else KEEP_TAIL) + 1 >= o.maxMsgLen)))
  }

  /**
   No cutting makes a scan pass over a start: followed along the reference reading of `s`, of which at least `lo` bytes
   have arrived when it becomes the front of the buffer, and at most `hi` can have. A front that has to wait for more
   bytes can be waited for with just these, and from there the buffer can be filled to its cap.
   */
  ghost predicate Clear(o: Options, s: bytes, lo: int, hi: int)
    decreases |s|
  {
    var l, h := Lower(o, s, lo), Upper(o, s, lo, hi);
    match Judge(o, Head(o, s))
    case NeedMore(_) => true
    case Accept(len, _) => Clear(o, s[len..], l - len, h - len)
    case Garbage =>
      FirstMeans(s);
      !Loses(o, s, l, h)
      && (First(s) < |s| ==> Clear(o, s[First(s)..], NextLo(s, l), NextHi(s, l, h)))
    case Reject(skip, _) =>
      var c := s[skip..];
      !Loses(o, c, l - skip, h - skip)
      && (First(c) < |c| ==> Clear(o, c[First(c)..], NextLo(c, l - skip), NextHi(c, l - skip, h - skip)))
  }

  /** At least this much of the front has arrived when it is judged. */
  function Lower(o: Options, s: bytes, lo: int): int {
    if !Judge(o, Head(o, s)).NeedMore? && lo < Decision(o, s) then Decision(o, s) else lo
  }

  /** At most this much of the front can have arrived when it is judged. */
  function Upper(o: Options, s: bytes, lo: int, hi: int): int {
    if !Judge(o, Head(o, s)).NeedMore? && lo < Decision(o, s) then Cap(o) else hi
  }

  /** A start that need not have arrived at the scan is first seen with two bytes. */
  function NextLo(c: bytes, have: int): int {
    if have >= First(c) + 2 then have - First(c) else 2
  }

  function NextHi(c: bytes, have: int, top: int): int {
    if have >= First(c) + 2 then top - First(c) else 2
  }

  /** The condition at a scan. */
  ghost predicate ClearAfter(o: Options, c: bytes, have: int, top: int) {
    && !Loses(o, c, have, top)
    && (First(c) < |c| ==> Clear(o, c[First(c)..], NextLo(c, have), NextHi(c, have, top)))
  }

  /** A fresh buffer. */
  ghost predicate ClearStream(o: Options, s: bytes) {
    Clear(o, s, 0, Cap(o))
  }

  /** Without a limit the scan is unbounded and nothing is ever passed over. */
  lemma {:induction false} NoLimitClear(o: Options, s: bytes, lo: int, hi: int)
    requires o.maxMsgLen == 0
    ensures Clear(o, s, lo, hi)
    decreases |s|
  {
    hide Judge, First, Lower, Upper;
    var l, h := Lower(o, s, lo), Upper(o, s, lo, hi);
    match Judge(o, Head(o, s))
    case NeedMore(_) =>
    case Accept(len, _) => NoLimitClear(o, s[len..], l - len, h - len);
    case Garbage =>
      FirstMeans(s);
      if First(s) < |s| { NoLimitClear(o, s[First(s)..], NextLo(s, l), NextHi(s, l, h)); }
    case Reject(skip, _) =>
      var c := s[skip..];
      if First(c) < |c| { NoLimitClear(o, c[First(c)..], NextLo(c, l - skip), NextHi(c, l - skip, h - skip)); }
  }

  // ---------------------------------------------------------------------
  // Verdicts on a stream and on a buffer
  // ---------------------------------------------------------------------

  /** A verdict on a buffer is the verdict on any stream that begins with it. */
  lemma HeadVerdict(o: Options, b: bytes, d: bytes)
    requires Holds(o, |b|) && |b + d| < SIZE_MAX && !Judge(o, b).NeedMore?
    ensures Judge(o, Head(o, b + d)) == Judge(o, b)
  {
    hide Judge;
    var h := Head(o, b + d);
    var k := |h| - |b|;
    assert h == b + d[..k];
    if Judge(o, b).Garbage? { GarbageExtend(o, b, d[..k]); } else { JudgeExtend(o, b, d[..k]); }
  }

  /** Where a buffer is undecided so is each of its prefixes; the decision takes more than it holds. */
  lemma DecisionBeyond(o: Options, b: bytes, d: bytes)
    requires Holds(o, |b|) && |b + d| < SIZE_MAX && Judge(o, b).NeedMore?
    requires !Judge(o, Head(o, b + d)).NeedMore?
    ensures Decision(o, b + d) > |b|
  {
    hide Judge;
    var s := b + d;
    var f := Decision(o, s);
    if f <= |b| {
      assert s[..f] == b[..f] && b == b[..f] + b[f..];
      Decided(o, b[..f], b[f..]);
    }
  }

  lemma Decided(o: Options, b: bytes, d: bytes)
    requires Holds(o, |b + d|) && !Judge(o, b).NeedMore?
    ensures Judge(o, b + d) == Judge(o, b)
  {
    hide Judge;
    if Judge(o, b).Garbage? { GarbageExtend(o, b, d); } else { JudgeExtend(o, b, d); }
  }

  lemma DecisionWithin(o: Options, b: bytes, d: bytes)
    requires Holds(o, |b|) && |b + d| < SIZE_MAX && !Judge(o, b).NeedMore?
    ensures !Judge(o, Head(o, b + d)).NeedMore?
    ensures Decision(o, b + d) <= |b| && Judge(o, (b + d)[..Decision(o, b + d)]) == Judge(o, b)
  {
    hide Judge;
    HeadVerdict(o, b, d);
    var s := b + d;
    var f := Decision(o, s);
    assert s[..|b|] == b;
    if f <= |b| {
      assert s[..f] == b[..f] && b == b[..f] + b[f..];
      Decided(o, b[..f], b[f..]);
    }
  }

  /** A front that waits can be waited for with whatever has arrived. */
  lemma {:induction false} ClearFresh(o: Options, s: bytes, lo: int, hi: int)
    requires Waits(o, s, lo)
    ensures Clear(o, s, lo, hi) <==> ClearStream(o, s)
  {
    hide Judge, First, Loses;
    if !Judge(o, Head(o, s)).NeedMore? { DecisionPositive(o, s); }
  }

  lemma DecisionPositive(o: Options, s: bytes)
    requires !Judge(o, Head(o, s)).NeedMore?
    ensures Decision(o, s) >= 2 && (StartsFrame(s) ==> Decision(o, s) >= MIN_MSG_LEN)
  {
    hide Judge;
    EarlyWaits(o, s[..Decision(o, s)]);
  }

  lemma EarlyWaits(o: Options, b: bytes)
    ensures |b| < 2 || (StartsFrame(b) && |b| < MIN_MSG_LEN) ==> Judge(o, b).NeedMore?
  {
  }

  // ---------------------------------------------------------------------
  // Draining a buffer follows the reference
  // ---------------------------------------------------------------------

  /** Reading on after a scan of `c`. */
  function ReferenceAfter(o: Options, c: bytes): Drained {
    if First(c) == |c| then Drained([], Tail(c)) else Reference(o, c[First(c)..])
  }

  /** Garbage is followed by a scan of all of it. */
  lemma {:induction false} GarbageStep(o: Options, s: bytes)
    requires |s| < SIZE_MAX && |s| >= 2 && First(s) > 0
    ensures Reference(o, s) == ReferenceAfter(o, s)
    ensures ClearStream(o, s) <==> ClearAfter(o, s, 2, Cap(o))
  {
    hide Judge, First, Loses;
    FirstMeans(s);
    var two := s[..2];
    assert s == two + s[2..];
    assert !StartsFrame(two);
    GarbageAtTwo(o, two);
    HeadVerdict(o, two, s[2..]);
    DecisionWithin(o, two, s[2..]);
    DecisionPositive(o, s);
  }

  lemma GarbageAtTwo(o: Options, b: bytes)
    requires |b| == 2 && !StartsFrame(b)
    ensures Judge(o, b).Garbage? && Holds(o, 2)
  {
    hide ParseHeader, JudgeAligned;
  }

  lemma {:induction false} ReferenceStep(o: Options, s: bytes)
    ensures
      match Judge(o, Head(o, s))
      case NeedMore(_) => Reference(o, s) == Drained([], s)
      case Accept(len, msg) => Reference(o, s) == Prepend([msg], Reference(o, s[len..]))
      case Garbage => Reference(o, s) == ReferenceAfter(o, s)
      case Reject(skip, _) => Reference(o, s) == ReferenceAfter(o, s[skip..])
  {
    hide Judge, First, Prepend, Tail;
    FirstMeans(s);
  }

  lemma {:induction false} ClearStep(o: Options, s: bytes, lo: int, hi: int)
    ensures
      var l, h := Lower(o, s, lo), Upper(o, s, lo, hi);
      match Judge(o, Head(o, s))
      case NeedMore(_) => Clear(o, s, lo, hi)
      case Accept(len, _) => Clear(o, s, lo, hi) <==> Clear(o, s[len..], l - len, h - len)
      case Garbage => Clear(o, s, lo, hi) <==> ClearAfter(o, s, l, h)
      case Reject(skip, _) => Clear(o, s, lo, hi) <==> ClearAfter(o, s[skip..], l - skip, h - skip)
  {
    hide Judge, First, Loses, Lower, Upper, NextLo, NextHi, Head;
    FirstMeans(s);
  }

  /** One step of the reference and of the condition, by the verdict. */
  lemma {:induction false} StepOf(o: Options, s: bytes, lo: int, hi: int)
    ensures
      var l, h := Lower(o, s, lo), Upper(o, s, lo, hi);
      match Judge(o, Head(o, s))
      case NeedMore(_) => Reference(o, s) == Drained([], s) && Clear(o, s, lo, hi)
      case Accept(len, msg) =>
        Reference(o, s) == Prepend([msg], Reference(o, s[len..]))
        && (Clear(o, s, lo, hi) <==> Clear(o, s[len..], l - len, h - len))
      case Garbage => Reference(o, s) == ReferenceAfter(o, s) && (Clear(o, s, lo, hi) <==> ClearAfter(o, s, l, h))
      case Reject(skip, _) =>
        Reference(o, s) == ReferenceAfter(o, s[skip..])
        && (Clear(o, s, lo, hi) <==> ClearAfter(o, s[skip..], l - skip, h - skip))
  {
    hide Judge, Reference, Clear, Lower, Upper, ClearAfter, ReferenceAfter, Head;
    ReferenceStep(o, s);
    ClearStep(o, s, lo, hi);
  }

  /** The bounds of a decided buffer. */
  lemma BoundsHold(o: Options, b: bytes, d: bytes, lo: int, hi: int)
    requires Holds(o, |b|) && |b + d| < SIZE_MAX && !Judge(o, b).NeedMore?
    requires o.maxMsgLen > 0 && lo <= |b| && (|b| <= hi || Waits(o, b + d, lo))
    ensures Lower(o, b + d, lo) <= |b| <= Upper(o, b + d, lo, hi)
  {
    hide Judge;
    DecisionWithin(o, b, d);
  }

  /** The front cannot be judged with the first `lo` bytes alone. */
  predicate Waits(o: Options, s: bytes, lo: int) {
    Judge(o, Head(o, s)).NeedMore? || lo < Decision(o, s)
  }

  /** A short tail that holds a start drains like the tail from there on. */
  lemma {:induction false} TailFinds(o: Options, t: bytes)
    requires First(t) < |t| <= KEEP_TAIL && (o.maxMsgLen == 0 || o.maxMsgLen > KEEP_TAIL)
    ensures Drain(o, t) == Drain(o, t[First(t)..])
  {
    hide Judge, Drain, First, Resync;
    FirstMeans(t);
    NotAligned(o, t);
    if First(t) > 0 {
      ResyncCases(o, t);
      DrainStep(o, t);
    } else {
      assert t[0..] == t;
    }
  }

  /** The tail as a suffix. */
  lemma TailParts(c: bytes)
    ensures Tail(c) == c[|c| - |Tail(c)|..] && Tail(Tail(c)) == Tail(c)
    ensures First(c) >= |c| - |Tail(c)| ==> First(Tail(c)) == First(c) - (|c| - |Tail(c)|)
  {
    hide First;
    if First(c) >= |c| - |Tail(c)| { FirstDrop(c, |c| - |Tail(c)|); }
  }

  /** A scan whose first start has arrived ends up on it, in one step or by way of the tail. */
  lemma {:induction false} ScanFinds(o: Options, c: bytes)
    requires First(c) < |c|
    requires o.maxMsgLen > 0 && First(c) + 1 >= o.maxMsgLen ==> o.maxMsgLen > KEEP_TAIL && |c| - First(c) <= KEEP_TAIL
    ensures Drain(o, Resync(o, c)) == Drain(o, c[First(c)..])
  {
    hide Judge, Drain, First, Resync;
    FirstMeans(c);
    ResyncCases(o, c);
    if First(c) + 2 > Window(o, c) { FoundInTail(o, c); }
  }

  lemma {:induction false} FoundInTail(o: Options, c: bytes)
    requires First(c) < |c| && |c| - First(c) <= KEEP_TAIL && (o.maxMsgLen == 0 || o.maxMsgLen > KEEP_TAIL)
    ensures Drain(o, Tail(c)) == Drain(o, c[First(c)..])
  {
    hide Judge, Drain, First, Resync;
    var k := |c| - |Tail(c)|;
    TailParts(c);
    hide Tail;
    TailFinds(o, Tail(c));
    DropDrop(c, k, First(c) - k);
  }

  lemma NotAligned(o: Options, b: bytes)
    ensures Judge(o, b).Garbage? <==> |b| >= 2 && !StartsFrame(b)
  {
    hide ParseHeader, JudgeAligned;
  }

  /** A scan that finds nothing leaves the tail, which waits. */
  lemma {:induction false} ScanWaits(o: Options, c: bytes)
    requires First(c) == |c|
    ensures Resync(o, c) == Tail(c) && Drain(o, Tail(c)) == Drained([], Tail(c))
  {
    hide Judge, Drain, First, Resync, Tail;
    ResyncCases(o, c);
    TailParts(c);
    TailWaits(o, Tail(c));
  }

  lemma {:induction false} TailWaits(o: Options, t: bytes)
    requires First(t) == |t| && Tail(t) == t
    ensures Drain(o, t) == Drained([], t)
  {
    hide Judge, Drain, First, Resync, Tail;
    FirstMeans(t);
    ResyncCases(o, t);
    NotAligned(o, t);
    EarlyWaits(o, t);
    DrainStep(o, t);
    if |t| >= 2 { DrainGarbage(o, t); }
  }

  /** A start further on stays reachable from the tail. */
  lemma TailKeepsSafe(o: Options, c: bytes, d: bytes, have: int, top: int)
    requires !Loses(o, c + d, have, top) && (o.maxMsgLen > 0 ==> have <= |c|)
    requires |c| - |Tail(c)| <= First(c + d)
    ensures First(Tail(c) + d) == First(c + d) - (|c| - |Tail(c)|)
    ensures !Loses(o, Tail(c) + d, 2, Cap(o))
  {
    hide First;
    var k := |c| - |Tail(c)|;
    assert Tail(c) + d == (c + d)[k..];
    FirstDrop(c + d, k);
  }

  /** After a scan that finds nothing, reading on from the tail is reading on from all of it. */
  lemma {:induction false} ScanHidden(o: Options, c: bytes, d: bytes, have: int, top: int)
    requires |c + d| < SIZE_MAX && ClearAfter(o, c + d, have, top) && First(c) == |c|
    requires o.maxMsgLen > 0 ==> have <= |c|
    ensures ReferenceAfter(o, c + d) == Reference(o, Tail(c) + d) && ClearStream(o, Tail(c) + d)
  {
    hide Judge, First, Loses, Reference, Clear;
    var x, k := Tail(c) + d, |c| - |Tail(c)|;
    FirstAppend(c, d);
    FirstMeans(c + d);
    assert x == (c + d)[k..];
    TailKeepsSafe(o, c, d, have, top);
    FirstMeans(x);
    if |x| < 2 {
      assert x == c + d && Tail(x) == x;
      ShortReference(o, x);
    } else if First(x) == 0 {
      assert x == c + d && x[0..] == x;
      StartFresh(o, x);
      if o.maxMsgLen == 0 { NoLimitClear(o, x, 0, Cap(o)); }
    } else {
      GarbageStep(o, x);
      assert First(x) < |x| ==> x[First(x)..] == (c + d)[First(c + d)..];
      assert First(x) == |x| ==> Tail(x) == Tail(c + d);
      if o.maxMsgLen == 0 { NoLimitClear(o, x, 0, Cap(o)); }
    }
  }

  lemma {:induction false} ShortReference(o: Options, x: bytes)
    requires |x| < 2
    ensures Reference(o, x) == Drained([], x) && ClearStream(o, x)
  {
    hide Judge;
    EarlyWaits(o, Head(o, x));
  }

  /** A frame start seen with two bytes waits. */
  lemma {:induction false} StartFresh(o: Options, x: bytes)
    requires StartsFrame(x)
    ensures Waits(o, x, 2) && (Clear(o, x, 2, 2) <==> ClearStream(o, x))
  {
    hide Judge;
    if !Judge(o, Head(o, x)).NeedMore? { DecisionPositive(o, x); }
    ClearFresh(o, x, 2, 2);
  }

  /** What draining `b` makes of the stream `b + d`. */
  ghost predicate Follows(o: Options, b: bytes, d: bytes) {
    var r := Drain(o, b);
    Reference(o, b + d) == Prepend(r.msgs, Reference(o, r.rest + d)) && ClearStream(o, r.rest + d)
  }

  /**
   Draining a buffer follows the reference reading of the stream it begins, if no scan can pass over a start, and the
   stream that is left is again one for which this holds.
   */
  lemma {:induction false} DrainFollows(o: Options, b: bytes, d: bytes, lo: int, hi: int)
    requires Holds(o, |b|) && |b + d| < SIZE_MAX && Clear(o, b + d, lo, hi)
    requires o.maxMsgLen > 0 ==> lo <= |b| && (|b| <= hi || Waits(o, b + d, lo))
    ensures Follows(o, b, d)
    decreases 2 * |b|
  {
    hide Judge, Drain, First, Resync, Reference, Clear, Loses, Lower, Upper, Waits, Decision, Prepend, ReferenceAfter;
    DrainStep(o, b);
    var s := b + d;
    if Judge(o, b).NeedMore? {
      PrependNothing(Reference(o, s));
      WaitingClear(o, b, d, lo, hi);
    } else {
      HeadVerdict(o, b, d);
      StepOf(o, s, lo, hi);
      if o.maxMsgLen > 0 { BoundsHold(o, b, d, lo, hi); }
      var l, h := Lower(o, s, lo), Upper(o, s, lo, hi);
      match Judge(o, b)
      case Accept(len, msg) =>
        assert s[len..] == b[len..] + d;
        DrainFollows(o, b[len..], d, l - len, h - len);
        PrependPrepend([msg], Drain(o, b[len..]), Reference(o, Drain(o, b[len..]).rest + d));
      case Garbage =>
        NotAligned(o, b);
        FirstMeans(b);
        ScanFollows(o, b, d, l, h);
      case Reject(skip, _) =>
        assert s[skip..] == b[skip..] + d;
        ScanFollows(o, b[skip..], d, l - skip, h - skip);
      case _ =>
    }
  }

  lemma {:induction false} WaitingClear(o: Options, b: bytes, d: bytes, lo: int, hi: int)
    requires Holds(o, |b|) && |b + d| < SIZE_MAX && Clear(o, b + d, lo, hi) && Judge(o, b).NeedMore?
    requires o.maxMsgLen > 0 ==> lo <= |b|
    ensures ClearStream(o, b + d)
  {
    hide Judge;
    if o.maxMsgLen == 0 {
      NoLimitClear(o, b + d, 0, Cap(o));
    } else {
      if !Judge(o, Head(o, b + d)).NeedMore? { DecisionBeyond(o, b, d); }
      ClearFresh(o, b + d, lo, hi);
    }
  }

  /** The part of DrainFollows after a scan of `c`. */
  lemma {:induction false} ScanFollows(o: Options, c: bytes, d: bytes, have: int, top: int)
    requires Holds(o, |c|) && |c + d| < SIZE_MAX && ClearAfter(o, c + d, have, top)
    requires o.maxMsgLen > 0 ==> have <= |c| <= top
    ensures
      var r := Drain(o, Resync(o, c));
      ReferenceAfter(o, c + d) == Prepend(r.msgs, Reference(o, r.rest + d)) && ClearStream(o, r.rest + d)
    decreases if First(c) == 0 then 2 * |c| + 1 else 2 * |c| - 1
  {
    hide Judge, Drain, First, Resync, Reference, Clear, Waits, Prepend;
    FirstMeans(c);
    FirstAppend(c, d);
    if First(c) == |c| {
      ScanWaits(o, c);
      ScanHidden(o, c, d, have, top);
      PrependNothing(Reference(o, Tail(c) + d));
    } else {
      var i := First(c);
      ScanFinds(o, c);
      assert (c + d)[i..] == c[i..] + d;
      FirstMeans(c[i..] + d);
      FirstDrop(c + d, i);
      StartFresh(o, c[i..] + d);
      DrainFollows(o, c[i..], d, NextLo(c + d, have), NextHi(c + d, have, top));
    }
  }

  // ---------------------------------------------------------------------
  // Feeding follows the reference
  // ---------------------------------------------------------------------

  /** One feed() call, whatever is fed later. */
  lemma {:induction false} FeedFollows(o: Options, held: bytes, data: bytes, more: bytes)
    requires Holds(o, |held|) && |held + data + more| < SIZE_MAX && ClearStream(o, held + data + more)
    ensures
      var d := Feed(o, held, data);
      && Reference(o, held + data + more) == Prepend(d.msgs, Reference(o, d.rest + more))
      && ClearStream(o, d.rest + more) && Holds(o, |d.rest|) && Drain(o, d.rest) == Drained([], d.rest)
      && |d.rest| <= |held + data|
    decreases |data|
  {
    hide Drain, Judge, Clear, Reference, Prepend;
    assert held + data + more == held + (data + more);
    DrainFollows(o, held, data + more, 0, Cap(o));
    DrainIdle(o, held);
    var d := Drain(o, held);
    if data == [] {
      assert data + more == more;
    } else {
      if o.maxMsgLen > 0 { DrainedBelowCap(o, held); }
      var n := Room(o, |d.rest|, |data|);
      var b, rest := d.rest + data[..n], data[n..];
      assert d.rest + (data + more) == b + rest + more;
      FeedFollows(o, b, rest, more);
      PrependPrepend(d.msgs, Feed(o, b, rest), Reference(o, Feed(o, b, rest).rest + more));
    }
  }

  /** A buffer that waits is what the reference leaves of it. */
  lemma {:induction false} IdleReference(o: Options, r: bytes)
    requires Holds(o, |r|) && Drain(o, r) == Drained([], r) && ClearStream(o, r)
    ensures Reference(o, r) == Drained([], r)
  {
    hide Judge, Drain, Reference, Clear;
    DrainStep(o, r);
    assert r + [] == r;
    assert Head(o, r) == r;
    StepOf(o, r, 0, Cap(o));
    match Judge(o, r)
    case Garbage => IdleGarbage(o, r);
    case _ =>
  }

  lemma {:induction false} IdleGarbage(o: Options, r: bytes)
    requires Holds(o, |r|) && Drain(o, r) == Drained([], r) && ClearStream(o, r) && Judge(o, r).Garbage?
    ensures Reference(o, r) == Drained([], r)
  {
    hide Judge, Drain, Reference, Clear, First;
    DrainStep(o, r);
    NotAligned(o, r);
    FirstMeans(r);
    ResyncCases(o, r);
    GarbageStep(o, r);
  }

  /** Any sequence of feed() calls ends where the reference does. */
  lemma {:induction false} FeedAllFollows(o: Options, held: bytes, chunks: seq<bytes>)
    requires Holds(o, |held|) && |held + Concat(chunks)| < SIZE_MAX && ClearStream(o, held + Concat(chunks))
    requires Drain(o, held) == Drained([], held)
    ensures FeedAll(o, held, chunks) == Reference(o, held + Concat(chunks))
    decreases |chunks|
  {
    hide Drain, Judge, Clear, Reference, Prepend, Feed;
    if chunks == [] {
      assert held + Concat(chunks) == held;
      IdleReference(o, held);
    } else if chunks[0] == [] {
      assert Concat(chunks) == Concat(chunks[1..]);
      FeedAllFollows(o, held, chunks[1..]);
    } else {
      var more := Concat(chunks[1..]);
      assert held + Concat(chunks) == held + chunks[0] + more;
      FeedFollows(o, held, chunks[0], more);
      FeedAllFollows(o, Feed(o, held, chunks[0]).rest, chunks[1..]);
    }
  }

  // ---------------------------------------------------------------------
  // Main results
  // ---------------------------------------------------------------------

  /**
   Chunking independence. However a stream is cut into feed() calls, the parser delivers the messages of the reference
   reading and keeps its bytes, unless the bounded scan can be made to pass over a start. Without a length limit that
   never happens (NoLimitClear); with one it is decided along the stream by Clear.
   */
  lemma {:induction false} ChunkingIndependence(o: Options, chunks: seq<bytes>)
    requires |Concat(chunks)| < SIZE_MAX && ClearStream(o, Concat(chunks))
    ensures FeedAll(o, [], chunks) == Reference(o, Concat(chunks))
  {
    hide Reference, FeedAll, ClearStream, Drain, Concat, Prepend, Judge, Resync;
    NothingBefore(Concat(chunks));
    DrainEmpty(o);
    FeedAllFollows(o, [], chunks);
  }

  /** Two ways of cutting the same bytes end the same. */
  ghost predicate CutIndependent(o: Options, s: bytes) {
    forall xs, ys :: Concat(xs) == s && Concat(ys) == s ==> FeedAll(o, [], xs) == FeedAll(o, [], ys)
  }

  lemma ClearIsIndependent(o: Options, s: bytes)
    requires |s| < SIZE_MAX && ClearStream(o, s)
    ensures CutIndependent(o, s)
  {
    hide Reference, FeedAll, Clear;
    forall xs, ys | Concat(xs) == s && Concat(ys) == s
      ensures FeedAll(o, [], xs) == FeedAll(o, [], ys)
    {
      ChunkingIndependence(o, xs);
      ChunkingIndependence(o, ys);
    }
  }
}
