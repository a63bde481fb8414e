/**
 StreamParser: the buffer with its read and write positions, updated in place, proved to do what Framing says.
 */
module Parser {
  import opened Bytes
  import opened Messages
  import opened Framing
  import opened Headers
  import opened Confluence

  // ---------------------------------------------------------------------
  // Duplicate-header tracking
  // ---------------------------------------------------------------------

  function Elements(s: seq<nat>): set<nat> {
    set t | t in s
  }

  lemma {:induction false} ElementsBound(s: seq<nat>)
    ensures |Elements(s)| <= |s|
  {
    if s != [] {
      ElementsBound(s[1..]);
      assert Elements(s) == {s[0]} + Elements(s[1..]);
    }
  }

  predicate Distinct(s: seq<nat>) {
    forall i, j :: 0 <= i < j < |s| ==> s[i] != s[j]
  }

  lemma {:induction false} ElementsDistinct(s: seq<nat>)
    requires Distinct(s)
    ensures |Elements(s)| == |s|
  {
    if s != [] {
      ElementsDistinct(s[1..]);
      assert Elements(s) == {s[0]} + Elements(s[1..]);
      assert s[0] !in s[1..];
    }
  }

  /** Distinct header tags that miss one header tag are fewer than the whitelist: the table cannot overflow. */
  lemma Pigeonhole(seen: seq<nat>, tag: nat)
    requires Distinct(seen) && (forall i :: 0 <= i < |seen| ==> IsHeaderTag(seen[i]))
    requires IsHeaderTag(tag) && tag !in seen
    ensures |seen| < |STANDARD_HEADER|
  {
    hide *;
    var all := Elements(STANDARD_HEADER);
    ElementsBound(STANDARD_HEADER);
    ElementsDistinct(seen);
    HeaderElements(seen, tag);
    SubsetSize(Elements(seen) + {tag}, all);
    assert |Elements(seen) + {tag}| == |Elements(seen)| + 1;
  }

  lemma HeaderElements(seen: seq<nat>, tag: nat)
    requires (forall i :: 0 <= i < |seen| ==> IsHeaderTag(seen[i])) && IsHeaderTag(tag) && tag !in seen
    ensures Elements(seen) + {tag} <= Elements(STANDARD_HEADER) && tag !in Elements(seen)
  {
  }

  lemma SubsetSize(a: set<nat>, b: set<nat>)
    requires a <= b
    ensures |a| <= |b|
  {
    assert b == a + (b - a);
  }

  class HeaderSeen {
    var tags: array<nat>
    var count: nat

    ghost predicate Valid()
      reads this, tags
    {
      && tags.Length == |STANDARD_HEADER| && count <= tags.Length
      && Distinct(tags[..count])
      && forall i :: 0 <= i < count ==> IsHeaderTag(tags[i])
    }

    constructor ()
      ensures Valid() && fresh(tags) && count == 0
    {
      tags := new nat[|STANDARD_HEADER|](_ => 0);
      count := 0;
    }

    /** True if the tag was recorded before; records it otherwise. The table never overflows. */
    method CheckAndMark(tag: nat) returns (seen: bool)
      requires Valid() && IsHeaderTag(tag)
      modifies this, tags
      ensures Valid() && tags == old(tags)
      ensures seen <==> tag in old(tags[..count])
      ensures tags[..count] == if seen then old(tags[..count]) else old(tags[..count]) + [tag]
    {
      hide IsHeaderTag;
      for i := 0 to count
        invariant tag !in tags[..i]
      {
        if tags[i] == tag {
          return true;
        }
      }
      Pigeonhole(tags[..count], tag);
      tags[count] := tag;
      count := count + 1;
      return false;
    }
  }

  // ---------------------------------------------------------------------
  // What each step does to the parser's observable state
  // ---------------------------------------------------------------------

  datatype ParseStatus = MessageParsed | ErrorSkipped | MoreNeeded

  /** Bytes not yet parsed, messages not yet taken, and the counters. */
  datatype View = View(
    held: bytes, out: seq<Message>, consumed: nat, msgCount: nat, resyncCount: nat, lastError: Option<ErrorCode>)

  function ResyncView(o: Options, v: View, err: ErrorCode): View {
    var r := Resync(o, v.held);
    if r == v.held then v
    else v.(held := r, consumed := v.consumed + |v.held| - |r|, resyncCount := v.resyncCount + 1,
            lastError := Some(err))
  }

  /** A scan that drops `d` bytes. */
  lemma ResyncDrops(o: Options, v: View, err: ErrorCode, d: nat)
    requires d <= |v.held| && Resync(o, v.held) == v.held[d..]
    ensures
      ResyncView(o, v, err) ==
        if d == 0 then v
        else v.(held := v.held[d..], consumed := v.consumed + d, resyncCount := v.resyncCount + 1, lastError := Some(err))
  {
    hide Resync;
    assert v.held[0..] == v.held;
  }

  lemma ResyncViewHeld(o: Options, v: View, err: ErrorCode)
    ensures ResyncView(o, v, err).held == Resync(o, v.held)
    ensures |Resync(o, v.held)| <= |v.held| && (|Resync(o, v.held)| == |v.held| <==> Resync(o, v.held) == v.held)
  {
  }

  function StepView(o: Options, v: View): View {
    match Judge(o, v.held)
    case NeedMore(oversized) => if oversized then v.(lastError := Some(BadLength)) else v
    case Garbage => ResyncView(o, v, ParseError)
    case Reject(skip, err) =>
      ResyncView(o, v.(held := v.held[skip..], consumed := v.consumed + skip, lastError := Some(err)), err)
    case Accept(len, msg) =>
      v.(held := v.held[len..], out := v.out + [msg], consumed := v.consumed + len, msgCount := v.msgCount + 1,
         lastError := if msg.duplicateHeader then Some(DuplicateField) else None)
  }

  function StepStatus(o: Options, b: bytes): ParseStatus {
    match Judge(o, b)
    case NeedMore(_) => MoreNeeded
    case Garbage => if Resync(o, b) == b then MoreNeeded else ErrorSkipped
    case Reject(_, _) => ErrorSkipped
    case Accept(_, _) => MessageParsed
  }

  lemma StepProgress(o: Options, v: View)
    ensures StepStatus(o, v.held) != MoreNeeded ==> |StepView(o, v).held| < |v.held|
    ensures StepView(o, v).consumed + |StepView(o, v).held| == v.consumed + |v.held|
  {
    hide Judge, Resync;
  }

  function DrainView(o: Options, v: View): View
    decreases |v.held|
  {
    var w := StepView(o, v);
    if StepStatus(o, v.held) == MoreNeeded then w
    else
      StepProgress(o, v);
      DrainView(o, w)
  }

  /** One step in terms of draining: `delivered` is what this step delivers. */
  lemma {:induction false} StepDrains(o: Options, v: View)
    ensures
      var w := StepView(o, v);
      var d := Drain(o, v.held);
      var delivered := match Judge(o, v.held) case Accept(_, msg) => [msg] case _ => [];
      && w.out == v.out + delivered && w.msgCount == v.msgCount + |delivered|
      && d == Prepend(delivered, Drain(o, w.held))
      && (StepStatus(o, v.held) == MoreNeeded ==> w.held == v.held && d == Drained([], v.held))
  {
    hide Judge, Resync, Drain;
    DrainStep(o, v.held);
    if Judge(o, v.held).Garbage? && Resync(o, v.held) == v.held { DrainGarbage(o, v.held); }
  }

  /** Draining the object is draining its bytes; every byte is either consumed or still held. */
  lemma {:induction false} DrainViewIs(o: Options, v: View)
    ensures
      var w := DrainView(o, v);
      var d := Drain(o, v.held);
      && w.held == d.rest && w.out == v.out + d.msgs && w.msgCount == v.msgCount + |d.msgs|
      && w.consumed + |w.held| == v.consumed + |v.held|
    decreases |v.held|
  {
    hide Judge, Resync, Drain, StepView, StepStatus;
    StepProgress(o, v);
    StepDrains(o, v);
    if StepStatus(o, v.held) != MoreNeeded {
      var w := StepView(o, v);
      DrainViewIs(o, w);
      var delivered := match Judge(o, v.held) case Accept(_, msg) => [msg] case _ => [];
      Associates(v.out, delivered, Drain(o, w.held).msgs);
    }
  }

  function FeedView(o: Options, v: View, data: bytes): View
    decreases |data|
  {
    var w := DrainView(o, v);
    if data == [] then w
    else
      var n := Room(o, |w.held|, |data|);
      if n == 0 then w else FeedView(o, w.(held := w.held + data[..n]), data[n..])
  }

  /** Feeding the object is feeding its bytes; every byte fed is either consumed or still held. */
  lemma {:induction false} FeedViewIs(o: Options, v: View, data: bytes)
    ensures
      var w := FeedView(o, v, data);
      var d := Feed(o, v.held, data);
      && w.held == d.rest && w.out == v.out + d.msgs && w.msgCount == v.msgCount + |d.msgs|
      && w.consumed + |w.held| == v.consumed + |v.held| + |data|
    decreases |data|
  {
    hide DrainView, Drain;
    DrainViewIs(o, v);
    if data != [] {
      var w := DrainView(o, v);
      if o.maxMsgLen > 0 { DrainedBelowCap(o, v.held); }
      var n := Room(o, |w.held|, |data|);
      FeedViewIs(o, w.(held := w.held + data[..n]), data[n..]);
    }
  }

  // ---------------------------------------------------------------------
  // Reading fields
  // ---------------------------------------------------------------------

  /** parse_field. */
  method ReadField(data: bytes) returns (r: FieldResult)
    ensures r == ParseField(data)
  {
    var eq := 0;
    while eq < |data| && data[eq] != EQ && data[eq] != SOH
      invariant eq <= |data|
      invariant forall i :: 0 <= i < eq ==> data[i] != EQ && data[i] != SOH
    {
      eq := eq + 1;
    }
    if eq == |data| {
      return Incomplete;
    }
    FindEitherIs(data, 0, EQ, SOH, eq);
    if data[eq] == SOH || eq == 0 {
      return Invalid;
    }
    var tag := ParseUint(data[..eq], TWO32 - 1);
    if tag.None? {
      return Invalid;
    }
    var soh := eq + 1;
    while soh < |data| && data[soh] != SOH
      invariant eq + 1 <= soh <= |data|
      invariant forall i :: eq + 1 <= i < soh ==> data[i] != SOH
    {
      soh := soh + 1;
    }
    if soh == |data| {
      return Incomplete;
    }
    FindEitherIs(data, eq + 1, SOH, SOH, soh);
    return Ok(tag.value, data[eq + 1..soh], soh + 1);
  }

  /** Header fields 8 and 9 of a candidate frame. */
  method ReadHeader(b: bytes) returns (h: Header)
    requires |b| >= MIN_MSG_LEN
    ensures h == ParseHeader(b)
  {
    hide ParseField;
    var first := ReadField(b[..Min(|b|, MAX_HEADER_SCAN)]);
    match first
    case Incomplete =>
      return if |b| < MAX_HEADER_SCAN then HeaderPartial else HeaderBad(1, ParseError);
    case Invalid =>
      return HeaderBad(1, InvalidField);
    case Ok(tag, beginString, pos) =>
      if tag != BEGIN_STRING {
        return HeaderBad(1, InvalidField);
      }
      var second := ReadField(b[pos..][..Min(|b| - pos, MAX_HEADER_SCAN)]);
      match second
      case Incomplete =>
        return if |b| - pos < MAX_HEADER_SCAN then HeaderPartial else HeaderBad(pos, ParseError);
      case Invalid =>
        return HeaderBad(pos, BadLength);
      case Ok(tag', value, len) =>
        if tag' != BODY_LENGTH {
          return HeaderBad(pos, BadLength);
        }
        var n := ParseUint(value, SIZE_MAX);
        if n.None? {
          return HeaderBad(pos + len, BadLength);
        }
        return HeaderOk(beginString, n.value, pos + len);
  }

  method ComputeChecksum(data: bytes) returns (sum: nat)
    ensures sum == Checksum(data)
  {
    var total: nat := 0;
    for i := 0 to |data|
      invariant total == Sum(data[..i])
    {
      assert data[..i + 1][..i] == data[..i];
      total := total + data[i];
    }
    assert data[..|data|] == data;
    return total % 256;
  }

  /** The recorded tags are the standard-header tags among the fields read so far. */
  ghost predicate Tracks(seen: seq<nat>, fields: seq<Field>) {
    forall t :: IsHeaderTag(t) ==> (t in seen <==> Has(fields, t))
  }

  lemma TracksSnoc(seen: seq<nat>, fields: seq<Field>, f: Field, seen': seq<nat>)
    requires Tracks(seen, fields)
    requires seen' == if IsHeaderTag(f.tag) then seen + [f.tag] else seen
    ensures Tracks(seen', fields + [f])
  {
    hide IsHeaderTag, GetAll, Get;
    forall t | IsHeaderTag(t)
      ensures t in seen' <==> Has(fields + [f], t)
    {
      Snoc(fields, f, t);
    }
  }

  /** What the body loop does with one field. */
  lemma BodyStep(body: bytes, pos: nat, fields: seq<Field>, duplicate: bool)
    ensures
      var r := ParseBody(body, pos, fields, duplicate);
      if body == [] then r == BodyOk(fields, duplicate)
      else match ParseField(body)
        case Incomplete => r == BodyBad(pos + |body|, BadLength)
        case Invalid => r == BodyBad(pos, InvalidField)
        case Ok(tag, value, len) =>
          if tag == CHECK_SUM then r == BodyBad(pos, ParseError)
          else if IsHeaderTag(tag) && Has(fields, tag) then r == ParseBody(body[len..], pos + len, fields, true)
          else if !Clean(value) then r == BodyBad(pos, InvalidField)
          else r == ParseBody(body[len..], pos + len, fields + [Field(tag, value)], duplicate)
  {
    hide ParseField, IsHeaderTag, Get;
  }

  /** The body loop: `seeded` are BeginString and BodyLength, already in the message. */
  method ReadBody(frame: bytes, h: Header) returns (r: Body)
    requires h.HeaderOk? && h.bodyStart + h.bodyLength <= |frame|
    ensures r == ParseBody(frame[h.bodyStart..h.bodyStart + h.bodyLength], h.bodyStart, Seeded(h), false)
  {
    hide ParseField, IsHeaderTag, Get, ParseBody;
    var bodyEnd := h.bodyStart + h.bodyLength;
    var pos, fields, duplicate := h.bodyStart, Seeded(h), false;
    var seen := NewSeen(h);
    ghost var whole := ParseBody(frame[h.bodyStart..bodyEnd], h.bodyStart, Seeded(h), false);
    while pos < bodyEnd
      invariant h.bodyStart <= pos <= bodyEnd
      invariant seen.Valid() && fresh(seen) && fresh(seen.tags) && Tracks(seen.tags[..seen.count], fields)
      invariant whole == ParseBody(frame[pos..bodyEnd], pos, fields, duplicate)
      decreases bodyEnd - pos
    {
      var rest := frame[pos..bodyEnd];
      var f := ReadField(rest);
      BodyStep(rest, pos, fields, duplicate);
      match f
      case Incomplete =>
        return BodyBad(bodyEnd, BadLength);
      case Invalid =>
        return BodyBad(pos, InvalidField);
      case Ok(tag, value, len) =>
        if tag == CHECK_SUM {
          return BodyBad(pos, ParseError);
        }
        assert rest[len..] == frame[pos + len..bodyEnd];
        ghost var before := seen.tags[..seen.count];
        var repeated := false;
        if IsHeaderTag(tag) {
          repeated := seen.CheckAndMark(tag);
        }
        if repeated {
          duplicate := true;
        } else if !Clean(value) {
          return BodyBad(pos, InvalidField);
        } else {
          TracksSnoc(before, fields, Field(tag, value), seen.tags[..seen.count]);
          fields := fields + [Field(tag, value)];
        }
        pos := pos + len;
    }
    BodyStep(frame[pos..bodyEnd], pos, fields, duplicate);
    return BodyOk(fields, duplicate);
  }

  /** A tracker with tags 8 and 9 recorded. */
  method NewSeen(h: Header) returns (seen: HeaderSeen)
    requires h.HeaderOk?
    ensures seen.Valid() && fresh(seen) && fresh(seen.tags) && Tracks(seen.tags[..seen.count], Seeded(h))
  {
    hide Tracks, IsHeaderTag, Seeded, Distinct;
    seen := new HeaderSeen();
    SeedTags();
    SeedsTracked(h);
    assert seen.tags[..seen.count] == [];
    NothingBefore([BEGIN_STRING]);
    var first := seen.CheckAndMark(BEGIN_STRING);
    var second := seen.CheckAndMark(BODY_LENGTH);
    assert [BEGIN_STRING] + [BODY_LENGTH] == [BEGIN_STRING, BODY_LENGTH];
  }

  lemma SeedsTracked(h: Header)
    requires h.HeaderOk?
    ensures Tracks([BEGIN_STRING, BODY_LENGTH], Seeded(h))
  {
    hide Get, Tracks, IsHeaderTag;
    SeedTags();
    TracksNothing();
    var a, b := Seeded(h)[0], Seeded(h)[1];
    TracksSnoc([], [], a, [BEGIN_STRING]);
    TracksSnoc([BEGIN_STRING], [] + [a], b, [BEGIN_STRING, BODY_LENGTH]);
    assert Seeded(h) == [] + [a] + [b];
  }

  lemma SeedTags()
    ensures IsHeaderTag(BEGIN_STRING) && IsHeaderTag(BODY_LENGTH)
  {
    assert STANDARD_HEADER[0] == BEGIN_STRING && STANDARD_HEADER[1] == BODY_LENGTH;
  }

  lemma TracksNothing()
    ensures Tracks([], [])
  {
  }

  // ---------------------------------------------------------------------
  // The object
  // ---------------------------------------------------------------------

  class StreamParser {
    const opts: Options
    var buf: bytes
    var readPos: nat
    var writePos: nat
    var consumed: nat
    var msgCount: nat
    var resyncCount: nat
    var lastError: Option<ErrorCode>
    var healthy: bool
    var pending: seq<Message>
    var pendingPos: nat

    ghost predicate Valid()
      reads this
    {
      && readPos <= writePos <= |buf| && pendingPos <= |pending|
      && writePos <= SIZE_MAX && Cap(opts) <= SIZE_MAX && (opts.maxMsgLen > 0 ==> writePos - readPos <= Cap(opts))
    }

    ghost function State(): View
      requires Valid()
      reads this
    {
      View(buf[readPos..writePos], pending[pendingPos..], consumed, msgCount, resyncCount, lastError)
    }

    constructor (o: Options)
      requires Cap(o) <= SIZE_MAX
      ensures Valid() && opts == o && healthy && State() == View([], [], 0, 0, 0, None)
    {
      opts := o;
      buf, readPos, writePos, consumed, msgCount, resyncCount := [], 0, 0, 0, 0, 0;
      lastError, healthy, pending, pendingPos := None, true, [], 0;
    }

    method Reset()
      requires Valid()
      modifies this
      ensures Valid() && healthy && State() == View([], [], 0, 0, 0, None)
    {
      buf, readPos, writePos, consumed, msgCount, resyncCount := [], 0, 0, 0, 0, 0;
      lastError, healthy, pending, pendingPos := None, true, [], 0;
    }

    /** The oldest message not yet taken. */
    method Next() returns (msg: Option<Message>)
      requires Valid()
      modifies this`pending, this`pendingPos
      ensures Valid()
      ensures if old(State()).out == [] then msg == None && State() == old(State())
              else msg == Some(old(State()).out[0]) && State() == old(State()).(out := old(State()).out[1..])
    {
      if pendingPos >= |pending| {
        pending, pendingPos := [], 0;
        return None;
      }
      pendingPos := pendingPos + 1;
      return Some(pending[pendingPos - 1]);
    }

    method Compact()
      requires Valid()
      modifies this`buf, this`readPos, this`writePos
      ensures Valid() && readPos == 0 && State() == old(State())
    {
      if readPos == 0 {
        return;
      }
      var remaining := writePos - readPos;
      buf := buf[readPos..writePos] + buf[remaining..];
      writePos := remaining;
      readPos := 0;
    }

    method AppendBytes(data: bytes)
      requires Valid() && (opts.maxMsgLen > 0 ==> writePos - readPos + |data| <= Cap(opts))
      modifies this`buf, this`writePos, this`healthy, this`lastError
      ensures Valid()
      ensures
        if data != [] && old(writePos) + |data| > SIZE_MAX then
          !healthy && State() == old(State()).(lastError := Some(BadLength))
        else healthy == old(healthy) && State() == old(State()).(held := old(State()).held + data)
    {
      if data == [] {
        assert State().held + [] == State().held;
        return;
      }
      var need := writePos + |data|;
      if need > SIZE_MAX {
        healthy, lastError := false, Some(BadLength);
        return;
      }
      var tail := if need > |buf| then [] else buf[need..];
      buf := buf[..writePos] + data + tail;
      writePos := need;
    }

    /** Scans for the next frame start; returns the number of bytes dropped. */
    method ResyncScan(err: ErrorCode) returns (dropped: nat)
      requires Valid()
      modifies this`readPos, this`consumed, this`resyncCount, this`lastError
      ensures Valid() && State() == ResyncView(opts, old(State()), err)
      ensures dropped == |old(State()).held| - |State().held|
    {
      hide Resync, ResyncView;
      ghost var v := State();
      var held := buf[readPos..writePos];
      var i, found := ScanForStart(opts, held);
      var discard := if found then i else |held| - Min(|held|, KEEP_TAIL);
      ResyncDrops(opts, v, err, discard);
      DropOfSlice(buf, readPos, writePos, discard);
      if discard > 0 {
        readPos := readPos + discard;
        consumed := consumed + discard;
        resyncCount := resyncCount + 1;
        lastError := Some(err);
      }
      return discard;
    }

    /** Drops `n` bytes of a rejected frame and realigns. */
    method SkipFrame(n: nat, err: ErrorCode)
      requires Valid() && 1 <= n <= writePos - readPos
      modifies this`readPos, this`consumed, this`resyncCount, this`lastError
      ensures Valid()
      ensures
        var v := old(State());
        State() == ResyncView(
          opts, v.(held := v.held[n..], consumed := v.consumed + n, lastError := Some(err)), err)
    {
      hide Resync;
      readPos := readPos + n;
      consumed := consumed + n;
      lastError := Some(err);
      var _ := ResyncScan(err);
    }

    /** One step on the buffered bytes: a message, an error skipped, or more input needed. */
    method TryParseOne() returns (status: ParseStatus)
      requires Valid()
      modifies this
      ensures Valid() && healthy == old(healthy)
      ensures State() == StepView(opts, old(State()))
      ensures status == StepStatus(opts, old(State()).held)
    {
      hide Judge, Resync, ResyncView;
      ResyncViewHeld(opts, State(), ParseError);
      var v := JudgeFront(buf[readPos..writePos]);
      match v
      case NeedMore(oversized) =>
        if oversized {
          lastError := Some(BadLength);
        }
        return MoreNeeded;
      case Garbage =>
        var dropped := ResyncScan(ParseError);
        return if dropped > 0 then ErrorSkipped else MoreNeeded;
      case Reject(skip, err) =>
        SkipFrame(skip, err);
        return ErrorSkipped;
      case Accept(len, msg) =>
        TakeFrame(len, msg);
        return MessageParsed;
    }

    /** The branches of one step up to what is done with the bytes. */
    method JudgeFront(b: bytes) returns (v: Verdict)
      ensures v == Judge(opts, b)
    {
      hide ParseHeader, JudgeAligned;
      if |b| < 2 {
        return NeedMore(false);
      }
      if b[0] != EIGHT || b[1] != EQ {
        return Garbage;
      }
      if |b| < MIN_MSG_LEN {
        return NeedMore(false);
      }
      var h := ReadHeader(b);
      match h
      case HeaderPartial =>
        return NeedMore(false);
      case HeaderBad(skip, err) =>
        return Reject(skip, err);
      case HeaderOk(_, _, _) =>
        v := JudgeBuffered(b, h);
    }

    /** Queues the message of an accepted frame and consumes its bytes. */
    method TakeFrame(len: nat, msg: Message)
      requires Valid() && len <= writePos - readPos
      modifies this`pending, this`msgCount, this`lastError, this`readPos, this`consumed
      ensures Valid()
      ensures
        var v := old(State());
        State() == v.(held := v.held[len..], out := v.out + [msg], consumed := v.consumed + len,
                      msgCount := v.msgCount + 1, lastError := if msg.duplicateHeader then Some(DuplicateField) else None)
    {
      pending := pending + [msg];
      msgCount := msgCount + 1;
      lastError := if msg.duplicateHeader then Some(DuplicateField) else None;
      readPos := readPos + len;
      consumed := consumed + len;
    }

    /** Frame bounds, body and trailer of a frame whose header was read. */
    method JudgeBuffered(b: bytes, h: Header) returns (v: Verdict)
      requires h.HeaderOk? && 1 <= h.bodyStart <= |b|
      ensures v == JudgeAligned(opts, b, h)
    {
      hide ParseBody, ParseField, Checksum;
      var fits := h.bodyLength <= SIZE_MAX - (h.bodyStart + TRAILER_BYTES);
      var frameEnd := if fits then h.bodyStart + h.bodyLength + TRAILER_BYTES else SIZE_MAX;
      var oversized := !fits;
      if !oversized && opts.maxMsgLen > 0 {
        var overhead := h.bodyStart + TRAILER_BYTES;
        oversized := overhead > opts.maxMsgLen || h.bodyLength > opts.maxMsgLen - overhead;
      }
      if oversized {
        if frameEnd <= Cap(opts) && |b| < frameEnd {
          return NeedMore(true);
        }
        if |b| >= frameEnd {
          return Reject(frameEnd, BadLength);
        }
        return Reject(h.bodyStart, BadLength);
      }
      if |b| < frameEnd {
        return NeedMore(false);
      }
      var frame := b[..frameEnd];
      var bodyEnd := h.bodyStart + h.bodyLength;
      if !Clean(h.beginString) {
        return Reject(h.bodyStart, InvalidField);
      }
      var body := ReadBody(frame, h);
      if body.BodyBad? {
        return Reject(body.skip, body.err);
      }
      v := ReadTrailer(frame, bodyEnd, body);
    }

    method ReadTrailer(frame: bytes, bodyEnd: nat, body: Body) returns (v: Verdict)
      requires body.BodyOk? && 1 <= bodyEnd && bodyEnd + TRAILER_BYTES == |frame|
      ensures v == JudgeTrailer(opts, frame, bodyEnd, body)
    {
      hide ParseField, Checksum;
      var f := ReadField(frame[bodyEnd..]);
      if !f.Ok? || f.tag != CHECK_SUM {
        return Reject(bodyEnd, ParseError);
      }
      var provided := ParseChecksum(f.value);
      if provided.None? {
        return Reject(bodyEnd, BadChecksum);
      }
      if f.len != TRAILER_BYTES {
        return Reject(bodyEnd, ParseError);
      }
      if opts.validateChecksum {
        var expected := ComputeChecksum(frame[..bodyEnd]);
        if expected != provided.value {
          return Reject(|frame|, BadChecksum);
        }
      }
      return Accept(|frame|, Message(body.fields, frame, body.duplicate));
    }

    /** Parses everything buffered. Terminates: every step but the last drops bytes. */
    method DrainAll()
      requires Valid()
      modifies this
      ensures Valid() && healthy == old(healthy) && State() == DrainView(opts, old(State()))
    {
      hide StepView, StepStatus;
      ghost var end := DrainView(opts, State());
      while true
        invariant Valid() && healthy == old(healthy) && DrainView(opts, State()) == end
        decreases writePos - readPos
      {
        StepProgress(opts, State());
        var status := TryParseOne();
        if status == MoreNeeded {
          return;
        }
      }
    }

    /**
     Accepts input. The backlog stays below the cap, and what is delivered and kept is what Framing.Feed says: every
     byte fed is either consumed or still held. The parser turns unhealthy only if there is no limit and the bytes held
     and given are together more than a size_t can count; then it takes none of them.
     */
    method Feed(data: bytes)
      requires Valid()
      modifies this
      ensures Valid()
      ensures data == [] || !old(healthy) ==> healthy == old(healthy) && State() == old(State())
      ensures data != [] && old(healthy) ==>
        if Fits(opts, old(State()), data) then healthy && State() == FeedView(opts, old(State()), data)
        else !healthy && State() == DrainView(opts, DrainView(opts, old(State())).(lastError := Some(BadLength)))
      ensures healthy && data != [] && opts.maxMsgLen > 0 ==> |State().held| < Cap(opts)
    {
      hide DrainView, Drain;
      if data == [] || !healthy {
        return;
      }
      var rest := data;
      ghost var end := FeedView(opts, State(), data);
      ghost var fits := Fits(opts, State(), data);
      ghost var drained := DrainView(opts, State());
      while rest != []
        invariant Valid()
        invariant fits ==> healthy && FeedView(opts, State(), rest) == end
        invariant fits && opts.maxMsgLen == 0 && rest != [] ==> rest == data && State() == old(State())
        invariant !fits && rest != [] ==> healthy && rest == data && State() == old(State())
        invariant !fits && rest == [] ==> !healthy && State() == drained.(lastError := Some(BadLength))
        decreases |rest|
      {
        ghost var v := State();
        DrainViewIs(opts, v);
        if opts.maxMsgLen > 0 { DrainedBelowCap(opts, v.held); }
        DrainAll();
        Compact();
        var space := if opts.maxMsgLen == 0 then |rest| else Cap(opts) - writePos;
        if space == 0 {
          assert false;  // the backlog is below the cap after a drain: nothing to reclaim, nothing fatal
        }
        var n := Min(|rest|, space);
        AppendBytes(rest[..n]);
        rest := rest[n..];
      }
      DrainViewIs(opts, State());
      if opts.maxMsgLen > 0 { DrainedBelowCap(opts, State().held); }
      DrainAll();
    }
  }

  /** The input can be counted together with what is held when it is appended. */
  predicate Fits(o: Options, v: View, data: bytes) {
    o.maxMsgLen > 0 || |DrainView(o, v).held| + |data| <= SIZE_MAX
  }

  /** The search loop of resync_scan: the first "8=" inside the window. */
  method ScanForStart(o: Options, b: bytes) returns (i: nat, found: bool)
    ensures found ==> i <= |b|
    ensures Resync(o, b) == if found then b[i..] else b[|b| - Min(|b|, KEEP_TAIL)..]
  {
    hide Resync;
    var window := if o.maxMsgLen > 0 then Min(|b|, o.maxMsgLen) else |b|;
    i := 0;
    while i + 1 < window && !(b[i] == EIGHT && b[i + 1] == EQ)
      invariant i < window || i == 0
      invariant forall j :: 0 <= j < i ==> !StartAt(b[..window], j)
      decreases window - i
    {
      assert !StartAt(b[..window], i);
      i := i + 1;
    }
    found := i + 1 < window;
    ScanResult(o, b, i, found);
  }

  /** What the scanning loop has found, in terms of Resync. */
  lemma ScanResult(o: Options, b: bytes, i: nat, found: bool)
    requires var w := Window(o, b);
      && (i < w || i == 0) && (found <==> i + 1 < w)
      && (forall j :: 0 <= j < i ==> !StartAt(b[..w], j))
      && (found ==> b[i] == EIGHT && b[i + 1] == EQ)
    ensures Resync(o, b) == if found then b[i..] else b[|b| - Min(|b|, KEEP_TAIL)..]
  {
    var w := Window(o, b);
    FindStartAt(b[..w]);
    if found {
      assert StartAt(b[..w], i);
    } else {
      assert forall j :: !StartAt(b[..w], j);
    }
  }
}
