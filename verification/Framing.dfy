/**
 What StreamParser does with the bytes it holds, as functions of those bytes: the verdict on the bytes at the
 read position, resynchronisation on the next frame start, and draining until more input is needed.
 */
module Framing {
  import opened Bytes
  import opened Messages

  const MIN_MSG_LEN := 20
  const TRAILER_BYTES := 7
  const KEEP_TAIL := 7
  const MAX_HEADER_SCAN := 64
  const BACKLOG_SLACK := 4096

  datatype Options = Options(validateChecksum: bool, maxMsgLen: nat)

  /** The backlog cap; 0 stands for "no cap". */
  function Cap(o: Options): nat {
    if o.maxMsgLen > 0 then o.maxMsgLen + BACKLOG_SLACK else 0
  }

  /** Buffer sizes that can occur: at most the cap, or what a size_t can count. */
  predicate Holds(o: Options, n: nat) {
    n < SIZE_MAX && (o.maxMsgLen > 0 ==> n <= Cap(o))
  }

  // ---------------------------------------------------------------------
  // One field
  // ---------------------------------------------------------------------

  datatype FieldResult = Ok(tag: nat, value: bytes, len: nat) | Incomplete | Invalid

  function ParseField(s: bytes): (r: FieldResult)
    ensures r.Ok? ==> r.tag < TWO32 && |r.value| + 2 < r.len <= |s| && SOH !in r.value && s[r.len - 1] == SOH
  {
    var eq := FindEither(s, 0, EQ, SOH);
    if eq == |s| then Incomplete
    else if s[eq] == SOH || eq == 0 then Invalid
    else match ParseUint(s[..eq], TWO32 - 1)
      case None => Invalid
      case Some(tag) =>
        var soh := FindEither(s, eq + 1, SOH, SOH);
        if soh == |s| then Incomplete else Ok(tag, s[eq + 1..soh], soh + 1)
  }

  /** A decision about a field never changes when more bytes arrive. */
  lemma ParseFieldExtend(s: bytes, t: bytes)
    requires s <= t && !ParseField(s).Incomplete?
    ensures ParseField(t) == ParseField(s)
  {
    var eq := FindEither(s, 0, EQ, SOH);
    FindEitherExtend(s, t, 0, EQ, SOH);
    assert t[..eq] == s[..eq];
    if s[eq] != SOH && eq != 0 && ParseUint(s[..eq], TWO32 - 1).Some? {
      var soh := FindEither(s, eq + 1, SOH, SOH);
      FindEitherExtend(s, t, eq + 1, SOH, SOH);
      assert t[eq + 1..soh] == s[eq + 1..soh];
    }
  }

  // ---------------------------------------------------------------------
  // Header fields 8 and 9
  // ---------------------------------------------------------------------

  datatype Header =
    | HeaderPartial
    | HeaderBad(skip: nat, err: ErrorCode)
    | HeaderOk(beginString: bytes, bodyLength: nat, bodyStart: nat)

  function Scan(b: bytes): bytes {
    b[..Min(|b|, MAX_HEADER_SCAN)]
  }

  function ParseLength(b: bytes, beginString: bytes, pos: nat): (h: Header)
    requires 1 <= pos <= |b|
    ensures h.HeaderBad? ==> 1 <= h.skip <= |b|
    ensures h.HeaderOk? ==> pos < h.bodyStart <= |b| && h.bodyStart <= pos + MAX_HEADER_SCAN
  {
    match ParseField(Scan(b[pos..]))
    case Incomplete => if |b| - pos < MAX_HEADER_SCAN then HeaderPartial else HeaderBad(pos, ParseError)
    case Invalid => HeaderBad(pos, BadLength)
    case Ok(tag, value, len) =>
      if tag != BODY_LENGTH then HeaderBad(pos, BadLength)
      else match ParseUint(value, SIZE_MAX)
        case None => HeaderBad(pos + len, BadLength)
        case Some(n) => HeaderOk(beginString, n, pos + len)
  }

  function ParseHeader(b: bytes): (h: Header)
    requires |b| >= MIN_MSG_LEN
    ensures h.HeaderBad? ==> 1 <= h.skip <= |b|
    ensures h.HeaderOk? ==> 2 < h.bodyStart <= |b| && h.bodyStart <= 2 * MAX_HEADER_SCAN
  {
    match ParseField(Scan(b))
    case Incomplete => if |b| < MAX_HEADER_SCAN then HeaderPartial else HeaderBad(1, ParseError)
    case Invalid => HeaderBad(1, InvalidField)
    case Ok(tag, value, len) =>
      if tag != BEGIN_STRING then HeaderBad(1, InvalidField) else ParseLength(b, value, len)
  }

  // ---------------------------------------------------------------------
  // Body fields
  // ---------------------------------------------------------------------

  datatype Body = BodyBad(skip: nat, err: ErrorCode) | BodyOk(fields: seq<Field>, duplicate: bool)

  /**
   Reads the fields of `body`, which starts at offset `pos` of its frame. `fields` are the fields read so far.
   A standard-header tag that was already read is dropped and flagged; every other field is kept.
   */
  function ParseBody(body: bytes, pos: nat, fields: seq<Field>, duplicate: bool): (r: Body)
    ensures r.BodyBad? ==> pos <= r.skip <= pos + |body|
    decreases |body|
  {
    if body == [] then BodyOk(fields, duplicate)
    else match ParseField(body)
      case Incomplete => BodyBad(pos + |body|, BadLength)
      case Invalid => BodyBad(pos, InvalidField)
      case Ok(tag, value, len) =>
        if tag == CHECK_SUM then BodyBad(pos, ParseError)
        else if IsHeaderTag(tag) && Has(fields, tag) then ParseBody(body[len..], pos + len, fields, true)
        else if !Clean(value) then BodyBad(pos, InvalidField)
        else ParseBody(body[len..], pos + len, fields + [Field(tag, value)], duplicate)
  }

  // ---------------------------------------------------------------------
  // Checksum
  // ---------------------------------------------------------------------

  function Sum(s: bytes): nat {
    if s == [] then 0 else Sum(s[..|s| - 1]) + s[|s| - 1]
  }

  /** The sum of all bytes modulo 256. */
  function Checksum(s: bytes): nat {
    Sum(s) % 256
  }

  /** Exactly three digits, at most 255. */
  function ParseChecksum(v: bytes): Option<nat> {
    if |v| == 3 && AllDigits(v) && Val(v) <= 255 then Some(Val(v)) else None
  }

  // ---------------------------------------------------------------------
  // One frame
  // ---------------------------------------------------------------------

  /**
   NeedMore: wait (`oversized` when the frame announced is too long but may still fit the cap).
   Garbage: the bytes do not start a frame. Reject: drop `skip` bytes and resynchronise. Accept: a message.
   */
  datatype Verdict =
    | NeedMore(oversized: bool)
    | Garbage
    | Reject(skip: nat, err: ErrorCode)
    | Accept(len: nat, msg: Message)

  predicate StartsFrame(b: bytes) {
    |b| >= 2 && b[0] == EIGHT && b[1] == EQ
  }

  /** The trailer of a complete frame whose body has been read. */
  function JudgeTrailer(o: Options, frame: bytes, bodyEnd: nat, body: Body): (v: Verdict)
    requires body.BodyOk? && 1 <= bodyEnd && bodyEnd + TRAILER_BYTES == |frame|
    ensures (v.Reject? && 1 <= v.skip <= |frame|) || (v.Accept? && v.len == |frame|)
  {
    match ParseField(frame[bodyEnd..])
    case Ok(tag, value, len) =>
      if tag != CHECK_SUM then Reject(bodyEnd, ParseError)
      else if ParseChecksum(value).None? then Reject(bodyEnd, BadChecksum)
      else if len != TRAILER_BYTES then Reject(bodyEnd, ParseError)
      else if o.validateChecksum && Checksum(frame[..bodyEnd]) != ParseChecksum(value).value then
        Reject(|frame|, BadChecksum)
      else Accept(|frame|, Message(body.fields, frame, body.duplicate))
    case _ => Reject(bodyEnd, ParseError)
  }

  /** A complete frame: header `h`, then `h.bodyLength` body bytes, then a seven-byte trailer. */
  function JudgeFrame(o: Options, frame: bytes, h: Header): (v: Verdict)
    requires h.HeaderOk? && 1 <= h.bodyStart && h.bodyStart + h.bodyLength + TRAILER_BYTES == |frame|
    ensures (v.Reject? && 1 <= v.skip <= |frame|) || (v.Accept? && v.len == |frame|)
  {
    var bodyEnd := h.bodyStart + h.bodyLength;
    if !Clean(h.beginString) then Reject(h.bodyStart, InvalidField)
    else
      var seeded := [Field(BEGIN_STRING, h.beginString), Field(BODY_LENGTH, DecInt(ToInt64(h.bodyLength)))];
      match ParseBody(frame[h.bodyStart..bodyEnd], h.bodyStart, seeded, false)
      case BodyBad(skip, err) => Reject(skip, err)
      case BodyOk(fields, duplicate) => JudgeTrailer(o, frame, bodyEnd, BodyOk(fields, duplicate))
  }

  function FrameEnd(h: Header): nat
    requires h.HeaderOk?
  {
    if h.bodyLength <= SIZE_MAX - (h.bodyStart + TRAILER_BYTES) then h.bodyStart + h.bodyLength + TRAILER_BYTES
    else SIZE_MAX
  }

  predicate Oversized(o: Options, h: Header)
    requires h.HeaderOk?
  {
    || h.bodyLength > SIZE_MAX - (h.bodyStart + TRAILER_BYTES)
    || (o.maxMsgLen > 0
        && (h.bodyStart + TRAILER_BYTES > o.maxMsgLen
            || h.bodyLength > o.maxMsgLen - (h.bodyStart + TRAILER_BYTES)))
  }

  function JudgeAligned(o: Options, b: bytes, h: Header): (v: Verdict)
    requires h.HeaderOk? && 1 <= h.bodyStart <= |b|
    ensures v.Reject? ==> 1 <= v.skip <= |b|
    ensures v.Accept? ==> 1 <= v.len <= |b|
    ensures !v.Garbage?
  {
    if Oversized(o, h) then
      if FrameEnd(h) <= Cap(o) && |b| < FrameEnd(h) then NeedMore(true)
      else if |b| >= FrameEnd(h) then
        assert FrameEnd(h) >= 1;
        Reject(FrameEnd(h), BadLength)
      else Reject(h.bodyStart, BadLength)
    else if |b| < FrameEnd(h) then NeedMore(false)
    else JudgeFrame(o, b[..FrameEnd(h)], h)
  }

  /** The verdict on the buffered bytes. */
  function Judge(o: Options, b: bytes): (v: Verdict)
    ensures v.Reject? ==> 1 <= v.skip <= |b|
    ensures v.Accept? ==> 1 <= v.len <= |b|
    ensures v.Garbage? <==> |b| >= 2 && !StartsFrame(b)
  {
    if |b| < 2 then NeedMore(false)
    else if !StartsFrame(b) then Garbage
    else if |b| < MIN_MSG_LEN then NeedMore(false)
    else match ParseHeader(b)
      case HeaderPartial => NeedMore(false)
      case HeaderBad(skip, err) => Reject(skip, err)
      case HeaderOk(bs, n, pos) => JudgeAligned(o, b, HeaderOk(bs, n, pos))
  }

  // ---------------------------------------------------------------------
  // Resynchronisation
  // ---------------------------------------------------------------------

  /** First index at or after `from` where "8=" stands; the length if there is none. */
  function FindStart(s: bytes, from: nat): (r: nat)
    requires from <= |s|
    ensures from <= r <= |s|
    ensures r < |s| ==> StartsFrame(s[r..])
    ensures forall i :: from <= i < r ==> !StartsFrame(s[i..])
    decreases |s| - from
  {
    if from == |s| || StartsFrame(s[from..]) then from else FindStart(s, from + 1)
  }

  /** How many bytes a resynchronisation scan looks at. */
  function Window(o: Options, b: bytes): nat {
    if o.maxMsgLen > 0 then Min(|b|, o.maxMsgLen) else |b|
  }

  /** Drops everything before the first frame start in the window, or all but a short tail. */
  function Resync(o: Options, b: bytes): (r: bytes)
    ensures |r| <= |b| && r == b[|b| - |r|..]
  {
    var w := Window(o, b);
    var i := FindStart(b[..w], 0);
    if i < w then b[i..] else if |b| <= KEEP_TAIL then b else b[|b| - KEEP_TAIL..]
  }

  // ---------------------------------------------------------------------
  // Draining
  // ---------------------------------------------------------------------

  /** Messages delivered and bytes left. */
  datatype Drained = Drained(msgs: seq<Message>, rest: bytes)

  function Prepend(msgs: seq<Message>, d: Drained): Drained {
    Drained(msgs + d.msgs, d.rest)
  }

  lemma PrependPrepend(a: seq<Message>, b: Drained, d: Drained)
    ensures Prepend(a, Prepend(b.msgs, d)) == Prepend(Prepend(a, b).msgs, d) && Prepend(a, b).rest == b.rest
  {
    Associates(a, b.msgs, d.msgs);
  }

  lemma PrependNothing(d: Drained)
    ensures Prepend([], d) == d
  {
    assert [] + d.msgs == d.msgs;
  }

  function Drain(o: Options, b: bytes): (d: Drained)
    ensures |d.rest| <= |b| && d.rest == b[|b| - |d.rest|..]
    decreases |b|
  {
    match Judge(o, b)
    case NeedMore(_) => Drained([], b)
    case Garbage => if Resync(o, b) == b then Drained([], b) else Drain(o, Resync(o, b))
    case Reject(skip, _) => Drain(o, Resync(o, b[skip..]))
    case Accept(len, msg) => Prepend([msg], Drain(o, b[len..]))
  }

  // ---------------------------------------------------------------------
  // Feeding
  // ---------------------------------------------------------------------

  /** How much of `n` new bytes is appended to `held` buffered ones in one go. */
  function Room(o: Options, held: nat, n: nat): nat {
    if o.maxMsgLen == 0 then n else if held < Cap(o) then Min(n, Cap(o) - held) else 0
  }

  /** Waiting for more bytes only happens below the cap. */
  lemma NeedMoreBelowCap(o: Options, b: bytes)
    requires o.maxMsgLen > 0 && Judge(o, b).NeedMore?
    ensures |b| < Cap(o)
  {
    if |b| >= MIN_MSG_LEN {
      var h := ParseHeader(b);
      if h.HeaderOk? {
        assert Judge(o, b) == JudgeAligned(o, b, h);
      } else {
        PartialHeaderShort(b);
      }
    }
  }

  lemma PartialHeaderShort(b: bytes)
    requires |b| >= MIN_MSG_LEN && ParseHeader(b).HeaderPartial?
    ensures |b| < 2 * MAX_HEADER_SCAN
  {
  }

  /** After draining, a capped buffer has room left: nothing waits at or above the cap. */
  lemma {:induction false} DrainedBelowCap(o: Options, b: bytes)
    requires o.maxMsgLen > 0
    ensures |Drain(o, b).rest| < Cap(o)
    decreases |b|
  {
    hide Judge;
    match Judge(o, b)
    case NeedMore(_) => NeedMoreBelowCap(o, b);
    case Garbage => if Resync(o, b) != b { DrainedBelowCap(o, Resync(o, b)); } else { GarbageTail(o, b); }
    case Reject(skip, _) => DrainedBelowCap(o, Resync(o, b[skip..]));
    case Accept(len, _) => DrainedBelowCap(o, b[len..]);
  }

  /** Garbage that cannot be dropped is no longer than the tail that is kept. */
  lemma GarbageTail(o: Options, b: bytes)
    requires Judge(o, b).Garbage? && Resync(o, b) == b
    ensures |b| <= KEEP_TAIL
  {
    var w := Window(o, b);
    assert b[..w][0..] == b[..w];
  }

  /** feed(): drain, append as much as fits, until the input is used up; then drain once more. */
  function Feed(o: Options, held: bytes, data: bytes): Drained
    decreases |data|
  {
    if data == [] then Drain(o, held)
    else
      var d := Drain(o, held);
      var n := Room(o, |d.rest|, |data|);
      if n == 0 then d  // the cap is never reached: see DrainedBelowCap
      else Prepend(d.msgs, Feed(o, d.rest + data[..n], data[n..]))
  }

  /** A sequence of feed() calls, starting from the bytes `held`. An empty chunk returns at once. */
  function FeedAll(o: Options, held: bytes, chunks: seq<bytes>): Drained
    decreases |chunks|
  {
    if chunks == [] then Drained([], held)
    else if chunks[0] == [] then FeedAll(o, held, chunks[1..])
    else
      var d := Feed(o, held, chunks[0]);
      Prepend(d.msgs, FeedAll(o, d.rest, chunks[1..]))
  }

  function Concat(chunks: seq<bytes>): bytes {
    if chunks == [] then [] else chunks[0] + Concat(chunks[1..])
  }
}
