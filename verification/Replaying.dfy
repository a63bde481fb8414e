/**
 The answer to a ResendRequest: gap-fills and re-tagged application messages that tile the requested range.
 */
module Replaying {
  import opened Bytes
  import opened Messages
  import opened Framing
  import opened Headers
  import opened Serializing
  import opened Confluence
  import opened Streams
  import opened Builder
  import opened Stores
  import opened Protocol
  import opened Emitting
  import opened Timers

  // ---------------------------------------------------------------------
  // Messages that come out of the parser
  // ---------------------------------------------------------------------

  /** Values may go on the wire, tags fit 32 bits, and no standard-header tag repeats. */
  ghost predicate Sound(m: Message) {
    && AllClean(m.fields) && ValidTags(m.fields)
    && forall t :: IsHeaderTag(t) ==> |GetAll(m.fields, t)| <= 1
  }

  ghost predicate AllSound(ms: seq<Message>) {
    forall i :: 0 <= i < |ms| ==> Sound(ms[i])
  }

  lemma {:induction false} ParseBodyClean(body: bytes, pos: nat, fields: seq<Field>, duplicate: bool)
    requires AllClean(fields) && ValidTags(fields)
    ensures
      var r := ParseBody(body, pos, fields, duplicate);
      r.BodyOk? ==> AllClean(r.fields) && ValidTags(r.fields)
    decreases |body|
  {
    hide ParseField, IsHeaderTag, Get;
    if body != [] && ParseField(body).Ok? {
      var f := ParseField(body);
      ParseBodyClean(body[f.len..], pos + f.len, fields, true);
      if Clean(f.value) {
        ParseBodyClean(body[f.len..], pos + f.len, fields + [Field(f.tag, f.value)], duplicate);
      }
    }
  }

  lemma DecIntClean(n: int)
    ensures Clean(DecInt(n))
  {
    if n < 0 { DecDigits(-n); } else { DecDigits(n); }
  }

  lemma AcceptedClean(o: Options, b: bytes)
    requires Judge(o, b).Accept?
    ensures AllClean(Judge(o, b).msg.fields) && ValidTags(Judge(o, b).msg.fields)
  {
    hide ParseHeader, ParseBody, ParseField;
    var h := ParseHeader(b);
    DecIntClean(ToInt64(h.bodyLength));
    if Clean(h.beginString) {
      var frame := b[..FrameEnd(h)];
      assert AllClean(Seeded(h)) && ValidTags(Seeded(h));
      ParseBodyClean(frame[h.bodyStart..h.bodyStart + h.bodyLength], h.bodyStart, Seeded(h), false);
    }
  }

  lemma AcceptedSound(o: Options, b: bytes)
    requires Judge(o, b).Accept?
    ensures Sound(Judge(o, b).msg)
  {
    hide Judge, GetAll, IsHeaderTag, AllClean, ValidTags, FirstOccurrences, Repeats, WireFields;
    AcceptedClean(o, b);
    var m := Judge(o, b).msg;
    forall t | IsHeaderTag(t)
      ensures |GetAll(m.fields, t)| <= 1
    {
      DeliveredMessage(o, b, t);
    }
  }

  lemma {:induction false} DrainSound(o: Options, b: bytes)
    ensures AllSound(Drain(o, b).msgs)
    decreases |b|
  {
    hide Judge, Resync, Drain, Sound;
    DrainStep(o, b);
    match Judge(o, b)
    case NeedMore(_) =>
    case Garbage => if Resync(o, b) != b { DrainSound(o, Resync(o, b)); } else { DrainGarbage(o, b); }
    case Reject(skip, _) => DrainSound(o, Resync(o, b[skip..]));
    case Accept(len, _) =>
      AcceptedSound(o, b);
      DrainSound(o, b[len..]);
  }

  lemma {:induction false} FeedSound(o: Options, held: bytes, data: bytes)
    ensures AllSound(Feed(o, held, data).msgs)
    decreases |data|
  {
    hide Drain, Sound, Room;
    DrainSound(o, held);
    if data != [] {
      var d := Drain(o, held);
      var n := Room(o, |d.rest|, |data|);
      RoomBound(o, |d.rest|, |data|);
      if n > 0 { FeedSound(o, d.rest + data[..n], data[n..]); }
    }
  }

  lemma RoomBound(o: Options, held: nat, n: nat)
    ensures Room(o, held, n) <= n
  {
  }

  lemma StoredSound(wire: bytes)
    requires ParseStored(wire).Some?
    ensures Sound(ParseStored(wire).value)
  {
    hide Feed, Sound;
    FeedSound(KEEP_DEFAULTS, [], wire);
  }

  // ---------------------------------------------------------------------
  // Nothing replayed fails to serialize
  // ---------------------------------------------------------------------

  lemma {:induction false} CleanGet(fs: seq<Field>, tag: nat)
    requires AllClean(fs)
    ensures Get(fs, tag).Some? ==> Clean(Get(fs, tag).value)
  {
    if fs != [] {
      assert AllClean(fs[1..]);
      CleanGet(fs[1..], tag);
    }
  }

  lemma {:induction false} CleanSet(fs: seq<Field>, tag: nat, value: bytes)
    requires AllClean(fs)
    ensures AllClean(SetField(fs, tag, value))
  {
    if fs != [] {
      assert AllClean(fs[1..]);
      CleanSet(fs[1..], tag, value);
    }
  }

  lemma {:induction false} CleanBody(fs: seq<Field>)
    requires AllClean(fs)
    ensures AllClean(BodyFields(fs))
  {
    if fs != [] {
      assert AllClean(fs[1..]);
      CleanBody(fs[1..]);
    }
  }

  predicate CanSend(cfg: Config, env: Env) {
    cfg.GoodIds() && Clean(env.time)
  }

  lemma VersionClean(v: FixVersion)
    ensures Clean(VersionText(v)) && 6 <= |VersionText(v)| <= 40
  {
  }

  lemma CleanSerializes(cfg: Config, fs: seq<Field>, n: nat, env: Env)
    requires CanSend(cfg, env) && AllClean(fs)
    ensures Serialize(fs, EnvelopeFor(cfg, n, env)).Some?
  {
    hide Get, Clean, AllClean, BodyFields, HeaderFields, VersionText, EncFields, Build;
    var e := EnvelopeFor(cfg, n, env);
    VersionClean(cfg.version);
    CleanGet(fs, MSG_TYPE);
    CleanGet(fs, POSS_DUP_FLAG);
    CleanGet(fs, ORIG_SENDING_TIME);
    EmptyClean();
    OptionalClean(fs, POSS_DUP_FLAG);
    OptionalClean(fs, ORIG_SENDING_TIME);
    DecIntClean(ToInt64(e.seqNum));
    HeaderClean(fs, e);
    CleanBody(fs);
    AllCleanConcat(HeaderFields(fs, e), BodyFields(fs));
  }

  lemma EmptyClean()
    ensures Clean([])
  {
  }

  lemma {:induction false} OptionalClean(fs: seq<Field>, tag: nat)
    requires Get(fs, tag).Some? ==> Clean(Get(fs, tag).value)
    ensures AllClean(Optional(fs, tag))
  {
    hide Get, Clean;
  }

  lemma GapFillClean(upTo: nat)
    ensures AllClean(GapFillFields(upTo))
  {
    hide SetField, Clean;
    CleanSet([], MSG_TYPE, SEQUENCE_RESET);
    var a := OfType(SEQUENCE_RESET);
    CleanSet(a, GAP_FILL_FLAG, YES);
    var b := SetField(a, GAP_FILL_FLAG, YES);
    CleanSet(b, POSS_DUP_FLAG, YES);
    CleanSet(SetField(b, POSS_DUP_FLAG, YES), NEW_SEQ_NO, DecInt(ToInt64(upTo)));
  }

  lemma RetaggedClean(stored: Message)
    requires AllClean(stored.fields) && ValidTags(stored.fields)
    ensures AllClean(Retagged(stored)) && ValidTags(Retagged(stored))
  {
    hide SetField, Clean, Get, AllClean, ValidTags;
    CleanSet(stored.fields, POSS_DUP_FLAG, YES);
    SetFieldTags(stored.fields, POSS_DUP_FLAG, YES);
    var dup := SetField(stored.fields, POSS_DUP_FLAG, YES);
    match Get(dup, SENDING_TIME)
    case Some(orig) =>
      CleanSet(dup, ORIG_SENDING_TIME, orig);
      SetFieldTags(dup, ORIG_SENDING_TIME, orig);
    case None =>
  }

  // ---------------------------------------------------------------------
  // Tiling
  // ---------------------------------------------------------------------

  /** A gap-fill for the numbers from its own up to (excluding) NewSeqNo. */
  predicate Fill(x: Outgoing, upTo: nat) {
    x.fields == GapFillFields(upTo) && x.envelope.seqNum < upTo
  }

  /** The re-tagged copy of a stored application message. */
  predicate Copy(x: Outgoing, stored: map<nat, bytes>) {
    && x.envelope.seqNum in stored && Replayable(stored[x.envelope.seqNum])
    && x.fields == Retagged(ParseStored(stored[x.envelope.seqNum]).value)
  }

  /** No number from `lo` up to (excluding) `hi` belongs to a stored application message. */
  predicate NoneReplayable(stored: map<nat, bytes>, lo: nat, hi: nat) {
    forall n :: lo <= n < hi && n in stored ==> !Replayable(stored[n])
  }

  /**
   The frames account for every number from `lo` up to (excluding) `hi`, in order, without overlap: a gap-fill for
   a run of numbers none of which is a stored application message, a copy for each one that is.
   */
  ghost predicate Tiles(cfg: Config, env: Env, stored: map<nat, bytes>, frames: seq<Outgoing>, lo: nat, hi: nat)
    decreases |frames|
  {
    if frames == [] then lo == hi
    else
      && frames[0].envelope == EnvelopeFor(cfg, lo, env)
      && ((Copy(frames[0], stored) && Tiles(cfg, env, stored, frames[1..], lo + 1, hi))
          || exists mid :: lo < mid <= hi && Fill(frames[0], mid) && NoneReplayable(stored, lo, mid)
                           && Tiles(cfg, env, stored, frames[1..], mid, hi))
  }

  lemma {:induction false} TilesConcat(
    cfg: Config, env: Env, stored: map<nat, bytes>, a: seq<Outgoing>, b: seq<Outgoing>, lo: nat, mid: nat, hi: nat)
    requires Tiles(cfg, env, stored, a, lo, mid) && Tiles(cfg, env, stored, b, mid, hi) && mid <= hi
    ensures Tiles(cfg, env, stored, a + b, lo, hi)
    decreases |a|
  {
    hide Copy, Fill, NoneReplayable, EnvelopeFor;
    if a == [] {
      assert a + b == b;
    } else {
      assert (a + b)[1..] == a[1..] + b;
      if Copy(a[0], stored) && Tiles(cfg, env, stored, a[1..], lo + 1, mid) {
        TilesConcat(cfg, env, stored, a[1..], b, lo + 1, mid, hi);
      } else {
        var x :| lo < x <= mid && Fill(a[0], x) && NoneReplayable(stored, lo, x)
                 && Tiles(cfg, env, stored, a[1..], x, mid);
        TilesConcat(cfg, env, stored, a[1..], b, x, mid, hi);
      }
    }
  }

  lemma {:induction false} TilesOneFill(cfg: Config, env: Env, stored: map<nat, bytes>, lo: nat, hi: nat)
    requires lo < hi && NoneReplayable(stored, lo, hi)
    ensures Tiles(cfg, env, stored, [Outgoing(GapFillFields(hi), EnvelopeFor(cfg, lo, env))], lo, hi)
  {
    hide GapFillFields, NoneReplayable;
    var x := Outgoing(GapFillFields(hi), EnvelopeFor(cfg, lo, env));
    assert [x][1..] == [];
    assert Tiles(cfg, env, stored, [], hi, hi);
    assert Fill(x, hi);
  }

  lemma {:induction false} TilesOneCopy(cfg: Config, env: Env, stored: map<nat, bytes>, n: nat)
    requires n in stored && Replayable(stored[n])
    ensures
      var x := Outgoing(Retagged(ParseStored(stored[n]).value), EnvelopeFor(cfg, n, env));
      Tiles(cfg, env, stored, [x], n, n + 1)
  {
    hide Retagged, ParseStored;
    var x := Outgoing(Retagged(ParseStored(stored[n]).value), EnvelopeFor(cfg, n, env));
    assert [x][1..] == [];
    assert Tiles(cfg, env, stored, [], n + 1, n + 1);
    assert Copy(x, stored);
  }

  /** What a replay in progress has accounted for: everything tiled up to `at`, nothing to copy before the cursor. */
  ghost predicate Replaying(
    cfg: Config, env: Env, stored: map<nat, bytes>, begin: nat, r: Replayed, next: nat)
  {
    && begin <= r.cursor <= next
    && Tiles(cfg, env, stored, r.frames, begin, r.cursor)
    && NoneReplayable(stored, r.cursor, next)
  }

  lemma {:induction false} FlushGapTiles(cfg: Config, env: Env, stored: map<nat, bytes>, begin: nat, r: Replayed, next: nat)
    requires CanSend(cfg, env) && Replaying(cfg, env, stored, begin, r, next)
    ensures
      var q := FlushGap(cfg, r, next, env);
      q.cursor == next && Tiles(cfg, env, stored, q.frames, begin, next)
  {
    hide GapFillFields, Serialize, Tiles, NoneReplayable, CanSend, EnvelopeFor;
    if r.cursor < next {
      GapFillClean(next);
      CleanSerializes(cfg, GapFillFields(next), r.cursor, env);
      TilesOneFill(cfg, env, stored, r.cursor, next);
      var x := Outgoing(GapFillFields(next), EnvelopeFor(cfg, r.cursor, env));
      TilesConcat(cfg, env, stored, r.frames, [x], begin, r.cursor, next);
    }
  }

  lemma ReplayOneTiles(
    cfg: Config, env: Env, stored: map<nat, bytes>, begin: nat, r: Replayed, n: nat)
    requires CanSend(cfg, env) && Replaying(cfg, env, stored, begin, r, n) && n in stored
    ensures Replaying(cfg, env, stored, begin, ReplayOne(cfg, r, StoredFrame(n, stored[n]), env), n + 1)
  {
    hide Tiles, FlushGap, Serialize, CanSend, EnvelopeFor, Retagged, ParseStored, GapFillFields;
    var w := stored[n];
    if Replayable(w) {
      var m := ParseStored(w).value;
      FlushGapTiles(cfg, env, stored, begin, r, n);
      StoredParts(w);
      RetaggedClean(m);
      CleanSerializes(cfg, Retagged(m), n, env);
      TilesOneCopy(cfg, env, stored, n);
      var x := Outgoing(Retagged(m), EnvelopeFor(cfg, n, env));
      TilesConcat(cfg, env, stored, FlushGap(cfg, r, n, env).frames, [x], begin, n, n + 1);
    }
  }

  lemma StoredParts(w: bytes)
    requires ParseStored(w).Some?
    ensures AllClean(ParseStored(w).value.fields) && ValidTags(ParseStored(w).value.fields)
  {
    hide ParseStored;
    StoredSound(w);
  }

  lemma {:induction false} ReplayFramesTiles(
    cfg: Config, env: Env, stored: map<nat, bytes>, begin: nat, r: Replayed, at: nat, hi: nat, rangeEnd: nat)
    requires CanSend(cfg, env) && Replaying(cfg, env, stored, begin, r, at) && at <= rangeEnd + 1
    ensures
      var q := ReplayFrames(cfg, r, Ascending(stored, at, hi), rangeEnd, env);
      Replaying(cfg, env, stored, begin, q, Max(at, Min(hi, rangeEnd) + 1))
    decreases hi + 1 - at
  {
    hide Tiles, ReplayOne, CanSend, Replayable;
    if at > hi || at > rangeEnd {
      AboveRange(cfg, env, stored, r, at, hi, rangeEnd);
    } else if at in stored {
      var first := StoredFrame(at, stored[at]);
      var all := Ascending(stored, at, hi);
      assert all[0] == first && all[1..] == Ascending(stored, at + 1, hi);
      ReplayOneTiles(cfg, env, stored, begin, r, at);
      ReplayFramesTiles(cfg, env, stored, begin, ReplayOne(cfg, r, first, env), at + 1, hi, rangeEnd);
    } else {
      assert Ascending(stored, at, hi) == Ascending(stored, at + 1, hi);
      ReplayFramesTiles(cfg, env, stored, begin, r, at + 1, hi, rangeEnd);
    }
  }

  lemma {:induction false} AscendingFrom(stored: map<nat, bytes>, lo: nat, hi: nat)
    ensures forall i :: 0 <= i < |Ascending(stored, lo, hi)| ==> lo <= Ascending(stored, lo, hi)[i].seqNum
    decreases hi + 1 - lo
  {
    if lo <= hi { AscendingFrom(stored, lo + 1, hi); }
  }

  lemma {:induction false} AboveRange(
    cfg: Config, env: Env, stored: map<nat, bytes>, r: Replayed, at: nat, hi: nat, rangeEnd: nat)
    requires at > hi || at > rangeEnd
    ensures ReplayFrames(cfg, r, Ascending(stored, at, hi), rangeEnd, env) == r
  {
    hide ReplayOne;
    AscendingFrom(stored, at, hi);
  }

  /**
   Replay tiling: for any store contents, the answer to a request that is not refused leaves the counters and the
   store alone and tiles the range: gap-fills for the runs of numbers that are not stored application messages, a
   re-tagged copy for each number that is, contiguous and in order.
   */
  lemma {:induction false} ReplayTiling(cfg: Config, s: Endpoint, m: Message, begin: nat, end: nat, env: Env)
    requires CanSend(cfg, env) && 1 <= begin <= RangeEnd(s.nextSender, end) && begin <= s.nextSender
    ensures
      var r := AnswerResend(cfg, s, m, begin, end, env);
      && r.s == s.(lastSend := r.s.lastSend)
      && Tiles(cfg, env, s.outbound, Emitted(r.out), begin, RangeEnd(s.nextSender, end) + 1)
  {
    hide Tiles, ReplayFrames, FlushGap, CanSend, Emitted, Emissions;
    var last := RangeEnd(s.nextSender, end);
    var hi := if end == 0 then MaxKey(s.outbound.Keys) else end;
    var start := Replayed([], begin);
    assert Tiles(cfg, env, s.outbound, [], begin, begin) by { TilesEmpty(cfg, env, s.outbound, begin); }
    ReplayFramesTiles(cfg, env, s.outbound, begin, start, begin, hi, last);
    var q := ReplayFrames(cfg, start, Snapshot(s.outbound, begin, end), last, env);
    FlushGapTiles(cfg, env, s.outbound, begin, q, last + 1);
    EmissionsEmitted(Replay(cfg, Snapshot(s.outbound, begin, end), begin, last, env));
  }

  lemma {:induction false} TilesEmpty(cfg: Config, env: Env, stored: map<nat, bytes>, n: nat)
    ensures Tiles(cfg, env, stored, [], n, n)
  {
  }
}
