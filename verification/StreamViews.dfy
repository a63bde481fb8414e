/**
 Reading a stream of built frames leaves no trace of trouble in the parser object: nothing is skipped or resynchronised,
 every byte is consumed, and the last error is that of the last message alone.
 */
module StreamViews {
  import opened Bytes
  import opened Messages
  import opened Framing
  import opened Confluence
  import opened Streams
  import opened Parser

  /** A sequence of feed() calls on the object. */
  function FeedAllView(o: Options, v: View, chunks: seq<bytes>): View
    decreases |chunks|
  {
    if chunks == [] then v
    else FeedAllView(o, if chunks[0] == [] then v else FeedView(o, v, chunks[0]), chunks[1..])
  }

  /** The error reported after messages were delivered: that of the last one. */
  function ErrorAfter(err: Option<ErrorCode>, msgs: seq<Message>): Option<ErrorCode> {
    if msgs == [] then err else if msgs[|msgs| - 1].duplicateHeader then Some(DuplicateField) else None
  }

  /** From `v` to `w` only messages were delivered: no resynchronisation, no other error. */
  ghost predicate Calm(v: View, w: View, msgs: seq<Message>) {
    w.resyncCount == v.resyncCount && w.lastError == ErrorAfter(v.lastError, msgs)
  }

  lemma CalmThen(u: View, v: View, w: View, a: seq<Message>, b: seq<Message>)
    requires Calm(u, v, a) && Calm(v, w, b)
    ensures Calm(u, w, a + b)
  {
    if b == [] { assert a + b == a; }
  }

  lemma {:induction false} DrainCalm(o: Options, frames: seq<Frame>, v: View)
    requires AllGood(o, frames) && v.held <= Wires(frames)
    ensures Calm(v, DrainView(o, v), Drain(o, v.held).msgs)
    decreases |frames|
  {
    hide Judge, Drain, Resync, Frame.Wire, Frame.Meaning, Frame.Good, Calm, Prepend;
    DrainStep(o, v.held);
    if frames == [] {
      NothingCalm(o, v);
    } else {
      FrameVerdict(o, frames, v.held);
      WaitCalm(o, v);
      if |v.held| >= |frames[0].Wire()| {
        AcceptCalm(o, v);
        var w := StepView(o, v);
        DrainCalm(o, frames[1..], w);
        CalmThen(v, w, DrainView(o, w), [frames[0].Meaning()], Drain(o, w.held).msgs);
        PrependMsgs([frames[0].Meaning()], Drain(o, w.held));
      }
    }
  }

  lemma PrependMsgs(a: seq<Message>, d: Drained)
    ensures Prepend(a, d).msgs == a + d.msgs
  {
  }

  lemma {:induction false} NothingCalm(o: Options, v: View)
    requires v.held == []
    ensures Calm(v, DrainView(o, v), Drain(o, v.held).msgs)
  {
    hide Drain;
    DrainEmpty(o);
    EarlyIdle(o, v);
  }

  lemma EarlyIdle(o: Options, v: View)
    requires v.held == []
    ensures StepView(o, v) == v && StepStatus(o, v.held) == MoreNeeded
  {
  }

  lemma {:induction false} WaitCalm(o: Options, v: View)
    ensures Judge(o, v.held) == NeedMore(false) ==> Calm(v, DrainView(o, v), []) && DrainView(o, v) == v
  {
    hide Judge, Resync;
  }

  lemma {:induction false} AcceptCalm(o: Options, v: View)
    requires Judge(o, v.held).Accept?
    ensures Calm(v, StepView(o, v), [Judge(o, v.held).msg]) && DrainView(o, v) == DrainView(o, StepView(o, v))
    ensures StepView(o, v).held == v.held[Judge(o, v.held).len..]
  {
    hide Judge, Resync;
  }

  lemma {:induction false} FeedCalm(o: Options, frames: seq<Frame>, v: View, data: bytes)
    requires AllGood(o, frames) && v.held + data <= Wires(frames)
    ensures Calm(v, FeedView(o, v, data), Feed(o, v.held, data).msgs)
    decreases |data|
  {
    hide Drain, DrainView, Expected, Wires, Frame.Good, Calm, Prepend;
    assert v.held <= v.held + data;
    DrainCalm(o, frames, v);
    DrainViewIs(o, v);
    if data != [] {
      DrainFrames(o, frames, v.held);
      var w, x := DrainView(o, v), Drain(o, v.held);
      if o.maxMsgLen > 0 { DrainedBelowCap(o, v.held); }
      var n := Room(o, |w.held|, |data|);
      ExpectedRest(frames, v.held, data);
      var held := w.(held := w.held + data[..n]);
      assert w.held + data == held.held + data[n..];
      RestGood(o, frames, |x.msgs|);
      FeedCalm(o, frames[|x.msgs|..], held, data[n..]);
      CalmHeld(v, w, held, x.msgs);
      CalmThen(v, held, FeedView(o, held, data[n..]), x.msgs, Feed(o, held.held, data[n..]).msgs);
      PrependMsgs(x.msgs, Feed(o, held.held, data[n..]));
    }
  }

  lemma RestGood(o: Options, frames: seq<Frame>, n: nat)
    requires AllGood(o, frames) && n <= |frames|
    ensures AllGood(o, frames[n..])
  {
    hide Frame.Good;
  }

  lemma CalmHeld(v: View, w: View, w': View, msgs: seq<Message>)
    requires Calm(v, w, msgs) && w' == w.(held := w'.held)
    ensures Calm(v, w', msgs)
  {
  }

  lemma {:induction false} FeedAllCalm(o: Options, frames: seq<Frame>, v: View, chunks: seq<bytes>)
    requires AllGood(o, frames) && v.held + Concat(chunks) <= Wires(frames)
    ensures
      var w := FeedAllView(o, v, chunks);
      var d := FeedAll(o, v.held, chunks);
      && Calm(v, w, d.msgs) && w.held == d.rest && w.out == v.out + d.msgs && w.msgCount == v.msgCount + |d.msgs|
      && w.consumed + |w.held| == v.consumed + |v.held| + |Concat(chunks)|
    decreases |chunks|
  {
    hide Drain, Feed, FeedView, Expected, Wires, Frame.Good, Calm;
    if chunks == [] {
      CalmSelf(v);
    } else if chunks[0] == [] {
      assert Concat(chunks) == Concat(chunks[1..]);
      FeedAllCalm(o, frames, v, chunks[1..]);
    } else {
      var c, rest := chunks[0], Concat(chunks[1..]);
      assert v.held + Concat(chunks) == v.held + c + rest;
      assert v.held + c <= v.held + c + rest;
      FeedCalm(o, frames, v, c);
      FeedViewIs(o, v, c);
      FeedFrames(o, frames, v.held, c);
      ExpectedRest(frames, v.held + c, rest);
      var w, x := FeedView(o, v, c), Feed(o, v.held, c);
      RestGood(o, frames, |x.msgs|);
      FeedAllCalm(o, frames[|x.msgs|..], w, chunks[1..]);
      var later := FeedAll(o, x.rest, chunks[1..]);
      CalmThen(v, w, FeedAllView(o, w, chunks[1..]), x.msgs, later.msgs);
      Associates(v.out, x.msgs, later.msgs);
    }
  }

  lemma CalmSelf(v: View)
    ensures Calm(v, v, [])
  {
  }

  const FRESH := View([], [], 0, 0, 0, None)

  /**
   The round trip on the parser object: fed any cutting of the frames' bytes, a fresh parser ends with exactly their
   messages pending, nothing buffered, every byte consumed, no resynchronisation, and no error unless the last message
   repeats a standard-header tag.
   */
  lemma {:induction false} StreamUndisturbed(o: Options, frames: seq<Frame>, chunks: seq<bytes>)
    requires AllGood(o, frames) && Concat(chunks) == Wires(frames)
    ensures
      var msgs := MessagesOf(frames);
      FeedAllView(o, FRESH, chunks) == View([], msgs, |Wires(frames)|, |msgs|, 0, ErrorAfter(None, msgs))
  {
    hide FeedAll, Wires, Frame.Good, FeedAllView, MessagesOf;
    assert [] + Concat(chunks) == Concat(chunks);
    StreamRoundTrip(o, frames, chunks);
    FeedAllCalm(o, frames, FRESH, chunks);
    assert [] + MessagesOf(frames) == MessagesOf(frames);
  }
}
