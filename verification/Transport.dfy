/**
 The transport's send queue against a kernel that takes any part of what it is offered.
 */
module Transport {
  import opened Bytes

  /** What one send(2) call answers: bytes taken, try later, interrupted, or a fatal error. */
  datatype Kernel = Took(n: nat) | WouldBlock | Interrupted | Fatal

  function Flatten(queue: seq<bytes>): bytes {
    if queue == [] then [] else queue[0] + Flatten(queue[1..])
  }

  lemma {:induction false} FlattenSnoc(queue: seq<bytes>, data: bytes)
    ensures Flatten(queue + [data]) == Flatten(queue) + data
  {
    if queue == [] {
      assert queue + [data] == [data] && [data][1..] == [];
    } else {
      assert (queue + [data])[1..] == queue[1..] + [data];
      FlattenSnoc(queue[1..], data);
    }
  }

  // ---------------------------------------------------------------------
  // One connection on values
  // ---------------------------------------------------------------------

  /** The queue, the bytes the kernel took on this connection, and the payloads accepted for it. */
  datatype Pipe = Pipe(connected: bool, queue: seq<bytes>, wire: bytes, accepted: bytes)

  datatype Sent = Sent(pipe: Pipe, ok: bool)

  /** send(): a direct write if nothing is queued, the rest behind what is. */
  function SendTo(p: Pipe, data: bytes, k: Kernel): Sent {
    if !p.connected then Sent(p, false)
    else if p.queue != [] then Sent(p.(queue := p.queue + [data], accepted := p.accepted + data), true)
    else if k == Fatal then Sent(p, false)
    else
      var n := if k.Took? then Min(k.n, |data|) else 0;
      Sent(Pipe(true, if n < |data| then [data[n..]] else [], p.wire + data[..n], p.accepted + data), true)
  }

  /** handle_send(): offers the front of the queue until it is empty, refused or partly taken. */
  function Flush(p: Pipe, ks: seq<Kernel>): Sent
    decreases |ks|
  {
    if p.queue == [] then Sent(p, true)
    else if ks == [] then Sent(p, true)
    else
      var front := p.queue[0];
      match ks[0]
      case WouldBlock => Sent(p, true)
      case Fatal => Sent(p, false)
      case Interrupted => Flush(p, ks[1..])
      case Took(n) =>
        if n < |front| then Sent(p.(queue := [front[n..]] + p.queue[1..], wire := p.wire + front[..n]), true)
        else Flush(p.(queue := p.queue[1..], wire := p.wire + front), ks[1..])
  }

  datatype Use = Payload(data: bytes, k: Kernel) | Writable(ks: seq<Kernel>) | Adopt | Close

  /** Adopting a connection starts afresh; closing one drops whatever is still queued, accepted as it was. */
  function Apply(p: Pipe, u: Use): Pipe {
    match u
    case Payload(data, k) => SendTo(p, data, k).pipe
    case Writable(ks) => if p.connected then Flush(p, ks).pipe else p
    case Adopt => Pipe(true, [], [], [])
    case Close => Pipe(false, [], p.wire, p.accepted)
  }

  function ApplyAll(p: Pipe, us: seq<Use>): Pipe {
    if us == [] then p else Apply(ApplyAll(p, us[..|us| - 1]), us[|us| - 1])
  }

  /** Bytes taken by the kernel followed by the bytes queued are the payloads accepted. */
  predicate Conserved(p: Pipe) {
    p.wire + Flatten(p.queue) == p.accepted
  }

  lemma SendConserves(p: Pipe, data: bytes, k: Kernel)
    requires Conserved(p)
    ensures Conserved(SendTo(p, data, k).pipe)
  {
    FlattenSnoc(p.queue, data);
    if p.connected && p.queue == [] && k != Fatal {
      var n := if k.Took? then Min(k.n, |data|) else 0;
      FlattenSnoc([], data[n..]);
      assert [] + [data[n..]] == [data[n..]];
      assert data == data[..n] + data[n..];
      assert p.wire + [] == p.wire;
      assert n == |data| ==> data[n..] == [];
    }
  }

  lemma {:induction false} FlushConserves(p: Pipe, ks: seq<Kernel>)
    requires Conserved(p)
    ensures Conserved(Flush(p, ks).pipe) && p.wire <= Flush(p, ks).pipe.wire
    ensures Flush(p, ks).pipe.accepted == p.accepted && Flush(p, ks).pipe.connected == p.connected
    decreases |ks|
  {
    if p.queue != [] && ks != [] {
      var front, rest := p.queue[0], p.queue[1..];
      match ks[0]
      case Interrupted => FlushConserves(p, ks[1..]);
      case Took(n) =>
        if n < |front| {
          assert ([front[n..]] + rest)[1..] == rest;
          assert front == front[..n] + front[n..];
        } else {
          FlushConserves(p.(queue := rest, wire := p.wire + front), ks[1..]);
        }
      case _ =>
    }
  }

  /** Accounts that hold of a connection while it is up, and after it was closed. */
  predicate Accounted(p: Pipe) {
    p.wire <= p.accepted && (p.connected ==> Conserved(p)) && (!p.connected ==> p.queue == [])
  }

  /**
   No byte is repeated or reordered, and none lost while the connection is up: in every run the bytes the kernel took
   are a prefix of the payloads accepted for the connection; while it is up the rest is exactly what is queued; what a
   close loses is exactly what was queued then.
   */
  lemma {:induction false} WireIsPrefix(us: seq<Use>)
    ensures
      var p := ApplyAll(Pipe(false, [], [], []), us);
      && p.wire <= p.accepted && (p.connected ==> p.wire + Flatten(p.queue) == p.accepted)
      && (p.connected ==> Apply(p, Close).accepted == Apply(p, Close).wire + Flatten(p.queue))
  {
    hide Apply, Flatten;
    if us != [] {
      var before := ApplyAll(Pipe(false, [], [], []), us[..|us| - 1]);
      WireAccounted(us[..|us| - 1]);
      UseAccounted(before, us[|us| - 1]);
    }
    ClosedAccounts(ApplyAll(Pipe(false, [], [], []), us));
  }

  lemma {:induction false} WireAccounted(us: seq<Use>)
    ensures Accounted(ApplyAll(Pipe(false, [], [], []), us))
  {
    hide Apply, Flatten;
    if us != [] {
      WireAccounted(us[..|us| - 1]);
      UseAccounted(ApplyAll(Pipe(false, [], [], []), us[..|us| - 1]), us[|us| - 1]);
    }
  }

  lemma ClosedAccounts(p: Pipe)
    ensures Apply(p, Close).accepted == p.accepted && Apply(p, Close).wire == p.wire
  {
  }

  lemma {:induction false} UseAccounted(p: Pipe, u: Use)
    requires Accounted(p)
    ensures Accounted(Apply(p, u))
  {
    hide Flatten, Flush;
    assert Flatten([]) == [] by { FlattenNothing(); }
    match u
    case Payload(data, k) => if p.connected { SendConserves(p, data, k); }
    case Writable(ks) => if p.connected { FlushConserves(p, ks); }
    case Adopt =>
    case Close =>
  }

  lemma FlattenNothing()
    ensures Flatten([]) == []
  {
  }

  // ---------------------------------------------------------------------
  // The transport object
  // ---------------------------------------------------------------------

  class TcpTransport {
    var connected: bool
    var queue: seq<bytes>
    var wire: bytes
    ghost var accepted: bytes

    ghost function View(): Pipe
      reads this
    {
      Pipe(connected, queue, wire, accepted)
    }

    constructor ()
      ensures View() == Pipe(false, [], [], [])
    {
      connected, queue, wire, accepted := false, [], [], [];
    }

    /** Interrupted direct writes are repeated: `k` is the answer that ends the loop. */
    method Send(data: bytes, k: Kernel) returns (ok: bool)
      modifies this
      ensures Sent(View(), ok) == SendTo(old(View()), data, k)
    {
      if !connected { return false; }
      if queue == [] {
        if k == Fatal { return false; }
        var n := if k.Took? then Min(k.n, |data|) else 0;
        wire := wire + data[..n];
        if n < |data| { queue := queue + [data[n..]]; }
      } else {
        queue := queue + [data];
      }
      accepted := accepted + data;
      ok := true;
    }

    method HandleSend(answers: seq<Kernel>) returns (ok: bool)
      modifies this
      ensures Sent(View(), ok) == Flush(old(View()), answers)
    {
      var i := 0;
      while queue != [] && i < |answers|
        invariant i <= |answers|
        invariant Flush(View(), answers[i..]) == Flush(old(View()), answers)
        decreases |answers| - i
      {
        var front := queue[0];
        assert answers[i..][0] == answers[i] && answers[i..][1..] == answers[i + 1..];
        match answers[i] {
          case WouldBlock => return true;
          case Fatal => return false;
          case Interrupted =>
          case Took(n) =>
            if n < |front| {
              wire := wire + front[..n];
              queue := [front[n..]] + queue[1..];
              return true;
            }
            wire := wire + front;
            queue := queue[1..];
        }
        i := i + 1;
      }
      ok := true;
    }

    method AdoptConnection()
      modifies this
      ensures View() == Apply(old(View()), Adopt)
    {
      connected, queue, wire, accepted := true, [], [], [];
    }

    method CloseConnection()
      modifies this
      ensures View() == Apply(old(View()), Close)
    {
      connected, queue := false, [];
    }
  }
}
