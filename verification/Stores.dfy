/**
 What a message store promises, and the in-memory store that is its reference implementation.
 */
module Stores {
  import opened Bytes

  datatype StoredFrame = StoredFrame(seqNum: nat, wire: bytes)

  // ---------------------------------------------------------------------
  // Ranged reads of a map
  // ---------------------------------------------------------------------

  lemma {:induction false} HasMax(keys: set<nat>)
    requires keys != {}
    ensures exists x :: x in keys && forall y :: y in keys ==> y <= x
  {
    var x :| x in keys;
    var rest := keys - {x};
    if rest != {} {
      HasMax(rest);
      var z :| z in rest && forall y :: y in rest ==> y <= z;
      assert forall y :: y in keys ==> y in rest || y == x;
      var top := if x <= z then z else x;
      assert top in keys;
    } else {
      assert keys == {x};
    }
  }

  /** The largest key, 0 if there is none. */
  function MaxKey(keys: set<nat>): (k: nat)
    ensures forall i :: i in keys ==> i <= k
    ensures keys != {} ==> k in keys
  {
    if keys == {} then 0
    else
      HasMax(keys);
      var x :| x in keys && forall y :: y in keys ==> y <= x;
      x
  }

  /** Stored frames with numbers from `lo` to `hi`, ascending. */
  function Ascending(m: map<nat, bytes>, lo: nat, hi: nat): seq<StoredFrame>
    decreases hi - lo
  {
    if lo > hi then []
    else (if lo in m then [StoredFrame(lo, m[lo])] else []) + Ascending(m, lo + 1, hi)
  }

  /** A ranged read; an end of 0 means up to the last frame stored. */
  function Snapshot(m: map<nat, bytes>, begin: nat, end: nat): seq<StoredFrame> {
    Ascending(m, begin, if end == 0 then MaxKey(m.Keys) else end)
  }

  lemma {:induction false} AscendingSkip(m: map<nat, bytes>, lo: nat, mid: nat, hi: nat)
    requires lo <= mid && forall k :: lo <= k < mid ==> k !in m
    ensures Ascending(m, lo, hi) == Ascending(m, mid, hi)
    decreases mid - lo
  {
    if lo < mid && lo <= hi { AscendingSkip(m, lo + 1, mid, hi); }
  }

  lemma AscendingFirst(m: map<nat, bytes>, lo: nat, hi: nat)
    requires lo <= hi && lo in m
    ensures Ascending(m, lo, hi) == [StoredFrame(lo, m[lo])] + Ascending(m, lo + 1, hi)
  {
  }

  lemma {:induction false} AscendingEmpty(m: map<nat, bytes>, lo: nat, hi: nat)
    requires forall k :: lo <= k <= hi ==> k !in m
    ensures Ascending(m, lo, hi) == []
  {
    AscendingSkip(m, lo, Max(lo, hi + 1), hi);
  }

  lemma {:induction false} MinExists(keys: set<nat>, from: nat, x: nat)
    requires x in keys && x >= from
    ensures exists k :: k in keys && k >= from && forall y :: y in keys && y >= from ==> k <= y
    decreases x
  {
    if y :| y in keys && from <= y < x { MinExists(keys, from, y); }
  }

  /** std::map::lower_bound: the least key at or above `from`. */
  function LowerBound(keys: set<nat>, from: nat): (r: Option<nat>)
    ensures r.Some? ==> r.value in keys && r.value >= from && forall y :: y in keys && y >= from ==> r.value <= y
    ensures r.None? ==> forall y :: y in keys ==> y < from
  {
    if x :| x in keys && x >= from then
      MinExists(keys, from, x);
      var k :| k in keys && k >= from && forall y :: y in keys && y >= from ==> k <= y;
      Some(k)
    else None
  }

  /** Where a maximum update to `n` ends, given the values seen before it wins. */
  function Settled(seen: nat, n: nat, later: seq<nat>): nat
    decreases |later|
  {
    if seen >= n then seen else if later == [] then n else Settled(later[0], n, later[1..])
  }

  /** It is at least `n`, a value seen or `n` itself, and without interference the larger of the two. */
  lemma {:induction false} SettledMeans(seen: nat, n: nat, later: seq<nat>)
    ensures
      var r := Settled(seen, n, later);
      r >= n && (r == n || r == seen || r in later) && (later == [] ==> r == Max(seen, n))
    decreases |later|
  {
    if seen < n && later != [] { SettledMeans(later[0], n, later[1..]); }
  }

  // ---------------------------------------------------------------------
  // The in-memory store
  // ---------------------------------------------------------------------

  class MemoryStore {
    var nextSender: nat
    var nextTarget: nat
    var outbound: map<nat, bytes>
    var inbound: map<nat, bytes>

    constructor ()
      ensures nextSender == 1 && nextTarget == 1 && outbound == map[] && inbound == map[]
    {
      nextSender, nextTarget, outbound, inbound := 1, 1, map[], map[];
    }

    /** fetch_add: the number claimed is the one before the increment; the counter is 64 bits wide. */
    method Claim() returns (claimed: nat)
      modifies this`nextSender
      ensures claimed == old(nextSender) && nextSender == (claimed + 1) % TWO64
    {
      claimed := nextSender;
      nextSender := (nextSender + 1) % TWO64;
    }

    /**
     The compare-and-swap maximum. `interference` are the values other threads store between our load and our
     exchange, one per failed attempt. The counter ends at the first value seen that is at least `n`, else at `n`.
     */
    method AdvanceTarget(n: nat, interference: seq<nat>)
      modifies this`nextTarget
      ensures nextTarget == Settled(old(nextTarget), n, interference)
    {
      var cur := nextTarget;
      var left := interference;
      var done := false;
      while cur < n && !done
        invariant nextTarget == if done then n else cur
        invariant done ==> Settled(old(nextTarget), n, interference) == n
        invariant !done ==> Settled(old(nextTarget), n, interference) == Settled(cur, n, left)
        decreases |left|, !done
      {
        if left != [] {
          nextTarget := left[0];
          left := left[1..];
          cur := nextTarget;
        } else {
          nextTarget := n;
          done := true;
        }
      }
    }

    method StoreOutbound(seqNum: nat, raw: bytes)
      modifies this`outbound
      ensures outbound == old(outbound)[seqNum := raw]
    {
      outbound := outbound[seqNum := raw];
    }

    method StoreInbound(seqNum: nat, raw: bytes)
      modifies this`inbound
      ensures inbound == old(inbound)[seqNum := raw]
    {
      inbound := inbound[seqNum := raw];
    }

    /** Walks the map from the lower bound of `begin`. */
    method GetMessages(begin: nat, end: nat) returns (frames: seq<StoredFrame>)
      ensures frames == Snapshot(outbound, begin, end)
    {
      hide Ascending;
      var it := LowerBound(outbound.Keys, begin);
      var last := if end == 0 then MaxKey(outbound.Keys) else end;
      frames := [];
      ghost var at: nat := begin;
      while it.Some? && it.value <= last
        invariant it == LowerBound(outbound.Keys, at)
        invariant Snapshot(outbound, begin, end) == frames + Ascending(outbound, at, last)
        decreases if it.Some? then last - it.value else -1, it.Some?
      {
        AscendingSkip(outbound, at, it.value, last);
        AscendingFirst(outbound, it.value, last);
        Associates(frames, [StoredFrame(it.value, outbound[it.value])], Ascending(outbound, it.value + 1, last));
        frames := frames + [StoredFrame(it.value, outbound[it.value])];
        at := it.value + 1;
        it := LowerBound(outbound.Keys, it.value + 1);
      }
      AscendingEmpty(outbound, at, last);
    }

    method Reset()
      modifies this
      ensures nextSender == 1 && nextTarget == 1 && outbound == map[] && inbound == map[]
    {
      nextSender, nextTarget, outbound, inbound := 1, 1, map[], map[];
    }
  }
}
