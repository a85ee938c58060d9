/** The kernel heap the driver allocates from, and the record of what it did there. */
module KernelHeaps {
  import opened Addresses
  import opened Streams
  import opened DriverStates

  datatype HeapEvent = Alloc(p: nat) | Free(p: nat)

  /**
   The live addresses after a record of events, or None when some event was wrong: an
   address handed out while live, or freed while not live.
   */
  function Replay(log: seq<HeapEvent>): Option<set<nat>> {
    if log == [] then Some({})
    else
      match Replay(log[..|log| - 1])
      case None => None
      case Some(live) =>
        match log[|log| - 1]
        case Alloc(p) => if p in live then None else Some(live + {p})
        case Free(p) => if p in live then Some(live - {p}) else None
  }

  lemma ReplayPush(log: seq<HeapEvent>, e: HeapEvent)
    ensures Replay(log).Some? && (if e.Alloc? then e.p !in Replay(log).value else e.p in Replay(log).value) ==>
              Replay(log + [e]) == Some(if e.Alloc? then Replay(log).value + {e.p} else Replay(log).value - {e.p})
  {
    assert (log + [e])[..|log|] == log;
  }

  /** After every event so far, the address was allocated as often as freed, or once more and then it is live. */
  ghost predicate Balanced(log: seq<HeapEvent>) {
    forall k, p :: 0 <= k <= |log| && 0 <= p ==> BalancedAt(log[..k], p)
  }

  predicate BalancedAt(log: seq<HeapEvent>, p: nat) {
    multiset(log)[Free(p)] <= multiset(log)[Alloc(p)] <= multiset(log)[Free(p)] + 1
  }

  /** A record is right exactly when it is balanced, and live is what was allocated once more than freed. */
  lemma {:induction false} ReplayIff(log: seq<HeapEvent>)
    ensures Replay(log).Some? <==> Balanced(log)
    ensures Replay(log).Some? ==>
              forall p: nat :: multiset(log)[Alloc(p)] == multiset(log)[Free(p)] + if p in Replay(log).value then 1 else 0
  {
    if log == [] {
      return;
    }
    var k := |log| - 1;
    var front, e := log[..k], log[k];
    ReplayIff(front);
    assert log == front + [e];
    BalancedPush(front, e);
    hide Balanced, BalancedAt;
    if Replay(front).Some? {
      EventCounts(front, e, Replay(front).value);
    }
  }

  /** One more event keeps the balance exactly when it is right. */
  lemma EventCounts(log: seq<HeapEvent>, e: HeapEvent, live: set<nat>)
    requires forall p: nat :: multiset(log)[Alloc(p)] == multiset(log)[Free(p)] + if p in live then 1 else 0
    ensures (forall p: nat :: BalancedAt(log + [e], p)) <==> (e.Alloc? <==> e.p !in live)
    ensures (e.Alloc? <==> e.p !in live) ==>
              var live' := if e.Alloc? then live + {e.p} else live - {e.p};
              forall p: nat ::
                multiset(log + [e])[Alloc(p)] == multiset(log + [e])[Free(p)] + if p in live' then 1 else 0
  {
    assert multiset(log + [e]) == multiset(log) + multiset{e};
    if forall p: nat :: BalancedAt(log + [e], p) {
      assert BalancedAt(log + [e], e.p);
    }
  }

  lemma BalancedPush(log: seq<HeapEvent>, e: HeapEvent)
    ensures Balanced(log + [e]) <==> Balanced(log) && forall p: nat :: BalancedAt(log + [e], p)
  {
    var all := log + [e];
    assert all[..|all|] == all;
    assert forall k :: 0 <= k <= |log| ==> all[..k] == log[..k];
    if Balanced(log) && forall p: nat :: BalancedAt(all, p) {
      forall k, p | 0 <= k <= |all| && 0 <= p ensures BalancedAt(all[..k], p) {
        if k <= |log| {
          assert BalancedAt(log[..k], p);
        }
      }
    }
    if Balanced(all) {
      assert forall p: nat :: BalancedAt(all[..|all|], p);
      forall k, p | 0 <= k <= |log| && 0 <= p ensures BalancedAt(log[..k], p) {
        assert BalancedAt(all[..k], p);
      }
    }
  }

  lemma SomeFreeAddress(used: set<nat>) returns (p: nat)
    ensures p != NULL && p !in used
  {
    p := 1;
    var rest := used;
    while rest != {}
      invariant p != NULL
      invariant forall q :: q in used && q !in rest ==> q < p
      decreases rest
    {
      var q :| q in rest;
      rest := rest - {q};
      if p <= q { p := q + 1; }
    }
  }

  /** `block` with `src` written over it from `at` on. */
  function Overwritten(block: string, at: nat, src: string): (b: string)
    requires at + |src| <= |block|
    ensures |b| == |block|
  {
    block[..at] + src + block[at + |src|..]
  }

  lemma FilledTwice(garbage: string, a: string, b: string)
    requires |garbage| == |a| + |b| + 1
    ensures Overwritten(Overwritten(garbage, 0, a), |a|, b)[..|a| + |b|] == a + b
    ensures Overwritten(garbage, 0, a)[..|a|] == a
  {
  }

  class KernelHeap {
    var blocks: Blocks
    ghost var log: seq<HeapEvent>

    /** Nothing was ever freed twice or handed out twice, and the live blocks are the mapped ones. */
    ghost predicate Valid()
      reads this
    {
      NULL !in blocks && Replay(log) == Some(blocks.Keys)
    }

    constructor ()
      ensures Valid() && blocks == map[] && log == []
    {
      blocks := map[];
      log := [];
      new;
      assert blocks.Keys == {};
    }

    /** Allocates `size` bytes of arbitrary content at any free address, or fails when `ok` says so. */
    method Kmalloc(size: nat, ok: bool) returns (p: nat)
      requires Valid()
      modifies this
      ensures Valid()
      ensures !ok ==> p == NULL && blocks == old(blocks) && log == old(log)
      ensures ok ==>
                && p != NULL && p !in old(blocks)
                && p in blocks && |blocks[p]| == size && blocks == old(blocks)[p := blocks[p]]
                && log == old(log) + [Alloc(p)]
    {
      if !ok {
        return NULL;
      }
      ghost var free := SomeFreeAddress(blocks.Keys);
      p :| p != NULL && p !in blocks;
      assert |seq(size, _ => '\0')| == size;
      var garbage: string :| |garbage| == size;
      ReplayPush(log, Alloc(p));
      blocks := blocks[p := garbage];
      assert blocks.Keys == old(blocks).Keys + {p};
      log := log + [Alloc(p)];
    }

    /** Overwrites part of a live block. */
    method Memcpy(p: nat, at: nat, src: string)
      requires Valid() && p in blocks && at + |src| <= |blocks[p]|
      modifies this`blocks
      ensures Valid()
      ensures blocks == old(blocks)[p := Overwritten(old(blocks[p]), at, src)]
    {
      blocks := blocks[p := Overwritten(blocks[p], at, src)];
      assert blocks.Keys == old(blocks).Keys;
    }

    /** Frees a live block. */
    method Kfree(p: nat)
      requires Valid() && p in blocks
      modifies this
      ensures Valid()
      ensures blocks == old(blocks) - {p}
      ensures log == old(log) + [Free(p)]
    {
      ReplayPush(log, Free(p));
      blocks := blocks - {p};
      assert blocks.Keys == old(blocks).Keys - {p};
      log := log + [Free(p)];
    }
  }
}
