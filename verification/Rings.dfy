/**
 The value of the driver's circular buffer: a fixed array of entries with its two
 offsets and the `full` flag, and what those mean as a list of entries, oldest first.
 */
module Rings {
  type uint8 = i: int | 0 <= i < 256

  /** A heap address and the number of command bytes stored there. Address 0 is NULL. */
  datatype Entry = Entry(buffptr: nat, size: nat)

  /** Slot `i` places after `out` in an array of `n`. */
  function SlotOf(out: nat, i: nat, n: nat): (s: nat)
    requires out < n && i <= n
    ensures s < n
  {
    if out + i < n then out + i else out + i - n
  }

  datatype Ring = Ring(entry: seq<Entry>, inOffs: uint8, outOffs: uint8, full: bool) {
    predicate Valid() {
      && 1 <= |entry| <= 255
      && inOffs < |entry|
      && outOffs < |entry|
      && (full ==> inOffs == outOffs)
    }

    /** Number of occupied slots, as the driver computes it in four places. */
    function Count(): (n: nat)
      requires Valid()
      ensures n <= |entry|
    {
      if full then |entry| else (inOffs - outOffs + |entry|) % |entry|
    }

    /** The slot of the `i`-th oldest entry. */
    function Slot(i: nat): (s: nat)
      requires Valid() && i <= |entry|
      ensures s < |entry|
    {
      SlotOf(outOffs, i, |entry|)
    }

    /** The occupied entries, oldest first. */
    function Contents(): (c: seq<Entry>)
      requires Valid()
      ensures |c| == Count()
    {
      seq(Count(), i requires 0 <= i < Count() => entry[Slot(i)])
    }
  }

  lemma SmallMod(x: nat, n: nat)
    requires 0 < n && x <= 2 * n
    ensures x % n == if x < n then x else if x < 2 * n then x - n else 0
  {
    if x < n {
    } else if x < 2 * n {
      assert x == n + (x - n);
    } else {
      assert x == 2 * n;
    }
  }

  /** Stepping round the array with the modulus follows the slots, which are all different. */
  lemma NextSlotOf(out: nat, i: nat, n: nat)
    requires out < n && i < n
    ensures (SlotOf(out, i, n) + 1) % n == SlotOf(out, i + 1, n)
    ensures forall j :: i < j < n ==> SlotOf(out, j, n) != SlotOf(out, i, n)
  {
    SmallMod(SlotOf(out, i, n) + 1, n);
  }

  lemma NextSlot(r: Ring, i: nat)
    requires r.Valid() && i < |r.entry|
    ensures (r.Slot(i) + 1) % |r.entry| == r.Slot(i + 1)
    ensures r.Slot(0) == r.outOffs
  {
    NextSlotOf(r.outOffs, i, |r.entry|);
  }

  /** How many slots are occupied, without the modulus. */
  lemma CountCases(r: Ring)
    requires r.Valid()
    ensures r.Count() == if r.full then |r.entry|
                         else if r.inOffs < r.outOffs then r.inOffs - r.outOffs + |r.entry|
                         else r.inOffs - r.outOffs
  {
    SmallMod(r.inOffs - r.outOffs + |r.entry|, |r.entry|);
  }

  /** The entry list after one more entry on a ring of `n` slots: the oldest gives way when full. */
  function Push<T>(contents: seq<T>, e: T, n: nat): seq<T>
    requires 0 < n
  {
    (if |contents| < n then contents else contents[1..]) + [e]
  }

  /** The ring value the driver's add operation leaves. */
  function Added(r: Ring, e: Entry): Ring
    requires r.Valid()
  {
    var inOffs := (r.inOffs + 1) % |r.entry|;
    if r.full then
      Ring(r.entry[r.inOffs := e], inOffs, (r.outOffs + 1) % |r.entry|, true)
    else
      Ring(r.entry[r.inOffs := e], inOffs, r.outOffs, inOffs == r.outOffs)
  }

  /** Adding keeps the ring valid and appends, dropping the oldest entry exactly when full. */
  lemma AddedContents(r: Ring, e: Entry)
    requires r.Valid()
    ensures Added(r, e).Valid()
    ensures Added(r, e).Contents() == Push(r.Contents(), e, |r.entry|)
    ensures r.full <==> |r.Contents()| == |r.entry|
    ensures r.full ==> r.entry[r.inOffs] == r.Contents()[0]
  {
    var n := |r.entry|;
    var a := Added(r, e);
    SmallMod(r.inOffs + 1, n);
    SmallMod(r.outOffs + 1, n);
    CountCases(r);
    CountCases(a);
    var c, p := a.Contents(), Push(r.Contents(), e, n);
    assert |c| == |p|;
    forall i | 0 <= i < |c| ensures c[i] == p[i] {
    }
  }

  function EntrySizes(entries: seq<Entry>): (s: seq<nat>)
    ensures |s| == |entries|
    ensures forall i :: 0 <= i < |s| ==> s[i] == entries[i].size
  {
    seq(|entries|, i requires 0 <= i < |entries| => entries[i].size)
  }
}
