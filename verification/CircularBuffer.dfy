/**
 The circular buffer itself (aesd-circular-buffer.c): an object over an entry array that
 is updated in place.
 */
module CircularBuffers {
  import opened Addresses
  import opened Streams
  import opened Rings

  class CircularBuffer {
    const entry: array<Entry>
    var inOffs: uint8
    var outOffs: uint8
    var full: bool

    ghost function State(): Ring
      reads this, entry
    {
      Ring(entry[..], inOffs, outOffs, full)
    }

    ghost predicate Valid()
      reads this, entry
    {
      State().Valid()
    }

    ghost function Contents(): seq<Entry>
      reads this, entry
      requires Valid()
    {
      State().Contents()
    }

    constructor (capacity: nat)
      requires 1 <= capacity <= 255
      ensures Valid() && fresh(entry) && entry.Length == capacity
      ensures Contents() == [] && !full
    {
      entry := new Entry[capacity](_ => Entry(NULL, 0));
      inOffs, outOffs, full := 0, 0, false;
      new;
      Init();
    }

    /** Clears every slot and both offsets. */
    method Init()
      requires 1 <= entry.Length <= 255
      modifies this, entry
      ensures Valid() && Contents() == [] && !full
      ensures forall i :: 0 <= i < entry.Length ==> entry[i] == Entry(NULL, 0)
    {
      for i := 0 to entry.Length
        invariant forall j :: 0 <= j < i ==> entry[j] == Entry(NULL, 0)
      {
        entry[i] := Entry(NULL, 0);
      }
      inOffs := 0;
      outOffs := 0;
      full := false;
      CountCases(State());
    }

    /** The number of occupied slots. */
    method EntryCount() returns (n: nat)
      requires Valid()
      ensures n == |Contents()|
    {
      if full {
        n := entry.Length;
      } else {
        n := (inOffs - outOffs + entry.Length) % entry.Length;
      }
    }

    /** Adds an entry, overwriting the oldest one when the buffer is full. */
    method AddEntry(e: Entry)
      requires Valid()
      modifies this, entry
      ensures Valid()
      ensures State() == Added(old(State()), e)
      ensures Contents() == Push(old(Contents()), e, entry.Length)
    {
      AddedContents(State(), e);
      entry[inOffs] := e;
      inOffs := (inOffs + 1) % entry.Length;
      if full {
        outOffs := (outOffs + 1) % entry.Length;
      } else {
        if inOffs == outOffs {
          full := true;
        }
      }
      assert entry[..] == old(entry[..])[old(inOffs) := e];
    }

    /**
     Finds the slot that holds stream position `charOffset`. The byte offset within the
     entry is `rtnIn`, the caller's old value, when there is none.
     */
    method FindEntryOffsetForFpos(charOffset: nat, rtnIn: nat)
      returns (slot: Option<nat>, rtn: nat)
      requires Valid()
      ensures slot.None? <==> Sum(EntrySizes(Contents())) <= charOffset
      ensures slot.None? <==> Locate(EntrySizes(Contents()), charOffset).None?
      ensures slot.None? ==> rtn == rtnIn
      ensures slot.Some? ==>
                var p := Locate(EntrySizes(Contents()), charOffset).value;
                && p.index < |Contents()| && rtn == p.byte
                && slot.value == State().Slot(p.index) && entry[slot.value] == Contents()[p.index]
    {
      slot, rtn := None, rtnIn;
      var out := outOffs;
      var poff := 0;
      var nEntries := EntryCount();
      ghost var sizes := EntrySizes(Contents());
      LocateInverse(sizes, charOffset);
      assert sizes[..|sizes|] == sizes;
      for i := 0 to nEntries
        invariant |sizes| == nEntries <= entry.Length
        invariant out == State().Slot(i)
        invariant poff == Sum(sizes[..i]) <= charOffset
        invariant slot.None? && rtn == rtnIn
      {
        SearchStep(sizes, i, charOffset);
        if poff + entry[out].size <= charOffset {
          poff := poff + entry[out].size;
        } else {
          rtn := charOffset - poff;
          slot := Some(out);
          return;
        }
        NextSlot(State(), i);
        out := (out + 1) % entry.Length;
      }
    }

    /** The sizes of the `k` oldest entries added up, and the slot after them (main.c's loop). */
    method SizeOfOldest(k: nat) returns (sum: nat, out: nat)
      requires Valid() && k <= |Contents()|
      ensures sum == Sum(EntrySizes(Contents())[..k])
      ensures out == State().Slot(k)
      ensures k < |Contents()| ==> out < entry.Length && entry[out] == Contents()[k]
    {
      ghost var sizes := EntrySizes(Contents());
      sum, out := 0, outOffs;
      for i := 0 to k
        invariant |sizes| == |Contents()| && out == State().Slot(i)
        invariant sum == Sum(sizes[..i])
      {
        SumPrefix(sizes, i);
        sum := sum + entry[out].size;
        NextSlot(State(), i);
        out := (out + 1) % entry.Length;
      }
    }
  }
}
