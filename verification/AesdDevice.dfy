/** The character driver (main.c): its file operations over the ring, the pending buffer and the heap. */
module AesdDevices {
  import opened Addresses
  import opened Streams
  import opened Rings
  import opened CircularBuffers
  import opened DeviceSpec
  import opened DriverStates
  import opened KernelHeaps

  /** An open file. */
  class File {
    var fPos: nat

    constructor ()
      ensures fPos == 0
    {
      fPos := 0;
    }
  }

  /** Copies to the user buffer until it cannot be written any further; returns what was left over. */
  method CopyToUser(to: array<char>, at: nat, src: string) returns (notCopied: nat)
    requires at <= to.Length
    modifies to
    ensures notCopied == |src| - Min(|src|, to.Length - at)
    ensures forall j :: at <= j < at + |src| - notCopied ==> to[j] == src[j - at]
    ensures forall j :: 0 <= j < at || at + |src| - notCopied <= j < to.Length ==> to[j] == old(to[j])
  {
    var i := 0;
    while i < |src| && at + i < to.Length
      invariant i <= |src| && at + i <= to.Length
      invariant forall j :: at <= j < at + i ==> to[j] == src[j - at]
      invariant forall j :: 0 <= j < at || at + i <= j < to.Length ==> to[j] == old(to[j])
    {
      to[at + i] := src[i];
      i := i + 1;
    }
    notCopied := |src| - i;
  }

  /** The first bytes of `buf` are those of `data`. */
  ghost predicate StartsWith(buf: array<char>, data: string)
    reads buf
  {
    |data| <= buf.Length && forall j :: 0 <= j < |data| ==> buf[j] == data[j]
  }

  /** From byte `from` on, `buf` is what it was. */
  twostate predicate SameFrom(buf: array<char>, from: nat)
    reads buf
  {
    forall j :: from <= j < buf.Length ==> buf[j] == old(buf[j])
  }

  class AesdDevice {
    const data: CircularBuffer
    const heap: KernelHeap
    var tmpData: nat
    var tmpDataSize: nat
    /** The device this driver stands for, with every command committed so far. */
    ghost var dev: Device

    ghost function State(): DriverState
      reads this, data, data.entry, heap
    {
      DriverState(data.State(), Entry(tmpData, tmpDataSize), heap.blocks)
    }

    ghost function Capacity(): nat
    {
      data.entry.Length
    }

    ghost predicate Valid()
      reads this, data, data.entry, heap
    {
      heap.Valid() && State().Shows(dev)
    }

    /** Loading the module: everything zeroed, the ring initialised, nothing pending. */
    constructor (capacity: nat)
      requires 1 <= capacity <= 255
      ensures Valid() && Capacity() == capacity
      ensures fresh(data) && fresh(data.entry) && fresh(heap)
      ensures dev == Device([], "") && heap.log == []
    {
      data := new CircularBuffer(capacity);
      heap := new KernelHeap();
      tmpData, tmpDataSize := NULL, 0;
      dev := Device([], "");
      new;
      assert State().Buffers() == [];
      assert State().Commands() == [];
    }

    /** A fresh buffer holding the pending bytes and then `buf`; NULL when there is no memory. */
    method JoinedBuffer(buf: string, allocOk: bool) returns (kmem: nat)
      requires Valid()
      modifies heap
      ensures heap.Valid() && (kmem != NULL <==> allocOk)
      ensures !allocOk ==> heap.blocks == old(heap.blocks) && heap.log == old(heap.log)
      ensures allocOk ==>
                && kmem !in old(heap.blocks) && kmem in heap.blocks
                && heap.blocks == old(heap.blocks)[kmem := heap.blocks[kmem]]
                && |heap.blocks[kmem]| == |dev.pending| + |buf| + 1
                && heap.blocks[kmem][..|dev.pending| + |buf|] == dev.pending + buf
                && heap.log == old(heap.log) + [Alloc(kmem)]
    {
      ghost var blocks := heap.blocks;
      PendingBytes();
      hide AesdDevice.Valid, DriverState.Shows, Overwritten;
      kmem := heap.Kmalloc(tmpDataSize + |buf| + 1, allocOk);
      if kmem == NULL {
        return;
      }
      FilledTwice(heap.blocks[kmem], dev.pending, buf);
      if tmpDataSize != 0 {
        heap.Memcpy(kmem, 0, heap.blocks[tmpData][..tmpDataSize]);
      }
      heap.Memcpy(kmem, tmpDataSize, buf);
      SameButOne(blocks, heap.blocks, kmem);
    }

    /** The pending buffer's bytes are those of the device's unfinished command. */
    lemma PendingBytes()
      requires Valid()
      ensures tmpDataSize == |dev.pending|
      ensures tmpDataSize != 0 ==>
                && tmpData in heap.blocks && tmpDataSize <= |heap.blocks[tmpData]|
                && heap.blocks[tmpData][..tmpDataSize] == dev.pending
    {
      if tmpDataSize != 0 {
        PendingStored(State());
      }
    }

    /**
     Makes the joined buffer the pending one and frees the old. Fails, changing nothing,
     when there is no memory.
     */
    method Accumulate(buf: string, allocOk: bool) returns (ok: bool)
      requires Valid() && buf != ""
      modifies this, heap
      ensures Valid() && ok == allocOk
      ensures !ok ==> State() == old(State()) && dev == old(dev) && heap.log == old(heap.log)
      ensures ok ==> dev == Device(old(dev).history, old(dev).pending + buf)
      ensures ok ==>
                heap.log == old(heap.log) + [Alloc(tmpData)] +
                            (if old(tmpDataSize) != 0 then [Free(old(tmpData))] else [])
    {
      ghost var s, d := State(), dev;
      var kmem := JoinedBuffer(buf, allocOk);
      if kmem == NULL {
        return false;
      }
      ghost var text := heap.blocks[kmem];
      ghost var s' := DriverState(s.ring, Entry(kmem, |text| - 1), Regrown(s, kmem, text));
      GrowPending(s, d, buf, kmem, text);
      if tmpDataSize != 0 {
        PendingStored(s);
        heap.Kfree(tmpData);
      }
      tmpData := kmem;
      tmpDataSize := tmpDataSize + |buf|;
      dev := Device(d.history, d.pending + buf);
      assert State() == s';
      ok := true;
    }

    /** Hands the pending buffer to the ring as the newest entry, freeing the oldest when full. */
    method Commit()
      requires Valid() && dev.pending != ""
      modifies this, data, data.entry, heap
      ensures Valid()
      ensures dev == Device(old(dev).history + [old(dev).pending], "")
      ensures heap.log == old(heap.log) +
                          (if old(data.full) then [Free(old(data.Contents()[0].buffptr))] else [])
    {
      ghost var s, d := State(), dev;
      CommitPending(s, d);
      var tentry := Entry(tmpData, tmpDataSize);
      tmpData := NULL;
      tmpDataSize := 0;
      if data.full {
        OldestStored(s);
        if data.entry[data.inOffs].buffptr != NULL {
          heap.Kfree(data.entry[data.inOffs].buffptr);
        }
      }
      data.AddEntry(tentry);
      dev := Device(d.history + [d.pending], "");
      assert State() == Committed(s);
    }

    /** A write of the bytes of `buf`. `allocOk` is whether the allocator can serve it. */
    method Write(buf: string, allocOk: bool, interrupted: bool) returns (retval: int)
      requires Valid()
      modifies this, data, data.entry, heap
      ensures Valid()
      ensures interrupted ==> retval == -ERESTARTSYS && dev == old(dev)
      ensures !interrupted ==> (dev, retval) == DeviceSpec.Write(old(dev), buf, allocOk)
      ensures !interrupted && allocOk && EndsLine(buf) && old(data.full) ==>
                heap.log != [] && heap.log[|heap.log| - 1] == Free(old(data.Contents()[0].buffptr))
    {
      var count := |buf|;
      retval := 0;
      if interrupted {
        return -ERESTARTSYS;
      }
      if count > 0 {
        var ok := Accumulate(buf, allocOk);
        if !ok {
          return;
        }
        PendingStored(State());
        if heap.blocks[tmpData][tmpDataSize - 1] == '\n' {
          Commit();
        }
        retval := count;
      } else {
        if tmpData != NULL {
          DropPending(State(), dev);
          heap.Kfree(tmpData);
          tmpData := NULL;
          tmpDataSize := 0;
          dev := dev.(pending := "");
        }
      }
    }

    /** The entry that holds position `bFpos` and where in it, or not found at the end of the contents. */
    method EntryAt(bFpos: nat, bStartIn: nat) returns (found: bool, bStart: nat, pEntry: Entry)
      requires Valid()
      ensures found <==> bFpos < |Contents(dev, Capacity())|
      ensures found ==>
                && Stored(pEntry, heap.blocks) && bStart < pEntry.size
                && Text(pEntry, heap.blocks)[bStart..] <= Contents(dev, Capacity())[bFpos..]
    {
      LookupBytes(State(), dev, bFpos);
      var slot;
      slot, bStart := data.FindEntryOffsetForFpos(bFpos, bStartIn);
      found := slot.Some?;
      pEntry := if found then data.entry[slot.value] else Entry(NULL, 0);
    }

    /**
     The bytes to copy next, `totcpy` being copied already: the rest of the entry at `bFpos`,
     cut to the room left. `found` is false at the end of the contents.
     */
    method NextPiece(bFpos: nat, bStartIn: nat, count: nat, totcpy: nat, ghost content: string, ghost due: string)
      returns (found: bool, bStart: nat, piece: string)
      requires Valid() && totcpy <= bFpos
      requires content == Contents(dev, Capacity()) && due == Due(content, bFpos - totcpy, count)
      requires totcpy <= |due| && (totcpy == 0 || totcpy < count)
      ensures found <==> bFpos < |content|
      ensures found ==> totcpy + |piece| <= |due| && due[totcpy..totcpy + |piece|] == piece
      ensures found && piece == "" ==> totcpy == count
    {
      piece := "";
      var pEntry;
      found, bStart, pEntry := EntryAt(bFpos, bStartIn);
      if !found {
        return;
      }
      var cpyBytes := pEntry.size - bStart;
      if totcpy + cpyBytes > count {
        cpyBytes := count - totcpy;
      }
      ghost var rest := Text(pEntry, heap.blocks)[bStart..];
      PieceIsDue(content, bFpos - totcpy, count, totcpy, rest, cpyBytes);
      piece := heap.blocks[pEntry.buffptr][bStart..bStart + cpyBytes];
      assert piece == rest[..cpyBytes];
    }

    /**
     The copy loop of a read at position `pos`. Every turn finds an entry and copies from it,
     until the contents or the room end, or the user buffer cannot be written.
     */
    method CopyOut(pos: nat, buf: array<char>, count: nat) returns (totcpy: nat, fault: bool)
      requires Valid()
      modifies buf
      ensures var due := Due(Contents(old(dev), Capacity()), pos, count);
              && (fault <==> buf.Length < |due|)
              && (!fault ==> totcpy == |due|)
              && StartsWith(buf, due[..Min(|due|, buf.Length)])
              && SameFrom(buf, Min(|due|, buf.Length))
    {
      hide AesdDevice.Valid, Contents;
      ghost var content := Contents(dev, Capacity());
      ghost var due := Due(content, pos, count);
      var bFpos, bStart := pos, 0;
      totcpy, fault := 0, false;
      while true
        invariant totcpy <= |due| && (totcpy == 0 || totcpy < count)
        invariant totcpy <= buf.Length && bFpos == pos + totcpy
        invariant forall j :: 0 <= j < totcpy ==> buf[j] == due[j]
        invariant SameFrom(buf, totcpy)
        decreases |due| - totcpy
      {
        var found, piece;
        found, bStart, piece := NextPiece(bFpos, bStart, count, totcpy, content, due);
        if !found {
          break;
        }
        ghost var after := due[totcpy..totcpy + |piece|];
        var notCopied := CopyToUser(buf, totcpy, piece);
        assert forall j :: totcpy <= j < totcpy + |piece| ==> due[j] == after[j - totcpy];
        if notCopied != 0 {
          return totcpy, true;
        }
        bFpos := bFpos + |piece|;
        totcpy := totcpy + |piece|;
        if totcpy >= count {
          break;
        }
      }
    }

    /**
     Reads up to `count` bytes at the file position. The user can write `buf.Length` bytes
     from where the buffer starts; beyond that the copy faults.
     */
    method Read(filp: File, buf: array<char>, count: nat, interrupted: bool) returns (retval: int)
      requires Valid()
      modifies filp, buf
      ensures Valid() && dev == old(dev)
      ensures interrupted ==> retval == -ERESTARTSYS && filp.fPos == old(filp.fPos) && SameFrom(buf, 0)
      ensures !interrupted ==>
                var r := DeviceSpec.Read(Contents(old(dev), Capacity()), old(filp.fPos), count, buf.Length);
                retval == r.ret && filp.fPos == r.pos && StartsWith(buf, r.data) && SameFrom(buf, |r.data|)
    {
      if interrupted {
        return -ERESTARTSYS;
      }
      var totcpy, fault := CopyOut(filp.fPos, buf, count);
      if fault {
        retval := -EFAULT;
      } else {
        filp.fPos := filp.fPos + totcpy;
        retval := totcpy;
      }
    }

    /** Moves the file position. Takes no lock. */
    method Llseek(filp: File, off: int, whence: int) returns (ret: int)
      requires Valid()
      modifies filp
      ensures Valid() && dev == old(dev)
      ensures var r := DeviceSpec.Llseek(|Contents(old(dev), Capacity())|, old(filp.fPos), off, whence);
              ret == r.0 && filp.fPos == r.1
    {
      var newpos;
      if whence == 0 {
        newpos := off;
      } else if whence == 1 {
        newpos := filp.fPos + off;
      } else if whence == 2 {
        var nEntries := data.EntryCount();
        var total, _ := data.SizeOfOldest(nEntries);
        PrefixSize(State(), dev, nEntries);
        assert Visible(dev, Capacity())[..nEntries] == Visible(dev, Capacity());
        newpos := total + off;
      } else {
        return -EINVAL;
      }
      if newpos < 0 {
        return -EINVAL;
      }
      filp.fPos := newpos;
      ret := newpos;
    }

    /** The stream position a seek request names, or the error it gets. */
    method SeekPosition(req: SeekTo) returns (retval: int, newpos: nat)
      requires Valid()
      ensures var visible, place := Visible(dev, Capacity()), Place(req.writeCmd, req.writeCmdOffset);
              retval == (if place.index >= |visible| then -ENOTTY
                         else if !ValidPlace(visible, place) then -EINVAL else 0)
              && (retval == 0 ==> newpos == Position(visible, place))
    {
      retval, newpos := -ENOTTY, 0;
      var nEntries := data.EntryCount();
      VisibleSizes(State(), dev);
      if req.writeCmd >= nEntries {
        return;
      }
      PrefixSize(State(), dev, req.writeCmd);
      var outPtr;
      newpos, outPtr := data.SizeOfOldest(req.writeCmd);
      newpos := newpos + req.writeCmdOffset;
      assert Sizes(Visible(dev, Capacity()))[req.writeCmd] == data.entry[outPtr].size;
      if req.writeCmdOffset >= data.entry[outPtr].size {
        return -EINVAL, newpos;
      }
      retval := 0;
    }

    /** The control call. `arg` is the request in user memory, None when that cannot be read. */
    method Ioctl(filp: File, cmd: uint32, arg: Option<SeekTo>, interrupted: bool) returns (retval: int)
      requires Valid()
      modifies filp
      ensures Valid() && dev == old(dev)
      ensures (retval, filp.fPos) ==
              DeviceSpec.Ioctl(Visible(old(dev), Capacity()), old(filp.fPos), cmd, arg, interrupted)
    {
      if IocType(cmd) != AESD_IOC_MAGIC {
        return -ENOTTY;
      }
      if IocNr(cmd) > AESDCHAR_IOC_MAXNR {
        return -ENOTTY;
      }
      if interrupted {
        return -ERESTARTSYS;
      }
      if cmd == AESDCHAR_IOCSEEKTO {
        if arg.None? {
          return -EFAULT;
        }
        var newpos;
        retval, newpos := SeekPosition(arg.value);
        if retval == 0 {
          filp.fPos := newpos;
        }
      } else {
        retval := -ENOTTY;
      }
    }

    /** Frees the buffer of one slot and clears its pointer. */
    method FreeSlot(ind: nat)
      requires heap.Valid() && ind < data.entry.Length && data.entry[ind].buffptr in heap.blocks
      modifies data.entry, heap
      ensures heap.Valid() && heap.blocks == old(heap.blocks) - {old(data.entry[ind].buffptr)}
      ensures heap.log == old(heap.log) + [Free(old(data.entry[ind].buffptr))]
      ensures data.entry[ind].buffptr == NULL
      ensures forall k :: 0 <= k < data.entry.Length && k != ind ==> data.entry[k] == old(data.entry[k])
    {
      if data.entry[ind].buffptr != NULL {
        heap.Kfree(data.entry[ind].buffptr);
      }
      data.entry[ind] := data.entry[ind].(buffptr := NULL);
    }

    /** The loop that frees the retained commands, oldest first, and clears their slots. */
    method FreeRetained(ghost c: seq<Entry>)
      requires heap.Valid() && data.Valid() && c == data.Contents()
      requires Distinct(c) && Pointers(c) <= heap.blocks.Keys
      modifies data.entry, heap
      ensures heap.Valid() && heap.blocks == old(heap.blocks) - Pointers(c)
      ensures heap.log == old(heap.log) + Frees(c)
    {
      ghost var out, size, blocks, log := data.outOffs, data.entry.Length, heap.blocks, heap.log;
      assert c[..|c|] == c && Pointers(c[..0]) == {};
      var nEntries := data.EntryCount();
      var ind := data.outOffs;
      assert ind == SlotOf(out, 0, size) && |c| <= size && Frees(c[..0]) == [];
      assert forall j :: 0 <= j < |c| ==> data.entry[SlotOf(out, j, size)] == c[j];
      hide SlotOf, Distinct, Pointers, Frees, Ring.Contents, CircularBuffer.Valid, KernelHeap.Valid;
      for i := 0 to nEntries
        invariant ind == SlotOf(out, i, size)
        invariant heap.Valid() && heap.blocks == blocks - Pointers(c[..i])
        invariant heap.log == log + Frees(c[..i])
        invariant forall j :: i <= j < |c| ==> data.entry[SlotOf(out, j, size)] == c[j]
      {
        FreedOneMore(blocks, log, c, i);
        NextSlotOf(out, i, size);
        FreeSlot(ind);
        ind := (ind + 1) % data.entry.Length;
      }
    }

    /** Unloading the module: frees every retained command and what is pending. */
    method Cleanup()
      requires Valid()
      modifies this, data.entry, heap
      ensures heap.Valid() && heap.blocks == map[] && tmpData == NULL
      ensures heap.log == old(heap.log) + Frees(old(State().Buffers()))
    {
      ghost var s, c := State(), data.Contents();
      AllFreed(s);
      hide DriverState.Shows, DriverState.Valid, Ring.Valid, Ring.Contents, Distinct, Pointers, Frees;
      FreeRetained(c);
      if tmpData != NULL {
        heap.Kfree(tmpData);
        tmpData := NULL;
        tmpDataSize := 0;
      }
    }
  }

  lemma SameButOne(before: Blocks, after: Blocks, p: nat)
    requires p in after && after.Keys == before.Keys + {p}
    requires forall q :: q in before && q != p ==> after[q] == before[q]
    ensures after == before[p := after[p]]
  {
  }

  /** The record of freeing the buffers of `es` in order. */
  function Frees(es: seq<Entry>): (f: seq<HeapEvent>)
    ensures |f| == |es|
  {
    seq(|es|, i requires 0 <= i < |es| => Free(es[i].buffptr))
  }

  /** Freeing one more of distinct buffers. */
  lemma FreesStep(es: seq<Entry>, i: nat)
    requires i < |es| && Distinct(es)
    ensures Frees(es[..i + 1]) == Frees(es[..i]) + [Free(es[i].buffptr)]
    ensures es[i].buffptr in Pointers(es) && es[i].buffptr !in Pointers(es[..i])
    ensures Pointers(es[..i + 1]) == Pointers(es[..i]) + {es[i].buffptr}
  {
    assert es[..i + 1] == es[..i] + [es[i]];
    PointersConcat(es[..i], [es[i]]);
    PointersOne(es[i]);
  }

  /** What is live and what is recorded once the first `i + 1` buffers are freed. */
  lemma FreedOneMore(blocks: Blocks, log: seq<HeapEvent>, es: seq<Entry>, i: nat)
    requires i < |es| && Distinct(es) && Pointers(es) <= blocks.Keys
    ensures (blocks - Pointers(es[..i])) - {es[i].buffptr} == blocks - Pointers(es[..i + 1])
    ensures (log + Frees(es[..i])) + [Free(es[i].buffptr)] == log + Frees(es[..i + 1])
    ensures es[i].buffptr in blocks - Pointers(es[..i])
  {
    FreesStep(es, i);
    hide Frees, Pointers, Distinct;
  }

  /** Once the retained buffers and then the pending one are freed, nothing is live. */
  lemma AllFreed(s: DriverState)
    requires s.Valid()
    ensures var c := s.ring.Contents();
            && Distinct(c) && Pointers(c) <= s.blocks.Keys
            && (if s.tmp.buffptr == NULL then
                  s.blocks - Pointers(c) == map[] && s.Buffers() == c
                else
                  && s.tmp.buffptr in s.blocks - Pointers(c)
                  && (s.blocks - Pointers(c)) - {s.tmp.buffptr} == map[]
                  && Frees(s.Buffers()) == Frees(c) + [Free(s.tmp.buffptr)])
  {
    var c, bs := s.ring.Contents(), s.Buffers();
    assert bs[..|c|] == c;
    forall i, j | 0 <= i < j < |c| ensures c[i].buffptr != c[j].buffptr {
      assert bs[i] == c[i] && bs[j] == c[j];
    }
    if s.tmp.buffptr != NULL {
      FreesStep(bs, |c|);
      assert bs[..|c| + 1] == bs;
      assert (s.blocks - Pointers(c)).Keys == {s.tmp.buffptr};
    } else {
      assert (s.blocks - Pointers(c)).Keys == {};
    }
  }
}
