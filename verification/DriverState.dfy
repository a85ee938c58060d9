/**
 The value of the whole driver state - ring, pending buffer and heap - and which device it
 shows. The in-place driver and the interleaved one are both measured against it.
 */
module DriverStates {
  import opened Addresses
  import opened Streams
  import opened Rings
  import opened DeviceSpec

  type Blocks = map<nat, string>

  /** An entry's buffer is live. The driver allocates one byte more than it stores. */
  predicate Stored(e: Entry, blocks: Blocks) {
    e.buffptr != NULL && e.buffptr in blocks && |blocks[e.buffptr]| == e.size + 1
  }

  function Pointers(es: seq<Entry>): set<nat> {
    set i | 0 <= i < |es| :: es[i].buffptr
  }

  predicate Distinct(es: seq<Entry>) {
    forall i, j :: 0 <= i < j < |es| ==> es[i].buffptr != es[j].buffptr
  }

  /** The live blocks are exactly the buffers of `es`, no two of which share one. */
  predicate OwnsExactly(es: seq<Entry>, blocks: Blocks) {
    && (forall i :: 0 <= i < |es| ==> Stored(es[i], blocks))
    && Distinct(es)
    && blocks.Keys == Pointers(es)
  }

  /** The bytes an entry holds. */
  function Text(e: Entry, blocks: Blocks): (t: string)
    requires Stored(e, blocks)
    ensures |t| == e.size
  {
    blocks[e.buffptr][..e.size]
  }

  function Texts(es: seq<Entry>, blocks: Blocks): (t: seq<string>)
    requires forall i :: 0 <= i < |es| ==> Stored(es[i], blocks)
    ensures |t| == |es|
    ensures forall i :: 0 <= i < |t| ==> Stored(es[i], blocks) && t[i] == Text(es[i], blocks)
    ensures Sizes(t) == EntrySizes(es)
  {
    seq(|es|, i requires 0 <= i < |es| && Stored(es[i], blocks) => Text(es[i], blocks))
  }

  datatype DriverState = DriverState(ring: Ring, tmp: Entry, blocks: Blocks) {
    /** The retained entries and, when there is one, the pending buffer. */
    function Buffers(): seq<Entry>
      requires ring.Valid()
    {
      ring.Contents() + (if tmp.buffptr == NULL then [] else [tmp])
    }

    predicate Valid() {
      && ring.Valid()
      && OwnsExactly(Buffers(), blocks)
      && (tmp.buffptr == NULL <==> tmp.size == 0)
    }

    function Commands(): (c: seq<string>)
      requires Valid()
      ensures Sizes(c) == EntrySizes(ring.Contents())
    {
      RetainedStored(this);
      Texts(ring.Contents(), blocks)
    }

    function Pending(): string
      requires Valid()
    {
      if tmp.buffptr == NULL then ""
      else
        assert Stored(Buffers()[|ring.Contents()|], blocks);
        Text(tmp, blocks)
    }

    /** The state represents device `d`. */
    predicate Shows(d: Device) {
      && Valid()
      && Commands() == Visible(d, |ring.entry|)
      && Pending() == d.pending
    }
  }

  lemma RetainedStored(s: DriverState)
    requires s.Valid()
    ensures forall i :: 0 <= i < |s.ring.Contents()| ==> Stored(s.ring.Contents()[i], s.blocks)
  {
    forall i | 0 <= i < |s.ring.Contents()|
      ensures Stored(s.ring.Contents()[i], s.blocks)
    {
      assert s.Buffers()[i] == s.ring.Contents()[i];
    }
  }

  lemma PendingStored(s: DriverState)
    requires s.Valid() && s.tmp.buffptr != NULL
    ensures Stored(s.tmp, s.blocks)
  {
    assert s.Buffers()[|s.ring.Contents()|] == s.tmp;
  }

  /** The slot to be overwritten in a full ring holds the oldest entry, which is live. */
  lemma OldestStored(s: DriverState)
    requires s.Valid() && s.ring.full
    ensures s.ring.entry[s.ring.inOffs] == s.ring.Contents()[0] && Stored(s.ring.Contents()[0], s.blocks)
  {
    AddedContents(s.ring, s.tmp);
    RetainedStored(s);
  }

  lemma PointersConcat(a: seq<Entry>, b: seq<Entry>)
    ensures Pointers(a + b) == Pointers(a) + Pointers(b)
  {
    forall p | p in Pointers(b) ensures p in Pointers(a + b) {
      var i :| 0 <= i < |b| && b[i].buffptr == p;
      assert (a + b)[|a| + i].buffptr == p;
    }
    forall p | p in Pointers(a) ensures p in Pointers(a + b) {
      var i :| 0 <= i < |a| && a[i].buffptr == p;
      assert (a + b)[i].buffptr == p;
    }
  }

  lemma PointersOne(e: Entry)
    ensures Pointers([e]) == {e.buffptr}
  {
    assert [e][0].buffptr == e.buffptr;
  }

  /** A fresh block joins the owned ones. */
  lemma OwnMore(es: seq<Entry>, blocks: Blocks, e: Entry, text: string)
    requires OwnsExactly(es, blocks)
    requires e.buffptr != NULL && e.buffptr !in blocks && |text| == e.size + 1
    ensures OwnsExactly(es + [e], blocks[e.buffptr := text])
  {
    var all, b := es + [e], blocks[e.buffptr := text];
    forall i | 0 <= i < |all| ensures Stored(all[i], b) {
      assert i < |es| ==> Stored(es[i], blocks);
    }
    forall i | 0 <= i < |es| ensures es[i].buffptr != e.buffptr {
      assert Stored(es[i], blocks);
    }
    PointersConcat(es, [e]);
    PointersOne(e);
  }

  /** Freeing the block of one owned entry leaves exactly the others owned. */
  lemma OwnLess(a: seq<Entry>, e: Entry, b: seq<Entry>, blocks: Blocks)
    requires OwnsExactly(a + [e] + b, blocks)
    ensures e.buffptr in blocks
    ensures OwnsExactly(a + b, blocks - {e.buffptr})
  {
    var all, rest := a + [e] + b, a + b;
    assert all[|a|] == e && Stored(all[|a|], blocks);
    forall i | 0 <= i < |rest|
      ensures rest[i].buffptr != e.buffptr && Stored(rest[i], blocks - {e.buffptr})
    {
      var j := if i < |a| then i else i + 1;
      assert rest[i] == all[j] && Stored(all[j], blocks);
    }
    assert Distinct(rest) by {
      forall i, j | 0 <= i < j < |rest| ensures rest[i].buffptr != rest[j].buffptr {
        assert rest[i] == all[if i < |a| then i else i + 1];
        assert rest[j] == all[if j < |a| then j else j + 1];
      }
    }
    PointersConcat(a + [e], b);
    PointersConcat(a, [e]);
    PointersConcat(a, b);
    PointersOne(e);
    assert e.buffptr !in Pointers(rest);
  }

  /** The blocks after a new buffer `p` took over from the old pending one. */
  function Regrown(s: DriverState, p: nat, text: string): Blocks {
    if s.tmp.size != 0 then s.blocks[p := text] - {s.tmp.buffptr} else s.blocks[p := text]
  }

  lemma RegrownOwned(s: DriverState, e: Entry, text: string)
    requires s.Valid() && e.buffptr != NULL && e.buffptr !in s.blocks && |text| == e.size + 1
    ensures OwnsExactly(s.ring.Contents() + [e], Regrown(s, e.buffptr, text))
  {
    var c := s.ring.Contents();
    OwnMore(s.Buffers(), s.blocks, e, text);
    if s.tmp.size != 0 {
      OwnLess(c, s.tmp, [e], s.blocks[e.buffptr := text]);
    } else {
      assert s.Buffers() == c;
    }
  }

  /** Retained commands do not change while their blocks do not. */
  lemma SameCommands(s: DriverState, s': DriverState)
    requires s.Valid() && s'.Valid() && s'.ring == s.ring
    requires forall p :: p in s.blocks && p in s'.blocks ==> s'.blocks[p] == s.blocks[p]
    ensures s'.Commands() == s.Commands()
  {
    RetainedStored(s);
    RetainedStored(s');
  }

  /** A fresh buffer with the old pending bytes and `buf` in it lengthens the pending command. */
  lemma GrowPending(s: DriverState, d: Device, buf: string, p: nat, text: string)
    requires s.Shows(d) && buf != ""
    requires p != NULL && p !in s.blocks && |text| == |d.pending| + |buf| + 1
    requires text[..|text| - 1] == d.pending + buf
    ensures DriverState(s.ring, Entry(p, |text| - 1), Regrown(s, p, text)).Shows(Device(d.history, d.pending + buf))
  {
    var e := Entry(p, |text| - 1);
    var s' := DriverState(s.ring, e, Regrown(s, p, text));
    RegrownOwned(s, e, text);
    assert s'.Valid() by {
      assert s'.Buffers() == s.ring.Contents() + [e];
    }
    SameCommands(s, s');
    assert s'.Pending() == text[..|text| - 1] by {
      assert p != s.tmp.buffptr by {
        if s.tmp.buffptr != NULL {
          assert Stored(s.Buffers()[|s.ring.Contents()|], s.blocks);
        }
      }
    }
  }

  /** The state after the pending buffer became the newest entry. */
  function Committed(s: DriverState): DriverState
    requires s.ring.Valid()
  {
    DriverState(Added(s.ring, s.tmp), Entry(NULL, 0),
                if s.ring.full then s.blocks - {s.ring.entry[s.ring.inOffs].buffptr} else s.blocks)
  }

  lemma OwnEvicted(c: seq<Entry>, e: Entry, blocks: Blocks)
    requires c != [] && OwnsExactly(c + [e], blocks)
    ensures OwnsExactly(c[1..] + [e], blocks - {c[0].buffptr})
  {
    assert [] + [c[0]] + (c[1..] + [e]) == c + [e];
    OwnLess([], c[0], c[1..] + [e], blocks);
    assert [] + (c[1..] + [e]) == c[1..] + [e];
  }

  lemma CommittedValid(s: DriverState)
    requires s.Valid() && s.tmp.buffptr != NULL
    ensures Committed(s).Valid()
    ensures Committed(s).ring.Contents() == Push(s.ring.Contents(), s.tmp, |s.ring.entry|)
    ensures s.ring.full ==> s.ring.entry[s.ring.inOffs] == s.ring.Contents()[0]
  {
    var s', c := Committed(s), s.ring.Contents();
    AddedContents(s.ring, s.tmp);
    assert s'.Buffers() == Push(c, s.tmp, |s.ring.entry|);
    if s.ring.full {
      OwnEvicted(c, s.tmp, s.blocks);
    }
  }

  /** Committing frees the oldest command's buffer when full and shows the lengthened history. */
  lemma CommitPending(s: DriverState, d: Device)
    requires s.Shows(d) && d.pending != ""
    ensures Committed(s).Shows(Device(d.history + [d.pending], ""))
    ensures s.ring.full ==> s.ring.entry[s.ring.inOffs] == s.ring.Contents()[0]
  {
    CommittedValid(s);
    CommittedTexts(s);
    PushLastN(d.history, d.pending, |s.ring.entry|);
  }

  lemma CommittedTexts(s: DriverState)
    requires s.Valid() && s.tmp.buffptr != NULL && Committed(s).Valid()
    requires Committed(s).ring.Contents() == Push(s.ring.Contents(), s.tmp, |s.ring.entry|)
    ensures Committed(s).Commands() == Push(s.Commands(), s.Pending(), |s.ring.entry|)
  {
    RetainedStored(s);
    PendingStored(s);
    RetainedStored(Committed(s));
    TextsPush(s.ring.Contents(), s.tmp, |s.ring.entry|, s.blocks, Committed(s).blocks);
  }

  lemma TextsPush(c: seq<Entry>, e: Entry, n: nat, before: Blocks, after: Blocks)
    requires 0 < n && Stored(e, before) && forall i :: 0 <= i < |c| ==> Stored(c[i], before)
    requires forall i :: 0 <= i < |Push(c, e, n)| ==> Stored(Push(c, e, n)[i], after)
    requires forall p :: p in after && p in before ==> after[p] == before[p]
    ensures Texts(Push(c, e, n), after) == Push(Texts(c, before), Text(e, before), n)
  {
    var pushed := Push(c, e, n);
    forall i | 0 <= i < |pushed|
      ensures Texts(pushed, after)[i] == Push(Texts(c, before), Text(e, before), n)[i]
    {
      var j := if |c| < n then i else i + 1;
      assert pushed[i] == (c + [e])[j];
    }
  }

  /** Freeing the pending buffer shows the device without its pending bytes. */
  lemma DropPending(s: DriverState, d: Device)
    requires s.Shows(d) && s.tmp.buffptr != NULL
    ensures DriverState(s.ring, Entry(NULL, 0), s.blocks - {s.tmp.buffptr}).Shows(d.(pending := ""))
    ensures s.tmp.buffptr in s.blocks
  {
    var s' := DriverState(s.ring, Entry(NULL, 0), s.blocks - {s.tmp.buffptr});
    var c := s.ring.Contents();
    OwnLess(c, s.tmp, [], s.blocks);
    assert c + [s.tmp] + [] == s.Buffers();
    assert c + [] == s'.Buffers();
    SameCommands(s, s');
  }

  /** Where the lookup of a readable position leads: to the bytes the flat contents go on with. */
  lemma LookupBytes(s: DriverState, d: Device, pos: nat)
    requires s.Shows(d)
    ensures var content := Contents(d, |s.ring.entry|);
            var at := Locate(EntrySizes(s.ring.Contents()), pos);
            && (at == None <==> |content| <= pos)
            && (at.Some? ==>
                  && at.value.index < |s.ring.Contents()|
                  && var e := s.ring.Contents()[at.value.index];
                  && Stored(e, s.blocks) && at.value.byte < e.size
                  && Text(e, s.blocks)[at.value.byte..] <= content[pos..])
  {
    var cmds := s.Commands();
    RetainedStored(s);
    CommandBytes(cmds, pos);
    assert Sizes(cmds) == EntrySizes(s.ring.Contents());
    assert cmds == Texts(s.ring.Contents(), s.blocks);
  }

  lemma CommandBytes(cmds: seq<string>, pos: nat)
    ensures var at := Locate(Sizes(cmds), pos);
            && (at == None <==> |Flat(cmds)| <= pos)
            && (at.Some? ==>
                  && at.value.index < |cmds| && at.value.byte < |cmds[at.value.index]|
                  && cmds[at.value.index][at.value.byte..] <= Flat(cmds)[pos..])
  {
    LocateIsFlatIndex(cmds, pos);
  }

  /** The entry sizes are the command sizes, one for one. */
  lemma VisibleSizes(s: DriverState, d: Device)
    requires s.Shows(d)
    ensures Sizes(Visible(d, |s.ring.entry|)) == EntrySizes(s.ring.Contents())
    ensures |Visible(d, |s.ring.entry|)| == |s.ring.Contents()|
  {
    assert |s.Commands()| == |Sizes(s.Commands())|;
  }

  /** The sizes of the first `k` entries add up to the start of command `k`; of all, to the total. */
  lemma PrefixSize(s: DriverState, d: Device, k: nat)
    requires s.Shows(d) && k <= |s.ring.Contents()|
    ensures k <= |Visible(d, |s.ring.entry|)|
    ensures Sum(EntrySizes(s.ring.Contents())[..k]) == |Flat(Visible(d, |s.ring.entry|)[..k])|
  {
    VisibleSizes(s, d);
    var v := Visible(d, |s.ring.entry|);
    FlatLength(v[..k]);
    assert Sizes(v[..k]) == Sizes(v)[..k];
  }
}
