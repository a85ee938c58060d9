/** Laws of the character device over all calls and all runs of calls. */
module DeviceLaws {
  import opened Streams
  import opened Rings
  import opened DeviceSpec

  // ---- the device is a suffix of the stream ------------------------------------

  /** The readable contents are the stream with the evicted bytes cut off its front. */
  lemma ContentsAreStreamSuffix(d: Device, n: nat)
    ensures Evicted(d, n) <= |Stream(d)|
    ensures Contents(d, n) == Stream(d)[Evicted(d, n)..]
  {
    if |d.history| > n {
      var k := |d.history| - n;
      assert d.history == d.history[..k] + d.history[k..];
      FlatConcat(d.history[..k], d.history[k..]);
    }
  }

  /** What one write does to the stream and to the number of evicted bytes. */
  lemma WriteExtendsStream(d: Device, buf: string, allocOk: bool, n: nat)
    requires 0 < n
    ensures var d' := Write(d, buf, allocOk).0;
            d.history <= d'.history && Stream(d) <= Stream(d') && Evicted(d, n) <= Evicted(d', n)
  {
    var d' := Write(d, buf, allocOk).0;
    if d'.history != d.history {
      var c := d.pending + buf;
      FlatPush(d.history, c);
      if |d.history| >= n {
        var k := |d.history| - n;
        assert d'.history[..k + 1] == d.history[..k] + [d.history[k]];
        FlatPush(d.history[..k], d.history[k]);
      }
    }
  }

  /** A commit on a full device moves the end by the new command's size less the oldest's. */
  lemma CommitMovesEnd(d: Device, buf: string, n: nat)
    requires 0 < n && EndsLine(buf)
    ensures var d' := Write(d, buf, true).0;
            && Visible(d', n) == Push(Visible(d, n), d.pending + buf, n)
            && |Contents(d', n)| == |Contents(d, n)| + |d.pending + buf|
               - (if |d.history| < n then 0 else |Visible(d, n)[0]|)
  {
    var v, c := Visible(d, n), d.pending + buf;
    PushLastN(d.history, c, n);
    FlatPush(v, c);
    if |d.history| >= n {
      FlatPush(v[1..], c);
    }
  }

  /** `data` lies in `stream` at absolute position `start`. */
  predicate SliceAt(stream: string, start: nat, data: string) {
    data == "" || (start + |data| <= |stream| && stream[start..start + |data|] == data)
  }

  /** Every read hands out a contiguous slice of the all-time stream. */
  lemma ReadIsStreamSlice(d: Device, pos: nat, count: nat, accessible: nat, n: nat)
    ensures SliceAt(Stream(d), Evicted(d, n) + pos, Read(Contents(d, n), pos, count, accessible).data)
  {
    ContentsAreStreamSuffix(d, n);
    var c, due := Contents(d, n), Due(Contents(d, n), pos, count);
    if due != "" {
      var start := Evicted(d, n) + pos;
      assert Stream(d)[start..start + |due|] == due;
    }
  }

  /** Calls that leave file `f` alone: writes by anyone, anything on another file. */
  predicate Spares(calls: seq<Call>, f: nat) {
    forall i :: 0 <= i < |calls| ==> calls[i].CWrite? || calls[i].file != f
  }

  lemma {:induction false} RunGrows(s: System, calls: seq<Call>, f: nat, n: nat)
    requires 0 < n && f < |s.pos| && CallsOn(calls, |s.pos|) && Spares(calls, f)
    ensures var s' := Run(s, calls, n).0;
            && Stream(s.dev) <= Stream(s'.dev)
            && Evicted(s.dev, n) <= Evicted(s'.dev, n)
            && s'.pos[f] == s.pos[f]
  {
    if calls != [] {
      var k := |calls| - 1;
      RunGrows(s, calls[..k], f, n);
      var s1 := Run(s, calls[..k], n).0;
      match calls[k]
      case CWrite(_, buf, allocOk, _) => WriteExtendsStream(s1.dev, buf, allocOk, n);
      case _ =>
    }
  }

  lemma SliceOfLonger(a: string, b: string, start: nat, data: string)
    requires a <= b && SliceAt(a, start, data)
    ensures SliceAt(b, start, data)
  {
    if data != "" {
      assert b[start..start + |data|] == a[start..start + |data|];
    }
  }

  /** What a read call is and does: a slice at the position, which moves past it. */
  lemma ReadCall(s: System, c: Call, n: nat)
    requires c.CRead? && c.file < |s.pos|
    ensures var (s', o) := Step(s, c, n);
            && s'.dev == s.dev
            && SliceAt(Stream(s.dev), Evicted(s.dev, n) + s.pos[c.file], o.data)
            && (o.ret >= 0 ==> s'.pos[c.file] == s.pos[c.file] + |o.data|)
            && (o.ret < 0 ==> s'.pos == s.pos)
  {
    ReadIsStreamSlice(s.dev, s.pos[c.file], c.count, c.accessible, n);
  }

  /**
   Two reads of one file with any calls between that do not move it: both return slices of
   the stream as it is at the second read, the second slice starts at the end of the first
   plus exactly the bytes evicted meanwhile, so nothing is delivered twice.
   */
  lemma ConsecutiveReads(s: System, first: Call, mid: seq<Call>, second: Call, n: nat)
    requires 0 < n && first.CRead? && second.CRead? && first.file == second.file < |s.pos|
    requires CallsOn(mid, |s.pos|) && Spares(mid, first.file)
    requires Step(s, first, n).1.ret >= 0
    ensures var s1 := Step(s, first, n).0;
            var o1 := Step(s, first, n).1;
            var s2 := Run(s1, mid, n).0;
            var o2 := Step(s2, second, n).1;
            var start1 := Evicted(s.dev, n) + s.pos[first.file];
            var start2 := Evicted(s2.dev, n) + s2.pos[first.file];
            && SliceAt(Stream(s2.dev), start1, o1.data)
            && SliceAt(Stream(s2.dev), start2, o2.data)
            && start2 - (start1 + |o1.data|) == Evicted(s2.dev, n) - Evicted(s1.dev, n) >= 0
  {
    hide Run, Step, Evicted, Stream, SliceAt, Spares, CallsOn;
    var s1 := Step(s, first, n).0;
    ReadCall(s, first, n);
    RunGrows(s1, mid, first.file, n);
    var s2 := Run(s1, mid, n).0;
    SliceOfLonger(Stream(s.dev), Stream(s2.dev), Evicted(s.dev, n) + s.pos[first.file], Step(s, first, n).1.data);
    ReadCall(s2, second, n);
  }

  // ---- write conservation -------------------------------------------------------

  /** A stretch of accepted bytes that was committed as one command, or dropped. */
  datatype Segment = Committed(bytes: string) | Dropped(bytes: string)

  /** The bytes of the writes the device took, in order. */
  function Accepted(calls: seq<Call>): string {
    if calls == [] then ""
    else Accepted(calls[..|calls| - 1]) + AcceptedOf(calls[|calls| - 1])
  }

  function AcceptedOf(c: Call): string {
    if c.CWrite? && c.allocOk && !c.signal then c.buf else ""
  }

  /** How many zero-length writes there were. */
  function Resets(calls: seq<Call>): nat {
    if calls == [] then 0
    else Resets(calls[..|calls| - 1]) + (if IsReset(calls[|calls| - 1]) then 1 else 0)
  }

  predicate IsReset(c: Call) { c.CWrite? && c.buf == "" && !c.signal }

  /**
   The accepted bytes cut into segments from the list of calls alone: a segment is closed by
   a write that ends a line, or dropped by a zero-length write. Second part: the open segment.
   */
  function Segments(calls: seq<Call>): (seq<Segment>, string) {
    if calls == [] then ([], "")
    else
      var (segs, open) := Segments(calls[..|calls| - 1]);
      var c := calls[|calls| - 1];
      if IsReset(c) then (segs + [Dropped(open)], "")
      else if EndsLine(AcceptedOf(c)) then (segs + [Committed(open + AcceptedOf(c))], "")
      else (segs, open + AcceptedOf(c))
  }

  function AllBytes(segs: seq<Segment>): string {
    if segs == [] then "" else AllBytes(segs[..|segs| - 1]) + segs[|segs| - 1].bytes
  }

  function CommittedOnly(segs: seq<Segment>): seq<string> {
    if segs == [] then []
    else CommittedOnly(segs[..|segs| - 1]) +
         (if segs[|segs| - 1].Committed? then [segs[|segs| - 1].bytes] else [])
  }

  function DroppedOnly(segs: seq<Segment>): seq<string> {
    if segs == [] then []
    else DroppedOnly(segs[..|segs| - 1]) +
         (if segs[|segs| - 1].Dropped? then [segs[|segs| - 1].bytes] else [])
  }

  lemma SegmentsPush(segs: seq<Segment>, g: Segment)
    ensures AllBytes(segs + [g]) == AllBytes(segs) + g.bytes
    ensures CommittedOnly(segs + [g]) == CommittedOnly(segs) + (if g.Committed? then [g.bytes] else [])
    ensures DroppedOnly(segs + [g]) == DroppedOnly(segs) + (if g.Dropped? then [g.bytes] else [])
  {
    assert (segs + [g])[..|segs|] == segs;
  }

  /** What one call does to the device, told by the bytes it had accepted. */
  lemma StepKeeps(s: System, c: Call, n: nat)
    requires c.file < |s.pos|
    ensures var d, d' := s.dev, Step(s, c, n).0.dev;
            d' == if IsReset(c) then Device(d.history, "")
                  else if EndsLine(AcceptedOf(c)) then Device(d.history + [d.pending + AcceptedOf(c)], "")
                  else Device(d.history, d.pending + AcceptedOf(c))
  {
  }

  /**
   The accepted bytes, in order, are the segments and the open bytes; the committed segments
   are the device's history, the open bytes are pending, and `resets` segments were dropped.
   */
  predicate Conserved(segs: seq<Segment>, open: string, accepted: string, resets: nat, d: Device) {
    && AllBytes(segs) + open == accepted
    && CommittedOnly(segs) == d.history
    && open == d.pending
    && |DroppedOnly(segs)| == resets
  }

  lemma ConservedStep(segs: seq<Segment>, open: string, accepted: string, resets: nat, d: Device, bytes: string)
    requires Conserved(segs, open, accepted, resets, d)
    ensures Conserved(segs + [Dropped(open)], "", accepted, resets + 1, Device(d.history, ""))
    ensures Conserved(segs + [Committed(open + bytes)], "", accepted + bytes, resets,
                      Device(d.history + [d.pending + bytes], ""))
    ensures Conserved(segs, open + bytes, accepted + bytes, resets, Device(d.history, d.pending + bytes))
  {
    SegmentsPush(segs, Dropped(open));
    SegmentsPush(segs, Committed(open + bytes));
    assert (AllBytes(segs) + open) + bytes == AllBytes(segs) + (open + bytes);
  }

  /**
   Conservation: over every run from module load, the accepted bytes in order are the
   committed commands, the pending bytes and the segments dropped by zero-length writes,
   one for each such write, and nothing else.
   */
  lemma {:induction false} WriteConservation(files: nat, calls: seq<Call>, n: nat)
    requires CallsOn(calls, files)
    ensures var (segs, open) := Segments(calls);
            Conserved(segs, open, Accepted(calls), Resets(calls), Run(Initial(files), calls, n).0.dev)
  {
    if calls != [] {
      var k := |calls| - 1;
      WriteConservation(files, calls[..k], n);
      var s := Run(Initial(files), calls[..k], n).0;
      StepKeeps(s, calls[k], n);
      var (segs, open) := Segments(calls[..k]);
      ConservedStep(segs, open, Accepted(calls[..k]), Resets(calls[..k]), s.dev, AcceptedOf(calls[k]));
      assert IsReset(calls[k]) ==> Accepted(calls[..k]) + "" == Accepted(calls[..k]);
    }
  }

  /** A write that is not interrupted tells its caller how many bytes were accepted: all or none. */
  lemma WriteResult(s: System, c: Call, n: nat)
    requires c.CWrite? && c.file < |s.pos|
    ensures var ret := Step(s, c, n).1.ret;
            && (c.signal ==> ret == -512 && AcceptedOf(c) == "")
            && (!c.signal ==> ret == |AcceptedOf(c)| == if c.allocOk then |c.buf| else 0)
  {
  }

  /** What the results of the write calls add up to, those of failed ones not counted. */
  function Acknowledged(calls: seq<Call>, outcomes: seq<Outcome>): int
    requires |calls| == |outcomes|
  {
    if calls == [] then 0
    else
      var k := |calls| - 1;
      Acknowledged(calls[..k], outcomes[..k])
      + (if calls[k].CWrite? && outcomes[k].ret >= 0 then outcomes[k].ret else 0)
  }

  /** Over every run the callers are told of exactly the bytes that conservation accounts for. */
  lemma {:induction false} AcceptedIsAcknowledged(s: System, calls: seq<Call>, n: nat)
    requires CallsOn(calls, |s.pos|)
    ensures Acknowledged(calls, Run(s, calls, n).1) == |Accepted(calls)|
  {
    if calls != [] {
      var k := |calls| - 1;
      AcceptedIsAcknowledged(s, calls[..k], n);
      var (s1, out) := Run(s, calls[..k], n);
      var o := Step(s1, calls[k], n).1;
      if calls[k].CWrite? {
        WriteResult(s1, calls[k], n);
      }
      assert Run(s, calls, n).1 == out + [o] && (out + [o])[..k] == out;
    }
  }

  /** Every retained or evicted command is a complete line, and what is pending is not one. */
  lemma {:induction false} CommandsAreLines(files: nat, calls: seq<Call>, n: nat)
    requires CallsOn(calls, files)
    ensures var d := Run(Initial(files), calls, n).0.dev;
            && (forall i :: 0 <= i < |d.history| ==> EndsLine(d.history[i]))
            && !EndsLine(d.pending)
  {
    if calls != [] {
      CommandsAreLines(files, calls[..|calls| - 1], n);
    }
  }

  // ---- chunking -----------------------------------------------------------------

  function WriteAll(d: Device, pieces: seq<string>): Device
    decreases pieces
  {
    if pieces == [] then d else WriteAll(Write(d, pieces[0], true).0, pieces[1..])
  }

  /** Cutting a write into non-empty pieces, none but the last ending a line, changes nothing. */
  lemma {:induction false} ChunkedWrite(d: Device, pieces: seq<string>)
    requires pieces != [] && forall i :: 0 <= i < |pieces| ==> pieces[i] != ""
    requires forall i :: 0 <= i < |pieces| - 1 ==> !EndsLine(pieces[i])
    ensures WriteAll(d, pieces) == Write(d, Flat(pieces), true).0
    decreases pieces
  {
    var rest := pieces[1..];
    if rest == [] {
      assert Flat(pieces) == pieces[0] + Flat([]) == pieces[0];
    } else {
      var d1 := Write(d, pieces[0], true).0;
      ChunkedWrite(d1, rest);
      assert Flat(rest) != "" by {
        assert rest[0] == pieces[1] && Flat(rest) == rest[0] + Flat(rest[1..]);
      }
      assert d.pending + (pieces[0] + Flat(rest)) == (d.pending + pieces[0]) + Flat(rest);
    }
  }

  /** All bytes a series of reads delivers. */
  function ReadAll(content: string, pos: nat, counts: seq<nat>): string
    decreases counts
  {
    if counts == [] then ""
    else
      var r := Read(content, pos, counts[0], counts[0]);
      r.data + ReadAll(content, r.pos, counts[1..])
  }

  lemma FullRead(content: string, pos: nat, count: nat)
    ensures var due := Due(content, pos, count);
            |due| <= count && Read(content, pos, count, count) == ReadResult(|due|, due, pos + |due|)
  {
  }

  lemma DueSplits(content: string, pos: nat, a: nat, b: nat)
    ensures var first := Due(content, pos, a);
            first + Due(content, pos + |first|, b) == Due(content, pos, a + b)
  {
    if pos + a < |content| {
      var end := Min(pos + a + b, |content|);
      assert content[pos..pos + a] + content[pos + a..end] == content[pos..end];
    }
  }

  /** Any series of reads with nothing written between delivers what one large read does. */
  lemma {:induction false} ChunkedRead(content: string, pos: nat, counts: seq<nat>)
    ensures ReadAll(content, pos, counts) == Read(content, pos, Sum(counts), Sum(counts)).data
    decreases counts
  {
    if counts == [] {
      assert Sum(counts) == 0 && Due(content, pos, 0) == "";
    } else {
      var count, rest := counts[0], counts[1..];
      var due := Due(content, pos, count);
      calc {
        ReadAll(content, pos, counts);
        { FullRead(content, pos, count); }
        due + ReadAll(content, pos + |due|, rest);
        { ChunkedRead(content, pos + |due|, rest); FullRead(content, pos + |due|, Sum(rest)); }
        due + Due(content, pos + |due|, Sum(rest));
        { DueSplits(content, pos, count, Sum(rest)); }
        Due(content, pos, count + Sum(rest));
        { FullRead(content, pos, Sum(counts)); }
        Read(content, pos, Sum(counts), Sum(counts)).data;
      }
    }
  }

  // ---- seeking ------------------------------------------------------------------

  /**
   The seek ioctl accepts exactly the places of visible commands; the accepted place is the
   one a lookup of the new position finds; and a rejected call leaves the position alone.
   */
  lemma SeekThenLocate(visible: seq<string>, pos: nat, req: SeekTo)
    ensures var (ret, p) := Ioctl(visible, pos, AESDCHAR_IOCSEEKTO, Some(req), false);
            var place := Place(req.writeCmd, req.writeCmdOffset);
            && (ret == 0 <==> ValidPlace(visible, place))
            && (ret == 0 ==> Locate(Sizes(visible), p) == Some(place) && p < |Flat(visible)|)
            && (ret != 0 ==> ret < 0 && p == pos)
  {
    var place := Place(req.writeCmd, req.writeCmdOffset);
    if ValidPlace(visible, place) {
      FlatSplit(visible, place.index);
      LocateAt(Sizes(visible), place.index, place.byte);
    }
  }

  /** Every position below the total is the position of exactly one place: the one lookup finds. */
  lemma LocateThenSeek(visible: seq<string>, pos: nat, place: Place)
    requires pos < |Flat(visible)|
    ensures ValidPlace(visible, place) && Position(visible, place) == pos
            <==> Locate(Sizes(visible), pos) == Some(place)
    ensures Locate(Sizes(visible), pos).Some?
  {
    LocateIsFlatIndex(visible, pos);
    LocateInverse(Sizes(visible), pos);
    var found := Locate(Sizes(visible), pos).value;
    FlatSplit(visible, found.index);
    if ValidPlace(visible, place) {
      FlatSplit(visible, place.index);
      LocateAt(Sizes(visible), place.index, place.byte);
    }
  }

  /** Only the seek command with a readable argument ever succeeds or moves the position. */
  lemma IoctlRejects(visible: seq<string>, pos: nat, cmd: uint32, arg: Option<SeekTo>, signal: bool)
    ensures var (ret, p) := Ioctl(visible, pos, cmd, arg, signal);
            && ret <= 0
            && (ret < 0 ==> p == pos)
            && (ret == 0 <==> && cmd == AESDCHAR_IOCSEEKTO && arg.Some? && !signal
                              && ValidPlace(visible, Place(arg.value.writeCmd, arg.value.writeCmdOffset)))
  {
  }

  /** Only the commands below `nr` 2 of type 0x16 get as far as the lock, and each failure has its own number. */
  lemma IoctlErrors(visible: seq<string>, pos: nat, cmd: uint32, arg: Option<SeekTo>, signal: bool)
    ensures var ret := Ioctl(visible, pos, cmd, arg, signal).0;
            && (cmd / 256 % 256 != 0x16 || cmd % 256 > 1 ==> ret == -25)
            && (cmd == AESDCHAR_IOCSEEKTO && signal ==> ret == -512)
            && (cmd == AESDCHAR_IOCSEEKTO && !signal && arg.None? ==> ret == -14)
            && (cmd == AESDCHAR_IOCSEEKTO && !signal && arg.Some? ==>
                  && (|visible| <= arg.value.writeCmd ==> ret == -25)
                  && (arg.value.writeCmd < |visible| && |visible[arg.value.writeCmd]| <= arg.value.writeCmdOffset ==>
                        ret == -22))
  {
  }

  /** The seek command is number 1 of type 0x16, read and written, with an argument of two 4-byte numbers. */
  lemma SeekNumber()
    ensures AESDCHAR_IOCSEEKTO == 3 * 0x4000_0000 + 8 * 0x1_0000 + 0x16 * 0x100 + 1
  {
  }

  /** The bytes of the contents from `pos` on, up to `count` of them. */
  predicate Excerpt(content: string, pos: nat, count: nat, data: string) {
    if pos >= |content| then data == ""
    else
      && pos + |data| <= |content| && data == content[pos..pos + |data|]
      && (|data| == count || (|data| < count && pos + |data| == |content|))
  }

  /**
   A read stores the bytes from its position up to its count or the end, returns how many and moves
   past them; when the buffer cannot take them all it stores as many as it can, fails and stays.
   */
  lemma ReadExact(content: string, pos: nat, count: nat, accessible: nat)
    ensures var r := Read(content, pos, count, accessible);
            if r.ret >= 0 then
              Excerpt(content, pos, count, r.data) && r.ret == |r.data| <= accessible && r.pos == pos + |r.data|
            else
              && r.ret == -14 && r.pos == pos && |r.data| == accessible < count
              && pos + accessible < |content| && r.data == content[pos..pos + accessible]
  {
    if |Due(content, pos, count)| > accessible {
      assert Due(content, pos, count)[..accessible] == content[pos..pos + accessible];
    }
  }

  /** A result that is not negative is the new position, whatever the origin; a failed seek stays. */
  lemma LlseekResult(total: nat, pos: nat, off: int, whence: int)
    ensures var (ret, p) := Llseek(total, pos, off, whence);
            && (ret >= 0 ==> p == ret)
            && (ret < 0 ==> p == pos && ret == -22)
            && (ret >= 0 ==> whence == 0 || whence == 1 || whence == 2)
  {
  }

  /** Seeking by 0 from the position tells it and keeps it; by 0 from the end tells the total. */
  lemma LlseekTells(total: nat, pos: nat)
    ensures Llseek(total, pos, 0, 1) == (pos, pos)
    ensures Llseek(total, pos, 0, 2) == (total, total)
    ensures Llseek(total, pos, 0, 0) == (0, 0)
  {
  }

  /** Relative seeks add up, from every origin, unless one of them is refused. */
  lemma LlseekAddsUp(total: nat, pos: nat, a: int, b: int, whence: int)
    requires Llseek(total, pos, a, whence).0 >= 0
    ensures Llseek(total, Llseek(total, pos, a, whence).1, b, 1).0 == Llseek(total, pos, a + b, whence).0
    ensures Llseek(total, pos, a + b, whence).0 >= 0 ==>
              Llseek(total, Llseek(total, pos, a, whence).1, b, 1) == Llseek(total, pos, a + b, whence)
  {
  }

  /** A seek is refused exactly when it would lead before the front, or from no known origin. */
  lemma LlseekRefuses(total: nat, pos: nat, off: int)
    ensures Llseek(total, pos, off, 0).0 < 0 <==> off < 0
    ensures Llseek(total, pos, off, 1).0 < 0 <==> pos + off < 0
    ensures Llseek(total, pos, off, 2).0 < 0 <==> total + off < 0
    ensures forall whence :: whence < 0 || 2 < whence ==> Llseek(total, pos, off, whence) == (-22, pos)
  {
  }

  /** A read after a seek that lands on `p`, from any origin, returns the contents from `p` on. */
  lemma SeekThenRead(content: string, pos: nat, off: int, whence: int, count: nat)
    requires Llseek(|content|, pos, off, whence).0 >= 0
    ensures var p := if whence == 0 then off else if whence == 1 then pos + off else |content| + off;
            var r := Read(content, Llseek(|content|, pos, off, whence).1, count, count);
            p >= 0 && Excerpt(content, p, count, r.data) && r.ret == |r.data| && r.pos == p + |r.data|
  {
  }

  /**
   Seeking to `k` bytes before the end and reading at least `k` returns the last `k` bytes; seeking
   past the end is accepted, and nothing is read there.
   */
  lemma SeekEndThenRead(content: string, pos: nat, k: int, count: nat)
    requires k <= |content| && k <= count
    ensures var (ret, p) := Llseek(|content|, pos, 0 - k, 2);
            var r := Read(content, p, count, count);
            && ret == |content| - k == p
            && r == if k >= 0 then ReadResult(k, content[|content| - k..], |content|)
                    else ReadResult(0, "", |content| - k)
  {
  }
}
