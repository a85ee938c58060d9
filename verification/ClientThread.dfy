/** One client's thread: framing what recv brings, storing or seeking, and answering. */
module ClientThreads {
  import opened Streams
  import opened DeviceSpec
  import opened DeviceLaws
  import opened AesdDevices
  import opened SeekParsers
  import opened Stdio
  import opened Servers

  // ---- storing a packet ---------------------------------------------------------

  /** All bytes the device was ever given and still counts: the stream and what is pending. */
  function Stored(d: Device): string { Stream(d) + d.pending }

  predicate NonEmpty(pieces: seq<string>) { forall i :: 0 <= i < |pieces| ==> pieces[i] != "" }

  lemma {:induction false} WriteAllPush(d: Device, pieces: seq<string>, piece: string)
    ensures WriteAll(d, pieces + [piece]) == Write(WriteAll(d, pieces), piece, true).0
    decreases pieces
  {
    if pieces == [] {
      assert [] + [piece] == [piece] && [piece][1..] == [];
      assert WriteAll(Write(d, piece, true).0, []) == Write(d, piece, true).0;
    } else {
      assert (pieces + [piece])[1..] == pieces[1..] + [piece];
      WriteAllPush(Write(d, pieces[0], true).0, pieces[1..], piece);
    }
  }

  /** However a packet is cut into writes, its bytes are added to the store, in order. */
  lemma {:induction false} PiecesAreStored(d: Device, pieces: seq<string>)
    requires NonEmpty(pieces)
    ensures Stored(WriteAll(d, pieces)) == Stored(d) + Flat(pieces)
    ensures d.history <= WriteAll(d, pieces).history
    decreases pieces
  {
    if pieces == [] {
      assert Stored(d) + "" == Stored(d);
    } else {
      var d1 := Write(d, pieces[0], true).0;
      FlatPush(d.history, d.pending + pieces[0]);
      assert Stored(d1) == Stored(d) + pieces[0];
      PiecesAreStored(d1, pieces[1..]);
    }
  }

  /**
   How storing a packet goes: whether the device opens, whether printing and closing succeed,
   how many bytes get through when one of them does not, and the lengths of the writes the
   stream makes of the text.
   */
  datatype Storing = Storing(opens: bool, printed: bool, closes: bool, reached: nat, cuts: seq<nat>)

  /** The stream's buffered output, written out in pieces. */
  method WriteOut(driver: AesdDevice, text: string, cuts: seq<nat>) returns (ghost pieces: seq<string>)
    requires driver.Valid()
    modifies driver, driver.data, driver.data.entry, driver.heap
    ensures driver.Valid() && driver.dev == WriteAll(old(driver.dev), pieces)
    ensures NonEmpty(pieces) && Flat(pieces) == text
  {
    pieces := [];
    var done, turn := 0, 0;
    while done < |text|
      invariant driver.Valid() && driver.dev == WriteAll(old(driver.dev), pieces)
      invariant done <= |text| && NonEmpty(pieces) && Flat(pieces) == text[..done]
      decreases |text| - done
    {
      var size := |text| - done;
      if turn < |cuts| && 0 < cuts[turn] < size {
        size := cuts[turn];
      }
      var piece := text[done..done + size];
      var _ := driver.Write(piece, true, false);
      WriteAllPush(old(driver.dev), pieces, piece);
      FlatPush(pieces, piece);
      assert text[..done + size] == text[..done] + piece;
      pieces := pieces + [piece];
      done, turn := done + size, turn + 1;
    }
    assert text[..done] == text;
  }

  /** Appends a text to the device through a stream. */
  method Append(driver: AesdDevice, text: string, luck: Storing) returns (ok: bool, ghost pieces: seq<string>)
    requires driver.Valid()
    modifies driver, driver.data, driver.data.entry, driver.heap
    ensures driver.Valid() && driver.dev == WriteAll(old(driver.dev), pieces)
    ensures NonEmpty(pieces) && Flat(pieces) <= text
    ensures ok <==> StoringWorks(luck)
    ensures ok ==> Flat(pieces) == text
    ensures !luck.opens ==> pieces == []
  {
    if !luck.opens {
      return false, [];
    }
    var through := if luck.printed && luck.closes then |text| else Min(luck.reached, |text|);
    pieces := WriteOut(driver, text[..through], luck.cuts);
    if !luck.printed {
      return false, pieces;
    }
    if !luck.closes {
      return false, pieces;
    }
    ok := true;
  }

  // ---- one packet ---------------------------------------------------------------

  /** The numbers a packet gives: -1 for one it does not have. */
  function CmdOffs(packet: string, unfit: int -> Int32): Int32 {
    var req := Request(CStr(packet));
    if req.Zero? then -1 else ToInt(req.first, unfit)
  }

  function CmdInd(packet: string, unfit: int -> Int32): Int32 {
    var req := Request(CStr(packet));
    if req.Two? then ToInt(req.second, unfit) else -1
  }

  predicate IsSeekPacket(packet: string) { Request(CStr(packet)).Two? }

  /**
   What became of one packet: the device before and after, the pieces written, the result
   and the bytes sent back.
   */
  datatype Exchange = Exchange(packet: string, before: Device, after: Device, pieces: seq<string>,
                               res: int, reply: string)

  /** The whole answer the packet is due, None when its seek is refused. */
  function DueReply(e: Exchange, capacity: nat, unfit: int -> Int32): Option<string> {
    Reply(Visible(e.after, capacity), CmdOffs(e.packet, unfit), CmdInd(e.packet, unfit))
  }

  /** What the store has got from a packet: nothing of a seek packet, all of another unless storing failed. */
  predicate KeptFrom(packet: string, pieces: seq<string>, before: Device, after: Device, ok: bool) {
    && NonEmpty(pieces) && after == WriteAll(before, pieces)
    && Flat(pieces) <= CStr(packet)
    && (IsSeekPacket(packet) ==> pieces == [])
    && (ok && !IsSeekPacket(packet) ==> Flat(pieces) == CStr(packet))
  }

  /** What every exchange keeps to, whatever fails. */
  predicate Handled(e: Exchange, capacity: nat, unfit: int -> Int32) {
    && '\n' in CStr(e.packet)
    && KeptFrom(e.packet, e.pieces, e.before, e.after, e.res != -2)
    && e.res in {0, -2, -3}
    && match DueReply(e, capacity, unfit)
       case None => e.reply == "" && e.res == -2
       case Some(due) => e.reply <= due && (e.res == 0 ==> e.reply == due) && (e.reply != "" ==> StoredWhole(e))
  }

  /** Nothing of the packet failed to be stored. */
  predicate StoredWhole(e: Exchange) {
    IsSeekPacket(e.packet) || Flat(e.pieces) == CStr(e.packet)
  }

  predicate StoringWorks(luck: Storing) { luck.opens && luck.printed && luck.closes }

  /** A piece of the stream as recv brings it, and how the calls made for it go. */
  datatype Arrival = Arrival(data: string, reallocOk: bool, store: Storing, answer: Replying)

  predicate Fine(a: Arrival) {
    && a.reallocOk && StoringWorks(a.store)
    && a.answer.opens && a.answer.closes
  }

  /**
   Each failure has its result, and none comes from nothing: a packet that was to be stored and was
   not, or a device that does not open, sends nothing and gives -2; while no send fails, the result is
   0 exactly when all file operations succeed and a seek is not refused.
   */
  predicate FailsFor(e: Exchange, a: Arrival, schedule: seq<int>, capacity: nat, unfit: int -> Int32) {
    var stored := IsSeekPacket(e.packet) || (a.store.opens && a.store.printed && a.store.closes);
    && (!stored || !a.answer.opens ==> e.res == -2 && e.reply == "")
    && (e.res == 0 ==> stored && a.answer.opens && a.answer.closes)
    && ((forall i :: 0 <= i < |schedule| ==> schedule[i] >= 0) ==>
          e.res == if stored && a.answer.opens && a.answer.closes && DueReply(e, capacity, unfit).Some? then 0 else -2)
  }

  /** Stores the packet unless it is a seek request, and finds the numbers it gives. */
  method Keep(driver: AesdDevice, packet: string, luck: Storing, unfit: int -> Int32)
    returns (ok: bool, cmdOffs: Int32, cmdInd: Int32, ghost pieces: seq<string>)
    requires driver.Valid()
    modifies driver, driver.data, driver.data.entry, driver.heap
    ensures driver.Valid() && KeptFrom(packet, pieces, old(driver.dev), driver.dev, ok)
    ensures cmdOffs == CmdOffs(packet, unfit) && cmdInd == CmdInd(packet, unfit)
    ensures IsSeekPacket(packet) || StoringWorks(luck) <==> ok
  {
    hide AesdDevice.Valid, Request, CStr, ToInt;
    var isSeek;
    isSeek, cmdOffs, cmdInd := IsSeek(CStr(packet), -1, -1, unfit);
    if isSeek {
      ok, pieces := true, [];
    } else {
      ok, pieces := Append(driver, CStr(packet), luck);
    }
  }

  /** Stores the packet unless it is a seek request, then answers. */
  method Handle(driver: AesdDevice, client: Socket, packet: string, a: Arrival, blockSize: nat, unfit: int -> Int32)
    returns (res: int, ghost e: Exchange)
    requires driver.Valid() && 0 < blockSize && '\n' in CStr(packet)
    modifies driver, driver.data, driver.data.entry, driver.heap, client
    ensures driver.Valid() && Handled(e, driver.Capacity(), unfit)
    ensures e.packet == packet && e.before == old(driver.dev) && e.after == driver.dev && e.res == res
    ensures client.sent == old(client.sent) + e.reply
    ensures StoringWorks(a.store) ==> StoredWhole(e)
    ensures FailsFor(e, a, old(client.schedule), driver.Capacity(), unfit)
    ensures Healthy(old(client.schedule)) ==> Healthy(client.schedule)
    ensures Fine(a) && Healthy(old(client.schedule)) ==>
              res == if DueReply(e, driver.Capacity(), unfit).None? then -2 else 0
  {
    hide AesdDevice.Valid, Visible, CmdOffs, CmdInd, IsSeekPacket, CStr, Reply, Flat, WriteAll;
    ghost var before, sent := driver.dev, client.sent;
    var ok, cmdOffs, cmdInd;
    ghost var pieces;
    ok, cmdOffs, cmdInd, pieces := Keep(driver, packet, a.store, unfit);
    res := -2;
    if ok {
      res := Respond(driver, client, cmdOffs, cmdInd, a.answer, blockSize);
    }
    e := Exchange(packet, before, driver.dev, pieces, res, client.sent[|sent|..]);
  }

  // ---- the whole connection -----------------------------------------------------

  function Packets(log: seq<Exchange>): (p: seq<string>)
    ensures |p| == |log| && forall i :: 0 <= i < |p| ==> p[i] == log[i].packet
  {
    seq(|log|, i requires 0 <= i < |log| => log[i].packet)
  }

  function Replies(log: seq<Exchange>): (r: seq<string>)
    ensures |r| == |log| && forall i :: 0 <= i < |r| ==> r[i] == log[i].reply
  {
    seq(|log|, i requires 0 <= i < |log| => log[i].reply)
  }

  /** The bytes taken in from the arrivals: those of a failed realloc are lost. */
  function Received(arrivals: seq<Arrival>): string {
    if arrivals == [] then ""
    else
      var a := arrivals[|arrivals| - 1];
      Received(arrivals[..|arrivals| - 1]) + (if a.reallocOk then a.data else "")
  }

  /**
   The packets the arrivals are framed into, and what is left: the buffer is a packet as soon as
   the C string in it has a newline.
   */
  function Framing(arrivals: seq<Arrival>): (seq<string>, string) {
    if arrivals == [] then ([], "")
    else
      var a := arrivals[|arrivals| - 1];
      var (packets, left) := Framing(arrivals[..|arrivals| - 1]);
      var buf := left + (if a.reallocOk then a.data else "");
      if '\n' in CStr(buf) then (packets + [buf], "") else (packets, buf)
  }

  /** Framing loses, repeats and reorders nothing. */
  lemma {:induction false} FramingConserves(arrivals: seq<Arrival>)
    ensures var (packets, left) := Framing(arrivals);
            && Received(arrivals) == Flat(packets) + left
            && '\n' !in CStr(left)
            && forall i :: 0 <= i < |packets| ==> '\n' in CStr(packets[i])
  {
    assert CStr("") == "";
    if arrivals == [] {
      return;
    }
    hide CStr, Flat;
    var k := |arrivals| - 1;
    FramingConserves(arrivals[..k]);
    var (packets, left) := Framing(arrivals[..k]);
    var more := if arrivals[k].reallocOk then arrivals[k].data else "";
    FlatMore(packets, left, more);
  }

  lemma FlatMore(packets: seq<string>, left: string, more: string)
    ensures (Flat(packets) + left) + more == Flat(packets) + (left + more)
    ensures (Flat(packets) + left) + more == Flat(packets + [left + more]) + ""
  {
    FlatPush(packets, left + more);
  }

  /** The bytes received become a packet, all of them, with the arrival that brings a newline, and not before. */
  lemma {:induction false} FirstPacket(arrivals: seq<Arrival>)
    requires forall k :: 0 <= k < |arrivals| ==> '\n' !in CStr(Received(arrivals[..k]))
    ensures Framing(arrivals)
         == if '\n' in CStr(Received(arrivals)) then ([Received(arrivals)], "") else ([], Received(arrivals))
  {
    assert CStr("") == "";
    if arrivals != [] {
      var k := |arrivals| - 1;
      var front := arrivals[..k];
      forall j | 0 <= j < |front| ensures '\n' !in CStr(Received(front[..j])) {
        assert front[..j] == arrivals[..j];
      }
      FirstPacket(front);
      hide CStr;
      assert Framing(front) == ([], Received(front));
      var none: seq<string> := [];
      assert none + [Received(arrivals)] == [Received(arrivals)];
    }
  }

  /** After a packet, framing starts anew. */
  lemma {:induction false} NextPackets(a: seq<Arrival>, b: seq<Arrival>)
    requires Framing(a).1 == ""
    ensures Framing(a + b) == (Framing(a).0 + Framing(b).0, Framing(b).1)
  {
    hide CStr;
    if b == [] {
      assert a + b == a && Framing(a).0 + Framing(b).0 == Framing(a).0;
    } else {
      var k := |b| - 1;
      assert (a + b)[..|a + b| - 1] == a + b[..k] && (a + b)[|a + b| - 1] == b[k];
      NextPackets(a, b[..k]);
      var (packets, left) := Framing(b[..k]);
      var buf := left + (if b[k].reallocOk then b[k].data else "");
      assert Framing(a).0 + (packets + [buf]) == (Framing(a).0 + packets) + [buf];
    }
  }

  predicate Follows(a: Exchange, b: Exchange) { a.res == 0 && b.before == a.after }

  /** Exchanges that follow each other from device `d0` to `d1`, none after one that failed. */
  predicate Conversation(log: seq<Exchange>, d0: Device, d1: Device, capacity: nat, unfit: int -> Int32) {
    && (forall i :: 0 <= i < |log| ==> Handled(log[i], capacity, unfit))
    && (forall i, j :: 0 <= i && j == i + 1 < |log| ==> Follows(log[i], log[j]))
    && (if log == [] then d0 == d1 else log[0].before == d0 && log[|log| - 1].after == d1)
  }

  /** A conversation in which nothing but a refused seek went wrong. */
  predicate Undisturbed(log: seq<Exchange>, capacity: nat, unfit: int -> Int32) {
    forall i :: 0 <= i < |log| ==> log[i].res == if DueReply(log[i], capacity, unfit).None? then -2 else 0
  }

  predicate Smooth(arrivals: seq<Arrival>) { forall i :: 0 <= i < |arrivals| ==> Fine(arrivals[i]) }

  predicate AllStore(arrivals: seq<Arrival>) {
    forall i :: 0 <= i < |arrivals| ==> StoringWorks(arrivals[i].store)
  }

  /** Every packet was stored as far as it was to be. */
  predicate AllWhole(log: seq<Exchange>) {
    forall i :: 0 <= i < |log| ==> StoredWhole(log[i])
  }

  lemma EmptyLog(arrivals: seq<Arrival>, d: Device, capacity: nat, unfit: int -> Int32)
    ensures Framing(arrivals[..0]) == (Packets([]), "") && Flat(Replies([])) == ""
    ensures Conversation([], d, d, capacity, unfit) && Undisturbed([], capacity, unfit) && AllWhole([])
  {
    assert Packets([]) == [] && Replies([]) == [];
  }

  lemma FramingStep(arrivals: seq<Arrival>, i: nat, packets: seq<string>, left: string)
    requires i < |arrivals| && Framing(arrivals[..i]) == (packets, left)
    ensures var buf := if arrivals[i].reallocOk then left + arrivals[i].data else left;
            Framing(arrivals[..i + 1]) == if '\n' in CStr(buf) then (packets + [buf], "") else (packets, buf)
    ensures Smooth(arrivals) ==> Fine(arrivals[i])
    ensures AllStore(arrivals) ==> StoringWorks(arrivals[i].store)
  {
    assert arrivals[..i + 1][..i] == arrivals[..i];
    assert left + "" == left;
  }

  lemma LogPush(log: seq<Exchange>, e: Exchange, d0: Device, capacity: nat, unfit: int -> Int32)
    requires Conversation(log, d0, e.before, capacity, unfit) && Handled(e, capacity, unfit)
    requires log == [] || log[|log| - 1].res == 0
    ensures Conversation(log + [e], d0, e.after, capacity, unfit)
    ensures Undisturbed(log, capacity, unfit)
            && e.res == (if DueReply(e, capacity, unfit).None? then -2 else 0)
            ==> Undisturbed(log + [e], capacity, unfit)
    ensures AllWhole(log) && StoredWhole(e) ==> AllWhole(log + [e])
  {
    hide Handled, DueReply, StoredWhole;
  }

  lemma BytesPush(log: seq<Exchange>, e: Exchange, sent: string)
    ensures Packets(log + [e]) == Packets(log) + [e.packet]
    ensures sent + Flat(Replies(log + [e])) == (sent + Flat(Replies(log))) + e.reply
  {
    assert Packets(log + [e]) == Packets(log) + [e.packet];
    assert Replies(log + [e]) == Replies(log) + [e.reply];
    FlatPush(Replies(log), e.reply);
    var front := Flat(Replies(log));
    hide *;
    assert sent + (front + e.reply) == (sent + front) + e.reply;
  }

  /**
   The thread's loop over all that arrives until the connection closes (`closing` is 0) or
   fails (`closing` is negative). `sigterm` is whether the thread asks the server to stop.
   */
  method ClientThread(driver: AesdDevice, client: Socket, arrivals: seq<Arrival>, closing: int, blockSize: nat,
                      unfit: int -> Int32)
    returns (n: int, sigterm: bool, ghost log: seq<Exchange>, ghost left: string, ghost used: nat)
    requires driver.Valid() && 0 < blockSize && closing <= 0
    requires forall i :: 0 <= i < |arrivals| ==> arrivals[i].data != ""
    modifies driver, driver.data, driver.data.entry, driver.heap, client
    ensures driver.Valid() && Conversation(log, old(driver.dev), driver.dev, driver.Capacity(), unfit)
    ensures client.sent == old(client.sent) + Flat(Replies(log))
    ensures used <= |arrivals| && Framing(arrivals[..used]) == (Packets(log), left)
    ensures Received(arrivals[..used]) == Flat(Packets(log)) + left
    ensures '\n' !in CStr(left)
    ensures if log == [] || log[|log| - 1].res == 0 then n == closing && used == |arrivals|
            else n == log[|log| - 1].res && left == ""
    ensures sigterm <==> n == -2
    ensures AllStore(arrivals) ==> AllWhole(log)
    ensures Smooth(arrivals) && Healthy(old(client.schedule)) ==>
              Undisturbed(log, driver.Capacity(), unfit)
  {
    hide *;
    n, log := closing, [];
    var recvBuffer := "";
    ghost var sent := client.sent;
    var i := 0;
    EmptyLog(arrivals, driver.dev, driver.Capacity(), unfit);
    while i < |arrivals|
      invariant driver.Valid() && Conversation(log, old(driver.dev), driver.dev, driver.Capacity(), unfit)
      invariant client.sent == sent + Flat(Replies(log))
      invariant i <= |arrivals| && Framing(arrivals[..i]) == (Packets(log), recvBuffer)
      invariant n == closing && (log == [] || log[|log| - 1].res == 0)
      invariant AllStore(arrivals) ==> AllWhole(log)
      invariant Smooth(arrivals) && Healthy(old(client.schedule)) ==>
                  Undisturbed(log, driver.Capacity(), unfit) && Healthy(client.schedule)
    {
      var a := arrivals[i];
      FramingStep(arrivals, i, Packets(log), recvBuffer);
      i := i + 1;
      if a.reallocOk {
        recvBuffer := recvBuffer + a.data;
      }
      if '\n' in CStr(recvBuffer) {
        var res;
        ghost var e;
        res, e := Handle(driver, client, recvBuffer, a, blockSize, unfit);
        LogPush(log, e, old(driver.dev), driver.Capacity(), unfit);
        BytesPush(log, e, sent);
        log := log + [e];
        recvBuffer := "";
        if res != 0 {
          n := res;
          break;
        }
      }
    }
    left, used := recvBuffer, i;
    FramingConserves(arrivals[..i]);
    sigterm := n == -2;
  }
}
