/** Server and driver together: what a client that sends one line gets, whatever recv and send cut up. */
module Sessions {
  import opened Streams
  import opened DeviceSpec
  import opened DeviceLaws
  import opened AesdDevices
  import opened SeekParsers
  import opened Stdio
  import opened Servers
  import opened ClientThreads
  import opened ServerLaws

  lemma OneReply(log: seq<Exchange>)
    requires |log| == 1
    ensures Flat(Replies(log)) == log[0].reply
  {
    assert Replies(log) == [log[0].reply];
    FlatPush([], log[0].reply);
    assert [] + [log[0].reply] == [log[0].reply] && "" + log[0].reply == log[0].reply;
  }

  lemma WantedIsNulFree(d: Device, capacity: nat, p: Place)
    requires NulFree(Stored(d)) && ValidPlace(Visible(d, capacity), p)
    ensures var visible := Visible(d, capacity);
            NulFree(visible[p.index][p.byte..] + Flat(visible[p.index + 1..]))
  {
    FromPlace(Visible(d, capacity), p);
    NulFreeContents(d, capacity, Position(Visible(d, capacity), p));
  }

  /**
   The seek request for offset `y` of the `x`-th retained command. Nothing is stored. A valid place
   gets the bytes from there to the end, which the server's own packets never cut short (if some
   other writer stored a NUL, each piece goes up to its first); any other place gets nothing and
   asks the server to stop.
   */
  method SeekSession(driver: AesdDevice, client: Socket, x: nat, y: nat, arrivals: seq<Arrival>, blockSize: nat,
                     unfit: int -> Int32)
    returns (n: int, sigterm: bool)
    requires driver.Valid() && 0 < blockSize && x < 0x8000_0000 && y < 0x8000_0000
    requires Received(arrivals) == WireForm(x, y) && Smooth(arrivals) && Healthy(client.schedule)
    requires forall i :: 0 <= i < |arrivals| ==> arrivals[i].data != ""
    modifies driver, driver.data, driver.data.entry, driver.heap, client
    ensures driver.Valid() && driver.dev == old(driver.dev)
    ensures var visible := Visible(driver.dev, driver.Capacity());
            if ValidPlace(visible, Place(x, y)) then
              var wanted := visible[x][y..] + Flat(visible[x + 1..]);
              && n == 0 && !sigterm
              && (NulFree(Stored(driver.dev)) ==> client.sent == old(client.sent) + wanted)
              && client.sent == old(client.sent) + ReplyText(wanted)
            else n == -2 && sigterm && client.sent == old(client.sent)
  {
    hide AesdDevice.Valid, Visible, Conversation, WireForm, ReplyText, CStr, Flat, NulFree, Received, Smooth, Healthy;
    ghost var d, visible := driver.dev, Visible(driver.dev, driver.Capacity());
    ghost var log, left, used;
    n, sigterm, log, left, used := ClientThread(driver, client, arrivals, 0, blockSize, unfit);
    WireFormIsLine(x, y);
    UsedAll(log, arrivals, used, left, WireForm(x, y), d, driver.dev, driver.Capacity(), unfit);
    SeekEndToEnd(x, y, log, left, d, driver.dev, driver.Capacity(), unfit);
    OneReply(log);
    assert client.sent == old(client.sent) + log[0].reply;
    if ValidPlace(visible, Place(x, y)) && NulFree(Stored(d)) {
      WantedIsNulFree(d, driver.Capacity(), Place(x, y));
    }
  }

  lemma {:induction false} ReceivedPrefix(arrivals: seq<Arrival>, used: nat)
    requires used <= |arrivals|
    ensures Received(arrivals[..used]) <= Received(arrivals)
  {
    if used == |arrivals| {
      assert arrivals[..used] == arrivals;
    } else {
      var k := |arrivals| - 1;
      ReceivedPrefix(arrivals[..k], used);
      assert arrivals[..k][..used] == arrivals[..used];
    }
  }

  /** A line is complete once a packet was found in it, so a session over it takes in all of it. */
  lemma UsedAll(log: seq<Exchange>, arrivals: seq<Arrival>, used: nat, left: string, line: string,
                d0: Device, d1: Device, capacity: nat, unfit: int -> Int32)
    requires used <= |arrivals| && Received(arrivals[..used]) == Flat(Packets(log)) + left
    requires Conversation(log, d0, d1, capacity, unfit)
    requires Received(arrivals) == line && Line(line)
    requires used == |arrivals| || log != []
    ensures line == Flat(Packets(log)) + left
  {
    if used == |arrivals| {
      assert arrivals[..used] == arrivals;
      return;
    }
    ReceivedPrefix(arrivals, used);
    PacketsHaveNewlines(log, d0, d1, capacity, unfit);
    hide Conversation, Handled, Received, CStr, Flat, Packets;
    FoundLine(Packets(log), left, line);
  }

  lemma FoundLine(packets: seq<string>, left: string, line: string)
    requires packets != [] && '\n' in CStr(packets[0]) && Flat(packets) + left <= line && Line(line)
    ensures Flat(packets) + left == line
  {
    var p := packets[0];
    FlatFirst(packets, left);
    hide Flat;
    assert p <= Flat(packets) + left;
    NewlineEnds(line, p);
  }

  /** A line written in any non-empty pieces is committed as one command, with what was pending. */
  lemma {:induction false} LineIsOneCommand(d: Device, pieces: seq<string>, line: string)
    requires Line(line) && Flat(pieces) == line && NonEmpty(pieces)
    ensures WriteAll(d, pieces) == Device(d.history + [d.pending + line], "")
  {
    forall i | 0 <= i < |pieces| - 1 ensures !EndsLine(pieces[i]) {
      FlatSplit(pieces, i);
      var before, after := Flat(pieces[..i]), Flat(pieces[i + 1..]);
      assert pieces[i + 1..][0] == pieces[i + 1] && after != "";
      var k := |before| + |pieces[i]| - 1;
      assert line == before + (pieces[i] + after) && line[k] == pieces[i][|pieces[i]| - 1];
    }
    ChunkedWrite(d, pieces);
  }

  predicate EndsWith(content: string, end: string) {
    |end| <= |content| && content[|content| - |end|..] == end
  }

  /** The newest command is the end of the contents. */
  lemma NewestIsLast(history: seq<string>, c: string, n: nat)
    requires 0 < n
    ensures var content := Contents(Device(history + [c], ""), n);
            EndsWith(content, c)
  {
    PushLastN(history, c, n);
    var v := LastN(history, n);
    FlatPush(if |v| < n then v else v[1..], c);
  }

  lemma EndOfEnd(content: string, a: string, b: string)
    requires EndsWith(content, a + b)
    ensures EndsWith(content, b)
  {
    assert content[|content| - |b|..] == (a + b)[|a|..];
  }

  /**
   Any other line, however recv, stdio and send cut it up: it is committed as one command, after
   what was pending, and all the contents are sent back, which end with the line. The reply is
   exact over a store without NULs, which this line leaves without.
   */
  method LineSession(driver: AesdDevice, client: Socket, line: string, arrivals: seq<Arrival>, blockSize: nat,
                     unfit: int -> Int32)
    returns (n: int, sigterm: bool)
    requires driver.Valid() && 0 < blockSize && Line(line) && !IsSeekPacket(line)
    requires Received(arrivals) == line && Smooth(arrivals) && Healthy(client.schedule)
    requires forall i :: 0 <= i < |arrivals| ==> arrivals[i].data != ""
    modifies driver, driver.data, driver.data.entry, driver.heap, client
    ensures driver.Valid() && n == 0 && !sigterm
    ensures driver.dev == Device(old(driver.dev).history + [old(driver.dev).pending + line], "")
    ensures var content := Contents(driver.dev, driver.Capacity());
            && EndsWith(content, line)
            && (NulFree(Stored(old(driver.dev))) ==>
                  client.sent == old(client.sent) + content && NulFree(Stored(driver.dev)))
            && client.sent == old(client.sent) + ReplyText(content)
  {
    hide AesdDevice.Valid, Contents, Conversation, ReplyText, CStr, Flat, Received, Smooth, Healthy, Handled;
    hide Stored, NulFree, EndsWith;
    ghost var d := driver.dev;
    ghost var log, left, used;
    assert 0 < driver.Capacity() by { HasRoom(driver); }
    n, sigterm, log, left, used := ClientThread(driver, client, arrivals, 0, blockSize, unfit);
    UsedAll(log, arrivals, used, left, line, d, driver.dev, driver.Capacity(), unfit);
    LineIsOnePacket(log, line, left, d, driver.dev, driver.Capacity(), unfit);
    OneReply(log);
    LineExchange(log[0], line, driver.Capacity(), unfit);
  }

  lemma HasRoom(driver: AesdDevice)
    requires driver.Valid()
    ensures 0 < driver.Capacity()
  {
  }

  /** An exchange over a line that is no seek request, and in which nothing went wrong. */
  lemma LineExchange(e: Exchange, line: string, capacity: nat, unfit: int -> Int32)
    requires Handled(e, capacity, unfit) && e.packet == line && Line(line) && CStr(line) == line && 0 < capacity
    requires !IsSeekPacket(line) && e.res == if DueReply(e, capacity, unfit).None? then -2 else 0
    ensures e.res == 0 && e.after == Device(e.before.history + [e.before.pending + line], "")
    ensures var content := Contents(e.after, capacity);
            && EndsWith(content, line)
            && e.reply == ReplyText(content)
            && (NulFree(Stored(e.before)) ==> e.reply == content && NulFree(Stored(e.after)))
  {
    LineStored(e, line, capacity, unfit);
    hide Contents, ReplyText, NulFree, Stored, Line, Flat, KeptFrom, CStr, DueReply, EndsWith;
    NoPlaceNoSeek(e, capacity, unfit);
    LineAtEnd(e.before.history, e.before.pending, line, capacity);
    if NulFree(Stored(e.before)) {
      ExchangeStaysNulFree(e, capacity, unfit);
      ExactReply(e.after, capacity);
    }
  }

  lemma LineStored(e: Exchange, line: string, capacity: nat, unfit: int -> Int32)
    requires Handled(e, capacity, unfit) && e.packet == line && Line(line) && CStr(line) == line
    requires !IsSeekPacket(line) && e.res == if DueReply(e, capacity, unfit).None? then -2 else 0
    ensures e.res == 0 && e.after == Device(e.before.history + [e.before.pending + line], "")
  {
    hide ReplyText, NulFree, Line, Flat, CStr;
    assert KeptFrom(e.packet, e.pieces, e.before, e.after, true);
    LineIsOneCommand(e.before, e.pieces, line);
  }

  lemma ExactReply(d: Device, capacity: nat)
    requires NulFree(Stored(d))
    ensures ReplyText(Contents(d, capacity)) == Contents(d, capacity)
  {
    hide Contents, ReplyText, NulFree, Stored;
    NulFreeContents(d, capacity, 0);
    var content := Contents(d, capacity);
    assert Tail(content, 0) == content;
    ReplyIsExact(content);
  }

  /** The contents end with the line just committed. */
  lemma LineAtEnd(history: seq<string>, pending: string, line: string, n: nat)
    requires 0 < n
    ensures var content := Contents(Device(history + [pending + line], ""), n);
            EndsWith(content, line)
  {
    var c := pending + line;
    NewestIsLast(history, c, n);
    hide Contents;
    EndOfEnd(Contents(Device(history + [c], ""), n), pending, line);
  }
}
