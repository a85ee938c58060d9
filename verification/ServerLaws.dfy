/** What a conversation with a client amounts to: conservation of its bytes, and the seek request end to end. */
module ServerLaws {
  import opened Streams
  import opened DeviceSpec
  import opened DeviceLaws
  import opened SeekParsers
  import opened Stdio
  import opened Servers
  import opened ClientThreads

  // ---- conservation -------------------------------------------------------------

  /** What each exchange stored. */
  function Writes(log: seq<Exchange>): (w: seq<string>)
    ensures |w| == |log| && forall i :: 0 <= i < |w| ==> w[i] == Flat(log[i].pieces)
  {
    seq(|log|, i requires 0 <= i < |log| => Flat(log[i].pieces))
  }

  /** Where the bytes of a packet went: into the store, or into a recognised seek request. */
  function Account(e: Exchange): string {
    if IsSeekPacket(e.packet) then e.packet else Flat(e.pieces)
  }

  function Accounts(log: seq<Exchange>): (a: seq<string>)
    ensures |a| == |log| && forall i :: 0 <= i < |a| ==> a[i] == Account(log[i])
  {
    seq(|log|, i requires 0 <= i < |log| => Account(log[i]))
  }

  lemma LastExchange(log: seq<Exchange>, d0: Device, d1: Device, capacity: nat, unfit: int -> Int32)
    requires Conversation(log, d0, d1, capacity, unfit) && log != []
    ensures var k := |log| - 1;
            && Conversation(log[..k], d0, log[k].before, capacity, unfit)
            && NonEmpty(log[k].pieces) && d1 == WriteAll(log[k].before, log[k].pieces)
  {
    hide CStr, WriteAll, DueReply, Flat;
    var k := |log| - 1;
    assert Handled(log[k], capacity, unfit);
    if k > 0 {
      assert Follows(log[k - 1], log[k]);
    }
  }

  /** Nothing but what the exchanges stored reaches the device, in the order of the packets. */
  lemma {:induction false} StoredInOrder(log: seq<Exchange>, d0: Device, d1: Device, capacity: nat, unfit: int -> Int32)
    requires Conversation(log, d0, d1, capacity, unfit)
    ensures Stored(d1) == Stored(d0) + Flat(Writes(log))
  {
    if log == [] {
      assert Writes(log) == [] && Flat([]) == "";
      assert Stored(d0) + "" == Stored(d0);
      return;
    }
    LastExchange(log, d0, d1, capacity, unfit);
    hide Conversation, Stored, WriteAll, Flat, NonEmpty, Writes;
    var front, e := log[..|log| - 1], log[|log| - 1];
    StoredInOrder(front, d0, e.before, capacity, unfit);
    StoredPush(front, e, d0, d1);
    assert log == front + [e];
  }

  lemma {:induction false} StoredPush(front: seq<Exchange>, e: Exchange, d0: Device, d1: Device)
    requires Stored(e.before) == Stored(d0) + Flat(Writes(front))
    requires NonEmpty(e.pieces) && d1 == WriteAll(e.before, e.pieces)
    ensures Stored(d1) == Stored(d0) + Flat(Writes(front + [e]))
  {
    hide Stored, WriteAll, Flat, NonEmpty, Writes;
    PiecesAreStored(e.before, e.pieces);
    WritesPush(front, e);
    Regroup(Stored(d0), Stored(e.before), Stored(d1), Flat(Writes(front)), Flat(e.pieces), Flat(Writes(front + [e])));
  }

  lemma Regroup(s0: string, s1: string, s2: string, a: string, b: string, both: string)
    requires s1 == s0 + a && s2 == s1 + b && both == a + b
    ensures s2 == s0 + both
  {
  }

  lemma WritesPush(log: seq<Exchange>, e: Exchange)
    ensures Flat(Writes(log + [e])) == Flat(Writes(log)) + Flat(e.pieces)
  {
    assert Writes(log + [e]) == Writes(log) + [Flat(e.pieces)];
    FlatPush(Writes(log), Flat(e.pieces));
  }

  /** Parts of strings make up less than the strings unless each part is the whole. */
  lemma {:induction false} WholeParts(parts: seq<string>, wholes: seq<string>)
    requires |parts| == |wholes| && forall i :: 0 <= i < |parts| ==> parts[i] <= wholes[i]
    ensures |Flat(parts)| <= |Flat(wholes)|
    ensures |Flat(parts)| == |Flat(wholes)| ==> parts == wholes
  {
    if parts != [] {
      WholeParts(parts[1..], wholes[1..]);
      if |Flat(parts)| == |Flat(wholes)| {
        assert parts[0] == wholes[0];
        assert parts == [parts[0]] + parts[1..] && wholes == [wholes[0]] + wholes[1..];
      }
    }
  }

  /** Storing can fail only for the last packet, and has not when the result is not -2. */
  lemma StoredBeforeLast(log: seq<Exchange>, d0: Device, d1: Device, capacity: nat, unfit: int -> Int32, i: nat)
    requires Conversation(log, d0, d1, capacity, unfit) && i < |log|
    requires i + 1 < |log| || log[i].res != -2
    ensures StoredWhole(log[i])
  {
    hide CStr, Flat, WriteAll, DueReply;
    assert Handled(log[i], capacity, unfit);
    if i + 1 < |log| {
      assert Follows(log[i], log[i + 1]);
    }
  }

  /**
   Conservation: every byte received is in order and exactly once either stored, or in a
   recognised seek request, or still in the receive buffer, if and only if no stored packet has a
   NUL and storing the last one did not fail, whatever became of the replies. The store grows by
   exactly what was stored.
   */
  lemma EveryByteAccounted(log: seq<Exchange>, received: string, left: string, d0: Device, d1: Device,
                           capacity: nat, unfit: int -> Int32)
    requires Conversation(log, d0, d1, capacity, unfit)
    requires received == Flat(Packets(log)) + left
    ensures Stored(d1) == Stored(d0) + Flat(Writes(log))
    ensures received == Flat(Accounts(log)) + left
            <==> && (forall i :: 0 <= i < |log| ==> IsSeekPacket(log[i].packet) || NulFree(log[i].packet))
                 && (log == [] || StoredWhole(log[|log| - 1]))
  {
    hide Conversation, Stored, Flat, NulFree, IsSeekPacket, StoredWhole;
    StoredInOrder(log, d0, d1, capacity, unfit);
    var parts, wholes := Accounts(log), Packets(log);
    forall i | 0 <= i < |log|
      ensures parts[i] <= wholes[i]
      ensures parts[i] == wholes[i]
              <==> (IsSeekPacket(log[i].packet) || NulFree(log[i].packet)) && StoredWhole(log[i])
      ensures i + 1 < |log| ==> StoredWhole(log[i])
    {
      PartOfPacket(log, d0, d1, capacity, unfit, i);
    }
    WholeParts(parts, wholes);
    SameBefore(Flat(parts), Flat(wholes), left);
    if forall i :: 0 <= i < |log| ==> parts[i] == wholes[i] {
      assert parts == wholes;
    }
  }

  lemma SameBefore(a: string, b: string, left: string)
    ensures a + left == b + left <==> a == b
  {
    if a + left == b + left {
      assert a == (a + left)[..|a|] && b == (b + left)[..|b|];
    }
  }

  /** What a packet is accounted for by is a front part of it, and when it is all of it. */
  lemma PartOfPacket(log: seq<Exchange>, d0: Device, d1: Device, capacity: nat, unfit: int -> Int32, i: nat)
    requires Conversation(log, d0, d1, capacity, unfit) && i < |log|
    ensures Account(log[i]) <= log[i].packet
    ensures Account(log[i]) == log[i].packet
            <==> (IsSeekPacket(log[i].packet) || NulFree(log[i].packet)) && StoredWhole(log[i])
    ensures i + 1 < |log| ==> StoredWhole(log[i])
  {
    hide Flat, WriteAll, DueReply;
    assert Handled(log[i], capacity, unfit);
    if i + 1 < |log| {
      StoredBeforeLast(log, d0, d1, capacity, unfit, i);
    }
    CStrWhole(log[i].packet);
  }

  /** The NUL and what follows it are lost: the packet is stored as a shorter text. */
  lemma NulIsLost(a: Arrival, e: Exchange, capacity: nat, unfit: int -> Int32)
    requires a.data == "a\nb\0c" && a.reallocOk
    requires Handled(e, capacity, unfit) && e.packet == a.data && e.res != -2
    ensures Framing([a]) == ([a.data], "") && Received([a]) == a.data
    ensures !IsSeekPacket(a.data) && Account(e) == "a\nb" != a.data
  {
    CutAtNul();
    assert CStr(a.data)[1] == '\n';
    assert [a][..0] == [] && "" + a.data == a.data && [] + [a.data] == [a.data];
    assert Framing([]) == ([], "") && Received([]) == "";
  }

  lemma CutAtNul()
    ensures CStr("a\nb\0c") == "a\nb" && '\n' in "a\nb" && !IsSeekPacket("a\nb\0c")
  {
    var s := "a\nb\0c";
    assert s[1..] == "\nb\0c" && s[1..][1..] == "b\0c" && s[1..][1..][1..] == "\0c";
    assert "a\nb"[1] == '\n';
    assert SEEK_STR[0] == 'A';
  }

  lemma {:induction false} NulFreeFlat(parts: seq<string>)
    ensures NulFree(Flat(parts)) <==> forall i :: 0 <= i < |parts| ==> NulFree(parts[i])
  {
    if parts != [] {
      NulFreeSum(parts[0], Flat(parts[1..]));
      NulFreeFlat(parts[1..]);
      assert parts == [parts[0]] + parts[1..];
    }
  }

  /**
   A client that sends no NUL has every byte accounted for, unless storing the last packet failed,
   and no newline waits in the buffer.
   */
  lemma NulFreeStream(log: seq<Exchange>, received: string, left: string, d0: Device, d1: Device,
                      capacity: nat, unfit: int -> Int32)
    requires Conversation(log, d0, d1, capacity, unfit)
    requires received == Flat(Packets(log)) + left && '\n' !in CStr(left) && NulFree(received)
    ensures received == Flat(Accounts(log)) + left <==> log == [] || StoredWhole(log[|log| - 1])
    ensures '\n' !in left && Stored(d1) == Stored(d0) + Flat(Writes(log))
  {
    NulFreeSum(Flat(Packets(log)), left);
    NulFreeFlat(Packets(log));
    assert forall i :: 0 <= i < |log| ==> NulFree(Packets(log)[i]);
    EveryByteAccounted(log, received, left, d0, d1, capacity, unfit);
    CStrWhole(left);
  }

  // ---- the store stays free of NULs ---------------------------------------------

  /** An exchange puts no NUL into the store, whatever the client sent. */
  lemma ExchangeStaysNulFree(e: Exchange, capacity: nat, unfit: int -> Int32)
    requires Handled(e, capacity, unfit) && NulFree(Stored(e.before))
    ensures NulFree(Stored(e.after))
  {
    PiecesAreStored(e.before, e.pieces);
    NulFreeSum(Stored(e.before), Flat(e.pieces));
  }

  /** So if other writers keep NULs out of the store, it never has one. */
  lemma {:induction false} StoreStaysNulFree(log: seq<Exchange>, d0: Device, d1: Device, capacity: nat,
                                             unfit: int -> Int32)
    requires Conversation(log, d0, d1, capacity, unfit) && NulFree(Stored(d0))
    ensures NulFree(Stored(d1)) && forall i :: 0 <= i < |log| ==> NulFree(Stored(log[i].after))
  {
    if log == [] {
      return;
    }
    LastExchange(log, d0, d1, capacity, unfit);
    assert Handled(log[|log| - 1], capacity, unfit);
    hide Handled, WriteAll, Stored, NulFree, Conversation;
    StoreStaysNulFree(log[..|log| - 1], d0, log[|log| - 1].before, capacity, unfit);
    ExchangeStaysNulFree(log[|log| - 1], capacity, unfit);
    forall i | 0 <= i < |log| ensures NulFree(Stored(log[i].after)) {
      if i < |log| - 1 {
        assert log[..|log| - 1][i] == log[i];
      }
    }
  }

  /** Another writer of the device can put a NUL there, and then a reply is cut. */
  lemma ReplyIsCut(capacity: nat)
    requires 0 < capacity
    ensures var d := Write(Device([], ""), "a\0b\n", true).0;
            Contents(d, capacity) == "a\0b\n" && Reply(Visible(d, capacity), -1, -1) == Some("a")
  {
    var line := "a\0b\n";
    LineLengthFront(line, 3, BUFFER_SIZE - 1);
    assert "" + line == line && [] + [line] == [line];
    assert Write(Device([], ""), line, true).0 == Device([line], "") && Visible(Device([line], ""), capacity) == [line];
    assert Flat([line]) == line + Flat([]) == line;
    assert line[1..] == "\0b\n" && line[1..][1..] == "b\n" && line[1..][1..][1..] == "\n";
    assert CStr(line) == "a" && LineLength(line, BUFFER_SIZE - 1) == 4;
    assert line[..4] == line && line[4..] == "";
    assert ReplyText(line) == CStr(line) + ReplyText("");
    assert Tail(line, 0) == line;
  }

  /** Nothing that can be read has a NUL when the store has none. */
  lemma NulFreeContents(d: Device, capacity: nat, pos: nat)
    requires NulFree(Stored(d))
    ensures NulFree(Tail(Contents(d, capacity), pos)) && NulFree(d.pending)
  {
    ContentsAreStreamSuffix(d, capacity);
    NulFreeSum(Stream(d), d.pending);
    hide Contents, Flat;
    var stream, k := Stream(d), Evicted(d, capacity);
    assert forall i :: 0 <= i < |stream| - k ==> Contents(d, capacity)[i] == stream[k + i];
  }

  /**
   Over a store without NULs every successful reply is exactly the contents from its start on,
   whatever NULs clients send, and the store is left without NULs.
   */
  lemma RepliesAreExact(log: seq<Exchange>, d0: Device, d1: Device, capacity: nat, unfit: int -> Int32, i: nat)
    requires Conversation(log, d0, d1, capacity, unfit) && NulFree(Stored(d0)) && i < |log|
    ensures NulFree(Stored(log[i].after))
    ensures log[i].res == 0 ==>
              var e := log[i];
              var start := ReplyStart(Visible(e.after, capacity), CmdOffs(e.packet, unfit), CmdInd(e.packet, unfit));
              start.Some? && e.reply == Tail(Contents(e.after, capacity), start.value)
  {
    StoreStaysNulFree(log, d0, d1, capacity, unfit);
    var e := log[i];
    assert Handled(e, capacity, unfit);
    hide Conversation, KeptFrom, CStr, CmdOffs, CmdInd, ReplyText, NulFree, Stored, Tail, Visible;
    var start := ReplyStart(Visible(e.after, capacity), CmdOffs(e.packet, unfit), CmdInd(e.packet, unfit));
    if start.Some? {
      NulFreeContents(e.after, capacity, start.value);
      ReplyIsExact(Tail(Contents(e.after, capacity), start.value));
    }
  }

  // ---- one line, one packet -----------------------------------------------------

  /** A line: its last character is its only newline, and it has no NUL. */
  predicate Line(s: string) {
    && s != "" && NulFree(s)
    && forall i :: 0 <= i < |s| ==> (s[i] == '\n' <==> i == |s| - 1)
  }

  /** However recv cuts it up, a line sent alone becomes exactly one packet, and nothing is left. */
  lemma LineIsOnePacket(log: seq<Exchange>, line: string, left: string, d0: Device, d1: Device,
                        capacity: nat, unfit: int -> Int32)
    requires Conversation(log, d0, d1, capacity, unfit) && Line(line)
    requires line == Flat(Packets(log)) + left && '\n' !in CStr(left)
    ensures |log| == 1 && log[0].packet == line && left == "" && CStr(line) == line
    ensures log[0].before == d0 && log[0].after == d1 && Handled(log[0], capacity, unfit)
  {
    hide Conversation, Handled, CStr, Flat, Line;
    PacketsHaveNewlines(log, d0, d1, capacity, unfit);
    OnlyPacket(Packets(log), left, line);
  }

  /** Packets that each have a newline before any NUL, and make up a line with what is left, are one. */
  lemma OnlyPacket(packets: seq<string>, left: string, line: string)
    requires Line(line) && line == Flat(packets) + left && '\n' !in CStr(left)
    requires forall i :: 0 <= i < |packets| ==> packets[i] != "" && '\n' in CStr(packets[i])
    ensures |packets| == 1 && packets[0] == line && left == "" && CStr(line) == line
  {
    CStrWhole(line);
    assert line[|line| - 1] in CStr(line);
    assert packets == [] ==> line == left;
    assert packets != [];
    hide CStr, Flat;
    FlatFirst(packets, left);
    NewlineEnds(line, packets[0]);
  }

  lemma FlatFirst(packets: seq<string>, left: string)
    requires packets != []
    ensures Flat(packets) + left == packets[0] + (Flat(packets[1..]) + left)
    ensures |packets| > 1 ==> |Flat(packets)| >= |packets[0]| + |packets[1]|
  {
    var others := packets[1..];
    assert Flat(packets) == packets[0] + Flat(others);
    assert |packets| > 1 ==> Flat(others) == packets[1] + Flat(others[1..]);
    hide Flat;
    Regrouped(packets[0], Flat(others), left);
  }

  lemma Regrouped(a: string, b: string, c: string)
    ensures (a + b) + c == a + (b + c)
  {
  }

  lemma PacketsHaveNewlines(log: seq<Exchange>, d0: Device, d1: Device, capacity: nat, unfit: int -> Int32)
    requires Conversation(log, d0, d1, capacity, unfit)
    ensures forall i :: 0 <= i < |log| ==>
              Handled(log[i], capacity, unfit) && Packets(log)[i] != "" && '\n' in CStr(Packets(log)[i])
    ensures if log == [] then Packets(log) == [] && d0 == d1 else log[0].before == d0 && log[|log| - 1].after == d1
  {
    assert CStr("") == "";
  }

  /** A front part of a line that has a newline is the whole line. */
  lemma NewlineEnds(line: string, p: string)
    requires Line(line) && p <= line && '\n' in CStr(p)
    ensures p == line
  {
    var i :| 0 <= i < |CStr(p)| && CStr(p)[i] == '\n';
    assert line[i] == p[i] == '\n';
  }

  // ---- the seek request, end to end ---------------------------------------------

  lemma {:induction false} WireFormIsLine(x: nat, y: nat)
    ensures Line(WireForm(x, y))
  {
    DecimalValue(x);
    DecimalValue(y);
    hide Decimal, Value;
    var s, body := WireForm(x, y), SEEK_STR + Decimal(x) + "," + Decimal(y);
    assert s == body + "\n";
    forall i | 0 <= i < |body| ensures body[i] != '\n' && body[i] != '\0' {
      var a, b := |SEEK_STR|, |SEEK_STR| + |Decimal(x)|;
      if i < a {
        assert body[i] == SEEK_STR[i];
      } else if i < b {
        assert body[i] == Decimal(x)[i - a];
      } else if i > b {
        assert body[i] == Decimal(y)[i - b - 1];
      }
    }
  }

  /** From a visible place on, the contents are the rest of its command and the later commands. */
  lemma FromPlace(visible: seq<string>, p: Place)
    requires ValidPlace(visible, p)
    ensures Tail(Flat(visible), Position(visible, p)) == visible[p.index][p.byte..] + Flat(visible[p.index + 1..])
  {
    FlatSplit(visible, p.index);
    SplitFrom(Flat(visible[..p.index]), visible[p.index], Flat(visible[p.index + 1..]), p.byte);
  }

  /**
   A client that sends the seek request for offset `y` of the `x`-th retained command, however
   cut up, changes nothing in the store. When the place is valid, a successful exchange sends
   exactly the bytes from there to the end, as far as they have no NUL, and it succeeds unless
   a file operation or a send fails; when it is not, nothing is sent and the result is -2.
   */
  lemma SeekEndToEnd(x: nat, y: nat, log: seq<Exchange>, left: string, d0: Device, d1: Device,
                     capacity: nat, unfit: int -> Int32)
    requires x < 0x8000_0000 && y < 0x8000_0000
    requires Conversation(log, d0, d1, capacity, unfit)
    requires WireForm(x, y) == Flat(Packets(log)) + left && '\n' !in CStr(left)
    ensures d1 == d0 && |log| == 1 && left == ""
    ensures var visible, e := Visible(d0, capacity), log[0];
            if ValidPlace(visible, Place(x, y)) then
              var wanted := visible[x][y..] + Flat(visible[x + 1..]);
              && (e.res == 0 ==> e.reply == ReplyText(wanted))
              && (e.res == 0 && NulFree(wanted) ==> e.reply == wanted)
              && (Undisturbed(log, capacity, unfit) ==> e.res == 0)
            else e.reply == "" && e.res == -2
  {
    hide Conversation, WireForm, Request, ReplyText, Flat, CStr, Line, Visible;
    WireFormIsLine(x, y);
    LineIsOnePacket(log, WireForm(x, y), left, d0, d1, capacity, unfit);
    WireRoundTrip(x, y);
    SeekExchange(x, y, log[0], capacity, unfit);
  }

  /** An exchange over a packet that gives the two numbers. */
  lemma SeekExchange(x: nat, y: nat, e: Exchange, capacity: nat, unfit: int -> Int32)
    requires x < 0x8000_0000 && y < 0x8000_0000
    requires Handled(e, capacity, unfit) && Request(CStr(e.packet)) == Two(x, y)
    ensures e.after == e.before
    ensures var visible := Visible(e.before, capacity);
            if ValidPlace(visible, Place(x, y)) then
              var wanted := visible[x][y..] + Flat(visible[x + 1..]);
              && DueReply(e, capacity, unfit) == Some(ReplyText(wanted))
              && (e.res == 0 ==> e.reply == ReplyText(wanted))
              && (e.res == 0 && NulFree(wanted) ==> e.reply == wanted)
            else e.reply == "" && e.res == -2
  {
    assert WriteAll(e.before, []) == e.before;
    hide Request, ReplyText, Flat, CStr, Visible;
    var visible := Visible(e.before, capacity);
    assert CmdOffs(e.packet, unfit) == x && CmdInd(e.packet, unfit) == y;
    if ValidPlace(visible, Place(x, y)) {
      FromPlace(visible, Place(x, y));
      ReplyIsExact(visible[x][y..] + Flat(visible[x + 1..]));
    }
  }

  /**
   A packet that is no seek request, one number or none, is appended to the store, and answered
   with all the contents; so is a request with a negative number, which stores nothing. The bytes
   are stored unless storing itself fails, and a failed reply has sent a front part.
   */
  lemma NoPlaceNoSeek(e: Exchange, capacity: nat, unfit: int -> Int32)
    requires Handled(e, capacity, unfit)
    requires !IsSeekPacket(e.packet) || CmdOffs(e.packet, unfit) < 0 || CmdInd(e.packet, unfit) < 0
    ensures IsSeekPacket(e.packet) ==> e.after == e.before
    ensures !IsSeekPacket(e.packet) && StoredWhole(e) ==> Stored(e.after) == Stored(e.before) + CStr(e.packet)
    ensures e.res != -2 ==> StoredWhole(e)
    ensures e.reply <= ReplyText(Contents(e.after, capacity))
    ensures e.res == 0 ==> e.reply == ReplyText(Contents(e.after, capacity))
  {
    PiecesAreStored(e.before, e.pieces);
    assert WriteAll(e.before, []) == e.before;
    hide WriteAll, CStr, ReplyText;
    var content := Contents(e.after, capacity);
    assert Tail(content, 0) == content;
  }

  /** The numbers a packet spells, signs included, are the ones gone by, if an `int` can hold them. */
  lemma NumbersGiven(packet: string, x: int, y: int, unfit: int -> Int32)
    requires IsPacketFor(CStr(packet), x, y)
    ensures IsSeekPacket(packet)
    ensures CmdOffs(packet, unfit) == if -2147483648 <= x <= 2147483647 then x else unfit(x)
    ensures CmdInd(packet, unfit) == if -2147483648 <= y <= 2147483647 then y else unfit(y)
  {
    ParserIsGrammar(CStr(packet), x, y);
    hide IsPacketFor, Request, CStr;
  }

  /** A request with a negative number stores nothing, and is answered with all the contents. */
  lemma NegativeRequest(e: Exchange, x: int, y: int, capacity: nat, unfit: int -> Int32)
    requires Handled(e, capacity, unfit) && IsPacketFor(CStr(e.packet), x, y)
    requires -2147483648 <= x <= 2147483647 && -2147483648 <= y <= 2147483647 && (x < 0 || y < 0)
    ensures e.after == e.before && e.pieces == []
    ensures DueReply(e, capacity, unfit) == Some(ReplyText(Contents(e.before, capacity)))
    ensures e.res == 0 ==> e.reply == ReplyText(Contents(e.before, capacity))
  {
    NumbersGiven(e.packet, x, y, unfit);
    assert WriteAll(e.before, []) == e.before;
    hide CmdOffs, CmdInd, IsSeekPacket, IsPacketFor, CStr, ReplyText, WriteAll;
    var content := Contents(e.before, capacity);
    assert Tail(content, 0) == content;
  }
}
