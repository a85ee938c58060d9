/** What each of many clients is answered, said by the packets it sent and the store met. */
module StoreAnswers {
  import opened Streams
  import opened DeviceSpec
  import opened DeviceLaws
  import opened SeekParsers
  import opened Stdio
  import opened Servers
  import opened ClientThreads
  import opened ServerLaws
  import opened StoreThreads
  import opened StoreClients

  // ---- one packet alone ---------------------------------------------------------

  /** Thread `t` alone carries out the operations for a packet, all of them to their end. */
  predicate Alone(log: seq<Event>, t: nat, packet: string, unfit: int -> Int32) {
    && (forall i :: 0 <= i < |log| ==> log[i].thread == t && log[i].ok)
    && DoneBy(log, t) == OpsFor(packet, unfit)
  }

  /** The exchange that such a log tells: what was written last, and what was sent. */
  function ExchangeOf(log: seq<Event>, packet: string, d: Device): Exchange
    requires log != [] && log[|log| - 1].Replied?
  {
    Exchange(packet, d, StoreAfter(d, log), if log[0].Appended? then log[0].pieces else [], 0, log[|log| - 1].sent)
  }

  lemma AloneShape(log: seq<Event>, t: nat, packet: string, unfit: int -> Int32)
    requires Alone(log, t, packet, unfit)
    ensures |log| == |OpsFor(packet, unfit)| && forall i :: 0 <= i < |log| ==> OpOf(log[i]) == OpsFor(packet, unfit)[i]
  {
    AllOwn(log, t);
    hide OpsFor;
  }

  lemma {:induction false} AllOwn(log: seq<Event>, t: nat)
    requires forall i :: 0 <= i < |log| ==> log[i].thread == t
    ensures |DoneBy(log, t)| == |log| && forall i :: 0 <= i < |log| ==> DoneBy(log, t)[i] == OpOf(log[i])
  {
    if log != [] {
      AllOwn(log[..|log| - 1], t);
    }
  }

  /**
   A thread alone with the store and a packet: its log is explained exactly when it tells a
   successful exchange, the store and the reply being those of the exchange.
   */
  lemma AloneIsExchange(log: seq<Event>, t: nat, packet: string, d: Device, n: nat, unfit: int -> Int32)
    requires Alone(log, t, packet, unfit) && '\n' in CStr(packet)
    ensures log != [] && log[|log| - 1].Replied?
    ensures Explained(d, log, n) <==> Handled(ExchangeOf(log, packet, d), n, unfit)
  {
    AloneShape(log, t, packet, unfit);
    hide Alone, Explained, Handled, RepliesFrom, AppendsText, CmdOffs, CmdInd, IsSeekPacket, CStr;
    if IsSeekPacket(packet) {
      assert log == [log[0]];
      OneExplained(d, log[0], n);
      SeekAlone(log[0], packet, d, n, unfit);
    } else {
      assert log == [log[0], log[1]];
      TwoExplained(d, log[0], log[1], n);
      StoreAlone(log[0], log[1], packet, d, n, unfit);
    }
  }

  lemma OneExplained(d: Device, r: Event, n: nat)
    requires r.Replied?
    ensures Explained(d, [r], n) <==> RepliesFrom(d, r, n)
    ensures StoreAfter(d, [r]) == d
  {
    hide RepliesFrom;
    assert [r][..0] == [] && StoreAfter(d, []) == d;
    if Explained(d, [r], n) {
      assert [r][0] == r;
    }
  }

  lemma TwoExplained(d: Device, a: Event, r: Event, n: nat)
    requires a.Appended? && r.Replied?
    ensures Explained(d, [a, r], n) <==> AppendsText(a) && RepliesFrom(WriteAll(d, a.pieces), r, n)
    ensures StoreAfter(d, [a, r]) == WriteAll(d, a.pieces)
  {
    hide RepliesFrom, AppendsText, WriteAll;
    var log := [a, r];
    assert log[..0] == [] && log[..1] == [a] && [a][..0] == [];
    assert StoreAfter(d, []) == d && StoreAfter(d, [a]) == WriteAll(d, a.pieces);
    if Explained(d, log, n) {
      assert log[0] == a && log[1] == r;
    }
  }

  lemma SeekAlone(r: Event, packet: string, d: Device, n: nat, unfit: int -> Int32)
    requires IsSeekPacket(packet) && '\n' in CStr(packet) && r.ok
    requires r.Replied? && OpOf(r) == OpReply(CmdOffs(packet, unfit), CmdInd(packet, unfit))
    ensures RepliesFrom(d, r, n) <==> Handled(Exchange(packet, d, d, [], 0, r.sent), n, unfit)
  {
    assert WriteAll(d, []) == d && Flat([]) == "";
    hide CmdOffs, CmdInd, IsSeekPacket, CStr, Visible, Reply;
  }

  lemma StoreAlone(a: Event, r: Event, packet: string, d: Device, n: nat, unfit: int -> Int32)
    requires !IsSeekPacket(packet) && '\n' in CStr(packet) && a.ok && r.ok
    requires a.Appended? && a.text == CStr(packet)
    requires r.Replied? && OpOf(r) == OpReply(CmdOffs(packet, unfit), CmdInd(packet, unfit))
    ensures var d' := WriteAll(d, a.pieces);
            AppendsText(a) && RepliesFrom(d', r, n) <==> Handled(Exchange(packet, d, d', a.pieces, 0, r.sent), n, unfit)
  {
    hide CmdOffs, CmdInd, IsSeekPacket, CStr, Visible, Reply, WriteAll, Flat, NonEmpty;
  }

  /** The log of a successful exchange carried out alone. */
  function EventsFor(e: Exchange, t: nat, unfit: int -> Int32): seq<Event> {
    (if IsSeekPacket(e.packet) then [] else [Appended(t, CStr(e.packet), e.pieces, true)])
    + [Replied(t, CmdOffs(e.packet, unfit), CmdInd(e.packet, unfit), e.reply, true)]
  }

  /**
   Every successful exchange is what the operations for its packet do alone: from the store before
   it to the store after it, the finished reply being the exchange's.
   */
  lemma ExchangeIsProgram(e: Exchange, t: nat, n: nat, unfit: int -> Int32)
    requires Handled(e, n, unfit) && e.res == 0
    ensures var log := EventsFor(e, t, unfit);
            && Alone(log, t, e.packet, unfit) && Explained(e.before, log, n)
            && StoreAfter(e.before, log) == e.after && ExchangeOf(log, e.packet, e.before) == e
  {
    var log := EventsFor(e, t, unfit);
    EventsAlone(e, t, unfit);
    AloneIsExchange(log, t, e.packet, e.before, n, unfit);
    hide Alone, Explained, CmdOffs, CmdInd, IsSeekPacket, CStr;
    if IsSeekPacket(e.packet) {
      assert log == [log[0]];
      OneExplained(e.before, log[0], n);
      KeptOfSeek(e, n, unfit);
    } else {
      assert log == [log[0], log[1]];
      TwoExplained(e.before, log[0], log[1], n);
    }
    hide Handled, StoreAfter;
    assert ExchangeOf(log, e.packet, e.before) == e;
  }

  lemma EventsAlone(e: Exchange, t: nat, unfit: int -> Int32)
    ensures Alone(EventsFor(e, t, unfit), t, e.packet, unfit)
  {
    hide CmdOffs, CmdInd, IsSeekPacket, CStr;
    var log := EventsFor(e, t, unfit);
    AllOwn(log, t);
    assert DoneBy(log, t) == OpsFor(e.packet, unfit);
  }

  lemma KeptOfSeek(e: Exchange, n: nat, unfit: int -> Int32)
    requires Handled(e, n, unfit) && IsSeekPacket(e.packet)
    ensures e.after == e.before && e.pieces == []
  {
    hide DueReply, CStr, Flat;
  }

  // ---- which packet a reply answers ---------------------------------------------

  /** How many replies there are among the operations. */
  function Answered(ops: seq<Op>): nat {
    if ops == [] then 0 else (if ops[0].OpReply? then 1 else 0) + Answered(ops[1..])
  }

  /** In a thread's program the reply after `j` others is for packet `j`, right after storing it if that is to be. */
  lemma {:induction false} ProgramAt(packets: seq<string>, unfit: int -> Int32, done: seq<Op>, x: int, y: int)
    requires done + [OpReply(x, y)] <= Program(packets, unfit)
    ensures var j := Answered(done);
            && j < |packets|
            && x == CmdOffs(packets[j], unfit) && y == CmdInd(packets[j], unfit)
            && (IsSeekPacket(packets[j]) || (done != [] && done[|done| - 1] == OpAppend(CStr(packets[j]))))
    decreases packets
  {
    hide CmdOffs, CmdInd, IsSeekPacket, CStr;
    assert |done + [OpReply(x, y)]| > 0;
    assert packets != [];
    var ops, others := OpsFor(packets[0], unfit), Program(packets[1..], unfit);
    SplitProgram(done, OpReply(x, y), ops, others);
    if |done| < |ops| {
      assert !IsSeekPacket(packets[0]) ==> |done| == 1 && done[1..] == [];
    } else {
      ProgramAt(packets[1..], unfit, done[|ops|..], x, y);
      assert done == ops + done[|ops|..];
      AnsweredOnce(packets[0], unfit, done[|ops|..]);
    }
  }

  lemma SplitProgram(done: seq<Op>, last: Op, ops: seq<Op>, others: seq<Op>)
    requires done + [last] <= ops + others
    ensures if |done| < |ops| then done == ops[..|done|] && last == ops[|done|]
            else ops == done[..|ops|] && done[|ops|..] + [last] <= others
  {
    var whole, all := done + [last], ops + others;
    assert whole == all[..|whole|];
    if |done| < |ops| {
      assert done == whole[..|done|] == ops[..|done|];
      assert whole[|done|] == last;
    } else {
      assert ops == all[..|ops|] == whole[..|ops|] == done[..|ops|];
      assert whole[|ops|..] == done[|ops|..] + [last] && all[|ops|..] == others;
    }
  }

  lemma AnsweredOnce(packet: string, unfit: int -> Int32, rest: seq<Op>)
    ensures Answered(OpsFor(packet, unfit) + rest) == 1 + Answered(rest)
  {
    var ops := OpsFor(packet, unfit);
    hide CmdOffs, CmdInd, IsSeekPacket, CStr;
    assert (ops + rest)[1..] == ops[1..] + rest;
    if !IsSeekPacket(packet) {
      assert (ops[1..] + rest)[1..] == rest && (ops[1..] + rest)[0] == ops[1];
    } else {
      assert ops[1..] + rest == rest;
    }
  }

  lemma {:induction false} DoneGrows(log: seq<Event>, i: nat, t: nat)
    requires i <= |log|
    ensures DoneBy(log[..i], t) <= DoneBy(log, t)
  {
    if i < |log| {
      DoneGrows(log[..|log| - 1], i, t);
      assert log[..|log| - 1][..i] == log[..i];
    } else {
      assert log[..i] == log;
    }
  }

  /** The last thing thread `t` has done. */
  lemma {:induction false} LastDone(log: seq<Event>, t: nat) returns (a: nat)
    requires DoneBy(log, t) != []
    ensures a < |log| && log[a].thread == t && OpOf(log[a]) == DoneBy(log, t)[|DoneBy(log, t)| - 1]
    ensures forall b :: a < b < |log| ==> log[b].thread != t
  {
    a := |log| - 1;
    if log[a].thread != t {
      a := LastDone(log[..a], t);
    }
  }

  // ---- what was stored stays stored ---------------------------------------------

  lemma {:induction false} StoredGrows(d0: Device, log: seq<Event>, k: nat, n: nat)
    requires Explained(d0, log, n) && k <= |log|
    ensures Stored(StoreAfter(d0, log[..k])) <= Stored(StoreAfter(d0, log))
  {
    if k == |log| {
      assert log[..k] == log;
      return;
    }
    var front, e := log[..|log| - 1], log[|log| - 1];
    FrontExplained(d0, log, n);
    assert e.Appended? ==> AppendsText(e);
    assert StoreAfter(d0, log)
        == if e.Appended? then WriteAll(StoreAfter(d0, front), e.pieces) else StoreAfter(d0, front);
    hide Explained, Stored, WriteAll, StoreAfter;
    StoredGrows(d0, front, k, n);
    assert front[..k] == log[..k];
    if e.Appended? {
      PiecesAreStored(StoreAfter(d0, front), e.pieces);
    }
  }

  lemma {:induction false} ExplainedPart(d0: Device, log: seq<Event>, k: nat, n: nat)
    requires Explained(d0, log, n) && k <= |log|
    ensures Explained(d0, log[..k], n)
  {
    if k == |log| {
      assert log[..k] == log;
    } else {
      FrontExplained(d0, log, n);
      ExplainedPart(d0, log[..|log| - 1], k, n);
      assert log[..|log| - 1][..k] == log[..k];
    }
  }

  // ---- the answer itself --------------------------------------------------------

  predicate IsInt(x: int) { -2147483648 <= x <= 2147483647 }

  /** What of `due` has no NUL was sent, or a front part of that if the reply failed. */
  predicate Sends(e: Event, due: string)
    requires e.Replied?
  {
    e.sent <= ReplyText(due) && (e.ok ==> e.sent == ReplyText(due))
  }

  /**
   The right answer to a packet: for the two numbers of a place in the store, the bytes from that
   place on; for two numbers of none, nothing and a failure; for anything else, all the contents.
   */
  ghost predicate RightAnswer(packet: string, e: Event, d: Device, n: nat)
    requires e.Replied?
  {
    var visible := Visible(d, n);
    && (forall x: nat, y: nat :: IsInt(x) && IsInt(y) && IsPacketFor(CStr(packet), x, y) ==>
          if x < |visible| && y < |visible[x]| then Sends(e, visible[x][y..] + Flat(visible[x + 1..]))
          else e.sent == "" && !e.ok)
    && (forall x: int, y: int :: IsInt(x) && IsInt(y) && (x < 0 || y < 0) && IsPacketFor(CStr(packet), x, y) ==>
          Sends(e, Contents(d, n)))
    && ((forall x: int, y: int :: !IsPacketFor(CStr(packet), x, y)) ==> Sends(e, Contents(d, n)))
  }

  lemma PlaceAnswer(packet: string, e: Event, d: Device, n: nat, unfit: int -> Int32, x: nat, y: nat)
    requires e.Replied? && RepliesFrom(d, e, n)
    requires e.cmdOffs == CmdOffs(packet, unfit) && e.cmdInd == CmdInd(packet, unfit)
    requires IsInt(x) && IsInt(y) && IsPacketFor(CStr(packet), x, y)
    ensures var visible := Visible(d, n);
            if x < |visible| && y < |visible[x]| then Sends(e, visible[x][y..] + Flat(visible[x + 1..]))
            else e.sent == "" && !e.ok
  {
    NumbersGiven(packet, x, y, unfit);
    hide CmdOffs, CmdInd, CStr, IsPacketFor, ReplyText, Visible, Flat;
    var visible := Visible(d, n);
    if x < |visible| && y < |visible[x]| {
      FromPlace(visible, Place(x, y));
    }
  }

  lemma WholeAnswer(packet: string, e: Event, d: Device, n: nat)
    requires e.Replied? && RepliesFrom(d, e, n) && (e.cmdOffs < 0 || e.cmdInd < 0)
    ensures Sends(e, Contents(d, n))
  {
    hide ReplyText;
    assert Tail(Contents(d, n), 0) == Contents(d, n);
  }

  lemma AnswerIsRight(packet: string, e: Event, d: Device, n: nat, unfit: int -> Int32)
    requires e.Replied? && RepliesFrom(d, e, n)
    requires e.cmdOffs == CmdOffs(packet, unfit) && e.cmdInd == CmdInd(packet, unfit)
    ensures RightAnswer(packet, e, d, n)
  {
    hide RepliesFrom, Sends, CStr, IsPacketFor, Visible, Contents, Flat;
    forall x: nat, y: nat | IsInt(x) && IsInt(y) && IsPacketFor(CStr(packet), x, y)
      ensures var visible := Visible(d, n);
              if x < |visible| && y < |visible[x]| then Sends(e, visible[x][y..] + Flat(visible[x + 1..]))
              else e.sent == "" && !e.ok
    {
      PlaceAnswer(packet, e, d, n, unfit, x, y);
    }
    forall x: int, y: int | IsInt(x) && IsInt(y) && (x < 0 || y < 0) && IsPacketFor(CStr(packet), x, y)
      ensures Sends(e, Contents(d, n))
    {
      NumbersGiven(packet, x, y, unfit);
      WholeAnswer(packet, e, d, n);
    }
    if forall x: int, y: int :: !IsPacketFor(CStr(packet), x, y) {
      var req := Request(CStr(packet));
      if req.Two? {
        ParserIsGrammar(CStr(packet), req.first, req.second);
      }
      WholeAnswer(packet, e, d, n);
    }
  }

  // ---- every reply of every run -------------------------------------------------

  /** The store that reply `i` met has the text, added to it whole by the same thread's operation before. */
  predicate OwnTextStored(d0: Device, log: seq<Event>, i: nat, text: string)
    requires i < |log|
  {
    exists a :: 0 <= a < i
      && log[a].Appended? && log[a].thread == log[i].thread && log[a].text == text
      && (forall b :: a < b < i ==> log[b].thread != log[i].thread)
      && Stored(StoreAfter(d0, log[..a])) + text <= Stored(StoreAfter(d0, log[..i]))
  }

  /** Reply `i` of the log is the right answer to the packet of its client that is due one. */
  ghost predicate Answers(d0: Device, clients: seq<seq<Arrival>>, log: seq<Event>, i: nat, n: nat)
    requires i < |log| && log[i].Replied?
  {
    var t, d := log[i].thread, StoreAfter(d0, log[..i]);
    && t < |clients|
    && var packets, j := Framing(clients[t]).0, Answered(DoneBy(log[..i], t));
    && j < |packets|
    && RightAnswer(packets[j], log[i], d, n)
    && ((exists x: int, y: int :: IsPacketFor(CStr(packets[j]), x, y))
        || OwnTextStored(d0, log, i, CStr(packets[j])))
  }

  /** The text was added by operation `a`, which ended well, and is still there at `i`. */
  lemma AddedStays(d0: Device, log: seq<Event>, a: nat, i: nat, n: nat)
    requires Explained(d0, log, n) && a < i < |log| && log[a].Appended? && log[a].ok
    ensures Stored(StoreAfter(d0, log[..a])) + log[a].text <= Stored(StoreAfter(d0, log[..i]))
  {
    var d, e := StoreAfter(d0, log[..a]), log[a];
    assert AppendsText(e);
    ExplainedPart(d0, log, i, n);
    assert log[..a + 1][..a] == log[..a] && log[..i][..a + 1] == log[..a + 1];
    assert StoreAfter(d0, log[..a + 1]) == WriteAll(d, e.pieces);
    hide Explained, Stored, WriteAll, StoreAfter;
    PiecesAreStored(d, e.pieces);
    StoredGrows(d0, log[..i], a + 1, n);
  }

  lemma ReplyAnswers(d0: Device, clients: seq<seq<Arrival>>, w: World, i: nat, n: nat, unfit: int -> Int32)
    requires Explained(d0, w.log, n) && StopsAtFailure(w) && |w.pcs| == |clients|
    requires forall t :: 0 <= t < |clients| ==> DoneBy(w.log, t) <= Program(Framing(clients[t]).0, unfit)
    requires i < |w.log| && w.log[i].Replied?
    ensures Answers(d0, clients, w.log, i, n)
  {
    hide Answers, Explained, RepliesFrom, Program, DoneBy, StoreAfter, Framing, CmdOffs, CmdInd, CStr, IsSeekPacket;
    hide Answered, RightAnswer, OwnTextStored;
    var log, e, t := w.log, w.log[i], w.log[i].thread;
    var packets, done := Framing(clients[t]).0, DoneBy(log[..i], t);
    ReplyIsDue(log, i, Program(packets, unfit));
    ProgramAt(packets, unfit, done, e.cmdOffs, e.cmdInd);
    var packet := packets[Answered(done)];
    ReplyExplained(d0, log, i, n);
    AnswerIsRight(packet, e, StoreAfter(d0, log[..i]), n, unfit);
    if IsSeekPacket(packet) {
      SeekIsPacket(packet);
    } else {
      OwnTextBefore(d0, w, i, CStr(packet), n);
    }
    assert Answers(d0, clients, log, i, n) by { Assembled(d0, clients, log, i, n); }
  }

  lemma Assembled(d0: Device, clients: seq<seq<Arrival>>, log: seq<Event>, i: nat, n: nat)
    requires i < |log| && log[i].Replied? && log[i].thread < |clients|
    requires var packets, j := Framing(clients[log[i].thread]).0, Answered(DoneBy(log[..i], log[i].thread));
             && j < |packets|
             && RightAnswer(packets[j], log[i], StoreAfter(d0, log[..i]), n)
             && ((exists x: int, y: int :: IsPacketFor(CStr(packets[j]), x, y))
                 || OwnTextStored(d0, log, i, CStr(packets[j])))
    ensures Answers(d0, clients, log, i, n)
  {
    hide RightAnswer, OwnTextStored, IsPacketFor, DoneBy, Answered, Framing, StoreAfter, CStr;
  }

  lemma SeekIsPacket(packet: string)
    requires IsSeekPacket(packet)
    ensures exists x: int, y: int :: IsPacketFor(CStr(packet), x, y)
  {
    var req := Request(CStr(packet));
    ParserIsGrammar(CStr(packet), req.first, req.second);
  }

  lemma ReplyExplained(d0: Device, log: seq<Event>, i: nat, n: nat)
    requires Explained(d0, log, n) && i < |log| && log[i].Replied?
    ensures RepliesFrom(StoreAfter(d0, log[..i]), log[i], n)
  {
    hide RepliesFrom, AppendsText, StoreAfter;
  }

  /** What a thread does next is next in its program. */
  lemma ReplyIsDue(log: seq<Event>, i: nat, program: seq<Op>)
    requires i < |log| && DoneBy(log, log[i].thread) <= program
    ensures DoneBy(log[..i], log[i].thread) + [OpOf(log[i])] <= program
  {
    hide *;
    var t := log[i].thread;
    DoneGrows(log, i + 1, t);
    DonePush(log, i);
    var now, later, all := DoneBy(log[..i], t) + [OpOf(log[i])], DoneBy(log[..i + 1], t), DoneBy(log, t);
    assert now == later && later <= all && all <= program;
  }

  lemma DonePush(log: seq<Event>, i: nat)
    requires i < |log|
    ensures DoneBy(log[..i + 1], log[i].thread) == DoneBy(log[..i], log[i].thread) + [OpOf(log[i])]
  {
    hide OpOf;
    assert log[..i + 1][..i] == log[..i];
  }

  lemma OwnTextBefore(d0: Device, w: World, i: nat, text: string, n: nat)
    requires Explained(d0, w.log, n) && StopsAtFailure(w) && i < |w.log|
    requires var done := DoneBy(w.log[..i], w.log[i].thread); done != [] && done[|done| - 1] == OpAppend(text)
    ensures OwnTextStored(d0, w.log, i, text)
  {
    hide Explained, DoneBy, StoreAfter, Stored;
    var log := w.log;
    var a := LastDone(log[..i], log[i].thread);
    assert log[..i][a] == log[a] && log[a].ok;
    assert forall b :: a < b < i ==> log[..i][b] == log[b];
    AddedStays(d0, log, a, i, n);
  }

  /**
   Any number of clients, cut up and scheduled in any way: each reply answers the packet its client
   sent after as many others as were answered before. For a packet that spells a place in the store
   met, what comes from there to the end is sent; for a place that is none, nothing; for any other
   packet all the contents of a store that has the packet's own text, put there just before.
   */
  lemma EveryReplyAnswers(d0: Device, clients: seq<seq<Arrival>>, schedule: seq<(nat, Act)>, n: nat,
                          unfit: int -> Int32)
    requires Serves(StoreThreads.Run(Start(d0, |clients|), schedule, n), clients, unfit)
    ensures var w := StoreThreads.Run(Start(d0, |clients|), schedule, n);
            forall i :: 0 <= i < |w.log| && w.log[i].Replied? ==> Answers(d0, clients, w.log, i, n)
  {
    var w := StoreThreads.Run(Start(d0, |clients|), schedule, n);
    ClientsInterleave(d0, clients, schedule, n, unfit);
    RepliesAreSnapshots(d0, |clients|, schedule, n);
    hide Explained, StopsAtFailure, StoreThreads.Run, Answers, Program, DoneBy;
    forall i | 0 <= i < |w.log| && w.log[i].Replied? ensures Answers(d0, clients, w.log, i, n) {
      ReplyAnswers(d0, clients, w, i, n, unfit);
    }
  }

  /** So the wire form of a place in the store met gets the bytes from there to the end. */
  lemma WireFormAnswered(d0: Device, clients: seq<seq<Arrival>>, log: seq<Event>, i: nat, n: nat, x: nat, y: nat)
    requires i < |log| && log[i].Replied? && Answers(d0, clients, log, i, n)
    requires x < 0x8000_0000 && y < 0x8000_0000
    requires Framing(clients[log[i].thread]).0[Answered(DoneBy(log[..i], log[i].thread))] == WireForm(x, y)
    ensures var visible := Visible(StoreAfter(d0, log[..i]), n);
            if x < |visible| && y < |visible[x]| then
              var due := visible[x][y..] + Flat(visible[x + 1..]);
              && (log[i].ok ==> log[i].sent == ReplyText(due))
              && (log[i].ok && NulFree(due) ==> log[i].sent == due)
            else log[i].sent == "" && !log[i].ok
  {
    WireFormIsLine(x, y);
    CStrWhole(WireForm(x, y));
    WireRoundTrip(x, y);
    ParserIsGrammar(WireForm(x, y), x, y);
    var packet := Framing(clients[log[i].thread]).0[Answered(DoneBy(log[..i], log[i].thread))];
    assert IsPacketFor(CStr(packet), x, y);
    hide DoneBy, Answered, OwnTextStored, WireForm, Request, Line, NulFree, CStr, IsPacketFor;
    hide Visible, Flat, StoreAfter, ReplyText, Framing;
    var visible := Visible(StoreAfter(d0, log[..i]), n);
    if x < |visible| && y < |visible[x]| {
      ReplyIsExact(visible[x][y..] + Flat(visible[x + 1..]));
    }
  }
}
