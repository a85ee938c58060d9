/** Many clients at once: every one framed by its own thread, all sharing the store. */
module StoreClients {
  import opened Streams
  import opened DeviceSpec
  import opened DeviceLaws
  import opened Stdio
  import opened SeekParsers
  import opened ClientThreads
  import opened StoreThreads

  /** What a thread does for a packet: it stores it unless it is a seek request, and replies. */
  function OpsFor(packet: string, unfit: int -> Int32): seq<Op> {
    (if IsSeekPacket(packet) then [] else [OpAppend(CStr(packet))])
    + [OpReply(CmdOffs(packet, unfit), CmdInd(packet, unfit))]
  }

  function Program(packets: seq<string>, unfit: int -> Int32): seq<Op> {
    if packets == [] then [] else OpsFor(packets[0], unfit) + Program(packets[1..], unfit)
  }

  /** What of the packets is to be stored. */
  function ToStore(packets: seq<string>): seq<string> {
    if packets == [] then []
    else (if IsSeekPacket(packets[0]) then [] else [CStr(packets[0])]) + ToStore(packets[1..])
  }

  /** The texts that operations append. */
  function Texts(ops: seq<Op>): seq<string> {
    if ops == [] then [] else (if ops[0].OpAppend? then [ops[0].text] else []) + Texts(ops[1..])
  }

  lemma {:induction false} TextsConcat(a: seq<Op>, b: seq<Op>)
    ensures Texts(a + b) == Texts(a) + Texts(b)
  {
    if a == [] {
      assert a + b == b;
    } else {
      assert (a + b)[1..] == a[1..] + b;
      TextsConcat(a[1..], b);
    }
  }

  lemma {:induction false} ProgramStores(packets: seq<string>, unfit: int -> Int32)
    ensures Texts(Program(packets, unfit)) == ToStore(packets)
  {
    if packets != [] {
      var ops := OpsFor(packets[0], unfit);
      var store: seq<Op> := if IsSeekPacket(packets[0]) then [] else [OpAppend(CStr(packets[0]))];
      TextsConcat(store, ops[|store|..]);
      assert ops == store + ops[|store|..];
      assert ops[|store|..][1..] == [] && (store != [] ==> store[1..] == []);
      TextsConcat(ops, Program(packets[1..], unfit));
      ProgramStores(packets[1..], unfit);
    }
  }

  /** The texts that thread `t` has appended, or begun to. */
  function TextsBy(log: seq<Event>, t: nat): seq<string> {
    if log == [] then []
    else
      var e := log[|log| - 1];
      TextsBy(log[..|log| - 1], t) + (if e.thread == t && e.Appended? then [e.text] else [])
  }

  lemma {:induction false} TextsDone(log: seq<Event>, t: nat)
    ensures Texts(DoneBy(log, t)) == TextsBy(log, t)
  {
    if log != [] {
      var k := |log| - 1;
      TextsDone(log[..k], t);
      var last: seq<Op> := if log[k].thread == t then [OpOf(log[k])] else [];
      TextsConcat(DoneBy(log[..k], t), last);
      assert Texts(last) == if log[k].thread == t && log[k].Appended? then [log[k].text] else [];
    }
  }

  /** The bytes that the operations in the log wrote, in order. */
  function Written(log: seq<Event>): string {
    if log == [] then ""
    else
      var e := log[|log| - 1];
      Written(log[..|log| - 1]) + (if e.Appended? then Flat(e.pieces) else "")
  }

  lemma {:induction false} StoreIsWritten(d0: Device, log: seq<Event>, n: nat)
    requires Explained(d0, log, n)
    ensures Stored(StoreAfter(d0, log)) == Stored(d0) + Written(log)
  {
    if log == [] {
      assert Stored(d0) + "" == Stored(d0);
      return;
    }
    var k := |log| - 1;
    var front, e := log[..k], log[k];
    FrontExplained(d0, log, n);
    assert e.Appended? ==> AppendsText(e);
    assert Written(log) == Written(front) + (if e.Appended? then Flat(e.pieces) else "");
    assert StoreAfter(d0, log)
        == if e.Appended? then WriteAll(StoreAfter(d0, front), e.pieces) else StoreAfter(d0, front);
    hide Explained, Stored, WriteAll, StoreAfter, Written, Flat;
    StoreIsWritten(d0, front, n);
    var s0, s1, a := Stored(d0), Stored(StoreAfter(d0, front)), Written(front);
    if e.Appended? {
      PiecesAreStored(StoreAfter(d0, front), e.pieces);
      Append3(s0, a, Flat(e.pieces));
    } else {
      assert a + "" == a;
    }
  }

  lemma Append3(a: string, b: string, c: string)
    ensures (a + b) + c == a + (b + c)
  {
  }

  lemma FrontExplained(d0: Device, log: seq<Event>, n: nat)
    requires Explained(d0, log, n) && log != []
    ensures Explained(d0, log[..|log| - 1], n)
  {
    hide RepliesFrom, AppendsText, StoreAfter;
    var front := log[..|log| - 1];
    forall i | 0 <= i < |front|
      ensures if front[i].Appended? then AppendsText(front[i])
              else RepliesFrom(StoreAfter(d0, front[..i]), front[i], n)
    {
      assert front[..i] == log[..i] && front[i] == log[i];
    }
  }

  lemma PrefixTexts(a: seq<Op>, b: seq<Op>)
    requires a <= b
    ensures Texts(a) <= Texts(b)
  {
    assert b == a + b[|a|..];
    TextsConcat(a, b[|a|..]);
  }

  /** Each thread goes through what its client sends, however far it has come. */
  predicate Serves(w: World, clients: seq<seq<Arrival>>, unfit: int -> Int32) {
    |w.pcs| == |clients|
    && forall t :: 0 <= t < |clients| ==> AskedOf(w.asks, t) <= Program(Framing(clients[t]).0, unfit)
  }

  /**
   Any number of clients, their bytes cut up in any way, their threads in any schedule. The store is
   given the appended texts and nothing else, in one order in which each client's packets come in
   the order that client sent them, each once. Every reply in the log answers a packet of its own
   client, in order, and is the reply of the one store state that the operations before it had left.
   */
  lemma ClientsInterleave(d0: Device, clients: seq<seq<Arrival>>, schedule: seq<(nat, Act)>, n: nat,
                          unfit: int -> Int32)
    requires Serves(StoreThreads.Run(Start(d0, |clients|), schedule, n), clients, unfit)
    ensures var w := StoreThreads.Run(Start(d0, |clients|), schedule, n);
            && Stored(StoreAfter(d0, w.log)) == Stored(d0) + Written(w.log)
            && (w.mutex.None? ==> w.dev == StoreAfter(d0, w.log))
            && Explained(d0, w.log, n)
            && (forall t :: 0 <= t < |clients| ==> TextsBy(w.log, t) <= ToStore(Framing(clients[t]).0))
            && (forall t :: 0 <= t < |clients| ==> DoneBy(w.log, t) <= Program(Framing(clients[t]).0, unfit))
  {
    RepliesAreSnapshots(d0, |clients|, schedule, n);
    var w := StoreThreads.Run(Start(d0, |clients|), schedule, n);
    StoreIsWritten(d0, w.log, n);
    hide Explained, Inv, StoreThreads.Run, Framing, Program, StoreAfter, Written, Stored;
    hide ToStore, TextsBy, DoneBy, AskedOf;
    forall t | 0 <= t < |clients|
      ensures TextsBy(w.log, t) <= ToStore(Framing(clients[t]).0)
      ensures DoneBy(w.log, t) <= Program(Framing(clients[t]).0, unfit)
    {
      var packets := Framing(clients[t]).0;
      assert DoneBy(w.log, t) + InHand(w.pcs[t]) == AskedOf(w.asks, t);
      ClientInOrder(w, t, packets, unfit);
    }
  }

  lemma ClientInOrder(w: World, t: nat, packets: seq<string>, unfit: int -> Int32)
    requires t < |w.pcs| && DoneBy(w.log, t) + InHand(w.pcs[t]) == AskedOf(w.asks, t)
    requires AskedOf(w.asks, t) <= Program(packets, unfit)
    ensures DoneBy(w.log, t) <= Program(packets, unfit) && TextsBy(w.log, t) <= ToStore(packets)
  {
    hide AskedOf, DoneBy, TextsBy, Program, ToStore, Texts, InHand;
    var done := DoneBy(w.log, t);
    assert done <= done + InHand(w.pcs[t]);
    PrefixTexts(done, Program(packets, unfit));
    TextsDone(w.log, t);
    ProgramStores(packets, unfit);
  }
}
