/**
 Server threads that share the store under file_mutex. Appending a packet and sending a reply
 are many small steps of many threads in any order: writes of pieces, blocks read ahead,
 characters taken into a line, partial sends. What each reply sends is the reply of one state
 of the store.
 */
module StoreThreads {
  import opened Streams
  import opened DeviceSpec
  import opened DeviceLaws
  import opened Stdio
  import opened Servers
  import opened ClientThreads

  datatype Op = OpAppend(text: string) | OpReply(cmdOffs: int, cmdInd: int)

  /** Where a thread is. From Locked on it holds the mutex. */
  datatype Pc =
    | Idle
    | Waiting(op: Op)
    | Locked(op: Op)
    | Appending(text: string, pieces: seq<string>, left: string)
    | Answering(cmdOffs: int, cmdInd: int, stream: Reader, unsent: string, sent: string)

  /** A stream being read: device position, bytes read ahead, end seen, line being taken. */
  datatype Reader = Reader(pos: nat, buf: string, eof: bool, line: string)

  /** What was done under one hold of the mutex; `ok` is whether it was finished. */
  datatype Event =
    | Appended(thread: nat, text: string, pieces: seq<string>, ok: bool)
    | Replied(thread: nat, cmdOffs: int, cmdInd: int, sent: string, ok: bool)

  /** An operation asked of a thread. */
  datatype Asked = Asked(thread: nat, op: Op)

  /** The store, its mutex and the threads; and what was asked and what was done, in order. */
  datatype World = World(dev: Device, mutex: Option<nat>, pcs: seq<Pc>, asks: seq<Asked>, log: seq<Event>)

  /** A scheduling choice for a thread. */
  datatype Act =
    | Ask(op: Op) | Lock | GiveUp | Begin
    | WritePiece(size: nat)
    | Fill(block: nat) | Take | Flush | Send(size: nat) | Finish

  function At(w: World, t: nat, pc: Pc): World
    requires t < |w.pcs|
  {
    w.(pcs := w.pcs[t := pc])
  }

  /** An operation of thread `t` has failed: the connection is given up then. */
  predicate Failed(log: seq<Event>, t: nat) {
    exists i :: 0 <= i < |log| && log[i].thread == t && !log[i].ok
  }

  /** Unlocking at the end of an operation. */
  function Release(w: World, t: nat, e: Event): World
    requires t < |w.pcs|
  {
    At(w, t, Idle).(mutex := None, log := w.log + [e])
  }

  /** Reading goes on by one step that does not send; None when there is none. */
  function ReadOn(s: Reader, content: string, a: Act): Option<(Reader, string)> {
    match a
    case Fill(block) =>
      if s.buf != "" || s.eof || block == 0 then None
      else
        var due := Due(content, s.pos, block);
        Some((s.(buf := due, pos := s.pos + |due|, eof := due == ""), ""))
    case Take =>
      if s.buf == "" then None
      else
        var line := s.line + [s.buf[0]];
        if s.buf[0] == '\n' || |line| == BUFFER_SIZE - 1 then
          Some((s.(buf := s.buf[1..], line := ""), CStr(line)))
        else Some((s.(buf := s.buf[1..], line := line), ""))
    case Flush =>
      if !s.eof || s.line == "" then None else Some((s.(line := ""), CStr(s.line)))
    case _ => None
  }

  /** One step of thread `t`; None when it cannot take it now. `n` is the device's capacity. */
  function Step(w: World, t: nat, a: Act, n: nat): Option<World> {
    if t >= |w.pcs| then None
    else
      match w.pcs[t]
      case Idle =>
        if !a.Ask? || Failed(w.log, t) then None
        else Some(At(w, t, Waiting(a.op)).(asks := w.asks + [Asked(t, a.op)]))
      case Waiting(op) =>
        if a.Lock? && w.mutex.None? then Some(At(w, t, Locked(op)).(mutex := Some(t))) else None
      case Locked(op) => FirstStep(w, t, op, a, n)
      case Appending(text, pieces, left) =>
        if a.WritePiece? && 0 < a.size <= |left| then
          var piece := left[..a.size];
          Some(At(w, t, Appending(text, pieces + [piece], left[a.size..])).(dev := Write(w.dev, piece, true).0))
        else if a.GiveUp? then Some(Release(w, t, Appended(t, text, pieces, false)))
        else if a.Finish? && left == "" then Some(Release(w, t, Appended(t, text, pieces, true)))
        else None
      case Answering(x, y, stream, unsent, sent) =>
        if a.GiveUp? then Some(Release(w, t, Replied(t, x, y, sent, false)))
        else if a.Send? then
          if unsent == "" || a.size > |unsent| then None
          else Some(At(w, t, Answering(x, y, stream, unsent[a.size..], sent + unsent[..a.size])))
        else if unsent != "" then None
        else if a.Finish? then
          if stream.eof && stream.line == "" then Some(Release(w, t, Replied(t, x, y, sent, true))) else None
        else
          match ReadOn(stream, Contents(w.dev, n), a)
          case None => None
          case Some((s, more)) => Some(At(w, t, Answering(x, y, s, more, sent)))
  }

  /** The first step with the mutex held: opening the store, and seeking when asked to. */
  function FirstStep(w: World, t: nat, op: Op, a: Act, n: nat): Option<World>
    requires t < |w.pcs|
  {
    match op
    case OpAppend(text) =>
      if a.GiveUp? then Some(Release(w, t, Appended(t, text, [], false)))
      else if a.Begin? then Some(At(w, t, Appending(text, [], text)))
      else None
    case OpReply(x, y) =>
      if a.GiveUp? then Some(Release(w, t, Replied(t, x, y, "", false)))
      else if !a.Begin? then None
      else
        match ReplyStart(Visible(w.dev, n), x, y)
        case None => Some(Release(w, t, Replied(t, x, y, "", false)))
        case Some(pos) => Some(At(w, t, Answering(x, y, Reader(pos, "", false, ""), "", "")))
  }

  // ---- what the log explains ----------------------------------------------------

  /** The store after the logged operations, one whole operation after another. */
  function StoreAfter(d0: Device, log: seq<Event>): Device {
    if log == [] then d0
    else
      var d, e := StoreAfter(d0, log[..|log| - 1]), log[|log| - 1];
      if e.Appended? then WriteAll(d, e.pieces) else d
  }

  /** A reply is that of store `d`: all of it, or a front part when it failed. */
  predicate RepliesFrom(d: Device, e: Event, n: nat)
    requires e.Replied?
  {
    match Reply(Visible(d, n), e.cmdOffs, e.cmdInd)
    case None => e.sent == "" && !e.ok
    case Some(due) => e.sent <= due && (e.ok ==> e.sent == due)
  }

  /** An append wrote its text in pieces: all of it, or a front part when it was given up. */
  predicate AppendsText(e: Event)
    requires e.Appended?
  {
    NonEmpty(e.pieces) && Flat(e.pieces) <= e.text && (e.ok ==> Flat(e.pieces) == e.text)
  }

  /**
   Every append in the log wrote its text, and every reply is that of the store as the operations
   before it left it.
   */
  predicate Explained(d0: Device, log: seq<Event>, n: nat) {
    forall i :: 0 <= i < |log| ==>
      if log[i].Appended? then AppendsText(log[i]) else RepliesFrom(StoreAfter(d0, log[..i]), log[i], n)
  }

  // ---- the invariant ------------------------------------------------------------

  predicate Holds(pc: Pc) { pc.Locked? || pc.Appending? || pc.Answering? }

  /** What a stream has still to give, the line being taken included. */
  function Ahead(s: Reader, content: string): string { s.line + (s.buf + Tail(content, s.pos)) }

  predicate Reading(s: Reader, content: string) {
    && |s.line| < BUFFER_SIZE - 1 && (forall i :: 0 <= i < |s.line| ==> s.line[i] != '\n')
    && (s.eof ==> s.buf == "" && Tail(content, s.pos) == "")
  }

  /** What was sent, is being sent and is still to come make up the whole reply. */
  predicate OnItsWay(pc: Pc, d: Device, n: nat)
    requires pc.Answering?
  {
    var content := Contents(d, n);
    && Reading(pc.stream, content)
    && Reply(Visible(d, n), pc.cmdOffs, pc.cmdInd)
       == Some(pc.sent + (pc.unsent + ReplyText(Ahead(pc.stream, content))))
  }

  /** What the holder of the mutex has done since the store was `d`. */
  predicate Progress(pc: Pc, d: Device, now: Device, n: nat) {
    match pc
    case Locked(_) => now == d
    case Appending(text, pieces, left) =>
      now == WriteAll(d, pieces) && NonEmpty(pieces) && Flat(pieces) + left == text
    case Answering(_, _, _, _, _) => now == d && OnItsWay(pc, d, n)
    case _ => false
  }

  predicate Inv(w: World, d0: Device, n: nat) {
    && Explained(d0, w.log, n)
    && (forall t :: 0 <= t < |w.pcs| && Holds(w.pcs[t]) ==> w.mutex == Some(t))
    && match w.mutex
       case None => w.dev == StoreAfter(d0, w.log)
       case Some(t) => t < |w.pcs| && Progress(w.pcs[t], StoreAfter(d0, w.log), w.dev, n)
  }

  // ---- every step keeps it ------------------------------------------------------

  /** One step of reading leaves line, read-ahead and rest of the reply the same in all. */
  lemma ReadOnKeeps(s: Reader, content: string, a: Act)
    requires Reading(s, content) && ReadOn(s, content, a).Some?
    ensures var (s', more) := ReadOn(s, content, a).value;
            && Reading(s', content)
            && ReplyText(Ahead(s, content)) == more + ReplyText(Ahead(s', content))
  {
    hide Reading, ReplyText, Ahead, CStr, Tail, Due;
    match a
    case Fill(block) => FillKeeps(s, content, block);
    case Take => TakeKeeps(s, content);
    case Flush => FlushKeeps(s, content);
  }

  lemma FlushKeeps(s: Reader, content: string)
    requires Reading(s, content) && s.eof
    ensures Reading(s.(line := ""), content)
    ensures ReplyText(Ahead(s, content)) == CStr(s.line) + ReplyText(Ahead(s.(line := ""), content))
  {
    assert Ahead(s, content) == s.line && Ahead(s.(line := ""), content) == "";
    LineLengthAll(s.line, BUFFER_SIZE - 1);
    if s.line != "" {
      ReplyStep(s.line);
      assert s.line[..|s.line|] == s.line && s.line[|s.line|..] == "";
    }
  }

  lemma FillKeeps(s: Reader, content: string, block: nat)
    requires Reading(s, content) && s.buf == "" && 0 < block
    ensures var due := Due(content, s.pos, block);
            var s' := s.(buf := due, pos := s.pos + |due|, eof := due == "");
            Reading(s', content) && ReplyText(Ahead(s, content)) == "" + ReplyText(Ahead(s', content))
  {
    DueThenTail(content, s.pos, block);
    hide Tail, Due, ReplyText;
    var reply := ReplyText(Ahead(s, content));
    assert "" + reply == reply;
    assert "" + Tail(content, s.pos) == Tail(content, s.pos);
  }

  lemma TakeKeeps(s: Reader, content: string)
    requires Reading(s, content) && s.buf != ""
    ensures var (s', more) := ReadOn(s, content, Take).value;
            && Reading(s', content)
            && ReplyText(Ahead(s, content)) == more + ReplyText(Ahead(s', content))
  {
    var all, k, rest := Ahead(s, content), |s.line|, s.buf[1..] + Tail(content, s.pos);
    var line := s.line + [s.buf[0]];
    FrontRemoved(s.buf, Tail(content, s.pos));
    assert all == line + rest;
    hide Tail, CStr, ReplyText;
    if s.buf[0] == '\n' || |line| == BUFFER_SIZE - 1 {
      LineLengthFront(all, k, BUFFER_SIZE - 1);
      ReplyStep(all);
      assert all[..k + 1] == line && all[k + 1..] == rest;
      assert "" + rest == rest;
    } else {
      var text := ReplyText(all);
      assert "" + text == text;
    }
  }

  /** The holder moves on inside its operation. */
  lemma HolderKeeps(w: World, t: nat, pc: Pc, dev: Device, d0: Device, n: nat)
    requires Inv(w, d0, n) && w.mutex == Some(t) && t < |w.pcs| && Holds(pc)
    requires Progress(pc, StoreAfter(d0, w.log), dev, n)
    ensures Inv(At(w, t, pc).(dev := dev), d0, n)
  {
    hide Progress, Explained;
  }

  /** The holder is done: its event is explained by the store it found and left. */
  lemma ReleaseKeeps(w: World, t: nat, e: Event, d0: Device, n: nat)
    requires Inv(w, d0, n) && w.mutex == Some(t) && t < |w.pcs|
    requires var d := StoreAfter(d0, w.log);
             if e.Appended? then w.dev == WriteAll(d, e.pieces) && AppendsText(e)
             else w.dev == d && RepliesFrom(d, e, n)
    ensures Inv(Release(w, t, e), d0, n)
  {
    hide Progress, RepliesFrom, AppendsText, WriteAll;
    var log := w.log + [e];
    assert log[..|w.log|] == w.log;
    forall i | 0 <= i < |log|
      ensures if log[i].Appended? then AppendsText(log[i]) else RepliesFrom(StoreAfter(d0, log[..i]), log[i], n)
    {
      if i < |w.log| {
        assert log[..i] == w.log[..i] && log[i] == w.log[i];
      }
    }
  }

  lemma WritePieceKeeps(w: World, t: nat, text: string, pieces: seq<string>, left: string, size: nat,
                        d0: Device, n: nat)
    requires Inv(w, d0, n) && w.mutex == Some(t) && t < |w.pcs|
    requires w.pcs[t] == Appending(text, pieces, left) && 0 < size <= |left|
    ensures Inv(Step(w, t, WritePiece(size), n).value, d0, n)
  {
    var piece := left[..size];
    var dev, pc := Write(w.dev, piece, true).0, Appending(text, pieces + [piece], left[size..]);
    WriteAllPush(StoreAfter(d0, w.log), pieces, piece);
    FlatPush(pieces, piece);
    SentPart(Flat(pieces), left, size, "");
    assert left[size..] + "" == left[size..] && left + "" == left;
    HolderKeeps(w, t, pc, dev, d0, n);
    assert Step(w, t, WritePiece(size), n) == Some(At(w, t, pc).(dev := dev));
  }

  /** The place in a reply moves on: bytes sent, or bytes of the stream taken to be sent. */
  lemma SendKeeps(w: World, t: nat, a: Act, d0: Device, n: nat)
    requires Inv(w, d0, n) && w.mutex == Some(t) && t < |w.pcs| && w.pcs[t].Answering?
    requires !a.GiveUp? && !a.Finish? && Step(w, t, a, n).Some?
    ensures Inv(Step(w, t, a, n).value, d0, n)
  {
    var pc, content := w.pcs[t], Contents(w.dev, n);
    assert OnItsWay(pc, w.dev, n);
    var pc';
    if a.Send? {
      pc' := pc.(unsent := pc.unsent[a.size..], sent := pc.sent + pc.unsent[..a.size]);
      SentPart(pc.sent, pc.unsent, a.size, ReplyText(Ahead(pc.stream, content)));
    } else {
      ReadOnKeeps(pc.stream, content, a);
      var (s, more) := ReadOn(pc.stream, content, a).value;
      pc' := pc.(stream := s, unsent := more);
      assert "" + ReplyText(Ahead(pc.stream, content)) == ReplyText(Ahead(pc.stream, content));
    }
    assert OnItsWay(pc', w.dev, n);
    HolderKeeps(w, t, pc', w.dev, d0, n);
    assert Step(w, t, a, n) == Some(At(w, t, pc'));
    assert At(w, t, pc').(dev := w.dev) == At(w, t, pc');
  }

  lemma SentPart(sent: string, unsent: string, size: nat, ahead: string)
    requires size <= |unsent|
    ensures (sent + unsent[..size]) + (unsent[size..] + ahead) == sent + (unsent + ahead)
  {
    assert unsent[..size] + unsent[size..] == unsent;
  }

  /** A reply that ends here has sent a front part of what was due, all of it if it finished. */
  lemma ReplyEndsKeeps(w: World, t: nat, a: Act, d0: Device, n: nat)
    requires Inv(w, d0, n) && w.mutex == Some(t) && t < |w.pcs| && w.pcs[t].Answering?
    requires (a.GiveUp? || a.Finish?) && Step(w, t, a, n).Some?
    ensures Inv(Step(w, t, a, n).value, d0, n)
  {
    var pc, content := w.pcs[t], Contents(w.dev, n);
    assert OnItsWay(pc, w.dev, n);
    var e := Replied(t, pc.cmdOffs, pc.cmdInd, pc.sent, a.Finish?);
    if a.Finish? {
      assert Ahead(pc.stream, content) == "" && ReplyText("") == "";
      assert pc.sent + ("" + "") == pc.sent;
    }
    assert RepliesFrom(w.dev, e, n);
    ReleaseKeeps(w, t, e, d0, n);
    assert Step(w, t, a, n) == Some(Release(w, t, e));
  }

  lemma AnswerBegins(d: Device, x: int, y: int, pos: nat, n: nat)
    requires ReplyStart(Visible(d, n), x, y) == Some(pos)
    ensures OnItsWay(Answering(x, y, Reader(pos, "", false, ""), "", ""), d, n)
  {
    hide ReplyStart, Visible, Tail, ReplyText;
    var text := Tail(Contents(d, n), pos);
    assert "" + ("" + text) == text;
    assert "" + ("" + ReplyText(text)) == ReplyText(text);
  }

  lemma FirstStepKeeps(w: World, t: nat, op: Op, a: Act, d0: Device, n: nat)
    requires Inv(w, d0, n) && w.mutex == Some(t) && t < |w.pcs| && w.pcs[t] == Locked(op)
    requires FirstStep(w, t, op, a, n).Some?
    ensures Inv(FirstStep(w, t, op, a, n).value, d0, n)
  {
    assert WriteAll(w.dev, []) == w.dev;
    match op
    case OpAppend(text) =>
      if a.GiveUp? {
        ReleaseKeeps(w, t, Appended(t, text, [], false), d0, n);
      } else {
        assert Flat([]) + text == text;
        HolderKeeps(w, t, Appending(text, [], text), w.dev, d0, n);
        assert FirstStep(w, t, op, a, n) == Some(At(w, t, Appending(text, [], text)).(dev := w.dev));
      }
    case OpReply(x, y) =>
      var start := ReplyStart(Visible(w.dev, n), x, y);
      if a.GiveUp? || start.None? {
        ReleaseKeeps(w, t, Replied(t, x, y, "", false), d0, n);
      } else {
        var pc := Answering(x, y, Reader(start.value, "", false, ""), "", "");
        AnswerBegins(w.dev, x, y, start.value, n);
        HolderKeeps(w, t, pc, w.dev, d0, n);
        assert FirstStep(w, t, op, a, n) == Some(At(w, t, pc).(dev := w.dev));
      }
  }

  lemma AppendEndsKeeps(w: World, t: nat, ok: bool, d0: Device, n: nat)
    requires Inv(w, d0, n) && w.mutex == Some(t) && t < |w.pcs| && w.pcs[t].Appending?
    requires ok ==> w.pcs[t].left == ""
    ensures Inv(Release(w, t, Appended(t, w.pcs[t].text, w.pcs[t].pieces, ok)), d0, n)
  {
    var pc := w.pcs[t];
    assert Progress(pc, StoreAfter(d0, w.log), w.dev, n);
    assert Flat(pc.pieces) <= pc.text && (ok ==> Flat(pc.pieces) == pc.text);
    ReleaseKeeps(w, t, Appended(t, pc.text, pc.pieces, ok), d0, n);
  }

  /** Asking, and taking the mutex when it is free. */
  lemma QueueKeeps(w: World, t: nat, a: Act, d0: Device, n: nat)
    requires Inv(w, d0, n) && t < |w.pcs| && (w.pcs[t].Idle? || w.pcs[t].Waiting?)
    requires Step(w, t, a, n).Some?
    ensures Inv(Step(w, t, a, n).value, d0, n)
  {
    hide Explained, OnItsWay, WriteAll, FirstStep, ReadOn;
  }

  lemma StepKeeps(w: World, t: nat, a: Act, d0: Device, n: nat)
    requires Inv(w, d0, n) && Step(w, t, a, n).Some?
    ensures Inv(Step(w, t, a, n).value, d0, n)
  {
    assert Holds(w.pcs[t]) ==> w.mutex == Some(t);
    hide Inv, FirstStep, ReadOn;
    match w.pcs[t]
    case Idle => QueueKeeps(w, t, a, d0, n);
    case Waiting(op) => QueueKeeps(w, t, a, d0, n);
    case Locked(op) => FirstStepKeeps(w, t, op, a, d0, n);
    case Appending(text, pieces, left) =>
      if a.WritePiece? {
        WritePieceKeeps(w, t, text, pieces, left, a.size, d0, n);
      } else {
        AppendEndsKeeps(w, t, a.Finish?, d0, n);
      }
    case Answering(_, _, _, _, _) =>
      if a.GiveUp? || a.Finish? {
        ReplyEndsKeeps(w, t, a, d0, n);
      } else {
        SendKeeps(w, t, a, d0, n);
      }
  }

  // ---- what is asked is done once -----------------------------------------------

  function OpOf(e: Event): Op {
    match e
    case Appended(_, text, _, _) => OpAppend(text)
    case Replied(_, x, y, _, _) => OpReply(x, y)
  }

  /** What thread `t` was asked. */
  function AskedOf(asks: seq<Asked>, t: nat): seq<Op> {
    if asks == [] then []
    else AskedOf(asks[..|asks| - 1], t) + (if asks[|asks| - 1].thread == t then [asks[|asks| - 1].op] else [])
  }

  /** What thread `t` has done. */
  function DoneBy(log: seq<Event>, t: nat): seq<Op> {
    if log == [] then []
    else DoneBy(log[..|log| - 1], t) + (if log[|log| - 1].thread == t then [OpOf(log[|log| - 1])] else [])
  }

  /** What the thread is at. */
  function InHand(pc: Pc): seq<Op> {
    match pc
    case Idle => []
    case Waiting(op) => [op]
    case Locked(op) => [op]
    case Appending(text, _, _) => [OpAppend(text)]
    case Answering(x, y, _, _, _) => [OpReply(x, y)]
  }

  /** Every thread has done what it was asked, in order, each once, but what it is still at. */
  predicate Delivered(w: World) {
    forall t :: 0 <= t < |w.pcs| ==> DoneBy(w.log, t) + InHand(w.pcs[t]) == AskedOf(w.asks, t)
  }

  /** A step asks for an operation, ends one, or goes on with one. */
  lemma StepShape(w: World, t: nat, a: Act, n: nat)
    requires Step(w, t, a, n).Some?
    ensures t < |w.pcs|
    ensures var w' := Step(w, t, a, n).value;
            && |w'.pcs| == |w.pcs| && (forall u :: 0 <= u < |w.pcs| && u != t ==> w'.pcs[u] == w.pcs[u])
            && var pc, pc' := w.pcs[t], w'.pcs[t];
               || (pc.Idle? && pc'.Waiting? && !Failed(w.log, t)
                   && w'.asks == w.asks + [Asked(t, pc'.op)] && w'.log == w.log)
               || (w'.asks == w.asks && w'.log == w.log && InHand(pc') == InHand(pc))
               || (w'.asks == w.asks && pc'.Idle?
                   && exists e: Event :: e.thread == t && InHand(pc) == [OpOf(e)] && w'.log == w.log + [e])
  {
    hide ReadOn, Visible, Contents, ReplyStart;
    var w' := Step(w, t, a, n).value;
    if w'.log != w.log {
      var e := w'.log[|w.log|];
      assert e.thread == t && InHand(w.pcs[t]) == [OpOf(e)] && w'.log == w.log + [e];
    }
  }

  lemma StepDelivers(w: World, t: nat, a: Act, n: nat)
    requires Delivered(w) && Step(w, t, a, n).Some?
    ensures Delivered(Step(w, t, a, n).value)
  {
    StepShape(w, t, a, n);
    hide Step;
    var w' := Step(w, t, a, n).value;
    forall u | 0 <= u < |w'.pcs| ensures DoneBy(w'.log, u) + InHand(w'.pcs[u]) == AskedOf(w'.asks, u) {
      if w'.asks != w.asks {
        assert w'.asks[..|w.asks|] == w.asks;
      }
      if w'.log != w.log {
        assert w'.log[..|w.log|] == w.log;
      }
      assert DoneBy(w.log, u) + InHand(w.pcs[u]) == AskedOf(w.asks, u);
    }
  }

  /** Every thread stops at its first failure, and only threads there are have done anything. */
  predicate StopsAtFailure(w: World) {
    && (forall i :: 0 <= i < |w.log| ==> w.log[i].thread < |w.pcs|)
    && (forall i, j :: 0 <= i < j < |w.log| && w.log[i].thread == w.log[j].thread ==> w.log[i].ok)
    && (forall t :: 0 <= t < |w.pcs| && !w.pcs[t].Idle? ==> !Failed(w.log, t))
  }

  lemma StepStops(w: World, t: nat, a: Act, n: nat)
    requires StopsAtFailure(w) && Step(w, t, a, n).Some?
    ensures StopsAtFailure(Step(w, t, a, n).value)
  {
    StepShape(w, t, a, n);
    hide Step;
    var w' := Step(w, t, a, n).value;
    forall u | 0 <= u < |w'.pcs| && !w'.pcs[u].Idle? ensures !Failed(w'.log, u) {
      assert !w.pcs[u].Idle? || !Failed(w.log, u);
      assert w'.log != w.log ==> u != t && w'.log[|w.log|].thread == t;
    }
  }

  // ---- every run ----------------------------------------------------------------

  /** A run under any schedule; a choice that cannot be taken is passed over. */
  function Run(w: World, schedule: seq<(nat, Act)>, n: nat): World {
    if schedule == [] then w
    else
      var last, w1 := schedule[|schedule| - 1], Run(w, schedule[..|schedule| - 1], n);
      match Step(w1, last.0, last.1, n)
      case None => w1
      case Some(w2) => w2
  }

  function Start(d0: Device, threads: nat): World {
    World(d0, None, seq(threads, _ => Idle), [], [])
  }

  /**
   Under every schedule of every number of threads, the store is what the appends make of it one
   after another, each adding the whole text it was asked to or a front part where it was given
   up, and every reply is the reply of the one store state that the operations before it had left:
   all of it, or a front part where it failed. Every thread has done what it was asked, in order,
   and stopped at its first failure.
   */
  lemma {:induction false} RepliesAreSnapshots(d0: Device, threads: nat, schedule: seq<(nat, Act)>, n: nat)
    ensures var w := Run(Start(d0, threads), schedule, n);
            && Explained(d0, w.log, n)
            && (w.mutex.None? ==> w.dev == StoreAfter(d0, w.log))
            && Inv(w, d0, n) && Delivered(w) && StopsAtFailure(w) && |w.pcs| == threads
  {
    hide Inv, Delivered, StopsAtFailure, Step;
    StartDelivers(d0, threads, n);
    if schedule != [] {
      var k := |schedule| - 1;
      RepliesAreSnapshots(d0, threads, schedule[..k], n);
      var w := Run(Start(d0, threads), schedule[..k], n);
      if Step(w, schedule[k].0, schedule[k].1, n).Some? {
        StepKeeps(w, schedule[k].0, schedule[k].1, d0, n);
        StepDelivers(w, schedule[k].0, schedule[k].1, n);
        StepStops(w, schedule[k].0, schedule[k].1, n);
        StepShape(w, schedule[k].0, schedule[k].1, n);
      }
    }
    ExplainedInv(Run(Start(d0, threads), schedule, n), d0, n);
  }

  lemma StartDelivers(d0: Device, threads: nat, n: nat)
    ensures Inv(Start(d0, threads), d0, n) && Delivered(Start(d0, threads)) && StopsAtFailure(Start(d0, threads))
  {
  }

  lemma ExplainedInv(w: World, d0: Device, n: nat)
    requires Inv(w, d0, n)
    ensures Explained(d0, w.log, n) && (w.mutex.None? ==> w.dev == StoreAfter(d0, w.log))
  {
    hide Explained;
  }

  /** Nobody but the thread that appends with the mutex held ever changes the store. */
  lemma OnlyHolderWrites(w: World, t: nat, a: Act, d0: Device, n: nat)
    requires Inv(w, d0, n) && Step(w, t, a, n).Some? && Step(w, t, a, n).value.dev != w.dev
    ensures w.mutex == Some(t) && w.pcs[t].Appending? && Step(w, t, a, n).value.mutex == Some(t)
  {
  }
}
