/** Operations under file_mutex end: the mutex is always given back, and each can reach its good end. */
module StoreProgress {
  import opened Streams
  import opened DeviceSpec
  import opened DeviceLaws
  import opened Stdio
  import opened Servers
  import opened ClientThreads
  import opened StoreThreads

  /** The thread that has the mutex. */
  predicate HasMutex(w: World, t: nat, d0: Device, n: nat) {
    Inv(w, d0, n) && w.mutex == Some(t) && t < |w.pcs| && Holds(w.pcs[t])
  }

  lemma HolderHolds(w: World, t: nat, d0: Device, n: nat)
    requires Inv(w, d0, n) && w.mutex == Some(t)
    ensures HasMutex(w, t, d0, n)
  {
    hide Explained, OnItsWay, WriteAll;
  }

  /** A step that brings a thread to its good end when it is taken often enough. */
  function NextAct(pc: Pc): Act {
    match pc
    case Appending(_, _, left) => if left != "" then WritePiece(|left|) else Finish
    case Answering(_, _, stream, unsent, _) =>
      if unsent != "" then Send(|unsent|)
      else if stream.buf != "" then Take
      else if !stream.eof then Fill(BUFFER_SIZE)
      else if stream.line != "" then Flush
      else Finish
    case _ => Begin
  }

  lemma HolderCanStep(w: World, t: nat, d0: Device, n: nat)
    requires HasMutex(w, t, d0, n)
    ensures StoreThreads.Step(w, t, NextAct(w.pcs[t]), n).Some?
  {
    hide Inv, Contents, Visible, CStr, Due;
  }

  /** A thread outside an operation can be asked unless it failed, and one that waits goes in once the mutex is free. */
  lemma OnlyTheMutexIsWaitedFor(w: World, t: nat, op: Op, n: nat)
    requires t < |w.pcs|
    ensures w.pcs[t].Idle? && (forall i :: 0 <= i < |w.log| && w.log[i].thread == t ==> w.log[i].ok) ==>
              StoreThreads.Step(w, t, Ask(op), n).Some?
    ensures w.pcs[t].Waiting? && w.mutex.None? ==> StoreThreads.Step(w, t, Lock, n).Some?
  {
  }

  /** How many steps the holder has to take at most before it unlocks, sends of nothing apart. */
  function HoldLeft(pc: Pc, content: string): nat {
    match pc
    case Locked(OpAppend(text)) => |text| + 2
    case Locked(OpReply(_, _)) => 4 * |content| + 3
    case Appending(_, _, left) => |left| + 1
    case Answering(_, _, s, unsent, _) => ReadLeft(s, content) + |unsent|
    case _ => 0
  }

  /** Every byte is read ahead, taken into a line, put out and sent once. */
  function ReadLeft(s: Reader, content: string): nat {
    4 * |Tail(content, s.pos)| + 3 * |s.buf| + 2 * |s.line| + (if s.eof then 1 else 2)
  }

  lemma ReadOnAdvances(s: Reader, content: string, a: Act)
    requires ReadOn(s, content, a).Some?
    ensures var (s', more) := ReadOn(s, content, a).value; ReadLeft(s', content) + |more| < ReadLeft(s, content)
  {
    if a.Fill? {
      DueThenTail(content, s.pos, a.block);
    }
    hide Tail, Due;
  }

  /** A send of nothing is no progress. */
  predicate Useful(a: Act) { !(a.Send? && a.size == 0) }

  /** Every useful step of the holder ends its operation, or brings that nearer. */
  lemma HolderAdvances(w: World, t: nat, a: Act, d0: Device, n: nat)
    requires HasMutex(w, t, d0, n) && StoreThreads.Step(w, t, a, n).Some?
    ensures var w' := StoreThreads.Step(w, t, a, n).value;
            && |w'.pcs| == |w.pcs|
            && if w'.mutex == None then w'.pcs[t].Idle? && Ended(w, w', t)
               else
                 && w'.mutex == Some(t) && w'.log == w.log && Holds(w'.pcs[t])
                 && InHand(w'.pcs[t]) == InHand(w.pcs[t])
                 && HoldLeft(w'.pcs[t], Contents(w'.dev, n)) + (if Useful(a) then 1 else 0)
                    <= HoldLeft(w.pcs[t], Contents(w.dev, n))
  {
    hide Inv, ReadLeft, Contents, Visible, ReadOn, Reply;
    var pc, content := w.pcs[t], Contents(w.dev, n);
    if pc.Answering? && ReadOn(pc.stream, content, a).Some? {
      ReadOnAdvances(pc.stream, content, a);
    } else if pc.Locked? && pc.op.OpReply? {
      var start := ReplyStart(Visible(w.dev, n), pc.op.cmdOffs, pc.op.cmdInd);
      if start.Some? {
        StartLeft(start.value, content);
      }
    }
  }

  lemma StartLeft(pos: nat, content: string)
    ensures ReadLeft(Reader(pos, "", false, ""), content) <= 4 * |content| + 2
  {
  }

  /** The operation in hand was logged. */
  predicate Ended(w: World, w': World, t: nat)
    requires t < |w.pcs|
  {
    && |w'.log| == |w.log| + 1 && w'.log[..|w.log|] == w.log
    && w'.log[|w.log|].thread == t && InHand(w.pcs[t]) == [OpOf(w'.log[|w.log|])]
  }

  /** No step of another thread puts that off. */
  lemma OthersWait(w: World, t: nat, u: nat, a: Act, d0: Device, n: nat)
    requires HasMutex(w, t, d0, n) && u != t && StoreThreads.Step(w, u, a, n).Some?
    ensures var w' := StoreThreads.Step(w, u, a, n).value;
            && |w'.pcs| == |w.pcs| && w'.pcs[t] == w.pcs[t]
            && w'.mutex == w.mutex && w'.dev == w.dev && w'.log == w.log
  {
    assert u < |w.pcs| && !Holds(w.pcs[u]);
    hide Inv, FirstStep, ReadOn;
  }

  // ---- so the mutex is given back -----------------------------------------------

  /** How many useful steps thread `t` has taken under the schedule. */
  function OwnSteps(w: World, schedule: seq<(nat, Act)>, t: nat, n: nat): nat {
    if schedule == [] then 0
    else
      var k := |schedule| - 1;
      var (u, a) := schedule[k];
      OwnSteps(w, schedule[..k], t, n)
      + (if u == t && Useful(a) && StoreThreads.Step(StoreThreads.Run(w, schedule[..k], n), t, a, n).Some? then 1 else 0)
  }

  /** Thread `t` still has the mutex for the same operation, which its steps have all brought on. */
  predicate Holding(w: World, w': World, t: nat, steps: nat, n: nat)
    requires t < |w.pcs|
  {
    && w'.mutex == Some(t) && w'.log == w.log && |w'.pcs| == |w.pcs| && InHand(w'.pcs[t]) == InHand(w.pcs[t])
    && steps + HoldLeft(w'.pcs[t], Contents(w'.dev, n)) <= HoldLeft(w.pcs[t], Contents(w.dev, n))
  }

  /** The mutex is free, and the operation of thread `t` is the last one logged. */
  predicate Released(w: World, w': World, t: nat)
    requires t < |w.pcs|
  {
    w'.mutex == None && |w'.pcs| == |w.pcs| && w'.pcs[t].Idle? && Ended(w, w', t)
  }

  lemma TurnSpends(w: World, w1: World, t: nat, u: nat, a: Act, steps: nat, d0: Device, n: nat)
    requires t < |w.pcs| && HasMutex(w1, t, d0, n) && Holding(w, w1, t, steps, n)
    ensures var r := StoreThreads.Step(w1, u, a, n);
            var w2 := if r.Some? then r.value else w1;
            && Inv(w2, d0, n)
            && (Released(w, w2, t)
                || Holding(w, w2, t, steps + if u == t && Useful(a) && r.Some? then 1 else 0, n))
  {
    hide Inv, HoldLeft, StoreThreads.Step, Contents;
    if StoreThreads.Step(w1, u, a, n).Some? {
      StoreThreads.StepKeeps(w1, u, a, d0, n);
      if u == t {
        HolderAdvances(w1, t, a, d0, n);
      } else {
        OthersWait(w1, t, u, a, d0, n);
      }
    }
  }

  lemma {:induction false} HoldSpends(w: World, t: nat, schedule: seq<(nat, Act)>, d0: Device, n: nat) returns (k: nat)
    requires HasMutex(w, t, d0, n)
    ensures k <= |schedule| && Inv(StoreThreads.Run(w, schedule[..k], n), d0, n)
    ensures var w' := StoreThreads.Run(w, schedule[..k], n);
            Released(w, w', t) || (k == |schedule| && Holding(w, w', t, OwnSteps(w, schedule, t, n), n))
  {
    hide Inv, Released, HoldLeft, StoreThreads.Step, Contents;
    k := |schedule|;
    assert schedule[..k] == schedule;
    if schedule == [] {
      return;
    }
    var m := k - 1;
    var j := HoldSpends(w, t, schedule[..m], d0, n);
    assert schedule[..m][..j] == schedule[..j];
    var w1 := StoreThreads.Run(w, schedule[..j], n);
    if Released(w, w1, t) {
      k := j;
    } else {
      HolderHolds(w1, t, d0, n);
      hide Holding;
      TurnSpends(w, w1, t, schedule[m].0, schedule[m].1, OwnSteps(w, schedule[..m], t, n), d0, n);
    }
  }

  /**
   From any state that any schedule leads to, whatever the others do meanwhile: once the holder of
   the mutex has taken as many useful steps as its operation has left, the mutex has been free, the
   operation being the last one logged then. And before that it can always take such a step.
   */
  lemma MutexIsReleased(d0: Device, threads: nat, before: seq<(nat, Act)>, t: nat, schedule: seq<(nat, Act)>, n: nat)
    returns (end: nat)
    requires var w := StoreThreads.Run(Start(d0, threads), before, n);
             && w.mutex == Some(t) && t < |w.pcs|
             && HoldLeft(w.pcs[t], Contents(w.dev, n)) <= OwnSteps(w, schedule, t, n)
    ensures var w := StoreThreads.Run(Start(d0, threads), before, n);
            && Useful(NextAct(w.pcs[t])) && StoreThreads.Step(w, t, NextAct(w.pcs[t]), n).Some?
            && end <= |schedule| && Released(w, StoreThreads.Run(w, schedule[..end], n), t)
  {
    var w := StoreThreads.Run(Start(d0, threads), before, n);
    RepliesAreSnapshots(d0, threads, before, n);
    HolderHolds(w, t, d0, n);
    HolderCanStep(w, t, d0, n);
    hide Inv, Explained, Delivered, StopsAtFailure, StoreThreads.Run, StoreThreads.Step, OwnSteps, Released, Contents;
    end := HoldSpends(w, t, schedule, d0, n);
    var w' := StoreThreads.Run(w, schedule[..end], n);
    if !Released(w, w', t) {
      HolderHolds(w', t, d0, n);
      SomeLeft(w'.pcs[t], Contents(w'.dev, n));
    }
  }

  lemma SomeLeft(pc: Pc, content: string)
    requires Holds(pc)
    ensures 0 < HoldLeft(pc, content)
  {
  }

  // ---- and every operation can end well -----------------------------------------

  lemma {:induction false} RunOn(w: World, turn: (nat, Act), rest: seq<(nat, Act)>, n: nat)
    requires StoreThreads.Step(w, turn.0, turn.1, n).Some?
    ensures StoreThreads.Run(w, [turn] + rest, n)
         == StoreThreads.Run(StoreThreads.Step(w, turn.0, turn.1, n).value, rest, n)
  {
    hide StoreThreads.Step;
    var s := [turn] + rest;
    if rest == [] {
      assert s == [turn] && s[..0] == [] && StoreThreads.Run(w, [], n) == w;
    } else {
      var k := |rest| - 1;
      assert s[..|s| - 1] == [turn] + rest[..k];
      RunOn(w, turn, rest[..k], n);
    }
  }

  /** The seek of a reply that is about to begin is not refused. */
  predicate CanAnswer(w: World, t: nat, n: nat)
    requires t < |w.pcs|
  {
    w.pcs[t].Locked? && w.pcs[t].op.OpReply? ==>
      ReplyStart(Visible(w.dev, n), w.pcs[t].op.cmdOffs, w.pcs[t].op.cmdInd).Some?
  }

  lemma NextIsUseful(w: World, t: nat, d0: Device, n: nat)
    requires HasMutex(w, t, d0, n) && CanAnswer(w, t, n)
    ensures StoreThreads.Step(w, t, NextAct(w.pcs[t]), n).Some? && Useful(NextAct(w.pcs[t]))
    ensures var w' := StoreThreads.Step(w, t, NextAct(w.pcs[t]), n).value;
            && |w'.pcs| == |w.pcs|
            && (if w'.mutex == None then |w'.log| == |w.log| + 1 && w'.log[|w.log|].ok else CanAnswer(w', t, n))
  {
    HolderCanStep(w, t, d0, n);
    hide Inv, Contents, Visible, CStr, Due;
  }

  /**
   An operation that has the mutex can always be brought to a successful end by its own steps alone,
   unless it is a reply that starts with a seek to no place.
   */
  lemma {:induction false} CanEndWell(w: World, t: nat, d0: Device, n: nat) returns (acts: seq<(nat, Act)>)
    requires HasMutex(w, t, d0, n) && CanAnswer(w, t, n)
    ensures forall i :: 0 <= i < |acts| ==> acts[i].0 == t
    ensures var w' := StoreThreads.Run(w, acts, n); Released(w, w', t) && w'.log[|w.log|].ok
    decreases HoldLeft(w.pcs[t], Contents(w.dev, n))
  {
    NextIsUseful(w, t, d0, n);
    var a := NextAct(w.pcs[t]);
    StoreThreads.StepKeeps(w, t, a, d0, n);
    HolderAdvances(w, t, a, d0, n);
    hide Inv, StoreThreads.Step, HoldLeft, Contents, CanAnswer, StoreThreads.Run;
    var w1 := StoreThreads.Step(w, t, a, n).value;
    acts := [];
    if w1.mutex.Some? {
      acts := CanEndWell(w1, t, d0, n);
    } else {
      assert StoreThreads.Run(w1, [], n) == w1 by { RunNothing(w1, n); }
    }
    RunOn(w, (t, a), acts, n);
    acts := [(t, a)] + acts;
  }

  lemma RunNothing(w: World, n: nat)
    ensures StoreThreads.Run(w, [], n) == w
  {
  }
}
