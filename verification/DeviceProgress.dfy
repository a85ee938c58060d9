/** The interleaved driver goes on: the lock is always given back, and only the lock is ever waited for. */
module DeviceProgress {
  import opened Addresses
  import opened Streams
  import opened Rings
  import opened DeviceSpec
  import opened DriverStates
  import opened DeviceThreads
  import opened DeviceSchedules

  // ---- nobody is stuck ----------------------------------------------------------

  /** What an allocation may give: no memory, or a block that is not in use. */
  predicate Gives(mem: DriverState, address: nat) {
    address == NULL || address !in mem.blocks
  }

  /** No step inside the critical section waits for anything. */
  lemma TickGoesOn(w: World, t: nat, address: nat, slack: char)
    requires Present(w, t) && InCriticalSection(w.threads[t].pc) && !w.threads[t].pc.Unlocking?
    requires Doing(w.threads[t].pc, w.threads[t].ask.op) && Gives(w.mem, address)
    ensures !Tick(w, t, address, slack).Blocked?
  {
    hide LookUp, SeekAnswer, WithEntry, Settled, Stored, Text, Ring.Valid, PointedTo, WithPc, Effect;
  }

  /** The owner of the lock can always take its next step, whatever the allocator gives. */
  lemma OwnerCanStep(w: World, t: nat, address: nat, slack: char, n: nat)
    requires Sound(w, n) && w.lock == Some(t) && Gives(w.mem, address)
    ensures Present(w, t) && InCriticalSection(w.threads[t].pc) && Apply(w, t, Go(address, slack)).Ok?
  {
    OwnerPresent(w, t, n);
    ApplyKeeps(w, t, Go(address, slack), n);
    hide Sound, Inv, Tick, Doing, Gives;
    if !w.threads[t].pc.Unlocking? {
      TickGoesOn(w, t, address, slack);
    }
  }

  lemma OwnerPresent(w: World, t: nat, n: nat)
    requires Sound(w, n) && w.lock == Some(t)
    ensures Present(w, t) && InCriticalSection(w.threads[t].pc) && Doing(w.threads[t].pc, w.threads[t].ask.op)
  {
    PosTold(w, t, n);
  }

  /**
   A thread outside a call can enter any, a call that loads a position can load it, one that takes
   no lock can return, and one that takes it can as soon as the lock is free, or be interrupted.
   */
  lemma OnlyTheLockIsWaitedFor(w: World, t: nat, ask: Ask, address: nat, slack: char, n: nat)
    requires Sound(w, n) && t < |w.threads| && ask.file < |w.files| && Gives(w.mem, address)
    ensures Present(w, t)
    ensures match w.threads[t].pc
            case Idle => Apply(w, t, Enter(ask)).Ok?
            case Loading(_) => Apply(w, t, Load).Ok?
            case Entered(op) =>
              if Lockless(op) then Apply(w, t, Go(address, slack)).Ok?
              else Apply(w, t, AtLock(true)).Ok? && (w.lock.None? ==> Apply(w, t, AtLock(false)).Ok?)
            case _ => w.lock == Some(t) && Apply(w, t, Go(address, slack)).Ok?
  {
    PosTold(w, t, n);
    if InCriticalSection(w.threads[t].pc) {
      assert w.lock == Some(t);
      OwnerCanStep(w, t, address, slack, n);
    }
  }

  // ---- every step of the owner brings the unlocking nearer ----------------------

  /** How many retained commands a read at `pos` is not past yet. */
  function CommandsAhead(mem: DriverState, pos: nat): nat {
    if !mem.ring.Valid() then 0
    else
      var count := |mem.ring.Contents()|;
      match Locate(EntrySizes(mem.ring.Contents()), pos)
      case None => 0
      case Some(p) => if p.index < count then count - p.index else 0
  }

  /** How many steps the owner of the lock has still to take, at most. */
  function HoldLeft(mem: DriverState, th: Thread): nat {
    match th.pc
    case Locked(OpWrite(_)) => 8
    case Filled(_, _, _) => 7
    case Freed(_, _, _) => 6
    case Swapped(_) => 5
    case Detached(_, _, _) => 4
    case Evicted(_, _, _) => 3
    case Placed(_, _) => 2
    case Locked(OpRead(_, _)) => CommandsAhead(mem, th.from) + 3
    case Copying(_, _, data) => CommandsAhead(mem, th.from + |data|) + 2
    case Locked(OpIoctl(_, _)) => 2
    case Unlocking(_) => 1
    case _ => 0
  }

  /** Past the rest of the command found, the lookup finds a later one. */
  lemma {:induction false} PastCommand(sizes: seq<nat>, pos: nat)
    requires Locate(sizes, pos).Some?
    ensures var p := Locate(sizes, pos).value;
            && p.index < |sizes| && p.byte < sizes[p.index]
            && var q := Locate(sizes, pos + (sizes[p.index] - p.byte));
               q.Some? ==> p.index < q.value.index < |sizes|
  {
    if pos < sizes[0] {
      LocateInverse(sizes, sizes[0]);
    } else {
      PastCommand(sizes[1..], pos - sizes[0]);
    }
  }

  lemma LookUpAdvances(mem: DriverState, pos: nat)
    requires LookUp(mem, pos).Rest?
    ensures CommandsAhead(mem, pos + |LookUp(mem, pos).bytes|) < CommandsAhead(mem, pos)
  {
    var sizes := EntrySizes(mem.ring.Contents());
    PastCommand(sizes, pos);
    hide Ring.Valid, Ring.Contents;
  }

  /** Each turn of the read loop that goes round again leaves a command behind. */
  lemma CopyAdvances(w: World, t: nat, address: nat, slack: char)
    requires Present(w, t) && w.threads[t].pc.Copying? && Tick(w, t, address, slack).Ok?
    ensures var w' := Tick(w, t, address, slack).world;
            && w'.lock == w.lock && |w'.threads| == |w.threads|
            && HoldLeft(w'.mem, w'.threads[t]) < HoldLeft(w.mem, w.threads[t])
  {
    hide LookUp, CommandsAhead;
    var pos := w.threads[t].from + |w.threads[t].pc.data|;
    if LookUp(w.mem, pos).Rest? {
      LookUpAdvances(w.mem, pos);
    }
  }

  /** So does every other step inside the critical section. */
  lemma TickAdvances(w: World, t: nat, address: nat, slack: char)
    requires Present(w, t) && InCriticalSection(w.threads[t].pc) && !w.threads[t].pc.Copying?
    requires Tick(w, t, address, slack).Ok? && Doing(w.threads[t].pc, w.threads[t].ask.op)
    ensures var w' := Tick(w, t, address, slack).world;
            && w'.lock == w.lock && |w'.threads| == |w.threads|
            && HoldLeft(w'.mem, w'.threads[t]) < HoldLeft(w.mem, w.threads[t])
  {
    hide CommandsAhead, LookUp, SeekAnswer, WithEntry, Settled, Stored, Text, Ring.Valid, PointedTo;
  }

  lemma HoldIsLeft(mem: DriverState, th: Thread)
    requires InCriticalSection(th.pc) && Doing(th.pc, th.ask.op)
    ensures 0 < HoldLeft(mem, th) && (th.pc.Unlocking? <==> HoldLeft(mem, th) == 1)
  {
    hide CommandsAhead;
  }

  lemma RecordFacts(w: World, w': World, t: nat)
    requires Present(w, t) && RecordStep(w, w', t)
    ensures |w'.threads| == |w.threads| && w'.threads[t] == w.threads[t].(pc := w'.threads[t].pc)
    ensures InCriticalSection(w'.threads[t].pc) && Doing(w'.threads[t].pc, w.threads[t].ask.op)
  {
    hide Matches, Moved, EventOf;
  }

  lemma OwnerAdvances(w: World, t: nat, a: Action, n: nat)
    requires Sound(w, n) && w.lock == Some(t) && Present(w, t) && Apply(w, t, a).Ok?
    ensures var th, w' := w.threads[t], Apply(w, t, a).world;
            && |w'.threads| == |w.threads|
            && var th' := w'.threads[t];
               if th.pc.Unlocking? then
                 w'.lock == None && th' == th.(pc := Idle, returned := th.returned + [th.pc.outcome])
               else
                 && w'.lock == Some(t) && th' == th.(pc := th'.pc)
                 && 0 < HoldLeft(w'.mem, th') < HoldLeft(w.mem, th)
  {
    OwnerPresent(w, t, n);
    hide Sound, HoldLeft, Tick, RecordStep, Doing;
    var pc := w.threads[t].pc;
    if !pc.Unlocking? {
      TickRecords(w, t, a.address, a.slack);
      var w' := Tick(w, t, a.address, a.slack).world;
      RecordFacts(w, w', t);
      HoldIsLeft(w'.mem, w'.threads[t]);
      if pc.Copying? {
        CopyAdvances(w, t, a.address, a.slack);
      } else {
        TickAdvances(w, t, a.address, a.slack);
      }
    }
  }

  /** No step of another thread puts that off. */
  lemma OthersWait(w: World, t: nat, u: nat, a: Action, n: nat)
    requires Sound(w, n) && w.lock == Some(t) && u != t && Present(w, u) && Apply(w, u, a).Ok?
    ensures var w' := Apply(w, u, a).world;
            && |w'.threads| == |w.threads| && w'.threads[t] == w.threads[t]
            && w'.lock == w.lock && w'.mem == w.mem
  {
    OwnerPresent(w, t, n);
    assert !InCriticalSection(w.threads[u].pc);
    hide Sound, Tick, CallOf, Llseek, EventOf;
  }

  /** The steps a call takes with the lock held: at most one for each command held, and a few. */
  function MaxHold(op: Op, n: nat): nat {
    match op
    case OpWrite(_) => 8
    case OpRead(_, _) => n + 3
    case OpIoctl(_, _) => 2
    case _ => 1
  }

  lemma CommandsHeld(mem: DriverState, pos: nat, n: nat)
    requires |mem.ring.entry| == n
    ensures CommandsAhead(mem, pos) <= n
  {
    hide Locate, EntrySizes;
  }

  lemma HoldIsBounded(w: World, t: nat, n: nat)
    requires Sound(w, n) && w.lock == Some(t)
    ensures Present(w, t) && 0 < HoldLeft(w.mem, w.threads[t])
    ensures HoldLeft(w.mem, w.threads[t]) <= MaxHold(w.threads[t].ask.op, n)
  {
    OwnerPresent(w, t, n);
    var th := w.threads[t];
    HoldIsLeft(w.mem, th);
    assert |w.mem.ring.entry| == n;
    hide Sound, CommandsAhead;
    CommandsHeld(w.mem, th.from, n);
    if th.pc.Copying? {
      CommandsHeld(w.mem, th.from + |th.pc.data|, n);
    }
  }

  // ---- so the lock is given back ------------------------------------------------

  /** The thread is scheduled to go on, and the allocator gives what it may. */
  predicate OwnTurn(w: World, turn: Turn, t: nat) {
    turn.thread == t && turn.action.Go? && Gives(w.mem, turn.action.address)
  }

  /** How many of the scheduled turns are those of thread `t`. */
  function OwnTurns(w: World, schedule: seq<Turn>, t: nat): nat {
    if schedule == [] then 0
    else
      var k := |schedule| - 1;
      var r := Execute(w, schedule[..k]);
      OwnTurns(w, schedule[..k], t) + (if r.Ok? && OwnTurn(r.world, schedule[k], t) then 1 else 0)
  }

  /** Thread `t` still holds the lock for the same call, all its turns having brought it on. */
  predicate Holding(w: World, w': World, t: nat, turns: nat)
    requires t < |w.threads|
  {
    && w'.lock == Some(t) && |w'.threads| == |w.threads|
    && w'.threads[t] == w.threads[t].(pc := w'.threads[t].pc)
    && turns + HoldLeft(w'.mem, w'.threads[t]) <= HoldLeft(w.mem, w.threads[t])
  }

  /** The lock is free, and thread `t` has returned the outcome that was logged for the call it was in. */
  predicate Returned(w: World, w': World, t: nat)
    requires t < |w.threads|
  {
    && w'.lock == None && t < |w'.threads|
    && var th, th' := w.threads[t], w'.threads[t];
    && th'.pc.Idle? && th'.asked == th.asked && |th'.returned| == |th.returned| + 1 && th.returned < th'.returned
    && AsksOf(w'.log, t) == th'.asked && OutcomesOf(w'.log, t) == th'.returned
  }

  /** One turn while thread `t` holds the lock. */
  lemma TurnSpends(w: World, w1: World, t: nat, turn: Turn, turns: nat, n: nat)
    requires t < |w.threads| && Sound(w1, n) && Holding(w, w1, t, turns)
    ensures TakeTurn(w1, turn).Ok? && Sound(TakeTurn(w1, turn).world, n)
    ensures var w2 := TakeTurn(w1, turn).world;
            || Returned(w, w2, t)
            || Holding(w, w2, t, turns + if OwnTurn(w1, turn, t) then 1 else 0)
  {
    hide Sound, HoldLeft, Apply, Gives;
    if OwnTurn(w1, turn, t) {
      OwnerCanStep(w1, t, turn.action.address, turn.action.slack, n);
    }
    if Present(w1, turn.thread) {
      SoundGoesOn(w1, turn.thread, turn.action, n);
      if Apply(w1, turn.thread, turn.action).Ok? {
        var w2 := Apply(w1, turn.thread, turn.action).world;
        if turn.thread != t {
          OthersWait(w1, t, turn.thread, turn.action, n);
        } else {
          OwnerAdvances(w1, t, turn.action, n);
          if w1.threads[t].pc.Unlocking? {
            AllAnswered(w2, t, n);
          }
        }
      }
    }
  }

  lemma SoundGoesOn(w: World, t: nat, a: Action, n: nat)
    requires Sound(w, n) && Present(w, t)
    ensures !Apply(w, t, a).Crash? && (Apply(w, t, a).Ok? ==> Sound(Apply(w, t, a).world, n))
  {
    ApplyKeeps(w, t, a, n);
    hide Inv, Delivered, Timely, Apply;
    if Apply(w, t, a).Ok? {
      var _ := ApplySound(w, t, a, n);
    }
  }

  /** A thread outside a call has been answered all it asked. */
  lemma AllAnswered(w: World, t: nat, n: nat)
    requires Sound(w, n) && t < |w.threads| && w.threads[t].pc.Idle?
    ensures AsksOf(w.log, t) == w.threads[t].asked && OutcomesOf(w.log, t) == w.threads[t].returned
  {
    assert DeliveredTo(w.log, t, w.threads[t]);
    hide Inv, Timely, AsksOf, OutcomesOf;
  }

  lemma {:induction false} HoldSpends(w: World, t: nat, schedule: seq<Turn>, n: nat) returns (k: nat)
    requires Sound(w, n) && w.lock == Some(t) && Present(w, t)
    ensures k <= |schedule| && Execute(w, schedule[..k]).Ok? && Sound(Execute(w, schedule[..k]).world, n)
    ensures var w' := Execute(w, schedule[..k]).world;
            Returned(w, w', t) || (k == |schedule| && Holding(w, w', t, OwnTurns(w, schedule, t)))
  {
    hide Sound, Returned, Holding, TakeTurn, OwnTurn;
    k := |schedule|;
    assert schedule[..k] == schedule;
    if schedule == [] {
      assert Holding(w, w, t, 0) by { HoldsNow(w, t); }
      return;
    }
    var m := k - 1;
    var j := HoldSpends(w, t, schedule[..m], n);
    assert schedule[..m][..j] == schedule[..j];
    var w1 := Execute(w, schedule[..j]).world;
    if Returned(w, w1, t) {
      k := j;
    } else {
      TurnSpends(w, w1, t, schedule[m], OwnTurns(w, schedule[..m], t), n);
    }
  }

  lemma HoldsNow(w: World, t: nat)
    requires w.lock == Some(t) && t < |w.threads|
    ensures Holding(w, w, t, 0)
  {
  }

  /**
   From any state that any schedule leads to, whatever the others do meanwhile: once the owner of
   the lock has had as many turns as its call takes at most, the lock has been free, with the owner
   back from the call and the outcome it returned the one that was logged.
   */
  lemma LockIsReleased(k: nat, files: nat, n: nat, before: seq<Turn>, t: nat, schedule: seq<Turn>) returns (end: nat)
    requires 1 <= n <= 255 && 0 < files
    requires Execute(Start(k, files, n), before).Ok?
    requires var w := Execute(Start(k, files, n), before).world;
             && w.lock == Some(t) && t < |w.threads|
             && MaxHold(w.threads[t].ask.op, n) <= OwnTurns(w, schedule, t)
    ensures var w := Execute(Start(k, files, n), before).world;
            && end <= |schedule| && Execute(w, schedule[..end]).Ok?
            && Returned(w, Execute(w, schedule[..end]).world, t)
  {
    var w := Execute(Start(k, files, n), before).world;
    assert Sound(w, n) by {
      EverySchedule(k, files, n, before);
    }
    hide Sound, Returned, HoldLeft, OwnTurns, Execute;
    HoldIsBounded(w, t, n);
    end := HoldSpends(w, t, schedule, n);
    var w' := Execute(w, schedule[..end]).world;
    if !Returned(w, w', t) {
      HoldIsBounded(w', t, n);
    }
  }
}
