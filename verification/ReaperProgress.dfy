/** The threads around the list go on: clients end, the mutex is given back, nobody waits for nothing. */
module ReaperProgress {
  import opened Addresses
  import opened Streams
  import opened PointerLists
  import opened Reapers
  import opened ReaperLaws

  // ---- who can step -------------------------------------------------------------

  /** The thread is at a lock operation. */
  predicate WantsMutex(w: World, agent: Agent) {
    match agent
    case Main => w.main.Made?
    case Reaper => w.reaper.ToLock?
    case Client(s) => s < |w.clients| && w.clients[s].Begun?
  }

  /** The thread runs: a client has begun and not ended, and the reaper does not join one that has not ended. */
  predicate Running(w: World, agent: Agent) {
    match agent
    case Main => true
    case Reaper =>
      w.reaper.Join? && w.reaper.item in w.nodes && w.nodes[w.reaper.item].serial < |w.clients| ==>
        w.clients[w.nodes[w.reaper.item].serial].Exited?
    case Client(s) => s < |w.clients| && !w.clients[s].Unborn? && !w.clients[s].Exited?
  }

  /** Whoever runs and does not wait for the mutex can take its next step, memory being there for a new node. */
  lemma RunningCanStep(w: World, agent: Agent, a: nat, junk: nat)
    requires Inv(w) && Running(w, agent) && a != NULL && a !in w.nodes
    requires WantsMutex(w, agent) ==> w.mutex.None?
    ensures Step(w, agent, a, junk).Ok?
  {
    StepKeeps(w, agent, a, junk);
    if agent.Reaper? && w.reaper.Join? {
      assert Written(w.clients[w.nodes[w.reaper.item].serial], w.nodes[w.reaper.item]);
    }
    hide Shape, Paired, AllWritten, Ended, DueOk, Remove;
  }

  /** The holder of the mutex runs and does not wait. */
  lemma HolderRuns(w: World)
    requires Inv(w) && w.mutex.Some?
    ensures Running(w, w.mutex.value) && !WantsMutex(w, w.mutex.value)
    ensures match w.mutex.value
            case Main => w.main.Locked? || w.main.Linked? || w.main.Inserted?
            case Reaper => w.reaper.AtNext? || w.reaper.AtRemove? || w.reaper.Walk? || w.reaper.ToUnlock?
            case Client(s) => s < |w.clients| && (w.clients[s].HasLock? || w.clients[s].TidStored?)
  {
    hide Shape, Paired, AllWritten, Ended, MainOk, ReaperOk, DueOk;
    if w.mutex.value.Client? {
      assert w.mutex == Some(Client(w.mutex.value.serial));
    }
  }

  // ---- the mutex is given back --------------------------------------------------

  /** How many steps the holder of the mutex has to take at most before it unlocks, that one included. */
  function HoldLeft(w: World): (left: nat)
    ensures left <= |w.list| + 3
  {
    match w.mutex
    case None => 0
    case Some(Main) => if w.main.Locked? then 3 else if w.main.Linked? then 2 else 1
    case Some(Client(s)) => if s < |w.clients| && w.clients[s].HasLock? then 2 else 1
    case Some(Reaper) =>
      match w.reaper
      case AtNext(_) => |w.list| + 3
      case AtRemove(_, _) => |w.list| + 2
      case Walk(_, _, cur) => |From(w.list, cur)| + 1
      case _ => 1
  }

  /** Every step of the holder unlocks, or brings the unlocking nearer. */
  lemma HolderAdvances(w: World, a: nat, junk: nat)
    requires Inv(w) && w.mutex.Some?
    ensures Step(w, w.mutex.value, a, junk).Ok?
    ensures var w' := Step(w, w.mutex.value, a, junk).world;
            w'.mutex == None || (w'.mutex == w.mutex && 0 < HoldLeft(w') < HoldLeft(w))
  {
    HolderRuns(w);
    StepKeeps(w, w.mutex.value, a, junk);
    SameCount(w);
    hide Inv, HoldLeft, MainStep, ClientStep, ReaperStep;
    match w.mutex.value
    case Main => MainHolds(w, a, junk);
    case Client(s) => ClientHolds(w, s);
    case Reaper => ReaperHolds(w);
  }

  lemma MainHolds(w: World, a: nat, junk: nat)
    requires w.mutex == Some(Main) && (w.main.Locked? || w.main.Linked? || w.main.Inserted?)
    requires !MainStep(w, a, junk).Crash?
    ensures MainStep(w, a, junk).Ok?
    ensures var w' := MainStep(w, a, junk).world;
            w'.mutex == None || (w'.mutex == w.mutex && 0 < HoldLeft(w') < HoldLeft(w))
  {
    hide From;
  }

  lemma ClientHolds(w: World, s: nat)
    requires w.mutex == Some(Client(s)) && s < |w.clients| && (w.clients[s].HasLock? || w.clients[s].TidStored?)
    requires |w.args| == |w.clients| && !ClientStep(w, s).Crash?
    ensures ClientStep(w, s).Ok?
    ensures var w' := ClientStep(w, s).world;
            w'.mutex == None || (w'.mutex == w.mutex && 0 < HoldLeft(w') < HoldLeft(w))
  {
    hide From;
  }

  lemma SameCount(w: World)
    requires Inv(w)
    ensures |w.args| == |w.clients|
  {
    hide Shape, Paired, AllWritten, Ended, MutexOk, ReaperOk, DueOk;
  }

  lemma ReaperHolds(w: World)
    requires Inv(w) && w.mutex == Some(Reaper) && !ReaperStep(w).Crash?
    requires w.reaper.AtNext? || w.reaper.AtRemove? || w.reaper.Walk? || w.reaper.ToUnlock?
    ensures ReaperStep(w).Ok?
    ensures var w' := ReaperStep(w).world;
            w'.mutex == None || (w'.mutex == w.mutex && 0 < HoldLeft(w') < HoldLeft(w))
  {
    hide Inv, From, Chain, Remove;
    ListFacts(w);
    if w.reaper.Walk? {
      NextFacts(w.nodes, w.head, w.list, w.reaper.cur);
    }
  }

  /** No step of another takes the mutex away or puts the unlocking off. */
  lemma OthersLeaveMutex(w: World, agent: Agent, a: nat, junk: nat)
    requires Inv(w) && w.mutex.Some? && w.mutex != Some(agent) && Step(w, agent, a, junk).Ok?
    ensures var w' := Step(w, agent, a, junk).world; w'.mutex == w.mutex && HoldLeft(w') == HoldLeft(w)
  {
    HolderRuns(w);
    assert MutexOk(w.mutex, w.main, w.reaper, w.clients);
    hide Inv, HoldLeft, MainStep, ClientStep, ReaperStep;
    match agent
    case Main => MainLeaves(w, a, junk);
    case Client(s) => ClientLeaves(w, s);
    case Reaper => ReaperLeaves(w);
  }

  lemma MainLeaves(w: World, a: nat, junk: nat)
    requires Inv(w) && w.mutex.Some? && w.mutex != Some(Main) && MainStep(w, a, junk).Ok?
    ensures var w' := MainStep(w, a, junk).world; w'.mutex == w.mutex && HoldLeft(w') == HoldLeft(w)
  {
    MainIsOutside(w);
    hide Inv, From, MainStep, HoldLeft;
    MainTouches(w, a, junk, if w.mutex.value.Client? then w.mutex.value.serial else 0);
    SameHold(w, MainStep(w, a, junk).world);
  }

  /** Outside the mutex the accepting thread touches no client that was begun. */
  lemma MainTouches(w: World, a: nat, junk: nat, s: nat)
    requires w.mutex.Some? && !w.main.Locked? && !w.main.Linked? && !w.main.Inserted? && MainStep(w, a, junk).Ok?
    requires w.main.Unlocked? ==>
               && w.main.a in w.nodes && w.nodes[w.main.a].serial < |w.clients|
               && w.clients[w.nodes[w.main.a].serial].Unborn?
    ensures var w' := MainStep(w, a, junk).world;
            && w'.mutex == w.mutex && w'.reaper == w.reaper && w'.list == w.list && |w.clients| <= |w'.clients|
            && (s < |w.clients| && !w.clients[s].Unborn? ==> w'.clients[s] == w.clients[s])
  {
  }

  lemma SameHold(w: World, w': World)
    requires w.mutex.Some? && w.mutex != Some(Main)
    requires w'.mutex == w.mutex && w'.reaper == w.reaper && w'.list == w.list
    requires w.mutex.value.Client? ==>
               var s := w.mutex.value.serial; s < |w.clients| <= |w'.clients| && w'.clients[s] == w.clients[s]
    ensures HoldLeft(w') == HoldLeft(w)
  {
    hide From;
  }

  lemma MainIsOutside(w: World)
    requires Inv(w) && w.mutex.Some? && w.mutex != Some(Main)
    ensures !w.main.Locked? && !w.main.Linked? && !w.main.Inserted?
    ensures w.mutex.value.Client? ==>
              w.mutex.value.serial < |w.clients| && !w.clients[w.mutex.value.serial].Unborn?
    ensures w.main.Unlocked? ==>
              && w.main.a in w.nodes && w.nodes[w.main.a].serial < |w.clients|
              && w.clients[w.nodes[w.main.a].serial].Unborn?
  {
    HolderRuns(w);
    hide Shape, Paired, AllWritten, Ended, ReaperOk, DueOk;
  }

  lemma ClientLeaves(w: World, s: nat)
    requires MutexOk(w.mutex, w.main, w.reaper, w.clients)
    requires w.mutex.Some? && w.mutex != Some(Client(s)) && ClientStep(w, s).Ok?
    ensures var w' := ClientStep(w, s).world; w'.mutex == w.mutex && HoldLeft(w') == HoldLeft(w)
  {
    hide From;
  }

  lemma ReaperLeaves(w: World)
    requires MutexOk(w.mutex, w.main, w.reaper, w.clients)
    requires w.mutex.Some? && w.mutex != Some(Reaper) && ReaperStep(w).Ok?
    ensures var w' := ReaperStep(w).world; w'.mutex == w.mutex && HoldLeft(w') == HoldLeft(w)
  {
    hide From, Remove;
  }

  /** How many of the scheduled turns are those of `agent`. */
  function TurnsOf(schedule: seq<Choice>, agent: Agent): nat {
    if schedule == [] then 0
    else
      var k := |schedule| - 1;
      TurnsOf(schedule[..k], agent) + (if schedule[k].agent == agent then 1 else 0)
  }

  /** Once its holder has had that many turns, whatever the others do, the mutex has been free. */
  lemma {:induction false} MutexIsReleased(w: World, holder: Agent, schedule: seq<Choice>) returns (end: nat)
    requires Inv(w) && w.mutex == Some(holder)
    ensures end <= |schedule| && Run(w, schedule[..end]).Ok?
    ensures var w' := Run(w, schedule[..end]).world;
            if HoldLeft(w) <= TurnsOf(schedule, holder) then w'.mutex == None
            else w'.mutex == None
                 || (end == |schedule| && w'.mutex == Some(holder)
                     && TurnsOf(schedule, holder) + HoldLeft(w') <= HoldLeft(w))
  {
    hide Inv, HoldLeft, Step;
    assert schedule[..|schedule|] == schedule;
    HoldIsLeft(w);
    if schedule == [] {
      return 0;
    }
    var k := |schedule| - 1;
    end := MutexIsReleased(w, holder, schedule[..k]);
    assert schedule[..k][..end] == schedule[..end];
    if Run(w, schedule[..end]).world.mutex.Some? {
      end := |schedule|;
      RunKeeps(w, schedule[..k]);
      TurnHolds(Run(w, schedule[..k]).world, schedule[k]);
    }
    RunKeeps(w, schedule[..end]);
    if Run(w, schedule[..end]).world.mutex.Some? {
      HoldIsLeft(Run(w, schedule[..end]).world);
    }
  }

  lemma HoldIsLeft(w: World)
    requires w.mutex.Some?
    ensures 0 < HoldLeft(w)
  {
  }

  lemma TurnHolds(w: World, c: Choice)
    requires Inv(w) && w.mutex.Some?
    ensures var r := Step(w, c.agent, c.address, c.junk);
            var w' := if r.Ok? then r.world else w;
            && !r.Crash?
            && (w'.mutex == None
                || (w'.mutex == w.mutex
                    && HoldLeft(w') + (if w.mutex == Some(c.agent) then 1 else 0) <= HoldLeft(w)))
  {
    hide Inv, HoldLeft, Step;
    StepKeeps(w, c.agent, c.address, c.junk);
    if w.mutex == Some(c.agent) {
      HolderAdvances(w, c.address, c.junk);
    } else if Step(w, c.agent, c.address, c.junk).Ok? {
      OthersLeaveMutex(w, c.agent, c.address, c.junk);
    }
  }

  // ---- clients end --------------------------------------------------------------

  /** How many steps a client has still to take; one that is not begun yet waits for its creation. */
  function ClientLeft(c: ClientPc): nat {
    match c
    case Unborn => 6
    case Begun => 5
    case HasLock => 4
    case TidStored => 3
    case Working => 2
    case Flagged => 1
    case Exited => 0
  }

  /** Every step of a client brings its end nearer, and it can take it unless it waits for the mutex. */
  lemma ClientAdvances(w: World, s: nat)
    requires Inv(w) && s < |w.clients| && !w.clients[s].Unborn? && !w.clients[s].Exited?
    requires w.clients[s].Begun? ==> w.mutex.None?
    ensures ClientStep(w, s).Ok?
    ensures var w' := ClientStep(w, s).world;
            |w'.clients| == |w.clients| && ClientLeft(w'.clients[s]) + 1 == ClientLeft(w.clients[s])
  {
    ClientKeeps(w, s);
    SameCount(w);
    hide Inv, ClientStep, ClientLeft;
    ClientGoesOn(w, s);
  }

  lemma ClientGoesOn(w: World, s: nat)
    requires s < |w.clients| == |w.args| && !w.clients[s].Unborn? && !w.clients[s].Exited?
    requires (w.clients[s].Begun? ==> w.mutex.None?) && !ClientStep(w, s).Crash?
    ensures ClientStep(w, s).Ok?
    ensures var w' := ClientStep(w, s).world;
            |w'.clients| == |w.clients| && ClientLeft(w'.clients[s]) + 1 == ClientLeft(w.clients[s])
  {
  }

  /** No step of another thread touches a client that has begun. */
  lemma OthersLeaveClient(w: World, agent: Agent, a: nat, junk: nat, s: nat)
    requires Inv(w) && s < |w.clients| && !w.clients[s].Unborn? && agent != Client(s) && Step(w, agent, a, junk).Ok?
    ensures var w' := Step(w, agent, a, junk).world; |w.clients| <= |w'.clients| && w'.clients[s] == w.clients[s]
  {
    hide Shape, Paired, AllWritten, Ended, MutexOk, ReaperOk, DueOk, Remove;
  }

  /** The client's turn, when it has not ended and does not wait for the mutex. */
  predicate ClientTurn(w: World, c: Choice, s: nat) {
    && c.agent == Client(s) && s < |w.clients| && !w.clients[s].Exited?
    && (w.clients[s].Begun? ==> w.mutex.None?)
  }

  function ClientTurns(w: World, schedule: seq<Choice>, s: nat): nat {
    if schedule == [] then 0
    else
      var k := |schedule| - 1;
      var before := Run(w, schedule[..k]);
      ClientTurns(w, schedule[..k], s) + (if before.Ok? && ClientTurn(before.world, schedule[k], s) then 1 else 0)
  }

  /**
   A client that has begun ends after five turns of its own in which it does not wait for the mutex,
   not before, whatever the others do; and its flag is set in its node, unless that is freed by then.
   */
  lemma {:induction false} ClientEnds(w: World, schedule: seq<Choice>, s: nat)
    requires Inv(w) && s < |w.clients| && !w.clients[s].Unborn?
    ensures Run(w, schedule).Ok?
    ensures var w' := Run(w, schedule).world;
            && s < |w'.clients| && s < |w'.args| && !w'.clients[s].Unborn?
            && ClientTurns(w, schedule, s) + ClientLeft(w'.clients[s]) == ClientLeft(w.clients[s])
            && (w'.clients[s].Exited? ==>
                  s in w'.freed || (w'.args[s] in w'.nodes && w'.nodes[w'.args[s]].finish))
  {
    hide Step, ClientLeft;
    RunKeeps(w, schedule);
    if schedule != [] {
      var k := |schedule| - 1;
      ClientEnds(w, schedule[..k], s);
      RunKeeps(w, schedule[..k]);
      var now, c := Run(w, schedule[..k]).world, schedule[k];
      hide Inv;
      TurnOfClient(now, c, s);
    }
    EndIsFlagged(Run(w, schedule).world, s);
  }

  lemma TurnOfClient(w: World, c: Choice, s: nat)
    requires Inv(w) && s < |w.clients| && !w.clients[s].Unborn?
    ensures var r := Step(w, c.agent, c.address, c.junk);
            var w' := if r.Ok? then r.world else w;
            && s < |w'.clients| && !w'.clients[s].Unborn?
            && (if ClientTurn(w, c, s) then 1 else 0) + ClientLeft(w'.clients[s]) == ClientLeft(w.clients[s])
  {
    if ClientTurn(w, c, s) {
      ClientAdvances(w, s);
      hide Inv;
    } else if c.agent != Client(s) && Step(w, c.agent, c.address, c.junk).Ok? {
      hide Inv, Step, ClientLeft;
      OthersLeaveClient(w, c.agent, c.address, c.junk, s);
    }
  }

  lemma EndIsFlagged(w: World, s: nat)
    requires Inv(w) && s < |w.clients| && !w.clients[s].Unborn?
    ensures s < |w.args|
    ensures w.clients[s].Exited? ==> s in w.freed || (w.args[s] in w.nodes && w.nodes[w.args[s]].finish)
  {
    hide Shape, MutexOk, ReaperOk, DueOk, Ended;
    if s !in w.freed {
      assert Written(w.clients[s], w.nodes[w.args[s]]);
    }
  }
}
