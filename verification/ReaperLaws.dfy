/** What holds of the list of client threads and its reaper over every run. */
module ReaperLaws {
  import opened Addresses
  import opened Streams
  import opened PointerLists
  import opened Reapers

  lemma StepKeeps(w: World, agent: Agent, a: nat, junk: nat)
    requires Inv(w)
    ensures Kept(Step(w, agent, a, junk))
  {
    hide Inv;
    match agent
    case Main =>
      match w.main {
        case Accepting => AcceptKeeps(w, a, junk);
        case Made(_) => MainLockKeeps(w, a, junk);
        case Locked(_) => LinkKeeps(w, a, junk);
        case Linked(_) => InsertKeeps(w, a, junk);
        case Inserted(_) => MainLockKeeps(w, a, junk);
        case Unlocked(_) => CreateKeeps(w, a, junk);
      }
    case Client(s) => ClientKeeps(w, s);
    case Reaper => ReaperKeeps(w);
  }

  lemma ReaperKeeps(w: World)
    requires Inv(w)
    ensures Kept(ReaperStep(w))
  {
    assert w.reaper.Walk? ==> w.reaper.cur in w.nodes;
    hide Inv;
    match w.reaper
    case Top => TopKeeps(w);
    case Test(_) => TestKeeps(w);
    case Skip(_) => SkipKeeps(w);
    case Join(_) => JoinKeeps(w);
    case ToLock(_) => LockedKeeps(w);
    case AtNext(_) => LockedKeeps(w);
    case AtRemove(item, _) => if w.head == item { RemoveKeeps(w); } else { WalkOnKeeps(w); }
    case Walk(item, _, cur) => if w.nodes[cur].next == item { RemoveKeeps(w); } else { WalkKeeps(w); }
    case ToUnlock(_, _) => LockedKeeps(w);
    case ToFree(_, _) => FreeKeeps(w);
    case Asleep => SleepKeeps(w);
  }

  lemma SleepKeeps(w: World)
    requires Inv(w) && w.reaper.Asleep?
    ensures Kept(ReaperStep(w))
  {
    hide Shape, Paired, AllWritten, Ended, MainOk;
  }

  // ---- every run ----------------------------------------------------------------

  /** A scheduling choice: who steps, and what malloc gives if it is asked. */
  datatype Choice = Choice(agent: Agent, address: nat, junk: nat)

  /** A run under a schedule; a choice that cannot be taken is passed over. */
  function Run(w: World, schedule: seq<Choice>): Result {
    if schedule == [] then Ok(w)
    else
      var k := |schedule| - 1;
      var before := Run(w, schedule[..k]);
      if !before.Ok? then before
      else
        var after := Step(before.world, schedule[k].agent, schedule[k].address, schedule[k].junk);
        if after.Blocked? then before else after
  }

  function Start(): World {
    World(map[], NULL, None, Accepting, [], [], Top, {}, {}, [], {})
  }

  lemma {:induction false} RunKeeps(w: World, schedule: seq<Choice>)
    requires Inv(w)
    ensures Run(w, schedule).Ok? && Inv(Run(w, schedule).world)
  {
    hide Inv;
    if schedule != [] {
      var k := |schedule| - 1;
      RunKeeps(w, schedule[..k]);
      StepKeeps(Run(w, schedule[..k]).world, schedule[k].agent, schedule[k].address, schedule[k].junk);
    }
  }

  /** The node the reaper is looking at, if any. */
  function Item(r: ReaperPc): Option<nat> {
    if r.Top? || r.Asleep? || r.item == NULL then None else Some(r.item)
  }

  /**
   Under every schedule nothing crashes: no dangling access, no double free, no thread joined
   before it has an id or twice. The links always spell the list. The reaper's item is live,
   and in the list until it is taken out. No client is lost: it is in the list, being inserted,
   or taken out to be freed, unless it was freed, and then it had ended and was joined.
   */
  lemma EveryRunIsSafe(schedule: seq<Choice>)
    ensures Run(Start(), schedule).Ok?
    ensures var w := Run(Start(), schedule).world;
            && Chain(w.nodes, w.head, w.list) && Distinct(w.list)
            && (Item(w.reaper).Some? ==>
                  && Item(w.reaper).value in w.nodes
                  && (Item(w.reaper).value in w.list <==> Doomed(w.reaper) == None))
            && |w.args| == |w.clients|
            && (forall s :: 0 <= s < |w.clients| && s !in w.freed ==>
                  && w.args[s] in w.nodes
                  && (w.args[s] in w.list || Some(w.args[s]) == InHand(w.main) || Some(w.args[s]) == Doomed(w.reaper)))
            && (forall s :: s in w.freed ==> s in w.joined)
            && (forall s :: s in w.joined ==> s < |w.clients| && w.clients[s].Exited?)
  {
    assert Inv(Start());
    RunKeeps(Start(), schedule);
    hide From, Chain, DueOk;
  }

  // ---- what a step does to the list ---------------------------------------------

  /**
   The list changes in two ways only: the accepting thread puts its node in front, or the reaper,
   holding the mutex, takes out its item, whose client has set its flag, ended and been joined;
   the others stay in their order. Memory is given up only for a node taken out before.
   */
  predicate ListChange(w: World, w': World, agent: Agent) {
    && (w'.list != w.list ==>
          || (agent == Main && w.main.Linked? && w.mutex == Some(Main) && w'.list == [w.main.a] + w.list)
          || (agent == Reaper && w.mutex == Some(Reaper) && JustRemoved(w, w')))
    && (forall x :: x in w.nodes && x !in w'.nodes ==>
          && agent == Reaper && w.reaper.ToFree? && x == w.reaper.item && x !in w.list
          && w'.freed == w.freed + {w.nodes[x].serial} && w.nodes[x].serial !in w.freed)
  }

  lemma ListSteps(w: World, agent: Agent, a: nat, junk: nat)
    requires Inv(w) && Step(w, agent, a, junk).Ok?
    ensures ListChange(w, Step(w, agent, a, junk).world, agent)
  {
    hide Inv, ListChange, MainStep, ClientStep, ReaperStep;
    match agent
    case Main => MainListStep(w, a, junk);
    case Client(s) => ClientListStep(w, s);
    case Reaper => ReaperListStep(w);
  }

  lemma MainListStep(w: World, a: nat, junk: nat)
    requires Inv(w) && MainStep(w, a, junk).Ok?
    ensures ListChange(w, MainStep(w, a, junk).world, Main)
  {
    assert w.main.Linked? ==> w.mutex == Some(Main);
    hide Inv;
  }

  lemma ClientListStep(w: World, s: nat)
    requires ClientStep(w, s).Ok?
    ensures ListChange(w, ClientStep(w, s).world, Client(s))
  {
  }

  lemma ReaperListStep(w: World)
    requires Inv(w) && ReaperStep(w).Ok?
    ensures ListChange(w, ReaperStep(w).world, Reaper)
  {
    hide Inv, Remove, From, JustRemoved;
    if w.reaper.AtRemove? || w.reaper.Walk? {
      RemovalFacts(w);
      RemovalOnly(w);
    } else if w.reaper.ToFree? {
      DoomedFacts(w);
    }
  }

  lemma RemovalOnly(w: World)
    requires (w.reaper.AtRemove? || w.reaper.Walk?) && ReaperStep(w).Ok?
    requires JustRemoved(w, w.(list := Remove(w.list, w.reaper.item)))
    ensures var w' := ReaperStep(w).world;
            && (w'.list == w.list || JustRemoved(w, w'))
            && (forall x :: x in w.nodes ==> x in w'.nodes)
  {
    hide Remove, From;
  }

  lemma DoomedFacts(w: World)
    requires Inv(w) && w.reaper.ToFree?
    ensures var x := w.reaper.item;
            x in w.nodes && x !in w.list && w.nodes[x].serial !in w.freed
  {
    hide From, Chain, Distinct, AllWritten, Ended, MainOk, MutexOk, DueOk;
  }

  lemma RemovalFacts(w: World)
    requires Inv(w) && (w.reaper.AtRemove? || w.reaper.Walk?)
    ensures w.mutex == Some(Reaper) && w.reaper.item != NULL
    ensures JustRemoved(w, w.(list := Remove(w.list, w.reaper.item)))
  {
    var x := w.reaper.item;
    assert x in w.list && x in w.nodes && x != NULL;
    RemoveKeepsOrder(w.list, x);
    hide Chain, From, Remove, DueOk, MainOk, Paired;
    assert Written(w.clients[w.nodes[x].serial], w.nodes[x]);
  }

  predicate JustRemoved(w: World, w': World) {
    && Item(w.reaper).Some?
    && var x := w.reaper.item;
    && x in w.list && x in w.nodes && w.nodes[x].finish && w.nodes[x].serial in w.joined
    && w.nodes[x].serial < |w.clients| && w.clients[w.nodes[x].serial].Exited?
    && var i := |w.list| - |From(w.list, x)|;
    && w.list[i] == x && w'.list == w.list[..i] + w.list[i + 1..]
  }

  // ---- a pass ends --------------------------------------------------------------

  /** How far the reaper is from done with its item. */
  function Stage(r: ReaperPc): nat {
    match r
    case Top => 10
    case Test(_) => 9
    case Skip(_) => 8
    case Join(_) => 8
    case ToLock(_) => 7
    case AtNext(_) => 6
    case AtRemove(_, _) => 5
    case Walk(_, _, _) => 4
    case ToUnlock(_, _) => 3
    case ToFree(_, _) => 2
    case Asleep => 0
  }

  /** How much of its pass the reaper has before it, walks not counted. */
  function Left(w: World): nat {
    |Ahead(w.reaper, w.list)| * 12 + Stage(w.reaper)
  }

  /** How much of its walk the reaper has before it. */
  function WalkLeft(w: World): nat {
    if w.reaper.Walk? then |From(w.list, w.reaper.cur)| else 0
  }

  /** Every step of the reaper within a pass brings its end nearer, or at least that of its walk. */
  lemma ReaperAdvances(w: World)
    requires Inv(w) && !w.reaper.Top? && !w.reaper.Asleep? && ReaperStep(w).Ok?
    ensures var w' := ReaperStep(w).world;
            && !w'.reaper.Top?
            && (Left(w') < Left(w)
                || (w.reaper.Walk? && w'.reaper.Walk? && Left(w') == Left(w) && WalkLeft(w') < WalkLeft(w)))
  {
    hide Inv, From, Chain;
    ListFacts(w);
    if w.reaper.AtRemove? || w.reaper.Walk? {
      RemovalAdvances(w);
    } else if w.reaper.Skip? {
      NextFacts(w.nodes, w.head, w.list, w.reaper.item);
    }
  }

  /** Where the reaper is in the list. */
  lemma ListFacts(w: World)
    requires Inv(w)
    ensures Chain(w.nodes, w.head, w.list) && Distinct(w.list) && From(w.list, NULL) == []
    ensures var r := w.reaper;
            && (IsListed(r) ==> r.item in w.list && r.item in w.nodes && r.item != NULL)
            && (r.AtRemove? || r.Walk? ==> r.nxt == w.nodes[r.item].next)
            && (r.Walk? ==> r.cur in w.list && r.cur in w.nodes)
  {
    hide From, Chain, Distinct, Paired, AllWritten, Ended, MainOk, MutexOk, DueOk;
    assert NULL !in w.list;
  }

  lemma RemovalAdvances(w: World)
    requires Inv(w) && (w.reaper.AtRemove? || w.reaper.Walk?) && ReaperStep(w).Ok?
    ensures var w' := ReaperStep(w).world;
            && !w'.reaper.Top?
            && (Left(w') < Left(w)
                || (w.reaper.Walk? && w'.reaper.Walk? && Left(w') == Left(w) && WalkLeft(w') < WalkLeft(w)))
  {
    hide Inv, From, Chain, Remove;
    var r, w' := w.reaper, ReaperStep(w).world;
    ListFacts(w);
    TakenOut(w.nodes, w.head, w.list, r.item);
    if r.Walk? {
      NextFacts(w.nodes, w.head, w.list, r.cur);
    }
    assert |Ahead(w'.reaper, w'.list)| == |Ahead(r, w.list)|;
  }

  /** And no step of anyone else puts it off, whatever is inserted. */
  lemma OthersDoNotDelay(w: World, agent: Agent, a: nat, junk: nat)
    requires Inv(w) && agent != Reaper && Step(w, agent, a, junk).Ok?
    ensures var w' := Step(w, agent, a, junk).world;
            w'.reaper == w.reaper && Left(w') == Left(w) && WalkLeft(w') == WalkLeft(w)
  {
    hide Inv, From;
    match agent
    case Main =>
      var w' := MainStep(w, a, junk).world;
      if w.main.Linked? {
        InsertedBehind(w);
      }
      assert Ahead(w'.reaper, w'.list) == Ahead(w.reaper, w.list);
    case Client(s) =>
      assert ClientStep(w, s).world.reaper == w.reaper && ClientStep(w, s).world.list == w.list;
  }

  /** What is inserted lies behind the reaper, which is not walking then. */
  lemma InsertedBehind(w: World)
    requires Inv(w) && w.main.Linked?
    ensures !w.reaper.Walk? && Ahead(w.reaper, [w.main.a] + w.list) == Ahead(w.reaper, w.list)
  {
    assert InHand(w.main) == Some(w.main.a) && !w.reaper.Walk?;
    InsertReaper(w.nodes, w.main.a, w.list, w.joined, w.reaper);
  }

  /** Who can always step when the reaper cannot: the client it joins, or the holder of the mutex. */
  function Helper(w: World): Agent {
    if w.reaper.Join? && w.reaper.item in w.nodes then Client(w.nodes[w.reaper.item].serial)
    else if w.mutex.Some? then w.mutex.value
    else Reaper
  }

  /** How many steps the holder of the mutex, or the ending client, has still to take. */
  function HelperRank(w: World, agent: Agent): nat {
    match agent
    case Main => if w.main.Locked? then 3 else if w.main.Linked? then 2 else if w.main.Inserted? then 1 else 0
    case Client(s) =>
      if s >= |w.clients| then 0
      else if w.clients[s].HasLock? then 2
      else if w.clients[s].TidStored? || w.clients[s].Flagged? then 1
      else 0
    case Reaper => 0
  }

  /** The reaper is never stuck: when it waits, another can step, and has at most three steps to take. */
  lemma ReaperIsHelped(w: World, a: nat, junk: nat)
    requires Inv(w) && ReaperStep(w).Blocked?
    ensures var g := Helper(w);
            && g != Reaper && 0 < HelperRank(w, g) <= 3
            && Step(w, g, a, junk).Ok?
            && var w' := Step(w, g, a, junk).world;
               HelperRank(w', g) < HelperRank(w, g) && (HelperRank(w', g) == 0 ==> !ReaperStep(w').Blocked?)
  {
    hide Inv;
    WaitFacts(w);
    StepKeeps(w, Helper(w), a, junk);
  }

  lemma WaitFacts(w: World)
    requires Inv(w) && ReaperStep(w).Blocked?
    ensures if w.reaper.Join? then
              && w.reaper.item in w.nodes
              && var s := w.nodes[w.reaper.item].serial;
              && s < |w.clients| && s < |w.args| && w.clients[s].Flagged? && w.nodes[w.reaper.item].tid == s + 1
            else
              && w.reaper.ToLock? && w.mutex.Some?
              && match w.mutex.value
                 case Main => w.main.Locked? || w.main.Linked? || w.main.Inserted?
                 case Reaper => false
                 case Client(s) => s < |w.clients| && s < |w.args| && (w.clients[s].HasLock? || w.clients[s].TidStored?)
  {
    if w.reaper.Join? {
      var s := w.nodes[w.reaper.item].serial;
      assert Written(w.clients[s], w.nodes[w.reaper.item]);
      hide Shape, Ended, MutexOk, DueOk, From;
    } else {
      HolderFacts(w);
      hide Inv;
    }
  }

  lemma HolderFacts(w: World)
    requires Inv(w) && w.mutex.Some? && w.reaper.ToLock?
    ensures match w.mutex.value
            case Main => w.main.Locked? || w.main.Linked? || w.main.Inserted?
            case Reaper => false
            case Client(s) => s < |w.clients| && s < |w.args| && (w.clients[s].HasLock? || w.clients[s].TidStored?)
  {
    hide Shape, Paired, AllWritten, Ended, ReaperOk, DueOk;
    if w.mutex.value.Client? {
      assert w.mutex == Some(Client(w.mutex.value.serial));
    }
  }

  // ---- a pass is complete -------------------------------------------------------

  /** The run never comes back to the start of a pass. */
  predicate OnePass(w: World, schedule: seq<Choice>) {
    forall k :: 0 <= k <= |schedule| ==>
      Run(w, schedule[..k]).Ok? && !Run(w, schedule[..k]).world.reaper.Top?
  }

  lemma DueStays(w: World, agent: Agent, a: nat, junk: nat)
    requires Step(w, agent, a, junk).Ok? && !w.reaper.Top?
    ensures Step(w, agent, a, junk).world.due == w.due
  {
  }

  lemma {:induction false} DueOfPass(w: World, schedule: seq<Choice>)
    requires OnePass(w, schedule)
    ensures Run(w, schedule).Ok? && Run(w, schedule).world.due == w.due
  {
    assert schedule[..|schedule|] == schedule;
    if schedule != [] {
      var k := |schedule| - 1;
      forall j | 0 <= j <= k
        ensures Run(w, schedule[..k][..j]).Ok? && !Run(w, schedule[..k][..j]).world.reaper.Top?
      {
        assert schedule[..k][..j] == schedule[..j];
      }
      DueOfPass(w, schedule[..k]);
      var before := Run(w, schedule[..k]).world;
      if Step(before, schedule[k].agent, schedule[k].address, schedule[k].junk).Ok? {
        DueStays(before, schedule[k].agent, schedule[k].address, schedule[k].junk);
      }
    }
  }

  /**
   When the reaper has gone through the list once and sleeps, every client whose flag was set and
   whose node was in the list as the pass began has been joined, removed and freed.
   */
  lemma PassIsComplete(w: World, schedule: seq<Choice>)
    requires Inv(w) && w.reaper.Top?
    requires var begun := ReaperStep(w);
             && begun.Ok? && OnePass(begun.world, schedule)
             && Run(begun.world, schedule).Ok? && Run(begun.world, schedule).world.reaper.Asleep?
    ensures var w' := Run(ReaperStep(w).world, schedule).world;
            forall x :: x in w.list && x in w.nodes && w.nodes[x].finish ==>
              var s := w.nodes[x].serial;
              s in w'.freed && s in w'.joined && (x in w'.list ==> x in w'.nodes && w'.nodes[x].serial != s)
  {
    var begun := ReaperStep(w).world;
    TopKeeps(w);
    RunKeeps(begun, schedule);
    DueOfPass(begun, schedule);
    var w' := Run(begun, schedule).world;
    assert begun.due == FinishedIn(w.nodes, w.list);
    hide From, Chain, Run, OnePass, MutexOk, MainOk;
    forall x | x in w.list && x in w.nodes && w.nodes[x].finish ensures w.nodes[x].serial in w'.freed {
      assert w.nodes[x].serial in w'.due;
    }
  }

  // ---- every pass ends ----------------------------------------------------------

  /** The first `k` choices of an endless schedule. */
  function Prefix(s: nat -> Choice, k: nat): (p: seq<Choice>)
    ensures |p| == k
  {
    seq(k, i requires 0 <= i < k => s(i))
  }

  lemma PrefixStep(s: nat -> Choice, k: nat)
    ensures Prefix(s, k + 1)[..k] == Prefix(s, k) && Prefix(s, k + 1)[k] == s(k)
  {
  }

  /** The reaper's turn, when it can take its step. */
  predicate ReaperTurn(w: World, c: Choice) {
    c.agent == Reaper && ReaperStep(w).Ok?
  }

  /** The world after the first `k` turns. */
  function At(w: World, s: nat -> Choice, k: nat): World {
    var r := Run(w, Prefix(s, k));
    if r.Ok? then r.world else w
  }

  /** And the step is not one along its walk. */
  predicate OutsideWalk(w: World, c: Choice) {
    ReaperTurn(w, c) && !(w.reaper.Walk? && ReaperStep(w).world.reaper.Walk?)
  }

  /** Turn `k` of the schedule is a step the reaper takes. */
  predicate ReaperStepsAt(w: World, s: nat -> Choice, k: nat) {
    ReaperTurn(At(w, s, k), s(k))
  }

  ghost predicate StepsFrom(w: World, s: nat -> Choice, k: nat) {
    exists j: nat :: k <= j && ReaperStepsAt(w, s, j)
  }

  /** The reaper takes endlessly many steps. */
  ghost predicate KeepsStepping(w: World, s: nat -> Choice) {
    forall k: nat :: StepsFrom(w, s, k)
  }

  /** One turn within a pass. */
  lemma TurnAdvances(w: World, c: Choice, w': World)
    requires Inv(w) && !w.reaper.Top? && !w.reaper.Asleep?
    requires var r := Step(w, c.agent, c.address, c.junk); w' == if r.Ok? then r.world else w
    ensures !w'.reaper.Top?
    ensures if ReaperTurn(w, c) then Left(w') < Left(w) || (Left(w') == Left(w) && WalkLeft(w') < WalkLeft(w))
            else Left(w') == Left(w) && WalkLeft(w') == WalkLeft(w)
    ensures OutsideWalk(w, c) ==> Left(w') < Left(w)
  {
    hide Inv, Left, WalkLeft;
    if c.agent == Reaper {
      if ReaperStep(w).Ok? {
        ReaperAdvances(w);
      }
    } else if Step(w, c.agent, c.address, c.junk).Ok? {
      OthersDoNotDelay(w, c.agent, c.address, c.junk);
    }
  }

  /** The world one turn on. */
  lemma RunTurn(w: World, s: nat -> Choice, k: nat)
    requires Inv(w)
    ensures Run(w, Prefix(s, k)) == Ok(At(w, s, k)) && Run(w, Prefix(s, k + 1)) == Ok(At(w, s, k + 1))
    ensures Inv(At(w, s, k))
    ensures var r := Step(At(w, s, k), s(k).agent, s(k).address, s(k).junk);
            At(w, s, k + 1) == if r.Ok? then r.world else At(w, s, k)
  {
    hide Inv, Step;
    RunKeeps(w, Prefix(s, k));
    PrefixStep(s, k);
    var before := Run(w, Prefix(s, k)).world;
    StepKeeps(before, s(k).agent, s(k).address, s(k).junk);
  }

  lemma OnePassOn(w: World, s: nat -> Choice, k: nat)
    requires OnePass(w, Prefix(s, k))
    requires Run(w, Prefix(s, k + 1)).Ok? && !Run(w, Prefix(s, k + 1)).world.reaper.Top?
    ensures OnePass(w, Prefix(s, k + 1))
  {
    hide Run;
    var p := Prefix(s, k + 1);
    forall j | 0 <= j <= k + 1 ensures Run(w, p[..j]).Ok? && !Run(w, p[..j]).world.reaper.Top? {
      if j <= k {
        assert p[..j] == Prefix(s, k)[..j];
      } else {
        assert p[..j] == p;
      }
    }
  }

  /** Turn `k`, the pass not being over. */
  lemma PassGoesOn(w: World, s: nat -> Choice, k: nat)
    requires Inv(w) && OnePass(w, Prefix(s, k)) && !At(w, s, k).reaper.Asleep?
    ensures OnePass(w, Prefix(s, k + 1))
    ensures var now, next := At(w, s, k), At(w, s, k + 1);
            if ReaperStepsAt(w, s, k) then
              Left(next) < Left(now) || (Left(next) == Left(now) && WalkLeft(next) < WalkLeft(now))
            else Left(next) == Left(now) && WalkLeft(next) == WalkLeft(now)
  {
    RunTurn(w, s, k);
    assert Prefix(s, k)[..k] == Prefix(s, k);
    assert !At(w, s, k).reaper.Top?;
    hide Inv, Left, WalkLeft, Step, Run, At, OnePass;
    TurnAdvances(At(w, s, k), s(k), At(w, s, k + 1));
    OnePassOn(w, s, k);
  }

  lemma NextStep(w: World, s: nat -> Choice, k: nat) returns (next: nat)
    requires KeepsStepping(w, s)
    ensures k <= next && ReaperStepsAt(w, s, next)
  {
    hide ReaperStepsAt;
    assert StepsFrom(w, s, k);
    next :| k <= next && ReaperStepsAt(w, s, next);
  }

  /** From turn `k` of a pass on, the reaper's next step being at turn `next`. */
  lemma {:induction false} EndsFrom(w: World, s: nat -> Choice, k: nat, next: nat) returns (end: nat)
    requires Inv(w) && KeepsStepping(w, s)
    requires k <= next && ReaperStepsAt(w, s, next)
    requires OnePass(w, Prefix(s, k))
    ensures OnePass(w, Prefix(s, end)) && At(w, s, end).reaper.Asleep?
    decreases Left(At(w, s, k)), WalkLeft(At(w, s, k)), next - k
  {
    hide *;
    if At(w, s, k).reaper.Asleep? {
      return k;
    }
    PassGoesOn(w, s, k);
    if ReaperStepsAt(w, s, k) {
      var j := NextStep(w, s, k + 1);
      end := EndsFrom(w, s, k + 1, j);
    } else {
      end := EndsFrom(w, s, k + 1, next);
    }
  }

  /**
   However many nodes are inserted meanwhile, and whatever else the others do: under every endless
   schedule in which the reaper goes on stepping, the pass it begins comes to its end, and then every
   client whose node was in the list with its flag set as it began has been joined, removed and freed.
   */
  lemma PassEnds(w: World, s: nat -> Choice) returns (end: nat)
    requires Inv(w) && w.reaper.Top?
    requires KeepsStepping(ReaperStep(w).world, s)
    ensures var w' := At(ReaperStep(w).world, s, end);
            && OnePass(ReaperStep(w).world, Prefix(s, end)) && w'.reaper.Asleep?
            && forall x :: x in w.list && x in w.nodes && w.nodes[x].finish ==>
                 w.nodes[x].serial in w'.freed && w.nodes[x].serial in w'.joined
  {
    var begun := ReaperStep(w).world;
    TopKeeps(w);
    assert OnePass(begun, Prefix(s, 0)) by {
      assert Prefix(s, 0)[..0] == [];
    }
    hide Inv, ReaperStepsAt, OnePass;
    var next := NextStep(begun, s, 0);
    end := EndsFrom(begun, s, 0, next);
    RunTurn(begun, s, end);
    PassIsComplete(w, Prefix(s, end));
  }

  /** How many of the scheduled turns were steps the reaper took, other than on along its walk. */
  function StepsOutsideWalk(w: World, schedule: seq<Choice>): nat {
    if schedule == [] then 0
    else
      var k := |schedule| - 1;
      var before := Run(w, schedule[..k]);
      StepsOutsideWalk(w, schedule[..k]) +
      (if before.Ok? && OutsideWalk(before.world, schedule[k]) then 1 else 0)
  }

  /** The reaper does not fall asleep before the end of the schedule. */
  predicate AwakeBefore(w: World, schedule: seq<Choice>) {
    forall k :: 0 <= k < |schedule| ==>
      Run(w, schedule[..k]).Ok? ==> !Run(w, schedule[..k]).world.reaper.Asleep?
  }

  lemma {:induction false} PassSpends(w: World, schedule: seq<Choice>)
    requires Inv(w) && !w.reaper.Top? && AwakeBefore(w, schedule)
    ensures Run(w, schedule).Ok? && !Run(w, schedule).world.reaper.Top?
    ensures StepsOutsideWalk(w, schedule) + Left(Run(w, schedule).world) <= Left(w)
  {
    RunKeeps(w, schedule);
    if schedule == [] {
      return;
    }
    hide Inv, Step, Left;
    var k := |schedule| - 1;
    var front := schedule[..k];
    forall j | 0 <= j < k
      ensures Run(w, front[..j]).Ok? ==> !Run(w, front[..j]).world.reaper.Asleep?
    {
      assert front[..j] == schedule[..j];
    }
    PassSpends(w, front);
    RunKeeps(w, front);
    var before := Run(w, front).world;
    StepKeeps(before, schedule[k].agent, schedule[k].address, schedule[k].junk);
    TurnAdvances(before, schedule[k], Run(w, schedule).world);
  }

  /** Walks apart, a pass takes at most twelve steps for each node there was as it began, and nine more. */
  lemma FewStepsOutsideWalk(w: World, schedule: seq<Choice>)
    requires Inv(w) && w.reaper.Top? && AwakeBefore(ReaperStep(w).world, schedule)
    ensures StepsOutsideWalk(ReaperStep(w).world, schedule) <= 12 * |w.list| + 9
  {
    TopKeeps(w);
    PassSpends(ReaperStep(w).world, schedule);
  }
}
