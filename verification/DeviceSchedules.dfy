/**
 The interleaved driver over every schedule: what its log says of each thread, when its calls are
 whole calls one after another, and when they are not.
 */
module DeviceSchedules {
  import opened Streams
  import opened Rings
  import opened DeviceSpec
  import opened DriverStates
  import opened DeviceThreads

  // ---- what a step adds to the log ----------------------------------------------

  /** The call is the one asked for. */
  predicate Matches(c: Call, ask: Ask) {
    c.file == ask.file &&
    match ask.op
    case OpWrite(buf) => c.CWrite? && c.buf == buf
    case OpRead(count, accessible) => c.CRead? && c.count == count && c.accessible == accessible
    case OpIoctl(cmd, arg) => c.CIoctl? && c.cmd == cmd && c.arg == arg
    case OpSeekSet(off) => c.CLlseek? && c.off == off && c.whence == 0
    case OpSeekCur(off) => c.CLlseek? && c.off == off && c.whence == 1
  }

  /** The thread is where the operation it was asked for leads. */
  predicate Doing(pc: Pc, op: Op) {
    match pc
    case Idle => true
    case Unlocking(_) => true
    case Loading(o) => o == op && Loads(op)
    case Entered(o) => o == op
    case Locked(o) => o == op && !Lockless(op)
    case Copying(count, accessible, _) => op == OpRead(count, accessible)
    case _ => op == OpWrite(pc.buf)
  }

  /**
   A step inside the critical section changes its own thread only. It logs nothing, or its own
   call with the outcome it will return, and then at most the position of its file changes.
   */
  predicate RecordStep(w: World, w': World, t: nat)
    requires Present(w, t)
  {
    && |w'.threads| == |w.threads|
    && (forall u :: 0 <= u < |w.threads| && u != t ==> w'.threads[u] == w.threads[u])
    && w'.threads[t] == w.threads[t].(pc := w'.threads[t].pc)
    && !w'.threads[t].pc.Idle? && !w'.threads[t].pc.Loading? && !w'.threads[t].pc.Entered?
    && if w'.threads[t].pc.Unlocking? then
         && |w'.log| == |w.log| + 1
         && w'.log == w.log + [EventOf(w, t, w'.log[|w.log|].call, w'.threads[t].pc.outcome)]
         && Matches(w'.log[|w.log|].call, w.threads[t].ask)
         && Moved(w.files, w'.files, w.threads[t].ask)
       else w'.log == w.log && w'.files == w.files && Doing(w'.threads[t].pc, w.threads[t].ask.op)
  }

  /** Only the file called on has moved, and not for a write. */
  predicate Moved(files: seq<nat>, files': seq<nat>, ask: Ask) {
    && |files'| == |files|
    && (forall f :: 0 <= f < |files| && (f != ask.file || ask.op.OpWrite?) ==> files'[f] == files[f])
  }

  /** The steps of a write. */
  lemma WriteStepRecords(w: World, t: nat, buf: string, kmem: nat, e: Entry, base: DriverState)
    requires Present(w, t) && w.threads[t].ask.op == OpWrite(buf)
    ensures FreeOld(w, t, buf, kmem, base).Ok? ==> RecordStep(w, FreeOld(w, t, buf, kmem, base).world, t)
    ensures RecordStep(w, Swap(w, t, buf, kmem).world, t)
    ensures CheckLine(w, t, buf).Ok? ==> RecordStep(w, CheckLine(w, t, buf).world, t)
    ensures EvictOldest(w, t, buf, e, base).Ok? ==> RecordStep(w, EvictOldest(w, t, buf, e, base).world, t)
    ensures PlaceEntry(w, t, buf, e, base).Ok? ==> RecordStep(w, PlaceEntry(w, t, buf, e, base).world, t)
    ensures FinishAdd(w, t, buf).Ok? ==> RecordStep(w, FinishAdd(w, t, buf).world, t)
  {
    hide Ring.Valid, Settled, Stored;
  }

  lemma WriteBeginRecords(w: World, t: nat, buf: string, address: nat, slack: char)
    requires Present(w, t) && w.threads[t].ask.op == OpWrite(buf)
    ensures buf == "" && Discard(w, t).Ok? ==> RecordStep(w, Discard(w, t).world, t)
    ensures Allocate(w, t, buf, address, slack).Ok? ==> RecordStep(w, Allocate(w, t, buf, address, slack).world, t)
  {
  }

  /** The steps of a read and of a control call. */
  lemma ReadStepRecords(w: World, t: nat, count: nat, accessible: nat, data: string)
    requires Present(w, t) && w.threads[t].ask.op == OpRead(count, accessible)
    ensures RecordStep(w, WithPc(w, t, Copying(count, accessible, "")), t)
    ensures Copy(w, t, count, accessible, data).Ok? ==> RecordStep(w, Copy(w, t, count, accessible, data).world, t)
  {
    hide LookUp;
  }

  lemma SeekStepRecords(w: World, t: nat, cmd: uint32, arg: Option<SeekTo>)
    requires Present(w, t) && w.threads[t].ask.op == OpIoctl(cmd, arg) && Seek(w, t, cmd, arg).Ok?
    ensures RecordStep(w, Seek(w, t, cmd, arg).world, t)
  {
    hide Ring.Valid, SeekAnswer;
  }

  lemma TickRecords(w: World, t: nat, address: nat, slack: char)
    requires Present(w, t) && Tick(w, t, address, slack).Ok? && Doing(w.threads[t].pc, w.threads[t].ask.op)
    ensures RecordStep(w, Tick(w, t, address, slack).world, t)
  {
    hide RecordStep, Discard, Allocate, FreeOld, Swap, CheckLine, EvictOldest, PlaceEntry, FinishAdd, Copy, Seek;
    var base, e := w.mem, w.mem.tmp;
    match w.threads[t].pc
    case Locked(OpWrite(buf)) => WriteBeginRecords(w, t, buf, address, slack);
    case Locked(OpRead(count, accessible)) => ReadStepRecords(w, t, count, accessible, "");
    case Locked(OpIoctl(cmd, arg)) => SeekStepRecords(w, t, cmd, arg);
    case Filled(buf, kmem, b) => WriteStepRecords(w, t, buf, kmem, e, b);
    case Freed(buf, kmem, b) => WriteStepRecords(w, t, buf, kmem, e, b);
    case Swapped(buf) => WriteStepRecords(w, t, buf, 0, e, base);
    case Detached(buf, entry, b) => WriteStepRecords(w, t, buf, 0, entry, b);
    case Evicted(buf, entry, b) => WriteStepRecords(w, t, buf, 0, entry, b);
    case Placed(buf, b) => WriteStepRecords(w, t, buf, 0, e, b);
    case Copying(count, accessible, data) => ReadStepRecords(w, t, count, accessible, data);
    case _ =>
  }

  // ---- what any step does, by kind ----------------------------------------------

  /** The threads but `t` are what they were. */
  predicate OnlyThread(w: World, w': World, t: nat) {
    && |w'.threads| == |w.threads|
    && (forall u :: 0 <= u < |w.threads| && u != t ==> w'.threads[u] == w.threads[u])
  }

  /** A step of thread `t` as its own log sees it. */
  datatype Kind = Entering | LoadingPos | Moving | Logging | Returning | EarlyReturn

  /** What a step of each kind changes. */
  predicate IsKind(kind: Kind, w: World, w': World, t: nat)
    requires Present(w, t)
  {
    && OnlyThread(w, w', t) && |w'.files| == |w.files|
    && var th, th' := w.threads[t], w'.threads[t];
    match kind
    case Entering =>
      && th.pc.Idle? && w'.log == w.log && w'.files == w.files && th'.ask.file < |w.files|
      && th' == Thread(if Loads(th'.ask.op) then Loading(th'.ask.op) else Entered(th'.ask.op),
                       th'.ask, 0, |w.log|, th.asked + [th'.ask], th.returned)
    case LoadingPos =>
      && th.pc.Loading? && w'.log == w.log && w'.files == w.files
      && th' == th.(pc := Entered(th.pc.op), from := PosOf(w, t), seen := |w.log|)
    case Moving =>
      && !th.pc.Idle? && !th.pc.Loading? && !th.pc.Unlocking?
      && !th'.pc.Idle? && !th'.pc.Loading? && !th'.pc.Unlocking?
      && th' == th.(pc := th'.pc) && w'.log == w.log && w'.files == w.files && Doing(th'.pc, th.ask.op)
    case Logging =>
      && !th.pc.Idle? && !th.pc.Loading? && !th.pc.Unlocking? && th'.pc.Unlocking?
      && th' == th.(pc := th'.pc)
      && |w'.log| == |w.log| + 1 && w'.log == w.log + [EventOf(w, t, w'.log[|w.log|].call, th'.pc.outcome)]
      && Matches(w'.log[|w.log|].call, th.ask) && Moved(w.files, w'.files, th.ask)
    case Returning =>
      && th.pc.Unlocking? && th' == th.(pc := Idle, returned := th.returned + [th.pc.outcome])
      && w'.log == w.log && w'.files == w.files
    case EarlyReturn =>
      && th.pc.Entered? && |w'.log| == |w.log| + 1 && Moved(w.files, w'.files, th.ask)
      && var e := w'.log[|w.log|];
      && w'.log == w.log + [EventOf(w, t, e.call, e.outcome)] && Matches(e.call, th.ask)
      && th' == th.(pc := Idle, returned := th.returned + [e.outcome])
  }

  lemma TickKind(w: World, w': World, t: nat) returns (kind: Kind)
    requires Present(w, t) && RecordStep(w, w', t)
    requires InCriticalSection(w.threads[t].pc) && !w.threads[t].pc.Unlocking?
    ensures IsKind(kind, w, w', t)
  {
    kind := if w'.threads[t].pc.Unlocking? then Logging else Moving;
    hide Matches, Doing;
  }

  /** Every step is of one of these kinds. */
  lemma StepKind(w: World, t: nat, a: Action) returns (kind: Kind)
    requires Present(w, t) && Apply(w, t, a).Ok? && Doing(w.threads[t].pc, w.threads[t].ask.op)
    ensures IsKind(kind, w, Apply(w, t, a).world, t)
  {
    hide Tick, RecordStep;
    var pc, w' := w.threads[t].pc, Apply(w, t, a).world;
    if pc.Idle? {
      kind := Entering;
    } else if pc.Loading? {
      kind := LoadingPos;
    } else if pc.Entered? {
      kind := if Lockless(pc.op) || BadIoctl(pc.op) || a.interrupted then EarlyReturn else Moving;
    } else if pc.Unlocking? {
      kind := Returning;
    } else {
      TickRecords(w, t, a.address, a.slack);
      kind := TickKind(w, w', t);
    }
  }

  // ---- every call asked for is logged and answered once -------------------------

  /** The logged calls of one thread, as asked. */
  function AsksOf(log: seq<Event>, t: nat): seq<Ask> {
    if log == [] then []
    else AsksOf(log[..|log| - 1], t) + (if log[|log| - 1].thread == t then [log[|log| - 1].ask] else [])
  }

  function OutcomesOf(log: seq<Event>, t: nat): seq<Outcome> {
    if log == [] then []
    else OutcomesOf(log[..|log| - 1], t) + (if log[|log| - 1].thread == t then [log[|log| - 1].outcome] else [])
  }

  lemma OfPush(log: seq<Event>, e: Event, t: nat)
    ensures AsksOf(log + [e], t) == AsksOf(log, t) + (if e.thread == t then [e.ask] else [])
    ensures OutcomesOf(log + [e], t) == OutcomesOf(log, t) + (if e.thread == t then [e.outcome] else [])
  {
    assert (log + [e])[..|log|] == log;
  }

  /**
   The thread's logged calls are what it was asked, in order, the last perhaps not yet; and their
   outcomes what it has returned, and about to return.
   */
  predicate DeliveredTo(log: seq<Event>, t: nat, th: Thread) {
    && Doing(th.pc, th.ask.op)
    && AsksOf(log, t) + (if th.pc.Idle? || th.pc.Unlocking? then [] else [th.ask]) == th.asked
    && OutcomesOf(log, t) == th.returned + (if th.pc.Unlocking? then [th.pc.outcome] else [])
  }

  predicate Delivered(w: World) {
    && (forall t :: 0 <= t < |w.threads| ==> DeliveredTo(w.log, t, w.threads[t]))
    && (forall i :: 0 <= i < |w.log| ==> Matches(w.log[i].call, w.log[i].ask))
  }

  /** The thread that steps. */
  lemma KindDelivers(kind: Kind, w: World, w': World, t: nat)
    requires Present(w, t) && IsKind(kind, w, w', t) && DeliveredTo(w.log, t, w.threads[t])
    ensures DeliveredTo(w'.log, t, w'.threads[t])
  {
    if kind.Logging? || kind.EarlyReturn? {
      OfPush(w.log, w'.log[|w.log|], t);
    }
    hide AsksOf, OutcomesOf, Moved, Matches;
  }

  /** The others, whose calls are not logged then. */
  lemma KindSpares(kind: Kind, w: World, w': World, t: nat, u: nat)
    requires Present(w, t) && IsKind(kind, w, w', t) && u != t && u < |w.threads|
    requires DeliveredTo(w.log, u, w.threads[u])
    ensures DeliveredTo(w'.log, u, w'.threads[u])
  {
    if kind.Logging? || kind.EarlyReturn? {
      OfPush(w.log, w'.log[|w.log|], u);
    }
    hide AsksOf, OutcomesOf, Moved, Matches, Doing;
  }

  lemma StepDelivers(kind: Kind, w: World, w': World, t: nat)
    requires Present(w, t) && IsKind(kind, w, w', t) && Delivered(w)
    ensures Delivered(w')
  {
    forall u | 0 <= u < |w'.threads| ensures DeliveredTo(w'.log, u, w'.threads[u]) {
      if u == t {
        KindDelivers(kind, w, w', t);
      } else {
        KindSpares(kind, w, w', t, u);
      }
    }
    hide DeliveredTo, Moved, Matches, Doing;
    forall i | 0 <= i < |w'.log| ensures Matches(w'.log[i].call, w'.log[i].ask) {
      if i < |w.log| {
        assert w'.log[i] == w.log[i];
      }
    }
  }

  // ---- what a read has loaded ---------------------------------------------------

  /** The calls that go by a loaded position. */
  predicate UsesLoad(c: Call) { (c.CRead? && !c.signal) || (c.CLlseek? && c.whence == 1) }

  /** The position was that of the file when the log had `seen` calls, none since being thread `t`'s. */
  predicate LoadedAt(log: seq<Event>, files: nat, from: nat, seen: nat, file: nat, t: nat, n: nat) {
    && seen <= |log| && file < files
    && from == State(log[..seen], files, n).pos[file]
    && forall j :: seen <= j < |log| ==> log[j].thread != t
  }

  predicate HasLoaded(th: Thread) {
    Loads(th.ask.op) && !th.pc.Idle? && !th.pc.Loading? && !th.pc.Unlocking?
  }

  /** Every such call goes by the position its file had at one moment of the call. */
  predicate Timely(w: World, n: nat) {
    && (forall t :: 0 <= t < |w.threads| && HasLoaded(w.threads[t]) ==>
          LoadedAt(w.log, |w.files|, w.threads[t].from, w.threads[t].seen, w.threads[t].ask.file, t, n))
    && (forall i :: 0 <= i < |w.log| && UsesLoad(w.log[i].call) ==> TimelyAt(w.log, i, |w.files|, n))
  }

  predicate TimelyAt(log: seq<Event>, i: nat, files: nat, n: nat)
    requires i < |log|
  {
    LoadedAt(log[..i], files, log[i].from, log[i].seen, log[i].call.file, log[i].thread, n)
  }

  lemma LoadedStays(log: seq<Event>, e: Event, files: nat, from: nat, seen: nat, file: nat, t: nat, n: nat)
    requires LoadedAt(log, files, from, seen, file, t, n) && e.thread != t
    ensures LoadedAt(log + [e], files, from, seen, file, t, n)
  {
    assert (log + [e])[..seen] == log[..seen];
  }

  lemma StepIsTimely(kind: Kind, w: World, w': World, t: nat, n: nat)
    requires Present(w, t) && IsKind(kind, w, w', t) && Timely(w, n) && Delivered(w)
    requires State(w.log, |w.files|, n).pos == w.files
    ensures Timely(w', n)
  {
    assert Doing(w.threads[t].pc, w.threads[t].ask.op) by {
      assert DeliveredTo(w.log, t, w.threads[t]);
    }
    hide State, Delivered, LoadedAt, Moved;
    forall u | 0 <= u < |w'.threads| && HasLoaded(w'.threads[u])
      ensures LoadedAt(w'.log, |w.files|, w'.threads[u].from, w'.threads[u].seen, w'.threads[u].ask.file, u, n)
    {
      if u == t {
        if kind.LoadingPos? {
          LoadedNow(w, t, n);
        }
      } else if kind.Logging? || kind.EarlyReturn? {
        var th := w.threads[u];
        LoadedStays(w.log, w'.log[|w.log|], |w.files|, th.from, th.seen, th.ask.file, u, n);
      }
    }
    forall i | 0 <= i < |w'.log| && UsesLoad(w'.log[i].call) ensures TimelyAt(w'.log, i, |w.files|, n) {
      assert w'.log[..i] == w.log[..i];
      if i < |w.log| {
        assert TimelyAt(w.log, i, |w.files|, n);
      } else {
        assert w.log[..|w.log|] == w.log;
        assert Matches(w'.log[i].call, w.threads[t].ask);
      }
    }
  }

  lemma LoadedNow(w: World, t: nat, n: nat)
    requires Present(w, t) && State(w.log, |w.files|, n).pos == w.files
    ensures LoadedAt(w.log, |w.files|, PosOf(w, t), |w.log|, w.threads[t].ask.file, t, n)
  {
    assert w.log[..|w.log|] == w.log;
  }

  // ---- every schedule -----------------------------------------------------------

  predicate Sound(w: World, n: nat) {
    Inv(w, n) && Delivered(w) && Timely(w, n)
  }

  lemma PosTold(w: World, t: nat, n: nat)
    requires Sound(w, n) && t < |w.threads|
    ensures Present(w, t) && State(w.log, |w.files|, n).pos == w.files
    ensures Doing(w.threads[t].pc, w.threads[t].ask.op)
  {
    hide Told, State, InMemory, Timely;
    assert DeliveredTo(w.log, t, w.threads[t]);
  }

  lemma ApplySound(w: World, t: nat, a: Action, n: nat) returns (kind: Kind)
    requires Sound(w, n) && t < |w.threads| && Present(w, t) && Apply(w, t, a).Ok?
    ensures Sound(Apply(w, t, a).world, n) && IsKind(kind, w, Apply(w, t, a).world, t)
  {
    hide Inv, Delivered, Timely, Doing, State, IsKind;
    PosTold(w, t, n);
    ApplyKeeps(w, t, a, n);
    kind := StepKind(w, t, a);
    StepDelivers(kind, w, Apply(w, t, a).world, t);
    StepIsTimely(kind, w, Apply(w, t, a).world, t, n);
  }

  lemma StartSound(k: nat, files: nat, n: nat)
    requires 1 <= n <= 255 && 0 < files
    ensures Sound(Start(k, files, n), n)
  {
    StartInv(k, files, n);
    hide Inv;
  }

  /**
   Under every schedule of any threads on any files, however they share them, nothing crashes and
   the lock has one owner. The calls take effect one at a time, in the order of the log: the log
   alone tells every outcome, every file position and the device that memory shows whenever the
   lock is free, each read going by the position its file had at one moment of the call. And the
   calls each thread was asked for are logged and answered in order, each once.
   */
  lemma {:induction false} EverySchedule(k: nat, files: nat, n: nat, schedule: seq<Turn>)
    requires 1 <= n <= 255 && 0 < files
    ensures var r := Execute(Start(k, files, n), schedule);
            && r.Ok? && |r.world.threads| == k && |r.world.files| == files
            && Inv(r.world, n) && Delivered(r.world) && Timely(r.world, n)
  {
    ExecuteKeeps(k, files, n, schedule);
    if schedule == [] {
      StartSound(k, files, n);
      return;
    }
    hide Inv, Delivered, Timely, Apply;
    var m := |schedule| - 1;
    EverySchedule(k, files, n, schedule[..m]);
    var w, turn := Execute(Start(k, files, n), schedule[..m]).world, schedule[m];
    if Present(w, turn.thread) && Apply(w, turn.thread, turn.action).Ok? {
      var _ := ApplySound(w, turn.thread, turn.action, n);
    }
  }

  // ---- whole calls one after another --------------------------------------------

  function Calls(log: seq<Event>): (c: seq<Call>)
    ensures |c| == |log| && forall i :: 0 <= i < |c| ==> c[i] == log[i].call
  {
    seq(|log|, i requires 0 <= i < |log| => log[i].call)
  }

  function Outcomes(log: seq<Event>): (o: seq<Outcome>)
    ensures |o| == |log| && forall i :: 0 <= i < |o| ==> o[i] == log[i].outcome
  {
    seq(|log|, i requires 0 <= i < |log| => log[i].outcome)
  }

  /** How many bytes there are to read from a position, up to `count`. */
  function Room(content: string, pos: nat, count: nat): nat {
    if |content| <= pos then 0 else Min(count, |content| - pos)
  }

  /** The contents have the same `k` bytes from both positions on. */
  predicate SameBytes(content: string, a: nat, b: nat, k: nat) {
    k == 0 || (a + k <= |content| && b + k <= |content| && content[a..a + k] == content[b..b + k])
  }

  /**
   Two positions serve a read alike: from both there are as many bytes to read, or more than the
   buffer can take, and as far as they are stored they are the same.
   */
  predicate ServeAlike(content: string, a: nat, b: nat, count: nat, accessible: nat) {
    var m, k := Room(content, a, count), Room(content, b, count);
    (m == k || (m > accessible && k > accessible)) && SameBytes(content, a, b, Min(m, accessible))
  }

  /** The position loaded is as good as the one the file has now. */
  predicate AsGood(s: System, c: Call, from: nat, n: nat)
    requires c.file < |s.pos|
  {
    var now := s.pos[c.file];
    if !UsesLoad(c) then true
    else if c.CRead? then ServeAlike(Contents(s.dev, n), from, now, c.count, c.accessible)
    else from == now || (from + c.off < 0 && now + c.off < 0)
  }

  lemma DueIsRoom(content: string, pos: nat, count: nat)
    ensures var k := Room(content, pos, count);
            |Due(content, pos, count)| == k && (k > 0 ==> Due(content, pos, count) == content[pos..pos + k])
  {
  }

  /** A read returns and stores the same from two positions exactly when they serve it alike. */
  lemma SameReads(content: string, a: nat, b: nat, count: nat, accessible: nat)
    ensures var x, y := Read(content, a, count, accessible), Read(content, b, count, accessible);
            x.ret == y.ret && x.data == y.data <==> ServeAlike(content, a, b, count, accessible)
  {
    DueIsRoom(content, a, count);
    DueIsRoom(content, b, count);
    var m, k := Room(content, a, count), Room(content, b, count);
    var p, q, j := Due(content, a, count), Due(content, b, count), Min(m, accessible);
    if m == k || (m > accessible && k > accessible) {
      FrontOfDue(content, a, count, j);
      FrontOfDue(content, b, count, j);
      assert p[..m] == p && q[..k] == q;
    }
  }

  lemma FrontOfDue(content: string, pos: nat, count: nat, j: nat)
    requires j <= Room(content, pos, count)
    ensures j <= |Due(content, pos, count)|
    ensures 0 < j ==> pos + j <= |content| && Due(content, pos, count)[..j] == content[pos..pos + j]
  {
  }

  /**
   A call that loaded its position acts as the whole call exactly when that position is as good as
   the one its file has now.
   */
  lemma StaleCall(s: System, c: Call, from: nat, n: nat)
    requires c.file < |s.pos|
    ensures StepFrom(s, c, from, n).1 == Step(s, c, n).1 <==> AsGood(s, c, from, n)
    ensures AsGood(s, c, from, n) ==> StepFrom(s, c, from, n) == Step(s, c, n)
    ensures UsesLoad(c) && from == s.pos[c.file] ==> AsGood(s, c, from, n)
  {
    if c.CRead? && !c.signal {
      SameReads(Contents(s.dev, n), from, s.pos[c.file], c.count, c.accessible);
      hide ServeAlike, Contents, Read;
    }
  }

  /** For a read that takes all there is, only the very position is, unless nothing is left from either. */
  lemma GreedyRead(s: System, c: Call, from: nat, n: nat)
    requires c.file < |s.pos| && c.CRead? && !c.signal
    requires |Contents(s.dev, n)| <= c.count <= c.accessible
    ensures StepFrom(s, c, from, n).1 == Step(s, c, n).1
            <==> from == s.pos[c.file]
                 || (|Contents(s.dev, n)| <= from && |Contents(s.dev, n)| <= s.pos[c.file])
  {
    StaleCall(s, c, from, n);
    hide Contents, StepFrom, Step;
  }

  /** That holds of every call in the log. */
  predicate AllAsGood(log: seq<Event>, files: nat, n: nat) {
    log == [] ||
    var front, e := log[..|log| - 1], log[|log| - 1];
    && AllAsGood(front, files, n)
    && (e.call.file < files ==> AsGood(State(front, files, n), e.call, e.from, n))
  }

  lemma {:induction false} ToldCalls(log: seq<Event>, files: nat, n: nat)
    requires Told(log, files, n)
    ensures CallsOn(Calls(log), files)
  {
    if log != [] {
      var m := |log| - 1;
      ToldCalls(log[..m], files, n);
      assert Calls(log) == Calls(log[..m]) + [log[m].call];
    }
  }

  /**
   The logged calls, run whole one after another by the device alone, return what was logged if
   and only if every position loaded was as good as the one its file had when the call took effect.
   */
  lemma {:induction false} WholeCallsIff(log: seq<Event>, files: nat, n: nat)
    requires Told(log, files, n)
    ensures CallsOn(Calls(log), files)
    ensures Run(Initial(files), Calls(log), n).1 == Outcomes(log) <==> AllAsGood(log, files, n)
    ensures AllAsGood(log, files, n) ==> Run(Initial(files), Calls(log), n).0 == State(log, files, n)
  {
    ToldCalls(log, files, n);
    if log == [] {
      assert Calls(log) == [] && Outcomes(log) == [];
      return;
    }
    var m := |log| - 1;
    var front, e := log[..m], log[m];
    WholeCallsIff(front, files, n);
    assert Calls(log) == Calls(front) + [e.call] && Outcomes(log) == Outcomes(front) + [e.outcome];
    RunPush(Initial(files), Calls(front), e.call, n);
    StaleCall(State(front, files, n), e.call, e.from, n);
    var (s1, out) := Run(Initial(files), Calls(front), n);
    var (s2, o) := Step(s1, e.call, n);
    assert Run(Initial(files), Calls(log), n) == (s2, out + [o]);
    hide Run, State, Step, StepFrom, AsGood;
    LastOfTwo(out, o, Outcomes(front), e.outcome);
  }

  lemma LastOfTwo(a: seq<Outcome>, x: Outcome, b: seq<Outcome>, y: Outcome)
    requires |a| == |b|
    ensures a + [x] == b + [y] <==> a == b && x == y
  {
    if a + [x] == b + [y] {
      assert (a + [x])[..|a|] == a && (b + [y])[..|b|] == b;
      assert (a + [x])[|a|] == x && (b + [y])[|b|] == y;
    }
  }

  // ---- calls that keep apart are whole calls ------------------------------------

  /** A call that goes by a loaded position, and another that may move the file. */
  predicate Clash(a: Op, b: Op) {
    (Loads(a) && !b.OpWrite?) || (Loads(b) && !a.OpWrite?)
  }

  /** The call does not overlap one of another thread on the same file that it clashes with. */
  predicate KeepsApart(threads: seq<Thread>, t: nat, ask: Ask) {
    forall u :: 0 <= u < |threads| && u != t && !threads[u].pc.Idle? && threads[u].ask.file == ask.file ==>
      !Clash(threads[u].ask.op, ask.op)
  }

  /** If this turn enters a call, it keeps apart from those in progress. */
  predicate Quiet(w: World, turn: Turn) {
    turn.action.Enter? && turn.thread < |w.threads| && w.threads[turn.thread].pc.Idle? ==>
      KeepsApart(w.threads, turn.thread, turn.action.ask)
  }

  /**
   No read or relative seek on a file overlaps another call on it but a write; writes may overlap
   anything, and so may control calls and seeks from the front among themselves.
   */
  predicate Disciplined(k: nat, files: nat, n: nat, schedule: seq<Turn>)
    requires 1 <= n <= 255
  {
    forall m :: 0 <= m < |schedule| && Execute(Start(k, files, n), schedule[..m]).Ok? ==>
      Quiet(Execute(Start(k, files, n), schedule[..m]).world, schedule[m])
  }

  predicate AllApart(threads: seq<Thread>) {
    forall t :: 0 <= t < |threads| && !threads[t].pc.Idle? ==> KeepsApart(threads, t, threads[t].ask)
  }

  /** What reads have loaded is still where their files are. */
  predicate FreshLoads(threads: seq<Thread>, files: seq<nat>) {
    forall t :: 0 <= t < |threads| && HasLoaded(threads[t]) ==>
      threads[t].ask.file < |files| && threads[t].from == files[threads[t].ask.file]
  }

  predicate AllOnTime(log: seq<Event>, files: nat, n: nat) {
    log == [] ||
    var front, e := log[..|log| - 1], log[|log| - 1];
    && AllOnTime(front, files, n)
    && (UsesLoad(e.call) && e.call.file < files ==> e.from == State(front, files, n).pos[e.call.file])
  }

  lemma {:induction false} OnTimeIsAsGood(log: seq<Event>, files: nat, n: nat)
    requires Told(log, files, n) && AllOnTime(log, files, n)
    ensures AllAsGood(log, files, n)
  {
    if log != [] {
      var front, e := log[..|log| - 1], log[|log| - 1];
      OnTimeIsAsGood(front, files, n);
      StaleCall(State(front, files, n), e.call, e.from, n);
    }
  }

  predicate Orderly(w: World, n: nat) {
    AllApart(w.threads) && FreshLoads(w.threads, w.files) && AllOnTime(w.log, |w.files|, n)
  }

  lemma StaysApart(kind: Kind, w: World, w': World, t: nat)
    requires Present(w, t) && IsKind(kind, w, w', t) && AllApart(w.threads)
    requires kind.Entering? ==> KeepsApart(w.threads, t, w'.threads[t].ask)
    ensures AllApart(w'.threads)
  {
    hide Moved, Matches, Doing;
    forall u | 0 <= u < |w'.threads| && !w'.threads[u].pc.Idle?
      ensures KeepsApart(w'.threads, u, w'.threads[u].ask)
    {
      if u == t {
        assert KeepsApart(w.threads, t, w'.threads[t].ask);
      } else {
        assert KeepsApart(w.threads, u, w.threads[u].ask);
      }
    }
  }

  lemma StaysFresh(kind: Kind, w: World, w': World, t: nat)
    requires Present(w, t) && IsKind(kind, w, w', t) && AllApart(w.threads) && FreshLoads(w.threads, w.files)
    requires Doing(w.threads[t].pc, w.threads[t].ask.op)
    ensures FreshLoads(w'.threads, w'.files)
  {
    hide Matches;
    if kind.Logging? {
      assert KeepsApart(w.threads, t, w.threads[t].ask);
    }
  }

  lemma StaysOnTime(kind: Kind, w: World, w': World, t: nat, n: nat)
    requires Present(w, t) && IsKind(kind, w, w', t) && FreshLoads(w.threads, w.files) && AllOnTime(w.log, |w.files|, n)
    requires State(w.log, |w.files|, n).pos == w.files
    ensures AllOnTime(w'.log, |w'.files|, n)
  {
    hide State, Moved, Doing;
    if kind.Logging? || kind.EarlyReturn? {
      assert w'.log[..|w'.log| - 1] == w.log;
    }
  }

  lemma StepIsOrderly(kind: Kind, w: World, w': World, t: nat, n: nat)
    requires Sound(w, n) && t < |w.threads| && Present(w, t) && IsKind(kind, w, w', t) && Orderly(w, n)
    requires kind.Entering? ==> KeepsApart(w.threads, t, w'.threads[t].ask)
    ensures Orderly(w', n)
  {
    hide Sound, IsKind, AllApart, FreshLoads, AllOnTime, State, Doing, KeepsApart;
    PosTold(w, t, n);
    StaysApart(kind, w, w', t);
    StaysFresh(kind, w, w', t);
    StaysOnTime(kind, w, w', t, n);
  }

  lemma EnteringIsQuiet(kind: Kind, w: World, turn: Turn)
    requires Present(w, turn.thread) && Apply(w, turn.thread, turn.action).Ok? && Quiet(w, turn)
    requires IsKind(kind, w, Apply(w, turn.thread, turn.action).world, turn.thread)
    ensures kind.Entering? ==>
              KeepsApart(w.threads, turn.thread, Apply(w, turn.thread, turn.action).world.threads[turn.thread].ask)
  {
    hide Tick, KeepsApart, Moved, Matches, Doing;
  }

  lemma {:induction false} DisciplinedIsOrderly(k: nat, files: nat, n: nat, schedule: seq<Turn>)
    requires 1 <= n <= 255 && 0 < files && Disciplined(k, files, n, schedule)
    ensures var r := Execute(Start(k, files, n), schedule);
            r.Ok? && |r.world.threads| == k && |r.world.files| == files && Sound(r.world, n) && Orderly(r.world, n)
  {
    EverySchedule(k, files, n, schedule);
    if schedule == [] {
      return;
    }
    hide Sound, Orderly, Apply, Quiet, Inv, Delivered, Timely;
    var m := |schedule| - 1;
    assert Disciplined(k, files, n, schedule[..m]) by {
      forall j | 0 <= j < m && Execute(Start(k, files, n), schedule[..m][..j]).Ok?
        ensures Quiet(Execute(Start(k, files, n), schedule[..m][..j]).world, schedule[..m][j])
      {
        assert schedule[..m][..j] == schedule[..j];
      }
    }
    DisciplinedIsOrderly(k, files, n, schedule[..m]);
    var w, turn := Execute(Start(k, files, n), schedule[..m]).world, schedule[m];
    if Present(w, turn.thread) && Apply(w, turn.thread, turn.action).Ok? {
      var kind := ApplySound(w, turn.thread, turn.action, n);
      EnteringIsQuiet(kind, w, turn);
      StepIsOrderly(kind, w, Apply(w, turn.thread, turn.action).world, turn.thread, n);
    }
  }

  /**
   Atomicity: under every schedule in which no read or relative seek overlaps another call but a
   write on the same file, the logged calls run whole one after another by the device alone give exactly the
   logged outcomes, the file positions, and the device that memory shows whenever the lock is free.
   */
  lemma Atomicity(k: nat, files: nat, n: nat, schedule: seq<Turn>)
    requires 1 <= n <= 255 && 0 < files && Disciplined(k, files, n, schedule)
    ensures Execute(Start(k, files, n), schedule).Ok?
    ensures var w := Execute(Start(k, files, n), schedule).world;
            && CallsOn(Calls(w.log), files)
            && var (s, outcomes) := Run(Initial(files), Calls(w.log), n);
            && outcomes == Outcomes(w.log) && s.pos == w.files
            && (w.lock.None? ==> w.mem.Shows(s.dev))
  {
    hide Run;
    DisciplinedIsOrderly(k, files, n, schedule);
    var w := Execute(Start(k, files, n), schedule).world;
    OnTimeIsAsGood(w.log, files, n);
    WholeCallsIff(w.log, files, n);
  }
}
