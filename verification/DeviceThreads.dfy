/**
 The driver's locked operations as micro-steps of any number of threads on any number of open
 files, shared in any way. A step that frees or reads a dead block, or releases a lock it does
 not hold, crashes.
 */
module DeviceThreads {
  import opened Addresses
  import opened Streams
  import opened Rings
  import opened DeviceSpec
  import opened DriverStates

  datatype Op =
    | OpWrite(buf: string)
    | OpRead(count: nat, accessible: nat)
    | OpIoctl(cmd: uint32, arg: Option<SeekTo>)
    | OpSeekSet(off: int)
    | OpSeekCur(off: int)

  /** The operation goes by the position its file has before it gets any further. */
  predicate Loads(op: Op) { op.OpRead? || op.OpSeekCur? }

  /** The operation takes no lock. */
  predicate Lockless(op: Op) { op.OpSeekSet? || op.OpSeekCur? }

  /** A system call on an open file. */
  datatype Ask = Ask(file: nat, op: Op)

  /**
   Where a thread is. A read loads the position of its file before it gets to the lock, a relative
   seek before it stores the new one. `base` is what the driver state was at an earlier step of the
   same call; the steps do not read it.
   */
  datatype Pc =
    | Idle
    | Loading(op: Op)
    | Entered(op: Op)
    | Locked(op: Op)
    | Filled(buf: string, kmem: nat, base: DriverState)
    | Freed(buf: string, kmem: nat, base: DriverState)
    | Swapped(buf: string)
    | Detached(buf: string, tentry: Entry, base: DriverState)
    | Evicted(buf: string, tentry: Entry, base: DriverState)
    | Placed(buf: string, base: DriverState)
    | Copying(count: nat, accessible: nat, data: string)
    | Unlocking(outcome: Outcome)

  /**
   A thread: its call, the position that was loaded for it and how long the log was then; and, of all
   its calls so far, what was asked and what was returned.
   */
  datatype Thread = Thread(pc: Pc, ask: Ask, from: nat, seen: nat, asked: seq<Ask>, returned: seq<Outcome>)

  /** A call that has taken effect. */
  datatype Event = Event(thread: nat, ask: Ask, from: nat, seen: nat, call: Call, outcome: Outcome)

  /** The driver memory, its lock, the file positions and the threads; and the log, in order of effect. */
  datatype World = World(mem: DriverState, lock: Option<nat>, files: seq<nat>, threads: seq<Thread>, log: seq<Event>)

  /** What a scheduled thread does: enter a call, load the position, pass or fail at the lock, or go one step on. */
  datatype Action =
    | Enter(ask: Ask)
    | Load
    | AtLock(interrupted: bool)
    | Go(address: nat, slack: char)   // the allocator's answer, used by an allocating step

  datatype Result = Blocked | Crash | Ok(world: World)

  /** The thread and its file exist. */
  predicate Present(w: World, t: nat) {
    t < |w.threads| && w.threads[t].ask.file < |w.files|
  }

  /** The position of the file the thread's call is on. */
  function PosOf(w: World, t: nat): nat
    requires Present(w, t)
  {
    w.files[w.threads[t].ask.file]
  }

  function WithPc(w: World, t: nat, pc: Pc): World
    requires Present(w, t)
  {
    w.(threads := w.threads[t := w.threads[t].(pc := pc)])
  }

  function EventOf(w: World, t: nat, c: Call, o: Outcome): Event
    requires Present(w, t)
  {
    Event(t, w.threads[t].ask, w.threads[t].from, w.threads[t].seen, c, o)
  }

  /** The call takes effect: `mem`, the position and the log are final; the lock is still held. */
  function Effect(w: World, t: nat, mem: DriverState, pos: nat, c: Call, o: Outcome): World
    requires Present(w, t)
  {
    World(mem, w.lock, w.files[w.threads[t].ask.file := pos], w.threads[t := w.threads[t].(pc := Unlocking(o))],
          w.log + [EventOf(w, t, c, o)])
  }

  /** The call returns without having taken the lock, the position of its file being `pos` then. */
  function ReturnEarly(w: World, t: nat, pos: nat, c: Call, o: Outcome): World
    requires Present(w, t)
  {
    w.(files := w.files[w.threads[t].ask.file := pos],
       threads := w.threads[t := w.threads[t].(pc := Idle, returned := w.threads[t].returned + [o])],
       log := w.log + [EventOf(w, t, c, o)])
  }

  function CallOf(ask: Ask, allocOk: bool, signal: bool): Call {
    match ask.op
    case OpWrite(buf) => CWrite(ask.file, buf, allocOk, signal)
    case OpRead(count, accessible) => CRead(ask.file, count, accessible, signal)
    case OpIoctl(cmd, arg) => CIoctl(ask.file, cmd, arg, signal)
    case OpSeekSet(off) => CLlseek(ask.file, off, 0)
    case OpSeekCur(off) => CLlseek(ask.file, off, 1)
  }

  predicate BadIoctl(op: Op) {
    op.OpIoctl? && (IocType(op.cmd) != AESD_IOC_MAGIC || IocNr(op.cmd) > AESDCHAR_IOC_MAXNR)
  }

  function Apply(w: World, t: nat, a: Action): Result
    requires Present(w, t)
  {
    var th := w.threads[t];
    match th.pc
    case Idle =>
      if !a.Enter? || a.ask.file >= |w.files| then Blocked
      else
        var pc := if Loads(a.ask.op) then Loading(a.ask.op) else Entered(a.ask.op);
        Ok(w.(threads := w.threads[t := Thread(pc, a.ask, 0, |w.log|, th.asked + [a.ask], th.returned)]))
    case Loading(op) =>
      if !a.Load? then Blocked
      else Ok(w.(threads := w.threads[t := th.(pc := Entered(op), from := PosOf(w, t), seen := |w.log|)]))
    case Entered(op) =>
      var ask, pos := Ask(th.ask.file, op), PosOf(w, t);
      if Lockless(op) then if a.Go? then Ok(Reposition(w, t, op)) else Blocked
      else if !a.AtLock? then Blocked
      else if BadIoctl(op) then Ok(ReturnEarly(w, t, pos, CallOf(ask, true, a.interrupted), Outcome(-ENOTTY, "")))
      else if a.interrupted then Ok(ReturnEarly(w, t, pos, CallOf(ask, true, true), Outcome(-ERESTARTSYS, "")))
      else if w.lock.Some? then Blocked
      else Ok(WithPc(w.(lock := Some(t)), t, Locked(op)))
    case Unlocking(o) =>
      if !a.Go? then Blocked
      else if w.lock != Some(t) then Crash
      else Ok(w.(lock := None, threads := w.threads[t := th.(pc := Idle, returned := th.returned + [o])]))
    case _ => if a.Go? then Tick(w, t, a.address, a.slack) else Blocked
  }

  /** A seek from the front or from the position loaded: the new position is stored, and no lock is taken. */
  function Reposition(w: World, t: nat, op: Op): World
    requires Present(w, t) && Lockless(op)
  {
    var (ret, pos) := Llseek(0, w.threads[t].from, op.off, if op.OpSeekSet? then 0 else 1);
    ReturnEarly(w, t, if ret < 0 then PosOf(w, t) else pos, CallOf(Ask(w.threads[t].ask.file, op), true, false),
                Outcome(ret, ""))
  }

  /** One step of a thread inside the critical section. */
  function Tick(w: World, t: nat, address: nat, slack: char): Result
    requires Present(w, t)
  {
    match w.threads[t].pc
    case Locked(OpWrite(buf)) => if buf == "" then Discard(w, t) else Allocate(w, t, buf, address, slack)
    case Locked(OpRead(count, accessible)) => Ok(WithPc(w, t, Copying(count, accessible, "")))
    case Locked(OpIoctl(cmd, arg)) => Seek(w, t, cmd, arg)
    case Filled(buf, kmem, base) => FreeOld(w, t, buf, kmem, base)
    case Freed(buf, kmem, _) => Swap(w, t, buf, kmem)
    case Swapped(buf) => CheckLine(w, t, buf)
    case Detached(buf, e, base) => EvictOldest(w, t, buf, e, base)
    case Evicted(buf, e, base) => PlaceEntry(w, t, buf, e, base)
    case Placed(buf, _) => FinishAdd(w, t, buf)
    case Copying(count, accessible, data) => Copy(w, t, count, accessible, data)
    case _ => Blocked
  }

  /** A zero-length write frees the pending buffer. */
  function Discard(w: World, t: nat): Result
    requires Present(w, t)
  {
    var pos, mem := PosOf(w, t), w.mem;
    if mem.tmp.buffptr == NULL then
      Ok(Effect(w, t, mem, pos, CWrite(w.threads[t].ask.file, "", true, false), Outcome(0, "")))
    else if mem.tmp.buffptr !in mem.blocks then Crash
    else
      Ok(Effect(w, t, DriverState(mem.ring, Entry(NULL, 0), mem.blocks - {mem.tmp.buffptr}), pos,
                CWrite(w.threads[t].ask.file, "", true, false), Outcome(0, "")))
  }

  /** Frees the old pending buffer, leaving the device pointing to it. */
  function FreeOld(w: World, t: nat, buf: string, kmem: nat, base: DriverState): Result
    requires Present(w, t)
  {
    var mem := w.mem;
    if mem.tmp.size == 0 then Ok(WithPc(w, t, Freed(buf, kmem, base)))
    else if mem.tmp.buffptr !in mem.blocks then Crash
    else Ok(WithPc(w.(mem := mem.(blocks := mem.blocks - {mem.tmp.buffptr})), t, Freed(buf, kmem, base)))
  }

  /** Points the device to the new buffer. */
  function Swap(w: World, t: nat, buf: string, kmem: nat): Result
    requires Present(w, t)
  {
    Ok(WithPc(w.(mem := PointedTo(w.mem, kmem, |buf|)), t, Swapped(buf)))
  }

  function PointedTo(mem: DriverState, kmem: nat, count: nat): (m: DriverState)
    ensures m.ring == mem.ring
  {
    mem.(tmp := Entry(kmem, mem.tmp.size + count))
  }

  /** Looks at the last byte; when it ends a line the buffer is taken off the device. */
  function CheckLine(w: World, t: nat, buf: string): Result
    requires Present(w, t)
  {
    var mem := w.mem;
    if !Stored(mem.tmp, mem.blocks) || mem.tmp.size == 0 then Crash
    else if Text(mem.tmp, mem.blocks)[mem.tmp.size - 1] == '\n' then
      Ok(WithPc(w.(mem := mem.(tmp := Entry(NULL, 0))), t, Detached(buf, mem.tmp, mem)))
    else Ok(Effect(w, t, mem, PosOf(w, t), CWrite(w.threads[t].ask.file, buf, true, false), Outcome(|buf|, "")))
  }

  /** Frees the entry about to be overwritten, leaving the slot pointing to it. */
  function EvictOldest(w: World, t: nat, buf: string, e: Entry, base: DriverState): Result
    requires Present(w, t)
  {
    var mem := w.mem;
    if !mem.ring.Valid() then Crash
    else
      var oldest := mem.ring.entry[mem.ring.inOffs].buffptr;
      if !mem.ring.full || oldest == NULL then Ok(WithPc(w, t, Evicted(buf, e, base)))
      else if oldest !in mem.blocks then Crash
      else Ok(WithPc(w.(mem := mem.(blocks := mem.blocks - {oldest})), t, Evicted(buf, e, base)))
  }

  /** Stores the entry and moves the in-offset, before the out-offset or the flag follow. */
  function PlaceEntry(w: World, t: nat, buf: string, e: Entry, base: DriverState): Result
    requires Present(w, t)
  {
    var r := w.mem.ring;
    if !r.Valid() then Crash
    else Ok(WithPc(w.(mem := w.mem.(ring := WithEntry(r, e))), t, Placed(buf, base)))
  }

  function WithEntry(r: Ring, e: Entry): (r': Ring)
    requires r.Valid()
    ensures |r'.entry| == |r.entry|
  {
    r.(entry := r.entry[r.inOffs := e], inOffs := (r.inOffs + 1) % |r.entry|)
  }

  /** Moves the out-offset of a full ring, or notes that the ring became full. */
  function FinishAdd(w: World, t: nat, buf: string): Result
    requires Present(w, t)
  {
    var r := w.mem.ring;
    if |r.entry| == 0 || |r.entry| > 255 then Crash
    else
      Ok(Effect(w, t, w.mem.(ring := Settled(r)), PosOf(w, t), CWrite(w.threads[t].ask.file, buf, true, false),
                Outcome(|buf|, "")))
  }

  function Settled(r: Ring): Ring
    requires 0 < |r.entry| <= 255
  {
    if r.full then r.(outOffs := (r.outOffs + 1) % |r.entry|) else r.(full := r.inOffs == r.outOffs)
  }

  /** Allocates and fills the joined buffer; without memory the write returns 0. */
  function Allocate(w: World, t: nat, buf: string, address: nat, slack: char): Result
    requires Present(w, t)
  {
    var mem := w.mem;
    if address == NULL then
      Ok(Effect(w, t, mem, PosOf(w, t), CWrite(w.threads[t].ask.file, buf, false, false), Outcome(0, "")))
    else if address in mem.blocks then Blocked
    else if mem.tmp.size != 0 && !Stored(mem.tmp, mem.blocks) then Crash
    else
      var was := if mem.tmp.size != 0 then Text(mem.tmp, mem.blocks) else "";
      Ok(WithPc(w.(mem := mem.(blocks := mem.blocks[address := was + buf + [slack]])), t, Filled(buf, address, mem)))
  }

  /** What the lookup of a position leads to: a bad memory access, the end, or the rest of an entry. */
  datatype Lookup = Bad | End | Rest(bytes: string)

  function LookUp(mem: DriverState, pos: nat): Lookup {
    if !mem.ring.Valid() then Bad
    else
      match Locate(EntrySizes(mem.ring.Contents()), pos)
      case None => End
      case Some(p) =>
        if p.index >= |mem.ring.Contents()| then Bad
        else
          var e := mem.ring.Contents()[p.index];
          if !Stored(e, mem.blocks) || p.byte > e.size then Bad else Rest(Text(e, mem.blocks)[p.byte..])
  }

  /**
   One turn of the read loop, `data` being copied already. The loop goes by the position loaded
   before the lock; at its end the file's position is moved by what was copied.
   */
  function Copy(w: World, t: nat, count: nat, accessible: nat, data: string): Result
    requires Present(w, t)
  {
    var from, pos, c := w.threads[t].from, PosOf(w, t), CRead(w.threads[t].ask.file, count, accessible, false);
    match LookUp(w.mem, from + |data|)
    case Bad => Crash
    case End => Ok(Effect(w, t, w.mem, pos + |data|, c, Outcome(|data|, data)))
    case Rest(rest) =>
      var all := data + (if |data| + |rest| > count && |data| <= count then rest[..count - |data|] else rest);
      if |all| > accessible then Ok(Effect(w, t, w.mem, pos, c, Outcome(-EFAULT, all[..accessible])))
      else if |all| >= count then Ok(Effect(w, t, w.mem, pos + |all|, c, Outcome(|all|, all)))
      else Ok(WithPc(w, t, Copying(count, accessible, all)))
  }

  /** The control call under the lock. */
  function Seek(w: World, t: nat, cmd: uint32, arg: Option<SeekTo>): Result
    requires Present(w, t)
  {
    if !w.mem.ring.Valid() then Crash
    else
      var (ret, pos) := SeekAnswer(EntrySizes(w.mem.ring.Contents()), PosOf(w, t), cmd, arg);
      Ok(Effect(w, t, w.mem, pos, CIoctl(w.threads[t].ask.file, cmd, arg, false), Outcome(ret, "")))
  }

  /** Result and new position, worked out on the sizes of the entries. */
  function SeekAnswer(sizes: seq<nat>, pos: nat, cmd: uint32, arg: Option<SeekTo>): (int, nat) {
    if cmd != AESDCHAR_IOCSEEKTO then (-ENOTTY, pos)
    else if arg.None? then (-EFAULT, pos)
    else if arg.value.writeCmd >= |sizes| then (-ENOTTY, pos)
    else if arg.value.writeCmdOffset >= sizes[arg.value.writeCmd] then (-EINVAL, pos)
    else (0, Sum(sizes[..arg.value.writeCmd]) + arg.value.writeCmdOffset)
  }

  // ---- runs ---------------------------------------------------------------------

  datatype Turn = Turn(thread: nat, action: Action)

  /** The world after a schedule; a turn that is blocked or names no thread does nothing. */
  function Execute(w: World, schedule: seq<Turn>): Result {
    if schedule == [] then Ok(w)
    else
      match Execute(w, schedule[..|schedule| - 1])
      case Ok(w1) => TakeTurn(w1, schedule[|schedule| - 1])
      case r => r
  }

  function TakeTurn(w: World, turn: Turn): Result {
    if !Present(w, turn.thread) then Ok(w)
    else
      var r := Apply(w, turn.thread, turn.action);
      if r.Blocked? then Ok(w) else r
  }

  /** Module load with `k` threads and `files` open files on a ring of `n` slots. */
  function Start(k: nat, files: nat, n: nat): World
    requires 1 <= n <= 255
  {
    World(DriverState(Ring(seq(n, _ => Entry(NULL, 0)), 0, 0, false), Entry(NULL, 0), map[]),
          None, seq(files, _ => 0), seq(k, _ => Thread(Idle, Ask(0, OpWrite("")), 0, 0, [], [])), [])
  }

  // ---- what every step keeps ----------------------------------------------------

  predicate InCriticalSection(pc: Pc) {
    !pc.Idle? && !pc.Loading? && !pc.Entered?
  }

  /** The lock's owner is the one thread inside the critical section. */
  predicate Exclusive(threads: seq<Thread>, lock: Option<nat>) {
    && (forall t :: 0 <= t < |threads| ==> (InCriticalSection(threads[t].pc) <==> lock == Some(t)))
    && (lock.Some? ==> lock.value < |threads|)
  }

  /** Every thread's call is on an open file. */
  predicate AllPresent(threads: seq<Thread>, files: nat) {
    forall t :: 0 <= t < |threads| ==> threads[t].ask.file < files
  }

  predicate Joined(block: string, pending: string, buf: string) {
    |block| == |pending| + |buf| + 1 && block[..|block| - 1] == pending + buf
  }

  /** How far the lock's owner has brought the memory, `d` being the device before its call. */
  predicate Progress(mem: DriverState, d: Device, pos: nat, pc: Pc, n: nat) {
    match pc
    case Filled(buf, kmem, base) =>
      && base.Shows(d) && buf != "" && kmem != NULL && kmem !in base.blocks && kmem in mem.blocks
      && Joined(mem.blocks[kmem], d.pending, buf)
      && mem == base.(blocks := base.blocks[kmem := mem.blocks[kmem]])
    case Freed(buf, kmem, base) =>
      && base.Shows(d) && buf != "" && kmem != NULL && kmem !in base.blocks && kmem in mem.blocks
      && Joined(mem.blocks[kmem], d.pending, buf)
      && mem == base.(blocks := Regrown(base, kmem, mem.blocks[kmem]))
    case Swapped(buf) => buf != "" && mem.Shows(Device(d.history, d.pending + buf))
    case Detached(buf, e, base) =>
      && EndsLine(buf) && base.Shows(Device(d.history, d.pending + buf))
      && e == base.tmp && mem == base.(tmp := Entry(NULL, 0))
    case Evicted(buf, e, base) =>
      && EndsLine(buf) && base.Shows(Device(d.history, d.pending + buf))
      && e == base.tmp && mem == DriverState(base.ring, Entry(NULL, 0), Committed(base).blocks)
    case Placed(buf, base) =>
      && EndsLine(buf) && base.Shows(Device(d.history, d.pending + buf))
      && mem == Committed(base).(ring := base.ring.(entry := base.ring.entry[base.ring.inOffs := base.tmp],
                                                    inOffs := (base.ring.inOffs + 1) % |base.ring.entry|))
    case Copying(count, accessible, data) =>
      var due := Due(Contents(d, n), pos, count);
      mem.Shows(d) && data <= due && |data| <= accessible && (data == "" || |data| < count)
    case _ => mem.Shows(d)
  }

  /** A call taking effect when it goes by position `from`, loaded before; most go by none. */
  function StepFrom(s: System, c: Call, from: nat, n: nat): (r: (System, Outcome))
    requires c.file < |s.pos|
    ensures |r.0.pos| == |s.pos|
  {
    if c.CRead? && !c.signal then
      var r := Read(Contents(s.dev, n), from, c.count, c.accessible);
      (s.(pos := s.pos[c.file := s.pos[c.file] + (r.pos - from)]), Outcome(r.ret, r.data))
    else if c.CLlseek? then
      var (ret, pos) := Llseek(|Contents(s.dev, n)|, from, c.off, c.whence);
      (s.(pos := s.pos[c.file := if ret < 0 then s.pos[c.file] else pos]), Outcome(ret, ""))
    else Step(s, c, n)
  }

  /** The logged calls taking effect one after the other from module load. */
  function State(log: seq<Event>, files: nat, n: nat): (s: System)
    ensures |s.pos| == files
  {
    if log == [] then Initial(files)
    else
      var s, e := State(log[..|log| - 1], files, n), log[|log| - 1];
      if e.call.file < files then StepFrom(s, e.call, e.from, n).0 else s
  }

  /** And that is where the logged outcomes come from. */
  predicate Told(log: seq<Event>, files: nat, n: nat) {
    log == [] ||
    var front, e := log[..|log| - 1], log[|log| - 1];
    && Told(front, files, n)
    && e.call.file < files
    && e.outcome == StepFrom(State(front, files, n), e.call, e.from, n).1
  }

  function Serial(w: World, n: nat): (s: System)
    ensures |s.pos| == |w.files|
  {
    State(w.log, |w.files|, n)
  }

  /** The log tells the outcomes and the file positions. */
  predicate Linear(log: seq<Event>, files: seq<nat>, n: nat) {
    Told(log, |files|, n) && State(log, |files|, n).pos == files
  }

  /** Memory shows device `d`, or its owner has brought it as far as it says. */
  predicate InMemory(mem: DriverState, d: Device, threads: seq<Thread>, lock: Option<nat>, n: nat) {
    && |mem.ring.entry| == n
    && if lock.None? then mem.Shows(d)
       else lock.value < |threads| && Progress(mem, d, threads[lock.value].from, threads[lock.value].pc, n)
  }

  predicate Inv(w: World, n: nat) {
    && 1 <= n <= 255
    && Exclusive(w.threads, w.lock)
    && AllPresent(w.threads, |w.files|)
    && Linear(w.log, w.files, n)
    && InMemory(w.mem, Serial(w, n).dev, w.threads, w.lock, n)
  }

  // ---- every step keeps it ------------------------------------------------------

  /** The owner moves on inside its call; nobody else notices. */
  lemma MoveKeeps(w: World, t: nat, mem: DriverState, pc: Pc, n: nat)
    requires Inv(w, n) && w.lock == Some(t) && Present(w, t)
    requires InCriticalSection(pc) && |mem.ring.entry| == n
    requires Progress(mem, Serial(w, n).dev, w.threads[t].from, pc, n)
    ensures Inv(WithPc(w.(mem := mem), t, pc), n)
  {
    hide Progress, Linear, DriverState.Shows, State;
    SameTurn(w.threads, w.lock, t, w.threads[t].(pc := pc), |w.files|);
  }

  /** The owner stays the owner, on its file. */
  lemma SameTurn(threads: seq<Thread>, lock: Option<nat>, t: nat, th: Thread, files: nat)
    requires Exclusive(threads, lock) && AllPresent(threads, files) && t < |threads|
    requires InCriticalSection(th.pc) <==> InCriticalSection(threads[t].pc)
    requires th.ask.file < files
    ensures Exclusive(threads[t := th], lock) && AllPresent(threads[t := th], files)
  {
  }

  /** One more call at the end of the log. */
  lemma LogPush(log: seq<Event>, e: Event, files: nat, n: nat)
    requires Told(log, files, n) && e.call.file < files
    requires e.outcome == StepFrom(State(log, files, n), e.call, e.from, n).1
    ensures Told(log + [e], files, n)
    ensures State(log + [e], files, n) == StepFrom(State(log, files, n), e.call, e.from, n).0
  {
    assert (log + [e])[..|log|] == log;
  }

  /** The owner's call takes effect exactly as the log tells it. */
  lemma EffectKeeps(w: World, t: nat, mem: DriverState, pos: nat, c: Call, o: Outcome, n: nat)
    requires Inv(w, n) && w.lock == Some(t) && Present(w, t)
    requires c.file == w.threads[t].ask.file && |mem.ring.entry| == n
    requires var s, from := Serial(w, n), w.threads[t].from;
             && StepFrom(s, c, from, n) == (System(StepFrom(s, c, from, n).0.dev, s.pos[c.file := pos]), o)
             && mem.Shows(StepFrom(s, c, from, n).0.dev)
    ensures Inv(Effect(w, t, mem, pos, c, o), n)
  {
    hide StepFrom, Told, DriverState.Shows, Step, State;
    var th := w.threads[t];
    LogPush(w.log, EventOf(w, t, c, o), |w.files|, n);
    SameTurn(w.threads, w.lock, t, th.(pc := Unlocking(o)), |w.files|);
    var w' := Effect(w, t, mem, pos, c, o);
    assert Serial(w', n) == StepFrom(Serial(w, n), c, th.from, n).0;
    assert w'.threads[t].pc == Unlocking(o);
  }

  lemma WriteEffectKeeps(w: World, t: nat, mem: DriverState, buf: string, allocOk: bool, n: nat)
    requires Inv(w, n) && w.lock == Some(t) && Present(w, t) && |mem.ring.entry| == n
    requires mem.Shows(Write(Serial(w, n).dev, buf, allocOk).0)
    ensures Inv(Effect(w, t, mem, PosOf(w, t), CWrite(w.threads[t].ask.file, buf, allocOk, false),
                       Outcome(Write(Serial(w, n).dev, buf, allocOk).1, "")), n)
  {
    var s, f := Serial(w, n), w.threads[t].ask.file;
    assert s.pos[f := s.pos[f]] == s.pos && s.pos[f] == PosOf(w, t);
    EffectKeeps(w, t, mem, PosOf(w, t), CWrite(f, buf, allocOk, false), Outcome(Write(s.dev, buf, allocOk).1, ""), n);
  }

  /** The owner is at `pc`, and its progress there is known. */
  predicate Owner(w: World, t: nat, n: nat) {
    Inv(w, n) && Present(w, t) && w.lock == Some(t)
  }

  predicate Kept(w: World, r: Result, n: nat) {
    r.Blocked? || (r.Ok? && Inv(r.world, n) && |r.world.threads| == |w.threads| && |r.world.files| == |w.files|)
  }

  /** How far the owner has come in its call. */
  lemma OwnerProgress(w: World, t: nat, n: nat)
    requires Owner(w, t, n)
    ensures Progress(w.mem, Serial(w, n).dev, w.threads[t].from, w.threads[t].pc, n)
    ensures w.(mem := w.mem) == w && |w.mem.ring.entry| == n
  {
    hide Progress, Exclusive, AllPresent, Linear, DriverState.Shows, State;
  }

  lemma DiscardKeeps(w: World, t: nat, n: nat)
    requires Owner(w, t, n) && w.threads[t].pc == Locked(OpWrite(""))
    ensures Kept(w, Discard(w, t), n)
  {
    var mem, d := w.mem, Serial(w, n).dev;
    if mem.tmp.buffptr == NULL {
      assert d.(pending := "") == d;
      WriteEffectKeeps(w, t, mem, "", true, n);
    } else {
      DropPending(mem, d);
      WriteEffectKeeps(w, t, DriverState(mem.ring, Entry(NULL, 0), mem.blocks - {mem.tmp.buffptr}), "", true, n);
    }
  }

  lemma AllocateKeeps(w: World, t: nat, buf: string, address: nat, slack: char, n: nat)
    requires Owner(w, t, n) && w.threads[t].pc == Locked(OpWrite(buf)) && buf != ""
    ensures Kept(w, Allocate(w, t, buf, address, slack), n)
  {
    var mem, d := w.mem, Serial(w, n).dev;
    if address == NULL {
      WriteEffectKeeps(w, t, mem, buf, false, n);
    } else if address !in mem.blocks {
      if mem.tmp.size != 0 {
        PendingStored(mem);
      }
      var text := d.pending + buf + [slack];
      var mem' := mem.(blocks := mem.blocks[address := text]);
      assert Joined(text, d.pending, buf);
      MoveKeeps(w, t, mem', Filled(buf, address, mem), n);
      assert Allocate(w, t, buf, address, slack) == Ok(WithPc(w.(mem := mem'), t, Filled(buf, address, mem)));
    }
  }

  // Progress inside the critical section, one step at a time, without the world around it.

  lemma FilledProgress(mem: DriverState, d: Device, pos: nat, pc: Pc, n: nat)
    requires pc.Filled? && Progress(mem, d, pos, pc, n)
    ensures mem.tmp.size != 0 ==> mem.tmp.buffptr in mem.blocks
    ensures var mem' := if mem.tmp.size == 0 then mem else mem.(blocks := mem.blocks - {mem.tmp.buffptr});
            Progress(mem', d, pos, Freed(pc.buf, pc.kmem, pc.base), n)
  {
    if mem.tmp.size != 0 {
      PendingStored(pc.base);
    }
  }

  /** The new size is the length of what was joined. */
  lemma FreedSize(mem: DriverState, d: Device, pos: nat, pc: Pc, n: nat)
    requires pc.Freed? && Progress(mem, d, pos, pc, n)
    ensures var text := mem.blocks[pc.kmem];
            && pc.base.Shows(d) && pc.buf != "" && pc.kmem != NULL && pc.kmem !in pc.base.blocks
            && |text| == |d.pending| + |pc.buf| + 1 && text[..|text| - 1] == d.pending + pc.buf
            && PointedTo(mem, pc.kmem, |pc.buf|)
               == DriverState(pc.base.ring, Entry(pc.kmem, |text| - 1), Regrown(pc.base, pc.kmem, text))
  {
    if mem.tmp.size != 0 {
      PendingStored(pc.base);
    }
    hide DriverState.Shows, Regrown;
  }

  lemma FreedProgress(mem: DriverState, d: Device, pos: nat, pc: Pc, n: nat)
    requires pc.Freed? && Progress(mem, d, pos, pc, n)
    ensures Progress(PointedTo(mem, pc.kmem, |pc.buf|), d, pos, Swapped(pc.buf), n)
  {
    hide DriverState.Shows, Regrown, Joined;
    FreedSize(mem, d, pos, pc, n);
    GrowPending(pc.base, d, pc.buf, pc.kmem, mem.blocks[pc.kmem]);
  }

  lemma SwappedProgress(mem: DriverState, d: Device, pos: nat, pc: Pc, n: nat)
    requires pc.Swapped? && Progress(mem, d, pos, pc, n)
    ensures Stored(mem.tmp, mem.blocks) && mem.tmp.size != 0
    ensures Text(mem.tmp, mem.blocks)[mem.tmp.size - 1] == '\n' <==> EndsLine(pc.buf)
    ensures EndsLine(pc.buf) ==>
              Progress(mem.(tmp := Entry(NULL, 0)), d, pos, Detached(pc.buf, mem.tmp, mem), n)
    ensures !EndsLine(pc.buf) ==> mem.Shows(Write(d, pc.buf, true).0)
  {
    PendingStored(mem);
    assert Text(mem.tmp, mem.blocks) == d.pending + pc.buf;
  }

  lemma DetachedProgress(mem: DriverState, d: Device, pos: nat, pc: Pc, n: nat)
    requires pc.Detached? && Progress(mem, d, pos, pc, n)
    ensures mem.ring.Valid()
    ensures var oldest := mem.ring.entry[mem.ring.inOffs].buffptr;
            && (mem.ring.full ==> oldest != NULL && oldest in mem.blocks)
            && Progress(if mem.ring.full then mem.(blocks := mem.blocks - {oldest}) else mem,
                        d, pos, Evicted(pc.buf, pc.tentry, pc.base), n)
  {
    if mem.ring.full {
      OldestStored(pc.base);
    }
  }

  lemma EvictedProgress(mem: DriverState, d: Device, pos: nat, pc: Pc, n: nat)
    requires pc.Evicted? && Progress(mem, d, pos, pc, n)
    ensures var r := mem.ring;
            && r.Valid()
            && Progress(mem.(ring := WithEntry(r, pc.tentry)), d, pos, Placed(pc.buf, pc.base), n)
  {
  }

  lemma PlacedProgress(mem: DriverState, d: Device, pos: nat, pc: Pc, n: nat)
    requires pc.Placed? && Progress(mem, d, pos, pc, n)
    ensures 1 <= |mem.ring.entry| <= 255
    ensures mem.(ring := Settled(mem.ring)).Shows(Write(d, pc.buf, true).0)
  {
    assert mem.(ring := Settled(mem.ring)) == Committed(pc.base);
    var d' := Device(d.history, d.pending + pc.buf);
    assert pc.base.Shows(d') && d'.pending != "" && EndsLine(pc.buf);
    hide DriverState.Shows, Settled, Committed, Progress;
    CommitPending(pc.base, d');
  }

  // Each write step, in the world.

  lemma FilledKeeps(w: World, t: nat, n: nat)
    requires Owner(w, t, n) && w.threads[t].pc.Filled?
    ensures Kept(w, FreeOld(w, t, w.threads[t].pc.buf, w.threads[t].pc.kmem, w.threads[t].pc.base), n)
  {
    var pc, mem, d, pos := w.threads[t].pc, w.mem, Serial(w, n).dev, w.threads[t].from;
    hide Progress, DriverState.Shows, Exclusive, Linear, Inv, Serial, Committed;
    OwnerProgress(w, t, n);
    FilledProgress(mem, d, pos, pc, n);
    var mem' := if mem.tmp.size == 0 then mem else mem.(blocks := mem.blocks - {mem.tmp.buffptr});
    var pc' := Freed(pc.buf, pc.kmem, pc.base);
    MoveKeeps(w, t, mem', pc', n);
    assert FreeOld(w, t, pc.buf, pc.kmem, pc.base) == Ok(WithPc(w.(mem := mem'), t, pc'));
  }

  lemma FreedKeeps(w: World, t: nat, n: nat)
    requires Owner(w, t, n) && w.threads[t].pc.Freed?
    ensures Kept(w, Swap(w, t, w.threads[t].pc.buf, w.threads[t].pc.kmem), n)
  {
    var pc, mem, d, pos := w.threads[t].pc, w.mem, Serial(w, n).dev, w.threads[t].from;
    hide PointedTo, Progress, DriverState.Shows, Exclusive, Linear, Inv, Serial, Committed;
    OwnerProgress(w, t, n);
    FreedProgress(mem, d, pos, pc, n);
    var mem' := PointedTo(mem, pc.kmem, |pc.buf|);
    MoveKeeps(w, t, mem', Swapped(pc.buf), n);
    assert Swap(w, t, pc.buf, pc.kmem) == Ok(WithPc(w.(mem := mem'), t, Swapped(pc.buf)));
  }

  lemma SwappedKeeps(w: World, t: nat, n: nat)
    requires Owner(w, t, n) && w.threads[t].pc.Swapped?
    ensures Kept(w, CheckLine(w, t, w.threads[t].pc.buf), n)
  {
    var pc, mem, d, pos := w.threads[t].pc, w.mem, Serial(w, n).dev, w.threads[t].from;
    hide Progress, DriverState.Shows, Exclusive, Linear, Inv, Serial, Committed;
    OwnerProgress(w, t, n);
    SwappedProgress(mem, d, pos, pc, n);
    if EndsLine(pc.buf) {
      var mem' := mem.(tmp := Entry(NULL, 0));
      var pc' := Detached(pc.buf, mem.tmp, mem);
      MoveKeeps(w, t, mem', pc', n);
      assert CheckLine(w, t, pc.buf) == Ok(WithPc(w.(mem := mem'), t, pc'));
    } else {
      WriteEffectKeeps(w, t, mem, pc.buf, true, n);
      assert CheckLine(w, t, pc.buf)
          == Ok(Effect(w, t, mem, PosOf(w, t), CWrite(w.threads[t].ask.file, pc.buf, true, false),
                       Outcome(|pc.buf|, "")));
    }
  }

  lemma DetachedKeeps(w: World, t: nat, n: nat)
    requires Owner(w, t, n) && w.threads[t].pc.Detached?
    ensures Kept(w, EvictOldest(w, t, w.threads[t].pc.buf, w.threads[t].pc.tentry, w.threads[t].pc.base), n)
  {
    var pc, mem, d, pos := w.threads[t].pc, w.mem, Serial(w, n).dev, w.threads[t].from;
    hide Progress, DriverState.Shows, Exclusive, Linear, Inv, Serial, Committed;
    OwnerProgress(w, t, n);
    DetachedProgress(mem, d, pos, pc, n);
    var mem' := if mem.ring.full then mem.(blocks := mem.blocks - {mem.ring.entry[mem.ring.inOffs].buffptr}) else mem;
    var pc' := Evicted(pc.buf, pc.tentry, pc.base);
    MoveKeeps(w, t, mem', pc', n);
    assert EvictOldest(w, t, pc.buf, pc.tentry, pc.base) == Ok(WithPc(w.(mem := mem'), t, pc'));
  }

  lemma EvictedKeeps(w: World, t: nat, n: nat)
    requires Owner(w, t, n) && w.threads[t].pc.Evicted?
    ensures Kept(w, PlaceEntry(w, t, w.threads[t].pc.buf, w.threads[t].pc.tentry, w.threads[t].pc.base), n)
  {
    var pc, mem, d, pos := w.threads[t].pc, w.mem, Serial(w, n).dev, w.threads[t].from;
    hide Progress, DriverState.Shows, Ring.Valid, WithEntry, Exclusive, Linear, Inv, Serial, Committed;
    OwnerProgress(w, t, n);
    EvictedProgress(mem, d, pos, pc, n);
    var r := mem.ring;
    var mem' := mem.(ring := WithEntry(r, pc.tentry));
    MoveKeeps(w, t, mem', Placed(pc.buf, pc.base), n);
    assert PlaceEntry(w, t, pc.buf, pc.tentry, pc.base) == Ok(WithPc(w.(mem := mem'), t, Placed(pc.buf, pc.base)));
  }

  lemma PlacedKeeps(w: World, t: nat, n: nat)
    requires Owner(w, t, n) && w.threads[t].pc.Placed?
    ensures Kept(w, FinishAdd(w, t, w.threads[t].pc.buf), n)
  {
    var pc, mem, d, pos := w.threads[t].pc, w.mem, Serial(w, n).dev, w.threads[t].from;
    hide Progress, DriverState.Shows, Exclusive, Linear, Inv, Serial, Committed;
    OwnerProgress(w, t, n);
    PlacedProgress(mem, d, pos, pc, n);
    var mem' := mem.(ring := Settled(mem.ring));
    WriteEffectKeeps(w, t, mem', pc.buf, true, n);
    assert FinishAdd(w, t, pc.buf)
        == Ok(Effect(w, t, mem', PosOf(w, t), CWrite(w.threads[t].ask.file, pc.buf, true, false), Outcome(|pc.buf|, "")));
  }

  lemma ReadEffectKeeps(w: World, t: nat, count: nat, accessible: nat, n: nat)
    requires Owner(w, t, n) && w.mem.Shows(Serial(w, n).dev)
    ensures var from, f := w.threads[t].from, w.threads[t].ask.file;
            var r := Read(Contents(Serial(w, n).dev, n), from, count, accessible);
            Inv(Effect(w, t, w.mem, PosOf(w, t) + (r.pos - from), CRead(f, count, accessible, false),
                       Outcome(r.ret, r.data)), n)
  {
    hide Read, DriverState.Shows, Progress;
    var from, f := w.threads[t].from, w.threads[t].ask.file;
    var r := Read(Contents(Serial(w, n).dev, n), from, count, accessible);
    EffectKeeps(w, t, w.mem, PosOf(w, t) + (r.pos - from), CRead(f, count, accessible, false),
                Outcome(r.ret, r.data), n);
  }

  /** A read with `data` copied and nothing left in the contents has ended. */
  lemma EndOfRead(content: string, pos: nat, count: nat, accessible: nat, data: string)
    requires data <= Due(content, pos, count) && |data| <= accessible && |content| <= pos + |data|
    ensures Read(content, pos, count, accessible) == ReadResult(|data|, data, pos + |data|)
  {
    assert data == Due(content, pos, count);
  }

  /** A read with `data` copied goes on with the `rest` of an entry, as far as there is room. */
  lemma TurnOfRead(content: string, pos: nat, count: nat, accessible: nat, data: string, rest: string)
    requires data <= Due(content, pos, count) && |data| <= accessible && (data == "" || |data| < count)
    requires pos + |data| < |content| && rest != "" && rest <= content[pos + |data|..]
    ensures var all := data + (if |data| + |rest| > count then rest[..count - |data|] else rest);
            && all <= Due(content, pos, count)
            && (|all| > accessible ==>
                  Read(content, pos, count, accessible) == ReadResult(-EFAULT, all[..accessible], pos))
            && (count <= |all| <= accessible ==>
                  Read(content, pos, count, accessible) == ReadResult(|all|, all, pos + |all|))
  {
    var due := Due(content, pos, count);
    var cpyBytes := if |data| + |rest| > count then count - |data| else |rest|;
    PieceIsDue(content, pos, count, |data|, rest, cpyBytes);
    var all := data + rest[..cpyBytes];
    assert due[..|all|] == all;
    if |all| > accessible {
      assert due[..accessible] == all[..accessible];
    }
    if count <= |all| {
      assert due == all;
    }
  }

  /** The lookup leads to the end of the contents, or to some of what they hold from `pos` on. */
  predicate LeadsOn(look: Lookup, content: string, pos: nat) {
    match look
    case Bad => false
    case End => |content| <= pos
    case Rest(rest) => pos < |content| && rest != "" && rest <= content[pos..]
  }

  /** What the read loop's lookup finds in a memory that shows `d`. */
  lemma LookUpFinds(mem: DriverState, d: Device, pos: nat)
    requires mem.Shows(d)
    ensures LeadsOn(LookUp(mem, pos), Contents(d, |mem.ring.entry|), pos)
  {
    LookupBytes(mem, d, pos);
  }

  lemma CopyingProgress(mem: DriverState, d: Device, pos: nat, pc: Pc, n: nat)
    requires pc.Copying?
    ensures Progress(mem, d, pos, pc, n)
            <==> && mem.Shows(d)
                 && pc.data <= Due(Contents(d, n), pos, pc.count) && |pc.data| <= pc.accessible
                 && (pc.data == "" || |pc.data| < pc.count)
  {
  }

  /** The read loop goes round again. */
  lemma CopyGoesOn(w: World, t: nat, pc: Pc, n: nat)
    requires Owner(w, t, n) && w.threads[t].pc.Copying? && pc.Copying?
    requires pc.data <= Due(Contents(Serial(w, n).dev, n), w.threads[t].from, pc.count)
    requires |pc.data| <= pc.accessible && |pc.data| < pc.count
    ensures Kept(w, Ok(WithPc(w, t, pc)), n)
  {
    var mem, d, pos := w.mem, Serial(w, n).dev, w.threads[t].from;
    CopyingProgress(mem, d, pos, w.threads[t].pc, n);
    CopyingProgress(mem, d, pos, pc, n);
    MoveKeeps(w, t, mem, pc, n);
    assert w.(mem := mem) == w;
  }

  /** What is known at a turn of the read loop. */
  lemma CopyFacts(mem: DriverState, d: Device, from: nat, pc: Pc, n: nat)
    requires pc.Copying? && Progress(mem, d, from, pc, n) && |mem.ring.entry| == n
    ensures var content := Contents(d, n);
            && pc.data <= Due(content, from, pc.count) && |pc.data| <= pc.accessible
            && (pc.data == "" || |pc.data| < pc.count)
            && LeadsOn(LookUp(mem, from + |pc.data|), content, from + |pc.data|)
            && mem.Shows(d)
  {
    hide *;
    CopyingProgress(mem, d, from, pc, n);
    LookUpFinds(mem, d, from + |pc.data|);
  }

  lemma CopyKeeps(w: World, t: nat, count: nat, accessible: nat, data: string, n: nat)
    requires Owner(w, t, n) && w.threads[t].pc == Copying(count, accessible, data)
    ensures Kept(w, Copy(w, t, count, accessible, data), n)
  {
    hide Inv, Due, Read, LookUp, DriverState.Shows;
    var pos, content := w.threads[t].from, Contents(Serial(w, n).dev, n);
    OwnerProgress(w, t, n);
    CopyFacts(w.mem, Serial(w, n).dev, pos, w.threads[t].pc, n);
    ReadEffectKeeps(w, t, count, accessible, n);
    var r := Read(content, pos, count, accessible);
    var f := w.threads[t].ask.file;
    var done := Ok(Effect(w, t, w.mem, PosOf(w, t) + (r.pos - pos), CRead(f, count, accessible, false),
                          Outcome(r.ret, r.data)));
    if LookUp(w.mem, pos + |data|).End? {
      EndOfRead(content, pos, count, accessible, data);
      assert Copy(w, t, count, accessible, data) == done;
    } else {
      var rest := LookUp(w.mem, pos + |data|).bytes;
      TurnOfRead(content, pos, count, accessible, data, rest);
      var all := data + (if |data| + |rest| > count then rest[..count - |data|] else rest);
      if |all| <= accessible && |all| < count {
        CopyGoesOn(w, t, Copying(count, accessible, all), n);
        assert Copy(w, t, count, accessible, data) == Ok(WithPc(w, t, Copying(count, accessible, all)));
      } else {
        assert Copy(w, t, count, accessible, data) == done;
      }
    }
  }

  /** The control call's answer computed on the sizes is the device's. */
  lemma SeekAnswers(visible: seq<string>, pos: nat, cmd: uint32, arg: Option<SeekTo>)
    ensures SeekAnswer(Sizes(visible), pos, cmd, arg) == Ioctl(visible, pos, cmd, arg, false)
  {
    if arg.Some? && arg.value.writeCmd < |visible| {
      FlatSplit(visible, arg.value.writeCmd);
    }
  }

  lemma SeekKeeps(w: World, t: nat, cmd: uint32, arg: Option<SeekTo>, n: nat)
    requires Owner(w, t, n) && w.threads[t].pc == Locked(OpIoctl(cmd, arg))
    ensures Kept(w, Seek(w, t, cmd, arg), n)
  {
    var mem, s, f := w.mem, Serial(w, n), w.threads[t].ask.file;
    assert mem.Shows(s.dev) && s.pos[f] == PosOf(w, t) && mem.ring.Valid();
    VisibleSizes(mem, s.dev);
    SeekAnswers(Visible(s.dev, n), s.pos[f], cmd, arg);
    var (ret, pos) := SeekAnswer(EntrySizes(mem.ring.Contents()), s.pos[f], cmd, arg);
    EffectKeeps(w, t, mem, pos, CIoctl(f, cmd, arg, false), Outcome(ret, ""), n);
    assert Seek(w, t, cmd, arg) == Ok(Effect(w, t, mem, pos, CIoctl(f, cmd, arg, false), Outcome(ret, "")));
  }

  lemma BeginKeeps(w: World, t: nat, count: nat, accessible: nat, n: nat)
    requires Owner(w, t, n) && w.threads[t].pc == Locked(OpRead(count, accessible))
    ensures Kept(w, Ok(WithPc(w, t, Copying(count, accessible, ""))), n)
  {
    MoveKeeps(w, t, w.mem, Copying(count, accessible, ""), n);
    assert w.(mem := w.mem) == w;
  }

  /** Every step inside the critical section keeps the invariant and none crashes. */
  lemma TickKeeps(w: World, t: nat, address: nat, slack: char, n: nat)
    requires Owner(w, t, n)
    ensures Kept(w, Tick(w, t, address, slack), n)
  {
    hide Inv, Discard, Allocate, FreeOld, Swap, CheckLine, EvictOldest, PlaceEntry, FinishAdd, Copy, Seek;
    match w.threads[t].pc
    case Locked(OpWrite(buf)) =>
      if buf == "" { DiscardKeeps(w, t, n); } else { AllocateKeeps(w, t, buf, address, slack, n); }
    case Locked(OpRead(count, accessible)) => BeginKeeps(w, t, count, accessible, n);
    case Locked(OpIoctl(cmd, arg)) => SeekKeeps(w, t, cmd, arg, n);
    case Copying(count, accessible, data) => CopyKeeps(w, t, count, accessible, data, n);
    case Filled(_, _, _) => FilledKeeps(w, t, n);
    case Freed(_, _, _) => FreedKeeps(w, t, n);
    case Swapped(_) => SwappedKeeps(w, t, n);
    case Detached(_, _, _) => DetachedKeeps(w, t, n);
    case Evicted(_, _, _) => EvictedKeeps(w, t, n);
    case Placed(_, _) => PlacedKeeps(w, t, n);
    case _ =>
  }

  /** A call that returns without the lock moves its file at most, as the log tells it. */
  lemma ReturnEarlyKeeps(w: World, t: nat, pos: nat, c: Call, o: Outcome, n: nat)
    requires Inv(w, n) && Present(w, t) && w.threads[t].pc.Entered? && c.file == w.threads[t].ask.file
    requires var s := Serial(w, n);
             StepFrom(s, c, w.threads[t].from, n) == (System(s.dev, s.pos[c.file := pos]), o)
    ensures Inv(ReturnEarly(w, t, pos, c, o), n)
  {
    hide StepFrom, Told, DriverState.Shows, Progress, Step, State;
    var th := w.threads[t];
    LogPush(w.log, EventOf(w, t, c, o), |w.files|, n);
    SameTurn(w.threads, w.lock, t, th.(pc := Idle, returned := th.returned + [o]), |w.files|);
    assert Serial(ReturnEarly(w, t, pos, c, o), n) == System(Serial(w, n).dev, w.files[c.file := pos]);
    assert w.lock != Some(t);
  }

  lemma RepositionKeeps(w: World, t: nat, n: nat)
    requires Inv(w, n) && Present(w, t) && w.threads[t].pc.Entered? && Lockless(w.threads[t].pc.op)
    ensures Inv(Reposition(w, t, w.threads[t].pc.op), n)
  {
    hide Inv, Linear, State;
    var op, s, f := w.threads[t].pc.op, Serial(w, n), w.threads[t].ask.file;
    FilesOf(w, n);
    var (ret, pos) := Llseek(0, w.threads[t].from, op.off, if op.OpSeekSet? then 0 else 1);
    ReturnEarlyKeeps(w, t, if ret < 0 then PosOf(w, t) else pos, CallOf(Ask(f, op), true, false), Outcome(ret, ""), n);
  }

  lemma AtLockKeeps(w: World, t: nat, interrupted: bool, n: nat)
    requires Inv(w, n) && Present(w, t) && w.threads[t].pc.Entered? && !Lockless(w.threads[t].pc.op)
    ensures Kept(w, Apply(w, t, AtLock(interrupted)), n)
  {
    hide Inv, Linear, State;
    var op, s, f := w.threads[t].pc.op, Serial(w, n), w.threads[t].ask.file;
    FilesOf(w, n);
    assert s.pos[f := s.pos[f]] == s.pos;
    if BadIoctl(op) {
      ReturnEarlyKeeps(w, t, PosOf(w, t), CallOf(Ask(f, op), true, interrupted), Outcome(-ENOTTY, ""), n);
    } else if interrupted {
      ReturnEarlyKeeps(w, t, PosOf(w, t), CallOf(Ask(f, op), true, true), Outcome(-ERESTARTSYS, ""), n);
    } else if w.lock.None? {
      LockKeeps(w, t, n);
    }
  }

  lemma FilesOf(w: World, n: nat)
    requires Inv(w, n)
    ensures Serial(w, n).pos == w.files
  {
    hide State, Told, InMemory;
  }

  lemma LockKeeps(w: World, t: nat, n: nat)
    requires Inv(w, n) && Present(w, t) && w.threads[t].pc.Entered? && w.lock.None?
    ensures Inv(WithPc(w.(lock := Some(t)), t, Locked(w.threads[t].pc.op)), n)
  {
    hide Linear, State, DriverState.Shows;
  }

  /** Steps outside the critical section, and the unlocking, leave memory, files and log alone. */
  lemma OutsideKeeps(w: World, t: nat, a: Action, n: nat)
    requires Inv(w, n) && Present(w, t)
    requires var pc := w.threads[t].pc; pc.Idle? || pc.Loading? || pc.Unlocking?
    ensures Kept(w, Apply(w, t, a), n)
  {
    hide Linear, State, DriverState.Shows;
  }

  lemma ApplyKeeps(w: World, t: nat, a: Action, n: nat)
    requires Inv(w, n) && Present(w, t)
    ensures Kept(w, Apply(w, t, a), n)
  {
    var pc := w.threads[t].pc;
    assert InCriticalSection(pc) ==> w.lock == Some(t);
    hide Inv, Tick;
    if pc.Idle? || pc.Loading? || pc.Unlocking? {
      OutsideKeeps(w, t, a, n);
    } else if pc.Entered? {
      if Lockless(pc.op) {
        if a.Go? { RepositionKeeps(w, t, n); }
      } else if a.AtLock? {
        AtLockKeeps(w, t, a.interrupted, n);
      }
    } else if a.Go? {
      TickKeeps(w, t, a.address, a.slack, n);
    }
  }

  lemma StartInv(k: nat, files: nat, n: nat)
    requires 1 <= n <= 255 && 0 < files
    ensures Inv(Start(k, files, n), n)
  {
    var w := Start(k, files, n);
    CountCases(w.mem.ring);
    assert w.mem.Buffers() == [];
    assert Pointers([]) == {};
    assert w.mem.Commands() == [];
  }

  /** No schedule of any threads on any files crashes, and each keeps the invariant. */
  lemma {:induction false} ExecuteKeeps(k: nat, files: nat, n: nat, schedule: seq<Turn>)
    requires 1 <= n <= 255 && 0 < files
    ensures var r := Execute(Start(k, files, n), schedule);
            r.Ok? && |r.world.threads| == k && |r.world.files| == files && Inv(r.world, n)
  {
    StartInv(k, files, n);
    hide Inv, Apply;
    if schedule != [] {
      var m := |schedule| - 1;
      ExecuteKeeps(k, files, n, schedule[..m]);
      var w := Execute(Start(k, files, n), schedule[..m]).world;
      if Present(w, schedule[m].thread) {
        ApplyKeeps(w, schedule[m].thread, schedule[m].action, n);
      }
    }
  }

  /** Only the owner of the lock ever changes the driver's memory. */
  lemma OnlyOwnerWrites(w: World, t: nat, a: Action, n: nat)
    requires Inv(w, n) && Present(w, t) && Apply(w, t, a).Ok?
    ensures Apply(w, t, a).world.mem != w.mem ==> w.lock == Some(t)
  {
  }
}
