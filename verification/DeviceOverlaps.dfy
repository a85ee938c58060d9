/** Schedules in which calls on one file overlap and are no whole calls in any order. */
module DeviceOverlaps {
  import opened Addresses
  import opened Streams
  import opened Rings
  import opened DeviceSpec
  import opened DriverStates
  import opened DeviceThreads
  import opened DeviceSchedules

  /** The logged calls made whole in this order, with the logged outcomes and file positions. */
  predicate Explains(order: seq<nat>, w: World, n: nat) {
    && |order| == |w.log|
    && (forall i :: 0 <= i < |order| ==> order[i] < |w.log|)
    && (forall i, j :: 0 <= i < j < |order| ==> order[i] != order[j])
    && var calls := seq(|order|, i requires 0 <= i < |order| => w.log[order[i]].call);
    && CallsOn(calls, |w.files|)
    && var (s, outcomes) := Run(Initial(|w.files|), calls, n);
    && outcomes == seq(|order|, i requires 0 <= i < |order| => w.log[order[i]].outcome)
    && s.pos == w.files
  }

  // ---- one line in the device ---------------------------------------------------

  const LINE := "a\n"
  const WRITE := CWrite(0, LINE, true, false)
  const READ := CRead(0, 1, 1, false)
  const SEEK := CIoctl(0, AESDCHAR_IOCSEEKTO, Some(SeekTo(0, 1)), false)
  const JUMP := CLlseek(0, 5, 0)

  const FRESH := Thread(Idle, Ask(0, OpWrite("")), 0, 0, [], [])
  const ASK_WRITE := Ask(0, OpWrite(LINE))
  const WRITTEN := Event(0, ASK_WRITE, 0, 0, WRITE, Outcome(2, ""))

  /** The thread that writes, at `pc`. */
  function Writer(pc: Pc): Thread { Thread(pc, ASK_WRITE, 0, 0, [ASK_WRITE], []) }

  const EMPTY_RING := Ring([Entry(NULL, 0)], 0, 0, false)
  const BLOCKS := map[1 := "a\n "]

  /** Memory with the line nowhere, pending, placed, and as the one command of a ring of one slot. */
  const UNTIED := DriverState(EMPTY_RING, Entry(NULL, 0), BLOCKS)
  const PENDING := DriverState(EMPTY_RING, Entry(1, 2), BLOCKS)
  const PLACED := DriverState(Ring([Entry(1, 2)], 0, 0, false), Entry(NULL, 0), BLOCKS)
  const HELD := DriverState(Ring([Entry(1, 2)], 0, 0, true), Entry(NULL, 0), BLOCKS)

  const GO := Go(1, ' ')

  /** The world while the line is being written. */
  function Writing(mem: DriverState, pc: Pc): World {
    World(mem, Some(0), [0], [Writer(pc), FRESH], [])
  }

  /** One more turn of a schedule. */
  lemma NextTurn(start: World, schedule: seq<Turn>, w: World, turn: Turn) returns (longer: seq<Turn>, w': World)
    requires Execute(start, schedule) == Ok(w) && TakeTurn(w, turn).Ok?
    ensures longer == schedule + [turn] && TakeTurn(w, turn) == Ok(w') && Execute(start, longer) == Ok(w')
  {
    longer, w' := schedule + [turn], TakeTurn(w, turn).world;
    assert longer[..|schedule|] == schedule;
  }

  lemma ExecuteNothing(w: World)
    ensures Execute(w, []) == Ok(w)
  {
  }

  lemma LineEntered() returns (schedule: seq<Turn>)
    ensures Execute(Start(2, 1, 1), schedule) == Ok(Writing(Start(2, 1, 1).mem, Locked(OpWrite(LINE))))
  {
    hide Execute;
    var start := Start(2, 1, 1);
    assert start == World(DriverState(EMPTY_RING, Entry(NULL, 0), map[]), None, [0], [FRESH, FRESH], []);
    ExecuteNothing(start);
    assert [] + [ASK_WRITE] == [ASK_WRITE];
    var w := start;
    schedule := [];
    schedule, w := NextTurn(start, schedule, w, Turn(0, Enter(ASK_WRITE)));
    assert w == start.(threads := [Writer(Entered(OpWrite(LINE))), FRESH]);
    schedule, w := NextTurn(start, schedule, w, Turn(0, AtLock(false)));
    assert w == Writing(start.mem, Locked(OpWrite(LINE)));
  }

  lemma LineFilled(mem: DriverState)
    requires mem == DriverState(EMPTY_RING, Entry(NULL, 0), map[])
    ensures TakeTurn(Writing(mem, Locked(OpWrite(LINE))), Turn(0, GO)) == Ok(Writing(UNTIED, Filled(LINE, 1, mem)))
    ensures TakeTurn(Writing(UNTIED, Filled(LINE, 1, mem)), Turn(0, GO)) == Ok(Writing(UNTIED, Freed(LINE, 1, mem)))
    ensures TakeTurn(Writing(UNTIED, Freed(LINE, 1, mem)), Turn(0, GO)) == Ok(Writing(PENDING, Swapped(LINE)))
  {
    assert "" + LINE + [' '] == "a\n ";
  }

  lemma LineTaken()
    ensures TakeTurn(Writing(PENDING, Swapped(LINE)), Turn(0, GO))
            == Ok(Writing(UNTIED, Detached(LINE, Entry(1, 2), PENDING)))
    ensures TakeTurn(Writing(UNTIED, Detached(LINE, Entry(1, 2), PENDING)), Turn(0, GO))
            == Ok(Writing(UNTIED, Evicted(LINE, Entry(1, 2), PENDING)))
  {
    assert Stored(Entry(1, 2), BLOCKS) && Text(Entry(1, 2), BLOCKS) == LINE;
  }

  /** The world with the line written by a first thread that has returned. */
  function Written(): World {
    World(HELD, None, [0], [Writer(Idle).(returned := [Outcome(2, "")]), FRESH], [WRITTEN])
  }

  lemma LinePlaced()
    ensures TakeTurn(Writing(UNTIED, Evicted(LINE, Entry(1, 2), PENDING)), Turn(0, GO))
            == Ok(Writing(PLACED, Placed(LINE, PENDING)))
    ensures TakeTurn(Writing(PLACED, Placed(LINE, PENDING)), Turn(0, GO))
            == Ok(Writing(HELD, Unlocking(Outcome(2, ""))).(log := [WRITTEN]))
    ensures TakeTurn(Writing(HELD, Unlocking(Outcome(2, ""))).(log := [WRITTEN]), Turn(0, GO)) == Ok(Written())
  {
    assert [] + [WRITTEN] == [WRITTEN] && [] + [Outcome(2, "")] == [Outcome(2, "")];
  }

  /** A thread writes the line to the empty device. */
  lemma FirstLine() returns (schedule: seq<Turn>)
    ensures Execute(Start(2, 1, 1), schedule) == Ok(Written())
  {
    var start := Start(2, 1, 1);
    assert start.mem == DriverState(EMPTY_RING, Entry(NULL, 0), map[]);
    hide Execute, TakeTurn;
    schedule := LineEntered();
    var w := Writing(start.mem, Locked(OpWrite(LINE)));
    LineFilled(start.mem);
    schedule, w := NextTurn(start, schedule, w, Turn(0, GO));
    schedule, w := NextTurn(start, schedule, w, Turn(0, GO));
    schedule, w := NextTurn(start, schedule, w, Turn(0, GO));
    LineTaken();
    schedule, w := NextTurn(start, schedule, w, Turn(0, GO));
    schedule, w := NextTurn(start, schedule, w, Turn(0, GO));
    LinePlaced();
    schedule, w := NextTurn(start, schedule, w, Turn(0, GO));
    schedule, w := NextTurn(start, schedule, w, Turn(0, GO));
    schedule, w := NextTurn(start, schedule, w, Turn(0, GO));
  }

  // ---- a read that loads early and finishes late --------------------------------

  lemma LineFound()
    ensures LookUp(HELD, 0) == Rest(LINE)
  {
    assert HELD.ring.Contents() == [Entry(1, 2)] && EntrySizes([Entry(1, 2)]) == [2];
    assert Text(Entry(1, 2), BLOCKS) == LINE && LINE[0..] == LINE;
  }

  /** The one turn of the read loop over the one byte. */
  lemma CopyOne(w: World, t: nat)
    requires Present(w, t) && w.mem == HELD && w.threads[t].from == 0
    ensures Copy(w, t, 1, 1, "")
            == Ok(Effect(w, t, w.mem, PosOf(w, t) + 1, CRead(w.threads[t].ask.file, 1, 1, false), Outcome(1, "a")))
  {
    LineFound();
    hide LookUp;
    assert "" + LINE[..1] == "a";
  }

  /** Thread `t` has loaded position 0 and finishes its read of one byte. */
  lemma FinishRead(start: World, schedule: seq<Turn>, w: World, t: nat) returns (longer: seq<Turn>, w': World)
    requires Execute(start, schedule) == Ok(w) && w.mem == HELD && w.lock == None
    requires Present(w, t) && w.threads[t].pc == Entered(OpRead(1, 1)) && w.threads[t].from == 0
    ensures Execute(start, longer) == Ok(w')
    ensures var th, o := w.threads[t], Outcome(1, "a");
            w' == World(w.mem, None, w.files[th.ask.file := PosOf(w, t) + 1],
                        w.threads[t := th.(pc := Idle, returned := th.returned + [o])],
                        w.log + [EventOf(w, t, CRead(th.ask.file, 1, 1, false), o)])
  {
    hide Execute, Copy;
    var th, go := w.threads[t], Turn(t, GO);
    longer, w' := NextTurn(start, schedule, w, Turn(t, AtLock(false)));
    longer, w' := NextTurn(start, longer, w', go);
    assert w' == w.(lock := Some(t), threads := w.threads[t := th.(pc := Copying(1, 1, ""))]);
    CopyOne(w', t);
    longer, w' := NextTurn(start, longer, w', go);
    assert w'.threads[t] == th.(pc := Unlocking(Outcome(1, "a")));
    longer, w' := NextTurn(start, longer, w', go);
    assert w'.threads == w.threads[t := w'.threads[t]];
  }

  /** The line is written, and the first thread has loaded position 0 for a read of one byte. */
  lemma Loaded() returns (schedule: seq<Turn>, w: World)
    ensures Execute(Start(2, 1, 1), schedule) == Ok(w)
    ensures w.mem == HELD && w.lock == None && w.files == [0] && w.log == [WRITTEN]
    ensures |w.threads| == 2 && w.threads[1] == FRESH
    ensures var th := w.threads[0]; th.pc == Entered(OpRead(1, 1)) && th.from == 0 && th.ask == Ask(0, OpRead(1, 1))
  {
    hide Execute, Start;
    schedule := FirstLine();
    w := Written();
    schedule, w := NextTurn(Start(2, 1, 1), schedule, w, Turn(0, Enter(Ask(0, OpRead(1, 1)))));
    schedule, w := NextTurn(Start(2, 1, 1), schedule, w, Turn(0, Load));
  }

  // ---- no order explains them ---------------------------------------------------

  /** What an order of three logged calls has to go through. */
  lemma {:induction false} ThreeSteps(order: seq<nat>, w: World)
    requires Explains(order, w, 1) && |w.log| == 3 && |w.files| == 1
    ensures |order| == 3 && order[0] < 3 && order[1] < 3 && order[2] < 3
    ensures order[0] != order[1] && order[1] != order[2] && order[0] != order[2]
    ensures w.log[order[0]].call.file == w.log[order[1]].call.file == w.log[order[2]].call.file == 0
    ensures var (s1, o1) := Step(Initial(1), w.log[order[0]].call, 1);
            var (s2, o2) := Step(s1, w.log[order[1]].call, 1);
            var (s3, o3) := Step(s2, w.log[order[2]].call, 1);
            && o1 == w.log[order[0]].outcome && o2 == w.log[order[1]].outcome && o3 == w.log[order[2]].outcome
            && s3.pos == w.files
  {
    var a, b, c := w.log[order[0]], w.log[order[1]], w.log[order[2]];
    var calls := seq(|order|, i requires 0 <= i < |order| => w.log[order[i]].call);
    var outs := seq(|order|, i requires 0 <= i < |order| => w.log[order[i]].outcome);
    assert calls == [a.call, b.call, c.call] && outs == [a.outcome, b.outcome, c.outcome];
    assert calls[0].file < 1 && calls[1].file < 1 && calls[2].file < 1;
    hide Step, Run;
    RunThree(a.call, b.call, c.call);
  }

  lemma {:induction false} RunTwo(a: Call, b: Call)
    requires a.file == b.file == 0
    ensures CallsOn([a, b], 1)
    ensures var (s1, o1) := Step(Initial(1), a, 1);
            var (s2, o2) := Step(s1, b, 1);
            Run(Initial(1), [a, b], 1) == (s2, [o1, o2])
  {
    hide Step;
    RunPush(Initial(1), [], a, 1);
    RunPush(Initial(1), [a], b, 1);
    assert [] + [a] == [a] && [a] + [b] == [a, b];
    var (s1, o1) := Step(Initial(1), a, 1);
    var (s2, o2) := Step(s1, b, 1);
    assert [] + [o1] == [o1] && [o1] + [o2] == [o1, o2];
  }

  lemma {:induction false} RunThree(a: Call, b: Call, c: Call)
    requires a.file == b.file == c.file == 0
    ensures CallsOn([a, b, c], 1)
    ensures var (s1, o1) := Step(Initial(1), a, 1);
            var (s2, o2) := Step(s1, b, 1);
            var (s3, o3) := Step(s2, c, 1);
            Run(Initial(1), [a, b, c], 1) == (s3, [o1, o2, o3])
  {
    RunTwo(a, b);
    hide Step, Run;
    RunPush(Initial(1), [a, b], c, 1);
    assert [a, b] + [c] == [a, b, c];
    var (s1, o1) := Step(Initial(1), a, 1);
    var (s2, o2) := Step(s1, b, 1);
    assert [o1, o2] + [Step(s2, c, 1).1] == [o1, o2, Step(s2, c, 1).1];
  }

  /** The device with the line as its only command, a file at `pos`. */
  function After(pos: nat): System { System(Device([LINE], ""), [pos]) }

  lemma StepsBefore()
    ensures Step(Initial(1), WRITE, 1) == (After(0), Outcome(2, ""))
    ensures Step(Initial(1), READ, 1).1 == Outcome(0, "")
    ensures Step(Initial(1), SEEK, 1).1.ret < 0
    ensures Step(Initial(1), JUMP, 1) == (System(Device([], ""), [5]), Outcome(5, ""))
    ensures Step(System(Device([], ""), [5]), READ, 1).1 == Outcome(0, "")
    ensures Step(System(Device([], ""), [5]), WRITE, 1).0 == After(5)
  {
    assert "" + LINE == LINE && [] + [LINE] == [LINE];
    assert Initial(1) == System(Device([], ""), [0]) && [0][0 := 5] == [5];
  }

  lemma StepsAfter()
    ensures Step(After(0), READ, 1) == (After(1), Outcome(1, "a"))
    ensures Step(After(1), READ, 1).1 == Outcome(1, "\n")
    ensures Step(After(5), READ, 1).1 == Outcome(0, "")
    ensures Step(After(0), SEEK, 1) == (After(1), Outcome(0, ""))
    ensures Step(After(1), SEEK, 1) == (After(1), Outcome(0, ""))
    ensures Step(After(0), JUMP, 1).0 == After(5) && Step(After(1), JUMP, 1).0 == After(5)
  {
    assert Flat([LINE]) == LINE + Flat([]) == LINE;
    assert Contents(Device([LINE], ""), 1) == LINE;
    assert [LINE][..0] == [] && Flat([]) == "";
    assert LINE[0..1] == "a" && LINE[1..2] == "\n";
    assert [0][0 := 1] == [1] && [1][0 := 1] == [1];
  }

  /** A world in which the byte was read late, after another read of it or past a seek. */
  predicate ReadLate(w: World) {
    && |w.log| == 3 && w.log[0] == WRITTEN && w.log[2].call == READ && w.log[2].outcome == Outcome(1, "a")
    && var c, o := w.log[1].call, w.log[1].outcome;
       || (c == READ && o == Outcome(1, "a") && |w.files| == 1)
       || (c == SEEK && o == Outcome(0, "") && w.files == [2])
       || (c == JUMP && o == Outcome(5, "") && w.files == [6])
  }

  lemma NoOrderExplains(w: World)
    requires ReadLate(w)
    ensures forall order :: !Explains(order, w, 1)
  {
    hide Explains, Step;
    forall order ensures !Explains(order, w, 1) {
      if Explains(order, w, 1) {
        ThreeSteps(order, w);
        StepsBefore();
        StepsAfter();
      }
    }
  }

  /** Two reads that overlap on one file can both return the same byte. */
  lemma OverlappingReads() returns (schedule: seq<Turn>, w: World)
    ensures Execute(Start(2, 1, 1), schedule) == Ok(w)
    ensures Calls(w.log) == [WRITE, READ, READ]
    ensures Outcomes(w.log) == [Outcome(2, ""), Outcome(1, "a"), Outcome(1, "a")]
    ensures forall order :: !Explains(order, w, 1)
  {
    hide Execute, Start;
    schedule, w := Loaded();
    schedule, w := NextTurn(Start(2, 1, 1), schedule, w, Turn(1, Enter(Ask(0, OpRead(1, 1)))));
    schedule, w := NextTurn(Start(2, 1, 1), schedule, w, Turn(1, Load));
    schedule, w := FinishRead(Start(2, 1, 1), schedule, w, 0);
    schedule, w := FinishRead(Start(2, 1, 1), schedule, w, 1);
    assert Calls(w.log) == [WRITE, READ, READ];
    assert Outcomes(w.log) == [Outcome(2, ""), Outcome(1, "a"), Outcome(1, "a")];
    NoOrderExplains(w);
  }

  /** Another thread seeks to the second byte of the command. */
  lemma SeekMeanwhile(start: World, schedule: seq<Turn>, w: World) returns (longer: seq<Turn>, w': World)
    requires Execute(start, schedule) == Ok(w) && w.mem == HELD && w.lock == None && w.files == [0]
    requires |w.threads| == 2 && w.threads[1] == FRESH && w.threads[0].ask.file == 0
    ensures Execute(start, longer) == Ok(w') && w'.mem == HELD && w'.lock == None && w'.files == [1]
    ensures |w'.threads| == 2 && w'.threads[0] == w.threads[0]
    ensures |w'.log| == |w.log| + 1 && w'.log[..|w.log|] == w.log
    ensures w'.log[|w.log|].call == SEEK && w'.log[|w.log|].outcome == Outcome(0, "")
  {
    hide Execute, Seek;
    var op := OpIoctl(AESDCHAR_IOCSEEKTO, Some(SeekTo(0, 1)));
    longer, w' := NextTurn(start, schedule, w, Turn(1, Enter(Ask(0, op))));
    longer, w' := NextTurn(start, longer, w', Turn(1, AtLock(false)));
    assert w'.threads[1].pc == Locked(op);
    SeekFound(w');
    longer, w' := NextTurn(start, longer, w', Turn(1, GO));
    longer, w' := NextTurn(start, longer, w', Turn(1, GO));
  }

  /** A read that a control call on its file overlaps can return the byte at the old place and end past the new. */
  lemma OverlappingReadAndSeek() returns (schedule: seq<Turn>, w: World)
    ensures Execute(Start(2, 1, 1), schedule) == Ok(w) && w.files == [2]
    ensures Calls(w.log) == [WRITE, SEEK, READ]
    ensures Outcomes(w.log) == [Outcome(2, ""), Outcome(0, ""), Outcome(1, "a")]
    ensures forall order :: !Explains(order, w, 1)
  {
    hide Execute, Start;
    schedule, w := Loaded();
    schedule, w := SeekMeanwhile(Start(2, 1, 1), schedule, w);
    schedule, w := FinishRead(Start(2, 1, 1), schedule, w, 0);
    assert Calls(w.log) == [WRITE, SEEK, READ];
    assert Outcomes(w.log) == [Outcome(2, ""), Outcome(0, ""), Outcome(1, "a")];
    NoOrderExplains(w);
  }

  lemma SeekFound(w: World)
    requires Present(w, 1) && w.mem == HELD && w.threads[1].ask.file == 0
    ensures Seek(w, 1, AESDCHAR_IOCSEEKTO, Some(SeekTo(0, 1))) == Ok(Effect(w, 1, w.mem, 1, SEEK, Outcome(0, "")))
  {
    assert HELD.ring.Contents() == [Entry(1, 2)] && EntrySizes([Entry(1, 2)]) == [2];
    assert [2][..0] == [];
  }

  /** And so can one that a seek overlaps, which takes no lock. */
  lemma OverlappingReadAndLlseek() returns (schedule: seq<Turn>, w: World)
    ensures Execute(Start(2, 1, 1), schedule) == Ok(w) && w.files == [6]
    ensures Calls(w.log) == [WRITE, JUMP, READ]
    ensures Outcomes(w.log) == [Outcome(2, ""), Outcome(5, ""), Outcome(1, "a")]
    ensures forall order :: !Explains(order, w, 1)
  {
    hide Execute, Start;
    schedule, w := Loaded();
    var th := w.threads[0];
    schedule, w := NextTurn(Start(2, 1, 1), schedule, w, Turn(1, Enter(Ask(0, OpSeekSet(5)))));
    schedule, w := NextTurn(Start(2, 1, 1), schedule, w, Turn(1, GO));
    assert w.threads[0] == th && w.lock == None && w.files == [5];
    schedule, w := FinishRead(Start(2, 1, 1), schedule, w, 0);
    assert Calls(w.log) == [WRITE, JUMP, READ];
    assert Outcomes(w.log) == [Outcome(2, ""), Outcome(5, ""), Outcome(1, "a")];
    NoOrderExplains(w);
  }
}
