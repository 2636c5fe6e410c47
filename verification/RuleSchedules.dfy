/** Four schedules from the initial state: the life of a rule from its addition to its
    release, and one into each of the three windows of the protocol.
    (FileGuardCore/Operations.c, FileGuardCore/Context.c, FileGuardCore/Rule.c) */
module RuleSchedules {
  import opened FileGuard
  import opened RuleHistory
  import opened Callbacks
  import opened RuleLifetime
  import opened RuleOwnership

  lemma {:induction false} RunConcat(s: State, a: seq<(nat, Action)>, b: seq<(nat, Action)>)
    ensures RuleLifetime.Run(s, a + b) == RuleLifetime.Run(RuleLifetime.Run(s, a), b)
    decreases |a|
  {
    if a == [] {
      assert a + b == b;
    } else {
      assert (a + b)[1..] == a[1..] + b;
      RunConcat(Step(s, a[0].0, a[0].1), a[1..], b);
    }
  }

  /** `states` are the states the steps go through. */
  ghost predicate Trace(steps: seq<(nat, Action)>, states: seq<State>) {
    |states| == |steps| + 1 && forall k :: 0 <= k < |steps| ==> Step(states[k], steps[k].0, steps[k].1) == states[k + 1]
  }

  lemma {:induction false} TraceRuns(steps: seq<(nat, Action)>, states: seq<State>)
    requires Trace(steps, states)
    ensures RuleLifetime.Run(states[0], steps) == states[|steps|]
    decreases |steps|
  {
    hide Step;
    if steps != [] {
      forall k | 0 <= k < |steps[1..]|
        ensures Step(states[1..][k], steps[1..][k].0, steps[1..][k].1) == states[1..][k + 1]
      {
        assert Step(states[k + 1], steps[k + 1].0, steps[k + 1].1) == states[k + 2];
      }
      TraceRuns(steps[1..], states[1..]);
    }
  }

  const CODE: RuleCode := RuleCode(RULE_MINOR_MONITORED, RULE_MAJOR_READONLY)

  /** A state with one readonly rule, one file and two threads. */
  function World(refs: int, list: seq<nat>, made: seq<FileContext>, file: Option<nat>, pc0: Pc, pc1: Pc,
                 outcomes: seq<Outcome>): State {
    State([RuleCell(CODE, refs, 0, 0)], list, made, [file], [Thread(pc0, None), Thread(pc1, None)], outcomes, false)
  }

  const READY: State := World(1, [0], [], None, Idle, Idle, [])

  function Begin(): seq<(nat, Action)> {
    [(0, Spawn), (0, Spawn), (0, AddRule(CODE))]
  }

  lemma BeginRuns()
    ensures RuleLifetime.Run(Initial(1), Begin()) == READY
  {
    hide StepOperation, Compare, Publish, FinishPreCreate, StepPost, Free, Unwind;
    var s0 := Initial(1);
    assert s0.files == [None];
    TraceRuns(Begin(), [s0, s0.(threads := [Thread(Idle, None)]),
                        s0.(threads := [Thread(Idle, None), Thread(Idle, None)]), READY]);
  }

  // ---- Pre-create ----

  /** Thread 0 or thread 1 at `pc`, the other at `other`. */
  function At(t: nat, refs: int, pc: Pc, other: Pc): State {
    World(refs, [0], [], None, if t == 0 then pc else other, if t == 0 then other else pc, [])
  }

  function Pre(t: nat): seq<(nat, Action)> {
    [(t, LookUp(0, r => true)), (t, Reference), (t, ReadAgain),
     (t, DecideCreate(CreateInputs(false, Success, Success, OpenExisting, Success, true, Success))),
     (t, DropNext), (t, DropNext), (t, StartPost)]
  }

  /** Pre-create of thread `t` up to the query for a context in post-create. */
  lemma PreRuns(t: nat, refs: nat, other: Pc)
    requires t < 2 && refs > 0
    ensures RuleLifetime.Run(At(t, refs, Idle, other), Pre(t)) == At(t, refs + 1, PostCreating(0, 0), other)
  {
    hide Step, At;
    PreLooks(t, refs, other);
    PreDrops(t, refs + 2, other);
    var kept := Some((0, 0));
    TraceRuns(Pre(t), [At(t, refs, Idle, other), At(t, refs, LookedUp(0, 0), other),
                       At(t, refs + 1, Rereading(0, 0), other),
                       At(t, refs + 1, PreCreating(0, 0), other),
                       At(t, refs + 2, Unwinding([DropRule(0)], kept), other),
                       At(t, refs + 1, Unwinding([], kept), other), At(t, refs + 1, AwaitingPost(0, 0), other),
                       At(t, refs + 1, PostCreating(0, 0), other)]);
  }

  lemma PreLooks(t: nat, refs: nat, other: Pc)
    requires t < 2 && refs > 0
    ensures Step(At(t, refs, Idle, other), t, Pre(t)[0].1) == At(t, refs, LookedUp(0, 0), other)
    ensures Step(At(t, refs, LookedUp(0, 0), other), t, Reference) == At(t, refs + 1, Rereading(0, 0), other)
    ensures Step(At(t, refs + 1, Rereading(0, 0), other), t, ReadAgain) == At(t, refs + 1, PreCreating(0, 0), other)
    ensures Step(At(t, refs + 1, PreCreating(0, 0), other), t, Pre(t)[3].1) ==
            At(t, refs + 2, Unwinding([DropRule(0)], Some((0, 0))), other)
  {
    hide StepOperation, Compare, Publish, StepPost, Unwind, Free;
  }

  lemma PreDrops(t: nat, refs: nat, other: Pc)
    requires t < 2 && refs > 1
    ensures Step(At(t, refs, Unwinding([DropRule(0)], Some((0, 0))), other), t, DropNext) ==
            At(t, refs - 1, Unwinding([], Some((0, 0))), other)
    ensures Step(At(t, refs - 1, Unwinding([], Some((0, 0))), other), t, DropNext) ==
            At(t, refs - 1, AwaitingPost(0, 0), other)
    ensures Step(At(t, refs - 1, AwaitingPost(0, 0), other), t, StartPost) == At(t, refs - 1, PostCreating(0, 0), other)
  {
    hide StepOperation, Compare, Publish, StepPost, StepIdle, FinishPreCreate, Free;
    assert [DropRule(0)][1..] == [];
  }

  // ---- The life of a rule ----

  const THROUGH: seq<Outcome> := [Opened(0, Through(0))]

  const REFUSED: seq<Outcome> := [Opened(0, Through(0)), Operated(0, Write, Decision(Complete, MediaWriteProtected))]

  /** Thread 0 at `pc` in post-create, its context as given. */
  function Post(refs: int, x: FileContext, file: Option<nat>, pc: Pc, outcomes: seq<Outcome>): State {
    World(refs, [0], [x], file, pc, Idle, outcomes)
  }

  function Publication(): seq<(nat, Action)> {
    [(0, AllocateContext), (0, SetContext(true)), (0, StoreName), (0, ReferenceAgain), (0, StoreRule),
     (0, DropNext), (0, DropNext), (0, DropNext)]
  }

  /** The file is under the rule: one named context carries it. */
  const PROTECTED: State := Post(2, FileContext(true, Some(0), 1, 0), Some(0), Idle, THROUGH)

  lemma PublicationRuns()
    ensures RuleLifetime.Run(At(0, 2, PostCreating(0, 0), Idle), Publication()) == PROTECTED
  {
    var drops := [DropContext(0), DropRule(0)];
    var states := [At(0, 2, PostCreating(0, 0), Idle),
                   Post(2, FileContext(false, None, 1, 0), None, Allocated(0, 0, 0), []),
                   Post(2, FileContext(false, None, 2, 0), Some(0), Published(0, 0, 0), []),
                   Post(2, FileContext(true, None, 2, 0), Some(0), Named(0, 0, 0), []),
                   Post(3, FileContext(true, None, 2, 0), Some(0), Referenced(0, 0, 0), []),
                   Post(3, FileContext(true, Some(0), 2, 0), Some(0), Unwinding(drops, None), THROUGH),
                   Post(3, FileContext(true, Some(0), 1, 0), Some(0), Unwinding([DropRule(0)], None), THROUGH),
                   Post(2, FileContext(true, Some(0), 1, 0), Some(0), Unwinding([], None), THROUGH),
                   PROTECTED];
    PublicationBegins();
    PublicationStores();
    PublicationDrops();
    hide Step, Post, At;
    TraceRuns(Publication(), states);
  }

  lemma PublicationBegins()
    ensures Step(At(0, 2, PostCreating(0, 0), Idle), 0, AllocateContext) ==
            Post(2, FileContext(false, None, 1, 0), None, Allocated(0, 0, 0), [])
    ensures Step(Post(2, FileContext(false, None, 1, 0), None, Allocated(0, 0, 0), []), 0, SetContext(true)) ==
            Post(2, FileContext(false, None, 2, 0), Some(0), Published(0, 0, 0), [])
  {
    hide StepOperation, Compare, StepIdle, FinishPreCreate, Free, Unwind;
  }

  lemma PublicationStores()
    ensures Step(Post(2, FileContext(false, None, 2, 0), Some(0), Published(0, 0, 0), []), 0, StoreName) ==
            Post(2, FileContext(true, None, 2, 0), Some(0), Named(0, 0, 0), [])
    ensures Step(Post(2, FileContext(true, None, 2, 0), Some(0), Named(0, 0, 0), []), 0, ReferenceAgain) ==
            Post(3, FileContext(true, None, 2, 0), Some(0), Referenced(0, 0, 0), [])
    ensures Step(Post(3, FileContext(true, None, 2, 0), Some(0), Referenced(0, 0, 0), []), 0, StoreRule) ==
            Post(3, FileContext(true, Some(0), 2, 0), Some(0), Unwinding([DropContext(0), DropRule(0)], None), THROUGH)
  {
    hide StepOperation, Compare, StepIdle, StepPost, Publish, FinishPreCreate, Free, Unwind;
  }

  lemma PublicationDrops()
    ensures Step(Post(3, FileContext(true, Some(0), 2, 0), Some(0), Unwinding([DropContext(0), DropRule(0)], None),
                      THROUGH), 0, DropNext) ==
            Post(3, FileContext(true, Some(0), 1, 0), Some(0), Unwinding([DropRule(0)], None), THROUGH)
    ensures Step(Post(3, FileContext(true, Some(0), 1, 0), Some(0), Unwinding([DropRule(0)], None), THROUGH), 0,
                 DropNext) ==
            Post(2, FileContext(true, Some(0), 1, 0), Some(0), Unwinding([], None), THROUGH)
    ensures Step(Post(2, FileContext(true, Some(0), 1, 0), Some(0), Unwinding([], None), THROUGH), 0, DropNext) ==
            PROTECTED
  {
    hide StepOperation, Compare, StepIdle, StepPost, FinishPreCreate, Free, Publish;
    assert [] + [DropContext(0), DropRule(0)][1..] == [DropRule(0)] && [DropRule(0)][1..] == [];
  }

  function WriteSteps(): seq<(nat, Action)> {
    [(1, FetchContext(0, Write)), (1, TestRule), (1, Decide(OperationInputs(Success, Success, None, Success))),
     (1, DropNext), (1, DropNext)]
  }

  /** Thread 1 at `pc` in the write, the context held as often as given. */
  function Writing(holders: int, pc: Pc, outcomes: seq<Outcome>): State {
    World(2, [0], [FileContext(true, Some(0), holders, 0)], Some(0), Idle, pc, outcomes)
  }

  lemma WriteRuns()
    ensures RuleLifetime.Run(PROTECTED, WriteSteps()) == PROTECTED.(outcomes := REFUSED)
  {
    assert PROTECTED == Writing(1, Idle, THROUGH) && PROTECTED.(outcomes := REFUSED) == Writing(1, Idle, REFUSED);
    hide Step, Writing;
    WriteDecides();
    WriteReturns();
    TraceRuns(WriteSteps(), [Writing(1, Idle, THROUGH), Writing(2, Holding(0, Write), THROUGH),
                             Writing(2, Deciding(0, Write, 0), THROUGH),
                             Writing(2, Unwinding([DropContext(0)], None), REFUSED),
                             Writing(1, Unwinding([], None), REFUSED),
                             Writing(1, Idle, REFUSED)]);
  }

  lemma WriteDecides()
    ensures Step(Writing(1, Idle, THROUGH), 1, FetchContext(0, Write)) == Writing(2, Holding(0, Write), THROUGH)
    ensures Step(Writing(2, Holding(0, Write), THROUGH), 1, TestRule) == Writing(2, Deciding(0, Write, 0), THROUGH)
    ensures Step(Writing(2, Deciding(0, Write, 0), THROUGH), 1, WriteSteps()[2].1) ==
            Writing(2, Unwinding([DropContext(0)], None), REFUSED)
  {
    hide Compare, StepPost, FinishPreCreate, Free, Publish, Unwind;
  }

  lemma WriteReturns()
    ensures Step(Writing(2, Unwinding([DropContext(0)], None), REFUSED), 1, DropNext) ==
            Writing(1, Unwinding([], None), REFUSED)
    ensures Step(Writing(1, Unwinding([], None), REFUSED), 1, DropNext) == Writing(1, Idle, REFUSED)
  {
    hide Compare, StepPost, StepIdle, StepOperation, FinishPreCreate, Free, Publish;
    assert [] + [DropContext(0)][1..] == [];
  }

  function EndSteps(): seq<(nat, Action)> {
    [(1, Unlink(0)), (1, DropNext), (1, DropNext), (1, DropNext),
     (0, Detach(0)), (0, DropNext), (0, DropNext), (0, FreeDoomed), (0, DropNext)]
  }

  /** The end of the rule: `pc0` closes the file, `pc1` removes the rule. */
  function Ending(cell: RuleCell, x: FileContext, file: Option<nat>, pc0: Pc, pc1: Pc): State {
    State([cell], [], [x], [file], [Thread(pc0, None), Thread(pc1, None)], REFUSED, false)
  }

  lemma EndRuns()
    ensures var s := RuleLifetime.Run(PROTECTED.(outcomes := REFUSED), EndSteps());
            Quiescent(s) && s.rules == [RuleCell(CODE, 0, 1, 1)] && s.outcomes == REFUSED
  {
    var open, closed := FileContext(true, Some(0), 1, 0), FileContext(false, Some(0), 0, 0);
    var states := [PROTECTED.(outcomes := REFUSED),
                   Ending(RuleCell(CODE, 2, 0, 0), open, Some(0), Idle, Unwinding([DropRule(0), FreeEntry(0)], None)),
                   Ending(RuleCell(CODE, 1, 0, 0), open, Some(0), Idle, Unwinding([FreeEntry(0)], None)),
                   Ending(RuleCell(CODE, 1, 0, 1), open, Some(0), Idle, Unwinding([], None)),
                   Ending(RuleCell(CODE, 1, 0, 1), open, Some(0), Idle, Idle),
                   Ending(RuleCell(CODE, 1, 0, 1), open, None, Unwinding([DropContext(0)], None), Idle),
                   Ending(RuleCell(CODE, 1, 0, 1), closed, None, Unwinding([DropRule(0)], None), Idle),
                   Ending(RuleCell(CODE, 0, 0, 1), closed, None, Unwinding([], None), Idle).(threads :=
                     [Thread(Unwinding([], None), Some(0)), Thread(Idle, None)]),
                   Ending(RuleCell(CODE, 0, 1, 1), closed, None, Unwinding([], None), Idle),
                   Ending(RuleCell(CODE, 0, 1, 1), closed, None, Idle, Idle)];
    RemovalSteps(open);
    ClosingSteps(open, closed);
    FreeingSteps(closed);
    EndIsQuiet(closed);
    hide Step, Ending, Quiescent;
    TraceRuns(EndSteps(), states);
  }

  lemma EndIsQuiet(x: FileContext)
    ensures var s := Ending(RuleCell(CODE, 0, 1, 1), x, None, Idle, Idle);
            Quiescent(s) && s.rules == [RuleCell(CODE, 0, 1, 1)] && s.outcomes == REFUSED
  {
  }

  lemma RemovalSteps(open: FileContext)
    requires open == FileContext(true, Some(0), 1, 0)
    ensures Step(PROTECTED.(outcomes := REFUSED), 1, Unlink(0)) ==
            Ending(RuleCell(CODE, 2, 0, 0), open, Some(0), Idle, Unwinding([DropRule(0), FreeEntry(0)], None))
    ensures Step(Ending(RuleCell(CODE, 2, 0, 0), open, Some(0), Idle, Unwinding([DropRule(0), FreeEntry(0)], None)),
                 1, DropNext) ==
            Ending(RuleCell(CODE, 1, 0, 0), open, Some(0), Idle, Unwinding([FreeEntry(0)], None))
    ensures Step(Ending(RuleCell(CODE, 1, 0, 0), open, Some(0), Idle, Unwinding([FreeEntry(0)], None)), 1, DropNext) ==
            Ending(RuleCell(CODE, 1, 0, 1), open, Some(0), Idle, Unwinding([], None))
    ensures Step(Ending(RuleCell(CODE, 1, 0, 1), open, Some(0), Idle, Unwinding([], None)), 1, DropNext) ==
            Ending(RuleCell(CODE, 1, 0, 1), open, Some(0), Idle, Idle)
  {
    hide StepOperation, Compare, StepPost, FinishPreCreate, Free, Publish;
    assert [DropRule(0), FreeEntry(0)][1..] == [FreeEntry(0)] && [FreeEntry(0)][1..] == [];
  }

  lemma ClosingSteps(open: FileContext, closed: FileContext)
    requires open == FileContext(true, Some(0), 1, 0) && closed == FileContext(false, Some(0), 0, 0)
    ensures Step(Ending(RuleCell(CODE, 1, 0, 1), open, Some(0), Idle, Idle), 0, Detach(0)) ==
            Ending(RuleCell(CODE, 1, 0, 1), open, None, Unwinding([DropContext(0)], None), Idle)
    ensures Step(Ending(RuleCell(CODE, 1, 0, 1), open, None, Unwinding([DropContext(0)], None), Idle), 0, DropNext) ==
            Ending(RuleCell(CODE, 1, 0, 1), closed, None, Unwinding([DropRule(0)], None), Idle)
  {
    hide StepOperation, Compare, StepPost, FinishPreCreate, Publish, Free;
    assert [DropRule(0)] + [DropContext(0)][1..] == [DropRule(0)];
  }

  lemma FreeingSteps(closed: FileContext)
    ensures var s := Ending(RuleCell(CODE, 0, 0, 1), closed, None, Unwinding([], None), Idle).(threads :=
                       [Thread(Unwinding([], None), Some(0)), Thread(Idle, None)]);
            && Step(Ending(RuleCell(CODE, 1, 0, 1), closed, None, Unwinding([DropRule(0)], None), Idle), 0,
                    DropNext) == s
            && Step(s, 0, FreeDoomed) == Ending(RuleCell(CODE, 0, 1, 1), closed, None, Unwinding([], None), Idle)
    ensures Step(Ending(RuleCell(CODE, 0, 1, 1), closed, None, Unwinding([], None), Idle), 0, DropNext) ==
            Ending(RuleCell(CODE, 0, 1, 1), closed, None, Idle, Idle)
  {
    hide StepOperation, StepIdle, Compare, StepPost, FinishPreCreate, Publish;
    assert [DropRule(0)][1..] == [];
  }

  /** A rule is added, an open puts a file under it, a write is refused, the rule is removed
      while the file is still open, and the file is closed: the run ends at rest with the
      rule and its entry freed once. */
  lemma RuleLives()
    ensures var s := Reached(1, Begin() + Pre(0) + Publication() + WriteSteps() + EndSteps());
            Quiescent(s) && s.rules == [RuleCell(CODE, 0, 1, 1)] && s.outcomes == REFUSED
  {
    hide RuleLifetime.Run, Step, Begin, Pre, Publication, WriteSteps, EndSteps, Quiescent, Post;
    BeginRuns();
    PreRuns(0, 1, Idle);
    PublicationRuns();
    WriteRuns();
    EndRuns();
    RunConcat(Initial(1), Begin(), Pre(0));
    RunConcat(Initial(1), Begin() + Pre(0), Publication());
    RunConcat(Initial(1), Begin() + Pre(0) + Publication(), WriteSteps());
    RunConcat(Initial(1), Begin() + Pre(0) + Publication() + WriteSteps(), EndSteps());
  }

  // ---- The window of a lookup ----

  function RemovalInLookup(): seq<(nat, Action)> {
    [(0, LookUp(0, r => true)), (1, Unlink(0)), (1, DropNext), (1, FreeDoomed), (1, DropNext), (0, Reference)]
  }

  /** Thread 0 has found the rule, thread 1 removes it. */
  function Removing(cell: RuleCell, x: Thread): State {
    State([cell], [], [], [None], [Thread(LookedUp(0, 0), None), x], [], false)
  }

  /** A rule is looked up, removed and freed, and its entry as well, before the lookup takes
      its reference. */
  lemma LookupCanMeetFreedRule()
    ensures var s := Reached(1, Begin() + RemovalInLookup());
            s.halted && s.rules == [RuleCell(CODE, 0, 1, 1)]
  {
    var s1 := World(1, [0], [], None, LookedUp(0, 0), Idle, []);
    var s2 := Removing(RuleCell(CODE, 1, 0, 0), Thread(Unwinding([DropRule(0), FreeEntry(0)], None), None));
    var s3 := Removing(RuleCell(CODE, 0, 0, 0), Thread(Unwinding([FreeEntry(0)], None), Some(0)));
    var s4 := Removing(RuleCell(CODE, 0, 1, 0), Thread(Unwinding([FreeEntry(0)], None), None));
    var s5 := Removing(RuleCell(CODE, 0, 1, 1), Thread(Unwinding([], None), None));
    LookupThenUnlink();
    RemovalFrees();
    BeginRuns();
    hide RuleLifetime.Run, Step, Begin, World, Removing;
    TraceRuns(RemovalInLookup(), [READY, s1, s2, s3, s4, s5, s5.(halted := true)]);
    RunConcat(Initial(1), Begin(), RemovalInLookup());
    RemovedCounts();
  }

  lemma RemovedCounts()
    ensures var s := Removing(RuleCell(CODE, 0, 1, 1), Thread(Unwinding([], None), None));
            s.rules == [RuleCell(CODE, 0, 1, 1)]
  {
  }

  lemma LookupThenUnlink()
    ensures Step(READY, 0, RemovalInLookup()[0].1) == World(1, [0], [], None, LookedUp(0, 0), Idle, [])
    ensures Step(World(1, [0], [], None, LookedUp(0, 0), Idle, []), 1, Unlink(0)) ==
            Removing(RuleCell(CODE, 1, 0, 0), Thread(Unwinding([DropRule(0), FreeEntry(0)], None), None))
  {
    hide StepOperation, Compare, StepPost, FinishPreCreate, Publish, Free, Unwind;
  }

  lemma RemovalFrees()
    ensures var s3 := Removing(RuleCell(CODE, 0, 0, 0), Thread(Unwinding([FreeEntry(0)], None), Some(0)));
            var s4 := Removing(RuleCell(CODE, 0, 1, 0), Thread(Unwinding([FreeEntry(0)], None), None));
            var s5 := Removing(RuleCell(CODE, 0, 1, 1), Thread(Unwinding([], None), None));
            && Step(Removing(RuleCell(CODE, 1, 0, 0), Thread(Unwinding([DropRule(0), FreeEntry(0)], None), None)), 1,
                    DropNext) == s3
            && Step(s3, 1, FreeDoomed) == s4
            && Step(s4, 1, DropNext) == s5
            && Step(s5, 0, Reference) == s5.(halted := true)
  {
    hide StepOperation, Compare, StepPost, FinishPreCreate, Publish, StepIdle;
    assert [DropRule(0), FreeEntry(0)][1..] == [FreeEntry(0)] && [FreeEntry(0)][1..] == [];
  }

  // ---- The window of a publication: two opens of one file ----

  lemma TwoOpensRun(end: seq<(nat, Action)>)
    ensures Reached(1, Begin() + Pre(0) + Pre(1) + end) ==
            RuleLifetime.Run(World(3, [0], [], None, PostCreating(0, 0), PostCreating(0, 0), []), end)
  {
    BeginRuns();
    PreRuns(0, 1, Idle);
    PreRuns(1, 2, PostCreating(0, 0));
    assert At(0, 2, PostCreating(0, 0), Idle) == At(1, 2, Idle, PostCreating(0, 0));
    hide RuleLifetime.Run, Step, Begin, Pre;
    RunConcat(Initial(1), Begin(), Pre(0));
    RunConcat(Initial(1), Begin() + Pre(0), Pre(1));
    RunConcat(Initial(1), Begin() + Pre(0) + Pre(1), end);
  }

  function LostRaceSteps(): seq<(nat, Action)> {
    [(1, AllocateContext), (0, AllocateContext), (0, SetContext(true)), (1, SetContext(true)), (1, CompareRules(false))]
  }

  /** Two contexts made, the first by thread 1, the second, attached, by thread 0. */
  function Racing(holders: int, pc: Pc): State {
    World(3, [0], [FileContext(false, None, 1, 1), FileContext(false, None, holders, 0)], Some(1), Published(0, 0, 1),
          pc, [])
  }

  /** The second open loses the race before the first has stored its rule, and reads none. */
  lemma LostRaceCanReadNoRule()
    ensures Reached(1, Begin() + Pre(0) + Pre(1) + LostRaceSteps()).halted
  {
    var s0 := World(3, [0], [], None, PostCreating(0, 0), PostCreating(0, 0), []);
    var s1 := World(3, [0], [FileContext(false, None, 1, 1)], None, PostCreating(0, 0), Allocated(0, 0, 0), []);
    var s2 := World(3, [0], [FileContext(false, None, 1, 1), FileContext(false, None, 1, 0)], None,
                    Allocated(0, 0, 1), Allocated(0, 0, 0), []);
    var s4 := Racing(3, LostRace(0, 0, 0, 1));
    RaceBegins();
    RaceEnds();
    hide RuleLifetime.Run, Step, Begin, Pre, World, Racing;
    TraceRuns(LostRaceSteps(), [s0, s1, s2, Racing(2, Allocated(0, 0, 0)), s4, s4.(halted := true)]);
    TwoOpensRun(LostRaceSteps());
  }

  lemma RaceBegins()
    ensures var s0 := World(3, [0], [], None, PostCreating(0, 0), PostCreating(0, 0), []);
            var s1 := World(3, [0], [FileContext(false, None, 1, 1)], None, PostCreating(0, 0), Allocated(0, 0, 0), []);
            && Step(s0, 1, AllocateContext) == s1
            && Step(s1, 0, AllocateContext) ==
               World(3, [0], [FileContext(false, None, 1, 1), FileContext(false, None, 1, 0)], None,
                     Allocated(0, 0, 1), Allocated(0, 0, 0), [])
  {
    hide StepOperation, StepIdle, FinishPreCreate, Free, Unwind, Compare, Publish;
  }

  lemma RaceEnds()
    ensures var s2 := World(3, [0], [FileContext(false, None, 1, 1), FileContext(false, None, 1, 0)], None,
                            Allocated(0, 0, 1), Allocated(0, 0, 0), []);
            var s4 := Racing(3, LostRace(0, 0, 0, 1));
            && Step(s2, 0, SetContext(true)) == Racing(2, Allocated(0, 0, 0))
            && Step(Racing(2, Allocated(0, 0, 0)), 1, SetContext(true)) == s4
            && Step(s4, 1, CompareRules(false)) == s4.(halted := true)
  {
    hide StepOperation, StepIdle, FinishPreCreate, Free, Unwind, StepPost;
  }

  function PassedWrite(): seq<(nat, Action)> {
    [(0, AllocateContext), (0, SetContext(true)), (1, FindContext), (1, DropNext), (1, DropNext), (1, DropNext),
     (1, FetchContext(0, Write)), (1, TestRule)]
  }

  /** Thread 0 is publishing the context, thread 1 meets it. */
  function Meeting(refs: int, holders: int, pc: Pc, outcomes: seq<Outcome>): State {
    World(refs, [0], [FileContext(false, None, holders, 0)], Some(0), Published(0, 0, 0), pc, outcomes)
  }

  const PASSED: seq<Outcome> := [Opened(0, Through(0)), Operated(0, Write, Decision(NoCallback, Untouched))]

  /** The second open finds the context of the first while that is still publishing it, goes
      through, and its first write is passed down. */
  lemma WriteCanPassInWindow()
    ensures Reached(1, Begin() + Pre(0) + Pre(1) + PassedWrite()).outcomes == PASSED
  {
    var s0 := World(3, [0], [], None, PostCreating(0, 0), PostCreating(0, 0), []);
    var s1 := World(3, [0], [FileContext(false, None, 1, 0)], None, Allocated(0, 0, 0), PostCreating(0, 0), []);
    MeetingBegins();
    MeetingDrops();
    MeetingPasses();
    hide RuleLifetime.Run, Step, Begin, Pre, World;
    TraceRuns(PassedWrite(), [s0, s1, Meeting(3, 2, PostCreating(0, 0), []),
                              Meeting(3, 3, Unwinding([DropContext(0), DropRule(0)], None), THROUGH),
                              Meeting(3, 2, Unwinding([DropRule(0)], None), THROUGH),
                              Meeting(2, 2, Unwinding([], None), THROUGH), Meeting(2, 2, Idle, THROUGH),
                              Meeting(2, 3, Holding(0, Write), THROUGH),
                              Meeting(2, 3, Unwinding([DropContext(0)], None), PASSED)]);
    TwoOpensRun(PassedWrite());
    MeetingOutcomes();
  }

  lemma MeetingOutcomes()
    ensures Meeting(2, 3, Unwinding([DropContext(0)], None), PASSED).outcomes == PASSED
  {
  }

  lemma MeetingBegins()
    ensures var s0 := World(3, [0], [], None, PostCreating(0, 0), PostCreating(0, 0), []);
            var s1 := World(3, [0], [FileContext(false, None, 1, 0)], None, Allocated(0, 0, 0), PostCreating(0, 0), []);
            && Step(s0, 0, AllocateContext) == s1
            && Step(s1, 0, SetContext(true)) == Meeting(3, 2, PostCreating(0, 0), [])
    ensures Step(Meeting(3, 2, PostCreating(0, 0), []), 1, FindContext) ==
            Meeting(3, 3, Unwinding([DropContext(0), DropRule(0)], None), THROUGH)
  {
    hide StepOperation, StepIdle, FinishPreCreate, Free, Unwind, Compare;
  }

  lemma MeetingDrops()
    ensures Step(Meeting(3, 3, Unwinding([DropContext(0), DropRule(0)], None), THROUGH), 1, DropNext) ==
            Meeting(3, 2, Unwinding([DropRule(0)], None), THROUGH)
    ensures Step(Meeting(3, 2, Unwinding([DropRule(0)], None), THROUGH), 1, DropNext) ==
            Meeting(2, 2, Unwinding([], None), THROUGH)
    ensures Step(Meeting(2, 2, Unwinding([], None), THROUGH), 1, DropNext) == Meeting(2, 2, Idle, THROUGH)
  {
    hide StepOperation, StepIdle, StepPost, FinishPreCreate, Free, Compare, Publish;
    assert [] + [DropContext(0), DropRule(0)][1..] == [DropRule(0)] && [DropRule(0)][1..] == [];
  }

  lemma MeetingPasses()
    ensures Step(Meeting(2, 2, Idle, THROUGH), 1, FetchContext(0, Write)) == Meeting(2, 3, Holding(0, Write), THROUGH)
    ensures Step(Meeting(2, 3, Holding(0, Write), THROUGH), 1, TestRule) ==
            Meeting(2, 3, Unwinding([DropContext(0)], None), PASSED)
  {
    hide StepPost, FinishPreCreate, Free, Unwind, Compare, Publish;
  }
}
