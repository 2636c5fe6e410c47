/** What one thread does when no other gets in between, from any state that any interleaving can
    reach: opens, operations, renames, removals and teardowns run to their end, leave what they
    are for, and put everything else back as it was. (FileGuardCore/Operations.c,
    FileGuardCore/Rule.c, FileGuardCore/Context.c) */
module RuleUndisturbed {
  import opened FileGuard
  import opened Sequences
  import opened RuleHistory
  import opened Callbacks
  import opened RuleLifetime
  import opened RuleOwnership
  import RuleSchedules

  /** The state `s` with thread `t` at `pc`. */
  function With(s: State, t: nat, pc: Pc): State
    requires t < |s.threads|
  {
    s.(threads := s.threads[t := Thread(pc, None)])
  }

  function Refs(s: State, r: nat, n: int): State
    requires r < |s.rules|
  {
    s.(rules := s.rules[r := s.rules[r].(refs := n)])
  }

  function Held(s: State, c: nat, n: int): State
    requires c < |s.contexts|
  {
    s.(contexts := s.contexts[c := s.contexts[c].(holders := n)])
  }

  /** A thread at rest may start something. */
  predicate Rests(s: State, t: nat) {
    !s.halted && t < |s.threads| && s.threads[t] == Thread(Idle, None)
  }

  lemma RestsIdle(s: State, t: nat)
    requires Rests(s, t)
    ensures With(s, t, Idle) == s
  {
    assert s.threads[t := Thread(Idle, None)] == s.threads;
  }

  /** What a thread finds in a reachable state. */
  lemma FileHasHeldContext(s: State, f: nat)
    requires Inv(s) && f < |s.files| && s.files[f].Some?
    ensures var c := s.files[f].value;
            && c < |s.contexts| && s.contexts[c].holders > 0
            && (s.contexts[c].rule.Some? ==>
                  s.contexts[c].rule.value < |s.rules| && s.rules[s.contexts[c].rule.value].refs > 0)
  {
    hide Sum;
    var c := s.files[f].value;
    assert ContextOk(s, c);
    SumAtLeast(s.files, f, Attached(c));
    if s.contexts[c].rule.Some? {
      assert RuleCounted(s, s.contexts[c].rule.value);
      SumAtLeast(s.contexts, c, Carries(s.contexts[c].rule.value));
    }
  }

  lemma ListedIsThere(s: State, r: nat)
    requires Inv(s) && r in s.list
    ensures r < |s.rules| && s.rules[r].refs > 0 && s.rules[r].entryFrees == 0 && s.rules[r].frees == 0
    ensures ValidRuleCode(s.rules[r].code)
  {
    hide Sum;
    assert RuleCounted(s, r);
  }

  // ---- Letting go ----

  lemma DropsRule(s: State, t: nat, r: nat, rest: seq<Drop>, post: Option<(nat, nat)>, n: int)
    requires !s.halted && t < |s.threads| && r < |s.rules| && n > 1
    ensures Step(With(Refs(s, r, n), t, Unwinding([DropRule(r)] + rest, post)), t, DropNext) ==
            With(Refs(s, r, n - 1), t, Unwinding(rest, post))
  {
    hide StepOperation, StepIdle, Compare, StepPost, FinishPreCreate, Publish, TakeReference, ReadEntry;
    assert ([DropRule(r)] + rest)[1..] == rest;
  }

  lemma DropsHeld(s: State, t: nat, c: nat, rest: seq<Drop>, n: int)
    requires !s.halted && t < |s.threads| && c < |s.contexts| && n > 1
    ensures Step(With(Held(s, c, n), t, Unwinding([DropContext(c)] + rest, None)), t, DropNext) ==
            With(Held(s, c, n - 1), t, Unwinding(rest, None))
  {
    hide StepOperation, StepIdle, Compare, StepPost, FinishPreCreate, Publish, TakeReference, ReadEntry;
    assert ([DropContext(c)] + rest)[1..] == rest && [] + rest == rest;
  }

  lemma Returns(s: State, t: nat)
    requires !s.halted && t < |s.threads|
    ensures Step(With(s, t, Unwinding([], None)), t, DropNext) == With(s, t, Idle)
  {
    hide StepOperation, StepIdle, Compare, StepPost, FinishPreCreate, Publish, TakeReference, ReadEntry;
  }

  lemma SameAgain(s: State, t: nat, c: nat, r: nat)
    ensures r < |s.rules| ==> Refs(s, r, s.rules[r].refs) == s
    ensures c < |s.contexts| ==> Held(s, c, s.contexts[c].holders) == s
  {
    if r < |s.rules| { assert s.rules[r := s.rules[r].(refs := s.rules[r].refs)] == s.rules; }
    if c < |s.contexts| { assert s.contexts[c := s.contexts[c].(holders := s.contexts[c].holders)] == s.contexts; }
  }

  // ---- An operation ----

  function Operate(t: nat, f: nat, op: Operation, x: OperationInputs): seq<(nat, Action)> {
    [(t, FetchContext(f, op)), (t, TestRule), (t, Decide(x)), (t, DropNext), (t, DropNext)]
  }

  lemma OperationSteps(s: State, t: nat, f: nat, c: nat, op: Operation, r: nat, x: OperationInputs)
    requires Rests(s, t) && f < |s.files| && s.files[f] == Some(c) && c < |s.contexts|
    requires s.contexts[c].rule == Some(r) && r < |s.rules| && x.matched == None
    ensures var n := s.contexts[c].holders + 1;
            var o := Operated(c, op, OperationDecision(op, FoundContext(Some(s.rules[r].code)), x));
            && Step(s, t, FetchContext(f, op)) == With(Held(s, c, n), t, Holding(c, op))
            && Step(With(Held(s, c, n), t, Holding(c, op)), t, TestRule) == With(Held(s, c, n), t, Deciding(c, op, r))
            && Step(With(Held(s, c, n), t, Deciding(c, op, r)), t, Decide(x)) ==
               With(Held(Note(s, o), c, n), t, Unwinding([DropContext(c)], None))
  {
    hide Unwind, Compare, StepPost, FinishPreCreate, Publish, OperationDecision, TakeReference, ReadEntry;
  }

  /** An operation on a file whose context carries a rule is decided under that rule, and leaves
      nothing behind but the decision. */
  lemma OperationUndisturbed(fileCount: nat, steps: seq<(nat, Action)>, t: nat, f: nat, op: Operation,
                             x: OperationInputs)
    requires var s := Reached(fileCount, steps);
             && Rests(s, t) && f < |s.files| && s.files[f].Some? && s.files[f].value < |s.contexts|
             && s.contexts[s.files[f].value].rule.Some? && x.matched == None
    ensures var s := Reached(fileCount, steps);
            var c := s.files[f].value;
            var r := s.contexts[c].rule.value;
            && r < |s.rules|
            && RuleLifetime.Run(s, Operate(t, f, op, x)) ==
               Note(s, Operated(c, op, OperationDecision(op, FoundContext(Some(s.rules[r].code)), x)))
  {
    hide Step, Inv, OperationDecision;
    var s := Reached(fileCount, steps);
    ReachedInv(fileCount, steps);
    FileHasHeldContext(s, f);
    var c := s.files[f].value;
    var r, n := s.contexts[c].rule.value, s.contexts[c].holders + 1;
    var done := Note(s, Operated(c, op, OperationDecision(op, FoundContext(Some(s.rules[r].code)), x)));
    OperationSteps(s, t, f, c, op, r, x);
    DropsHeld(done, t, c, [], n);
    assert [DropContext(c)] + [] == [DropContext(c)];
    SameAgain(done, t, c, r);
    Returns(done, t);
    RestsIdle(done, t);
    hide RuleLifetime.Run, With, Held;
    RuleSchedules.TraceRuns(Operate(t, f, op, x),
      [s, With(Held(s, c, n), t, Holding(c, op)), With(Held(s, c, n), t, Deciding(c, op, r)),
       With(Held(done, c, n), t, Unwinding([DropContext(c)], None)), With(done, t, Unwinding([], None)), done]);
  }

  // ---- A rename onto a name that matches a rule ----

  function MoveOnto(t: nat, f: nat, matches: nat -> bool, x: OperationInputs): seq<(nat, Action)> {
    [(t, FetchContext(f, Rename)), (t, TestRule), (t, MatchTarget(matches)), (t, Reference), (t, ReadAgain),
     (t, Decide(x)), (t, DropNext), (t, DropNext), (t, DropNext)]
  }

  /** The rename of a held context `h`, from the lookup of the destination on. */
  lemma TargetSteps(h: State, t: nat, c: nat, r: nat, target: nat, matches: nat -> bool)
    requires !h.halted && t < |h.threads| && target < |h.rules| && r < |h.rules|
    requires FirstMatching(h.list, matches) == Some(target) && h.rules[target].refs > 0 &&
             h.rules[target].entryFrees == 0
    ensures var n := h.rules[target].refs + 1;
            && Step(With(h, t, Deciding(c, Rename, r)), t, MatchTarget(matches)) ==
               With(h, t, TargetFound(c, Rename, r, target))
            && Step(With(h, t, TargetFound(c, Rename, r, target)), t, Reference) ==
               With(Refs(h, target, n), t, TargetReread(c, Rename, r, target))
            && Step(With(Refs(h, target, n), t, TargetReread(c, Rename, r, target)), t, ReadAgain) ==
               With(Refs(h, target, n), t, Renaming(c, Rename, r, target))
  {
    hide Unwind, Compare, StepPost, FinishPreCreate, Publish, OperationDecision, StepIdle;
  }

  lemma RenamingStep(h: State, t: nat, c: nat, r: nat, target: nat, x: OperationInputs, n: int)
    requires !h.halted && t < |h.threads| && target < |h.rules| && r < |h.rules|
    ensures var y := x.(matched := Some(h.rules[target].code));
            var o := Operated(c, Rename, OperationDecision(Rename, FoundContext(Some(h.rules[r].code)), y));
            Step(With(Refs(h, target, n), t, Renaming(c, Rename, r, target)), t, Decide(x)) ==
            With(Refs(Note(h, o), target, n), t, Unwinding([DropRule(target), DropContext(c)], None))
  {
    hide Unwind, Compare, StepPost, FinishPreCreate, Publish, OperationDecision, StepIdle, TakeReference, ReadEntry;
  }

  /** The reference to the destination's rule is given back, and then the context. */
  lemma RenameLetsGo(done: State, t: nat, c: nat, target: nat)
    requires Rests(done, t) && c < |done.contexts| && target < |done.rules|
    requires done.contexts[c].holders > 0 && done.rules[target].refs > 0
    ensures var h := Held(done, c, done.contexts[c].holders + 1);
            && Step(With(Refs(h, target, done.rules[target].refs + 1), t,
                         Unwinding([DropRule(target), DropContext(c)], None)), t, DropNext) ==
               With(h, t, Unwinding([DropContext(c)], None))
            && Step(With(h, t, Unwinding([DropContext(c)], None)), t, DropNext) == With(done, t, Unwinding([], None))
            && Step(With(done, t, Unwinding([], None)), t, DropNext) == done
  {
    hide Step, With;
    var h := Held(done, c, done.contexts[c].holders + 1);
    assert [DropRule(target)] + [DropContext(c)] == [DropRule(target), DropContext(c)];
    assert [DropContext(c)] + [] == [DropContext(c)];
    DropsRule(h, t, target, [DropContext(c)], None, done.rules[target].refs + 1);
    SameAgain(h, t, c, target);
    DropsHeld(done, t, c, [], done.contexts[c].holders + 1);
    SameAgain(done, t, c, target);
    Returns(done, t);
    RestsIdle(done, t);
  }

  /** A rename onto a name that matches a listed rule is decided under both rules, and leaves
      nothing behind but the decision. */
  lemma RenameUndisturbed(fileCount: nat, steps: seq<(nat, Action)>, t: nat, f: nat, matches: nat -> bool,
                          x: OperationInputs)
    requires var s := Reached(fileCount, steps);
             && Rests(s, t) && f < |s.files| && s.files[f].Some? && s.files[f].value < |s.contexts|
             && s.contexts[s.files[f].value].rule.Some? && FirstMatching(s.list, matches).Some?
    ensures var s := Reached(fileCount, steps);
            var c := s.files[f].value;
            var r, target := s.contexts[c].rule.value, FirstMatching(s.list, matches).value;
            && r < |s.rules| && target < |s.rules|
            && var y := x.(matched := Some(s.rules[target].code));
               RuleLifetime.Run(s, MoveOnto(t, f, matches, x)) ==
               Note(s, Operated(c, Rename, OperationDecision(Rename, FoundContext(Some(s.rules[r].code)), y)))
  {
    hide Step, Inv, OperationDecision, FirstMatching;
    var s := Reached(fileCount, steps);
    ReachedInv(fileCount, steps);
    FileHasHeldContext(s, f);
    var c := s.files[f].value;
    var r, target := s.contexts[c].rule.value, FirstMatching(s.list, matches).value;
    FoundIsListed(s, matches);
    var h := Held(s, c, s.contexts[c].holders + 1);
    var n := s.rules[target].refs + 1;
    var y := x.(matched := Some(s.rules[target].code));
    var done := Note(s, Operated(c, Rename, OperationDecision(Rename, FoundContext(Some(s.rules[r].code)), y)));
    var g := Held(done, c, s.contexts[c].holders + 1);
    OperationSteps(s, t, f, c, Rename, r, OperationInputs(Success, Success, None, Success));
    TargetSteps(h, t, c, r, target, matches);
    RenamingStep(h, t, c, r, target, x, n);
    RenameLetsGo(done, t, c, target);
    assert Note(h, Operated(c, Rename, OperationDecision(Rename, FoundContext(Some(h.rules[r].code)), y))) == g;
    hide RuleLifetime.Run, With, Held, Refs;
    RuleSchedules.TraceRuns(MoveOnto(t, f, matches, x),
      [s, With(h, t, Holding(c, Rename)), With(h, t, Deciding(c, Rename, r)),
       With(h, t, TargetFound(c, Rename, r, target)), With(Refs(h, target, n), t, TargetReread(c, Rename, r, target)),
       With(Refs(h, target, n), t, Renaming(c, Rename, r, target)),
       With(Refs(g, target, n), t, Unwinding([DropRule(target), DropContext(c)], None)),
       With(g, t, Unwinding([DropContext(c)], None)), With(done, t, Unwinding([], None)), done]);
  }

  lemma FoundIsListed(s: State, matches: nat -> bool)
    requires Inv(s) && FirstMatching(s.list, matches).Some?
    ensures var r := FirstMatching(s.list, matches).value;
            && r < |s.rules| && s.rules[r].refs > 0 && s.rules[r].entryFrees == 0 && s.rules[r].frees == 0
            && ValidRuleCode(s.rules[r].code)
  {
    ListedIsThere(s, FirstMatching(s.list, matches).value);
  }

  // ---- A create ----

  function Look(t: nat, f: nat, matches: nat -> bool, x: CreateInputs): seq<(nat, Action)> {
    [(t, LookUp(f, matches)), (t, Reference), (t, ReadAgain), (t, DecideCreate(x)), (t, DropNext), (t, DropNext),
     (t, StartPost)]
  }

  lemma LookSteps(s: State, t: nat, f: nat, r: nat, matches: nat -> bool, x: CreateInputs)
    requires Rests(s, t) && f < |s.files| && FirstMatching(s.list, matches) == Some(r) && r < |s.rules|
    requires s.rules[r].refs > 0 && s.rules[r].entryFrees == 0
    requires CreateDecision(Some(s.rules[r].code), x).result == WithCallback
    ensures var n := s.rules[r].refs + 1;
            && Step(s, t, LookUp(f, matches)) == With(s, t, LookedUp(f, r))
            && Step(With(s, t, LookedUp(f, r)), t, Reference) == With(Refs(s, r, n), t, Rereading(f, r))
            && Step(With(Refs(s, r, n), t, Rereading(f, r)), t, ReadAgain) == With(Refs(s, r, n), t, PreCreating(f, r))
            && Step(With(Refs(s, r, n), t, PreCreating(f, r)), t, DecideCreate(x)) ==
               With(Refs(s, r, n + 1), t, Unwinding([DropRule(r)], Some((f, r))))
  {
    hide Unwind, Compare, StepPost, StepOperation, Publish, CreateDecision;
  }

  lemma WaitSteps(s: State, t: nat, f: nat, r: nat)
    requires !s.halted && t < |s.threads|
    ensures Step(With(s, t, Unwinding([], Some((f, r)))), t, DropNext) == With(s, t, AwaitingPost(f, r))
    ensures Step(With(s, t, AwaitingPost(f, r)), t, StartPost) == With(s, t, PostCreating(f, r))
  {
    hide Compare, StepPost, StepOperation, Publish, FinishPreCreate, StepIdle;
  }

  /** Pre-create, up to the start of post-create: the completion context holds the rule. */
  lemma LookRuns(s: State, t: nat, f: nat, r: nat, matches: nat -> bool, x: CreateInputs)
    requires Rests(s, t) && f < |s.files| && FirstMatching(s.list, matches) == Some(r) && r < |s.rules|
    requires s.rules[r].refs > 0 && s.rules[r].entryFrees == 0
    requires CreateDecision(Some(s.rules[r].code), x).result == WithCallback
    ensures RuleLifetime.Run(s, Look(t, f, matches, x)) == With(Refs(s, r, s.rules[r].refs + 1), t, PostCreating(f, r))
  {
    hide Step, CreateDecision, FirstMatching;
    var n := s.rules[r].refs + 1;
    LookSteps(s, t, f, r, matches, x);
    assert [DropRule(r)] + [] == [DropRule(r)];
    DropsRule(s, t, r, [], Some((f, r)), n + 1);
    WaitSteps(Refs(s, r, n), t, f, r);
    hide RuleLifetime.Run, With, Refs;
    RuleSchedules.TraceRuns(Look(t, f, matches, x),
      [s, With(s, t, LookedUp(f, r)), With(Refs(s, r, n), t, Rereading(f, r)),
       With(Refs(s, r, n), t, PreCreating(f, r)),
       With(Refs(s, r, n + 1), t, Unwinding([DropRule(r)], Some((f, r)))),
       With(Refs(s, r, n), t, Unwinding([], Some((f, r)))), With(Refs(s, r, n), t, AwaitingPost(f, r)),
       With(Refs(s, r, n), t, PostCreating(f, r))]);
  }

  function Join(t: nat): seq<(nat, Action)> {
    [(t, FindContext), (t, DropNext), (t, DropNext), (t, DropNext)]
  }

  lemma JoinSteps(s: State, t: nat, f: nat, r: nat, c: nat, n: int)
    requires !s.halted && t < |s.threads| && f < |s.files| && s.files[f] == Some(c) && c < |s.contexts| && r < |s.rules|
    ensures Step(With(Refs(s, r, n), t, PostCreating(f, r)), t, FindContext) ==
            With(Refs(Held(Note(s, Opened(f, Through(c))), c, s.contexts[c].holders + 1), r, n), t,
                 Unwinding([DropContext(c), DropRule(r)], None))
  {
    hide Unwind, Compare, StepOperation, Publish, FinishPreCreate, StepIdle;
  }

  /** An open of a file that has a context goes through with it and leaves nothing else behind. */
  lemma JoinUndisturbed(fileCount: nat, steps: seq<(nat, Action)>, t: nat, f: nat, matches: nat -> bool,
                        x: CreateInputs)
    requires var s := Reached(fileCount, steps);
             && Rests(s, t) && f < |s.files| && s.files[f].Some? && FirstMatching(s.list, matches).Some?
             && FirstMatching(s.list, matches).value < |s.rules|
             && CreateDecision(Some(s.rules[FirstMatching(s.list, matches).value].code), x).result == WithCallback
    ensures var s := Reached(fileCount, steps);
            RuleLifetime.Run(s, Look(t, f, matches, x) + Join(t)) == Note(s, Opened(f, Through(s.files[f].value)))
  {
    hide Step, Inv, CreateDecision, FirstMatching;
    var s := Reached(fileCount, steps);
    ReachedInv(fileCount, steps);
    FileHasHeldContext(s, f);
    FoundIsListed(s, matches);
    var r, c := FirstMatching(s.list, matches).value, s.files[f].value;
    var n := s.rules[r].refs + 1;
    LookRuns(s, t, f, r, matches, x);
    JoinSteps(s, t, f, r, c, n);
    JoinLetsGo(Note(s, Opened(f, Through(c))), t, c, r);
    RuleSchedules.RunConcat(s, Look(t, f, matches, x), Join(t));
    var done := Note(s, Opened(f, Through(c)));
    hide RuleLifetime.Run, With, Refs, Held;
    RuleSchedules.TraceRuns(Join(t),
      [With(Refs(s, r, n), t, PostCreating(f, r)),
       With(Refs(Held(done, c, s.contexts[c].holders + 1), r, n), t, Unwinding([DropContext(c), DropRule(r)], None)),
       With(Refs(done, r, n), t, Unwinding([DropRule(r)], None)), With(done, t, Unwinding([], None)), done]);
  }

  /** The context is given back, and then the reference to the rule. */
  lemma JoinLetsGo(done: State, t: nat, c: nat, r: nat)
    requires Rests(done, t) && c < |done.contexts| && r < |done.rules|
    requires done.contexts[c].holders > 0 && done.rules[r].refs > 0
    ensures var n := done.rules[r].refs + 1;
            && Step(With(Refs(Held(done, c, done.contexts[c].holders + 1), r, n), t,
                         Unwinding([DropContext(c), DropRule(r)], None)), t, DropNext) ==
               With(Refs(done, r, n), t, Unwinding([DropRule(r)], None))
            && Step(With(Refs(done, r, n), t, Unwinding([DropRule(r)], None)), t, DropNext) ==
               With(done, t, Unwinding([], None))
            && Step(With(done, t, Unwinding([], None)), t, DropNext) == done
  {
    hide Step, With;
    var n := done.rules[r].refs + 1;
    assert [DropContext(c)] + [DropRule(r)] == [DropContext(c), DropRule(r)];
    assert [DropRule(r)] + [] == [DropRule(r)];
    assert Refs(Held(done, c, done.contexts[c].holders + 1), r, n) ==
           Held(Refs(done, r, n), c, done.contexts[c].holders + 1);
    DropsHeld(Refs(done, r, n), t, c, [DropRule(r)], done.contexts[c].holders + 1);
    SameAgain(Refs(done, r, n), t, c, r);
    DropsRule(done, t, r, [], None, n);
    SameAgain(done, t, c, r);
    Returns(done, t);
    RestsIdle(done, t);
  }

  // ---- Publishing ----

  /** The context the thread has made for file `f`, attached to it or not, with `n` references to
      the rule. */
  function Making(s: State, f: nat, r: nat, n: int, x: FileContext, attached: bool): State
    requires f < |s.files| && r < |s.rules|
  {
    Refs(s, r, n).(contexts := s.contexts + [x],
                   files := if attached then s.files[f := Some(|s.contexts|)] else s.files)
  }

  function Publication(t: nat): seq<(nat, Action)> {
    [(t, AllocateContext), (t, SetContext(true)), (t, StoreName), (t, ReferenceAgain), (t, StoreRule),
     (t, DropNext), (t, DropNext), (t, DropNext)]
  }

  lemma AttachSteps(s: State, t: nat, f: nat, r: nat, n: int)
    requires !s.halted && t < |s.threads| && f < |s.files| && s.files[f] == None && r < |s.rules|
    ensures var c := |s.contexts|;
            && Step(With(Refs(s, r, n), t, PostCreating(f, r)), t, AllocateContext) ==
               With(Making(s, f, r, n, FileContext(false, None, 1, t), false), t, Allocated(f, r, c))
            && Step(With(Making(s, f, r, n, FileContext(false, None, 1, t), false), t, Allocated(f, r, c)),
                    t, SetContext(true)) ==
               With(Making(s, f, r, n, FileContext(false, None, 2, t), true), t, Published(f, r, c))
  {
    hide Unwind, Compare, StepOperation, FinishPreCreate, StepIdle;
  }

  lemma StoreSteps(s: State, t: nat, f: nat, r: nat, n: int)
    requires !s.halted && t < |s.threads| && f < |s.files| && r < |s.rules|
    ensures var c := |s.contexts|;
            && Step(With(Making(s, f, r, n, FileContext(false, None, 2, t), true), t, Published(f, r, c)),
                    t, StoreName) ==
               With(Making(s, f, r, n, FileContext(true, None, 2, t), true), t, Named(f, r, c))
            && Step(With(Making(s, f, r, n, FileContext(true, None, 2, t), true), t, Named(f, r, c)),
                    t, ReferenceAgain) ==
               With(Making(s, f, r, n + 1, FileContext(true, None, 2, t), true), t, Referenced(f, r, c))
            && Step(With(Making(s, f, r, n + 1, FileContext(true, None, 2, t), true), t, Referenced(f, r, c)),
                    t, StoreRule) ==
               With(Note(Making(s, f, r, n + 1, FileContext(true, Some(r), 2, t), true), Opened(f, Through(c))), t,
                    Unwinding([DropContext(c), DropRule(r)], None))
  {
    hide Unwind, Compare, StepOperation, FinishPreCreate, StepIdle, Publish, StepPost;
  }

  /** The first open of a file under a rule leaves the file with a named context that carries the
      rule, one more reference to the rule for it, and nothing else. */
  lemma OpenUndisturbed(fileCount: nat, steps: seq<(nat, Action)>, t: nat, f: nat, matches: nat -> bool,
                        x: CreateInputs)
    requires var s := Reached(fileCount, steps);
             && Rests(s, t) && f < |s.files| && s.files[f] == None && FirstMatching(s.list, matches).Some?
             && FirstMatching(s.list, matches).value < |s.rules|
             && CreateDecision(Some(s.rules[FirstMatching(s.list, matches).value].code), x).result == WithCallback
    ensures var s := Reached(fileCount, steps);
            var r, c := FirstMatching(s.list, matches).value, |s.contexts|;
            RuleLifetime.Run(s, Look(t, f, matches, x) + Publication(t)) ==
            s.(rules := s.rules[r := s.rules[r].(refs := s.rules[r].refs + 1)],
               contexts := s.contexts + [FileContext(true, Some(r), 1, t)],
               files := s.files[f := Some(c)],
               outcomes := s.outcomes + [Opened(f, Through(c))])
  {
    hide Step, Inv, CreateDecision, FirstMatching;
    var s := Reached(fileCount, steps);
    ReachedInv(fileCount, steps);
    FoundIsListed(s, matches);
    var r, c := FirstMatching(s.list, matches).value, |s.contexts|;
    var n := s.rules[r].refs + 1;
    LookRuns(s, t, f, r, matches, x);
    AttachSteps(s, t, f, r, n);
    StoreSteps(s, t, f, r, n);
    var o := Opened(f, Through(c));
    var done := Note(Making(s, f, r, n, FileContext(true, Some(r), 1, t), true), o);
    OpenLetsGo(s, t, f, r, n, o);
    RuleSchedules.RunConcat(s, Look(t, f, matches, x), Publication(t));
    hide RuleLifetime.Run, With, Refs, Making, Note;
    RuleSchedules.TraceRuns(Publication(t),
      [With(Refs(s, r, n), t, PostCreating(f, r)),
       With(Making(s, f, r, n, FileContext(false, None, 1, t), false), t, Allocated(f, r, c)),
       With(Making(s, f, r, n, FileContext(false, None, 2, t), true), t, Published(f, r, c)),
       With(Making(s, f, r, n, FileContext(true, None, 2, t), true), t, Named(f, r, c)),
       With(Making(s, f, r, n + 1, FileContext(true, None, 2, t), true), t, Referenced(f, r, c)),
       With(Note(Making(s, f, r, n + 1, FileContext(true, Some(r), 2, t), true), o), t,
            Unwinding([DropContext(c), DropRule(r)], None)),
       With(Note(Making(s, f, r, n + 1, FileContext(true, Some(r), 1, t), true), o), t,
            Unwinding([DropRule(r)], None)),
       With(done, t, Unwinding([], None)), done]);
  }

  lemma OpenLetsGo(s: State, t: nat, f: nat, r: nat, n: int, o: Outcome)
    requires Rests(s, t) && f < |s.files| && r < |s.rules| && n > 0
    ensures var c := |s.contexts|;
            var two := Note(Making(s, f, r, n + 1, FileContext(true, Some(r), 2, t), true), o);
            var one := Note(Making(s, f, r, n + 1, FileContext(true, Some(r), 1, t), true), o);
            var done := Note(Making(s, f, r, n, FileContext(true, Some(r), 1, t), true), o);
            && Step(With(two, t, Unwinding([DropContext(c), DropRule(r)], None)), t, DropNext) ==
               With(one, t, Unwinding([DropRule(r)], None))
            && Step(With(one, t, Unwinding([DropRule(r)], None)), t, DropNext) == With(done, t, Unwinding([], None))
            && Step(With(done, t, Unwinding([], None)), t, DropNext) == done
  {
    hide Step, With;
    var c := |s.contexts|;
    var two := Note(Making(s, f, r, n + 1, FileContext(true, Some(r), 2, t), true), o);
    var one := Note(Making(s, f, r, n + 1, FileContext(true, Some(r), 1, t), true), o);
    var done := Note(Making(s, f, r, n, FileContext(true, Some(r), 1, t), true), o);
    assert [DropContext(c)] + [DropRule(r)] == [DropContext(c), DropRule(r)];
    assert [DropRule(r)] + [] == [DropRule(r)];
    assert Held(one, c, 2) == two && Held(one, c, 1) == one;
    DropsHeld(one, t, c, [DropRule(r)], 2);
    assert Refs(done, r, n + 1) == one && Refs(done, r, n) == done;
    DropsRule(done, t, r, [], None, n + 1);
    Returns(done, t);
    RestsIdle(done, t);
  }

  // ---- Removing a rule, closing a file ----

  /** The list's reference is the last one exactly if the count is one. */
  function Discarding(t: nat, i: nat, last: bool): seq<(nat, Action)> {
    [(t, Unlink(i)), (t, DropNext)] + (if last then [(t, FreeDoomed)] else []) + [(t, DropNext), (t, DropNext)]
  }

  function Cell(s: State, r: nat, x: RuleCell): State
    requires r < |s.rules|
  {
    s.(rules := s.rules[r := x])
  }

  lemma UnlinkStep(s: State, t: nat, i: nat)
    requires Rests(s, t) && i < |s.list|
    ensures Step(s, t, Unlink(i)) ==
            With(s.(list := WithoutAt(s.list, i)), t, Unwinding([DropRule(s.list[i]), FreeEntry(s.list[i])], None))
  {
    hide Unwind, Compare, StepOperation, FinishPreCreate, Publish, StepPost;
  }

  lemma LastDrop(s: State, t: nat, r: nat, rest: seq<Drop>)
    requires !s.halted && t < |s.threads| && r < |s.rules| && s.rules[r].refs == 1
    ensures var x := s.rules[r].(refs := 0);
            var doomed := Cell(s, r, x).(threads := s.threads[t := Thread(Unwinding(rest, None), Some(r))]);
            && Step(With(s, t, Unwinding([DropRule(r)] + rest, None)), t, DropNext) == doomed
            && Step(doomed, t, FreeDoomed) ==
               With(Cell(s, r, x.(frees := x.frees + 1)), t, Unwinding(rest, None))
  {
    hide Compare, StepOperation, FinishPreCreate, Publish, StepPost, StepIdle;
    assert ([DropRule(r)] + rest)[1..] == rest;
  }

  lemma EntryFreed(s: State, t: nat, r: nat)
    requires !s.halted && t < |s.threads| && r < |s.rules|
    ensures Step(With(s, t, Unwinding([FreeEntry(r)], None)), t, DropNext) ==
            With(Cell(s, r, s.rules[r].(entryFrees := s.rules[r].entryFrees + 1)), t, Unwinding([], None))
  {
    hide Compare, StepOperation, FinishPreCreate, Publish, StepPost, StepIdle;
    assert [FreeEntry(r)][1..] == [];
  }

  /** A removal takes the rule off the list, frees the entry, gives up the list's reference, and
      frees the rule exactly if that was the last. */
  lemma RemovalUndisturbed(fileCount: nat, steps: seq<(nat, Action)>, t: nat, i: nat)
    requires var s := Reached(fileCount, steps); Rests(s, t) && i < |s.list|
    ensures var s := Reached(fileCount, steps);
            var r := s.list[i];
            && r < |s.rules|
            && var x := s.rules[r];
               RuleLifetime.Run(s, Discarding(t, i, x.refs == 1)) ==
               s.(list := WithoutAt(s.list, i),
                  rules := s.rules[r := RuleCell(x.code, x.refs - 1, if x.refs == 1 then 1 else 0, 1)])
  {
    hide Step, Inv;
    var s := Reached(fileCount, steps);
    ReachedInv(fileCount, steps);
    var r := s.list[i];
    ListedIsThere(s, r);
    var x := s.rules[r];
    var u := s.(list := WithoutAt(s.list, i));
    var dropped := Cell(u, r, RuleCell(x.code, x.refs - 1, if x.refs == 1 then 1 else 0, 0));
    var done := Cell(u, r, RuleCell(x.code, x.refs - 1, if x.refs == 1 then 1 else 0, 1));
    UnlinkStep(s, t, i);
    assert [DropRule(r)] + [FreeEntry(r)] == [DropRule(r), FreeEntry(r)];
    EntryFreed(dropped, t, r);
    assert Cell(dropped, r, dropped.rules[r].(entryFrees := 1)) == done;
    Returns(done, t);
    RestsIdle(done, t);
    var first, freeing := With(u, t, Unwinding([DropRule(r), FreeEntry(r)], None)),
                          With(dropped, t, Unwinding([FreeEntry(r)], None));
    if x.refs == 1 {
      LastDrop(u, t, r, [FreeEntry(r)]);
      var doomed := Cell(u, r, x.(refs := 0)).(
        threads := s.threads[t := Thread(Unwinding([FreeEntry(r)], None), Some(r))]);
      hide RuleLifetime.Run, With, Cell;
      RuleSchedules.TraceRuns(Discarding(t, i, true),
                              [s, first, doomed, freeing, With(done, t, Unwinding([], None)), done]);
    } else {
      DropsRule(u, t, r, [FreeEntry(r)], None, x.refs);
      SameAgain(u, t, 0, r);
      assert Refs(u, r, x.refs - 1) == dropped;
      hide RuleLifetime.Run, With, Cell;
      RuleSchedules.TraceRuns(Discarding(t, i, false), [s, first, freeing, With(done, t, Unwinding([], None)), done]);
    }
  }

  /** The last holder of a context also drops the context's rule. */
  function Closing(t: nat, f: nat, last: bool): seq<(nat, Action)> {
    [(t, Detach(f)), (t, DropNext), (t, DropNext)] + (if last then [(t, FreeDoomed)] else []) + [(t, DropNext)]
  }

  lemma CloseSteps(s: State, t: nat, f: nat, c: nat, r: nat)
    requires Rests(s, t) && f < |s.files| && s.files[f] == Some(c) && c < |s.contexts|
    requires s.contexts[c].holders == 1 && s.contexts[c].rule == Some(r)
    ensures var u := s.(files := s.files[f := None]);
            var x := s.contexts[c].(holders := 0, named := false);
            && Step(s, t, Detach(f)) == With(u, t, Unwinding([DropContext(c)], None))
            && Step(With(u, t, Unwinding([DropContext(c)], None)), t, DropNext) ==
               With(u.(contexts := s.contexts[c := x]), t, Unwinding([DropRule(r)], None))
  {
    hide Compare, StepOperation, FinishPreCreate, Publish, StepPost;
    assert [DropContext(c)][1..] == [] && [DropRule(r)] + [] == [DropRule(r)];
  }

  /** Tearing down a file whose context nobody else holds ends the context, gives up its
      reference, and frees the rule exactly if that was the last. */
  lemma CloseUndisturbed(fileCount: nat, steps: seq<(nat, Action)>, t: nat, f: nat)
    requires var s := Reached(fileCount, steps);
             && Rests(s, t) && f < |s.files| && s.files[f].Some? && s.files[f].value < |s.contexts|
             && s.contexts[s.files[f].value].rule.Some? && s.contexts[s.files[f].value].holders == 1
    ensures var s := Reached(fileCount, steps);
            var c := s.files[f].value;
            var r := s.contexts[c].rule.value;
            && r < |s.rules|
            && var x := s.rules[r];
               RuleLifetime.Run(s, Closing(t, f, x.refs == 1)) ==
               s.(files := s.files[f := None],
                  contexts := s.contexts[c := s.contexts[c].(holders := 0, named := false)],
                  rules := s.rules[r := x.(refs := x.refs - 1, frees := x.frees + if x.refs == 1 then 1 else 0)])
  {
    hide Step, Inv;
    var s := Reached(fileCount, steps);
    ReachedInv(fileCount, steps);
    FileHasHeldContext(s, f);
    var c := s.files[f].value;
    var r := s.contexts[c].rule.value;
    var x := s.rules[r];
    CloseSteps(s, t, f, c, r);
    var u := s.(files := s.files[f := None]);
    var v := u.(contexts := s.contexts[c := s.contexts[c].(holders := 0, named := false)]);
    var done := Cell(v, r, x.(refs := x.refs - 1, frees := x.frees + if x.refs == 1 then 1 else 0));
    assert [DropRule(r)] + [] == [DropRule(r)];
    Returns(done, t);
    RestsIdle(done, t);
    var first, second := With(u, t, Unwinding([DropContext(c)], None)), With(v, t, Unwinding([DropRule(r)], None));
    if x.refs == 1 {
      LastDrop(v, t, r, []);
      var doomed := Cell(v, r, x.(refs := 0)).(threads := s.threads[t := Thread(Unwinding([], None), Some(r))]);
      hide RuleLifetime.Run, With, Cell;
      RuleSchedules.TraceRuns(Closing(t, f, true),
                              [s, first, second, doomed, With(done, t, Unwinding([], None)), done]);
    } else {
      DropsRule(v, t, r, [], None, x.refs);
      SameAgain(v, t, 0, r);
      assert Refs(v, r, x.refs - 1) == done;
      hide RuleLifetime.Run, With, Cell;
      RuleSchedules.TraceRuns(Closing(t, f, false), [s, first, second, With(done, t, Unwinding([], None)), done]);
    }
  }
}
