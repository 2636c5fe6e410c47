/** What holds in every state that any interleaving of rule list requests, creates, file
    operations and context teardowns can reach. (FileGuardCore/Rule.c,
    FileGuardCore/Operations.c, FileGuardCore/Context.c) */
module RuleOwnership {
  import opened FileGuard
  import opened Sequences
  import opened RuleHistory
  import opened Callbacks
  import opened RuleLifetime

  /** The state after any steps from a system with some files and no rules. */
  function Reached(fileCount: nat, steps: seq<(nat, Action)>): State {
    RuleLifetime.Run(Initial(fileCount), steps)
  }

  lemma ReachedInv(fileCount: nat, steps: seq<(nat, Action)>)
    ensures Inv(Reached(fileCount, steps))
  {
    InitialInv(fileCount);
    RunKeeps(Initial(fileCount), steps);
  }

  /** The reference count of a rule is exact at every moment: one for the list, one for each
      live file context that carries it, and one for each reference a callback or a
      completion context holds. Its memory is handed back at most once: when the count has
      reached zero, by the one thread that took it there. Its list entry is handed back at
      most once, by the thread that unlinked it. */
  lemma ReferencesAreExact(fileCount: nat, steps: seq<(nat, Action)>, r: nat)
    requires r < |Reached(fileCount, steps).rules|
    ensures var s := Reached(fileCount, steps);
            && s.rules[r].refs == One(r in s.list) + Sum(s.contexts, Carries(r)) + Sum(s.threads, ThreadHolds(r))
            && s.rules[r].frees + Sum(s.threads, ThreadDooms(r)) == One(s.rules[r].refs == 0)
            && s.rules[r].entryFrees + Sum(s.threads, ThreadFrees(r)) + One(r in s.list) == 1
  {
    ReachedInv(fileCount, steps);
    assert RuleCounted(Reached(fileCount, steps), r);
  }

  /** Thread `t` may rely on rule `r`: it holds the rule itself, or it holds a context that
      carries the rule. A lookup that has not taken its reference yet relies on nothing. */
  ghost predicate MayTouch(s: State, t: nat, r: nat)
    requires t < |s.threads|
  {
    || HeldBy(s.threads[t].pc, r) > 0
    || exists c: nat :: c < |s.contexts| && Holds(s.threads[t].pc, c) > 0 && s.contexts[c].rule == Some(r)
  }

  /** No rule in anyone's hands is used after it was freed: a listed rule, a rule of a live
      context, and a rule a thread may rely on all have a positive count and have not been
      freed. The window of a lookup, between letting go of the list lock and its last read of
      the entry, is the subject of LookupReferencesIff and LookupRereadsIff. */
  lemma NoUseAfterFree(fileCount: nat, steps: seq<(nat, Action)>, r: nat)
    ensures var s := Reached(fileCount, steps);
            (r in s.list
             || (exists c: nat :: c < |s.contexts| && s.contexts[c].holders > 0 && s.contexts[c].rule == Some(r))
             || (exists t: nat :: t < |s.threads| && MayTouch(s, t, r)))
            ==> r < |s.rules| && s.rules[r].refs > 0 && s.rules[r].frees == 0
  {
    var s := Reached(fileCount, steps);
    ReachedInv(fileCount, steps);
    if r in s.list {
      var i :| 0 <= i < |s.list| && s.list[i] == r;
      ListedIsReferenced(s, i);
      assert RuleCounted(s, r);
    }
    forall c: nat | c < |s.contexts| && s.contexts[c].holders > 0 && s.contexts[c].rule == Some(r)
      ensures r < |s.rules| && s.rules[r].refs > 0 && s.rules[r].frees == 0
    {
      CarriedIsReferenced(s, c);
      assert RuleCounted(s, r);
    }
    forall t: nat | t < |s.threads| && MayTouch(s, t, r)
      ensures r < |s.rules| && s.rules[r].refs > 0 && s.rules[r].frees == 0
    {
      TouchedIsLive(s, t, r);
    }
  }

  lemma TouchedIsLive(s: State, t: nat, r: nat)
    requires Inv(s) && t < |s.threads| && MayTouch(s, t, r)
    ensures r < |s.rules| && s.rules[r].refs > 0 && s.rules[r].frees == 0
  {
    if HeldBy(s.threads[t].pc, r) > 0 {
      SumAtLeast(s.threads, t, ThreadHolds(r));
      if r >= |s.rules| { NobodyHoldsYet(s, r); }
      HeldIsReferenced(s, t, r);
    } else {
      var c: nat :| c < |s.contexts| && Holds(s.threads[t].pc, c) > 0 && s.contexts[c].rule == Some(r);
      UsedIsHeld(s, t, c);
      CarriedIsReferenced(s, c);
    }
    assert RuleCounted(s, r);
  }

  /** The first match governs, for every interleaving: a lookup finds a listed rule that
      matches, newer than every other listed rule that matches, and none exactly when none
      does. */
  lemma LookupFindsNewest(fileCount: nat, steps: seq<(nat, Action)>, matches: nat -> bool)
    ensures var s := Reached(fileCount, steps);
            match FirstMatching(s.list, matches)
            case Some(r) => r in s.list && matches(r) && forall q :: q in s.list && matches(q) ==> q <= r
            case None => forall q :: q in s.list ==> !matches(q)
  {
    ReachedInv(fileCount, steps);
    FirstIsNewest(Reached(fileCount, steps).list, matches);
  }

  lemma {:induction false} FirstIsNewest(list: seq<nat>, matches: nat -> bool)
    requires NewestFirst(list)
    ensures match FirstMatching(list, matches)
            case Some(r) => r in list && matches(r) && forall q :: q in list && matches(q) ==> q <= r
            case None => forall q :: q in list ==> !matches(q)
  {
    if list != [] {
      FirstIsNewest(list[1..], matches);
      assert list == [list[0]] + list[1..];
    }
  }

  /** The rule a lookup found. */
  function Found(pc: Pc): nat
    requires pc.LookedUp? || pc.Rereading? || pc.TargetFound? || pc.TargetReread?
  {
    if pc.LookedUp? || pc.Rereading? then pc.r else pc.target
  }

  /** The entry of rule `r` was freed: the rule is off the list, and the thread that took it
      off has come that far. */
  ghost predicate EntryGone(s: State, r: nat) {
    r !in s.list && Sum(s.threads, ThreadFrees(r)) == 0
  }

  /** The count of rule `r` is zero: it is off the list and nobody refers to it. */
  ghost predicate Unreferenced(s: State, r: nat) {
    r !in s.list && Sum(s.contexts, Carries(r)) + Sum(s.threads, ThreadHolds(r)) == 0
  }

  /** A lookup lets go of the list lock before it reads the entry for its reference and, once
      more, for its result. In every reachable state the reference uses memory it must not
      exactly when, since the lookup, a removal took the rule off the list and either freed
      the entry or dropped the last reference, so that the count had reached zero. Otherwise
      the thread ends up with one reference. The second read then fails exactly when the
      entry has been freed. A rule that is still listed is safe at both. */
  lemma LookupReferencesIff(fileCount: nat, steps: seq<(nat, Action)>, t: nat)
    requires var s := Reached(fileCount, steps);
             && !s.halted && t < |s.threads| && s.threads[t].doomed == None
             && (s.threads[t].pc.LookedUp? || s.threads[t].pc.TargetFound?)
    ensures var s := Reached(fileCount, steps);
            var r := Found(s.threads[t].pc);
            var n := Step(s, t, Reference);
            && r < |s.rules|
            && (n.halted <==> EntryGone(s, r) || Unreferenced(s, r))
            && (!n.halted ==>
                  && n.rules == s.rules[r := s.rules[r].(refs := s.rules[r].refs + 1)]
                  && HeldBy(n.threads[t].pc, r) == 1)
  {
    hide Sum, StepIdle, StepPost, Unwind, Compare, Publish, FinishPreCreate, Free, OperationDecision;
    var s := Reached(fileCount, steps);
    ReachedInv(fileCount, steps);
    assert ThreadOk(s, t);
    assert RuleCounted(s, Found(s.threads[t].pc));
  }

  lemma LookupRereadsIff(fileCount: nat, steps: seq<(nat, Action)>, t: nat)
    requires var s := Reached(fileCount, steps);
             && !s.halted && t < |s.threads| && s.threads[t].doomed == None
             && (s.threads[t].pc.Rereading? || s.threads[t].pc.TargetReread?)
    ensures var s := Reached(fileCount, steps);
            var r := Found(s.threads[t].pc);
            var n := Step(s, t, ReadAgain);
            && r < |s.rules|
            && (n.halted <==> EntryGone(s, r))
            && (!n.halted ==> n.rules == s.rules && HeldBy(n.threads[t].pc, r) == 1)
  {
    hide Sum;
    var s := Reached(fileCount, steps);
    ReachedInv(fileCount, steps);
    assert ThreadOk(s, t);
    assert RuleCounted(s, Found(s.threads[t].pc));
  }

  predicate UnderRule(pc: Pc) {
    pc.Deciding? || pc.TargetFound? || pc.TargetReread? || pc.Renaming?
  }

  /** While a callback decides, the rename lookup included, the rule it saw in the context is
      still the context's rule, so every read of the field in the callback gives the same,
      live, rule. */
  lemma DecidesUnderContextRule(fileCount: nat, steps: seq<(nat, Action)>, t: nat)
    ensures var s := Reached(fileCount, steps);
            t < |s.threads| && UnderRule(s.threads[t].pc) ==>
              var pc := s.threads[t].pc;
              && pc.c < |s.contexts| && s.contexts[pc.c].rule == Some(pc.r)
              && s.contexts[pc.c].holders > 0 && s.contexts[pc.c].named
              && pc.r < |s.rules| && s.rules[pc.r].refs > 0 && s.rules[pc.r].frees == 0
  {
    hide Sum;
    var s := Reached(fileCount, steps);
    ReachedInv(fileCount, steps);
    if t < |s.threads| && UnderRule(s.threads[t].pc) {
      var pc := s.threads[t].pc;
      assert ThreadOk(s, t) && ContextOk(s, pc.c);
      UsedIsHeld(s, t, pc.c);
      CarriedIsReferenced(s, pc.c);
      assert RuleCounted(s, pc.r);
    }
  }

  // ---- How creates end ----

  /** The end of a create that PostCreate reports for the inputs `x`; `c` is the context it found
      or published. */
  function OpenResultOf(x: PostInputs, c: nat): OpenResult {
    if Cancels(x) then Cancelled else if x.openOk then Through(c) else NotOpened
  }

  predicate Ready(s: State, t: nat) {
    !s.halted && t < |s.threads| && s.threads[t].doomed == None
  }

  /** Every step that ends a create logs what PostCreate reports when it meets what the step
      does: nothing of the context, a context found, one published, a failed publication, or
      one published meanwhile by another thread. */
  lemma OpensEndAsReported(fileCount: nat, steps: seq<(nat, Action)>, t: nat, a: Action)
    requires Ready(Reached(fileCount, steps), t)
    ensures var s := Reached(fileCount, steps);
            var n := Step(s, t, a);
            match s.threads[t].pc
            case PostCreating(f, _) =>
              && (a.GiveUpPost? && GivesUp(a.post) ==>
                    n.outcomes == s.outcomes + [Opened(f, OpenResultOf(a.post, 0))])
              && (a.FindContext? && f < |s.files| && s.files[f].Some? ==>
                    n.outcomes == s.outcomes +
                      [Opened(f, OpenResultOf(PostInputs(false, true, ContextFound, Success, SetDone),
                                              s.files[f].value))])
            case Allocated(f, _, c) =>
              a == SetContext(false) && f < |s.files| ==>
                n.outcomes == s.outcomes +
                  [Opened(f, OpenResultOf(PostInputs(false, true, ContextMissing, Success, SetFailed), c))]
            case Referenced(f, _, c) =>
              a.StoreRule? ==>
                n.outcomes == s.outcomes +
                  [Opened(f, OpenResultOf(PostInputs(false, true, ContextMissing, Success, SetDone), c))]
            case LostRace(f, _, c, _) =>
              a.CompareRules? && !n.halted ==>
                n.outcomes == s.outcomes +
                  [Opened(f, OpenResultOf(PostInputs(false, true, ContextMissing, Success, AlreadySet), c))]
            case _ => true
  {
    hide Sum, Inv, RuleCounted;
    var s := Reached(fileCount, steps);
    ReachedInv(fileCount, steps);
    ReachedShape(s, t);
  }

  /** The numbers a thread has in hand are in range. */
  lemma ReachedShape(s: State, t: nat)
    requires Inv(s) && t < |s.threads|
    ensures ThreadOk(s, t)
    ensures forall f :: 0 <= f < |s.files| && s.files[f].Some? ==> s.files[f].value < |s.contexts|
    ensures forall c :: 0 <= c < |s.contexts| && s.contexts[c].rule.Some? ==> s.contexts[c].rule.value < |s.rules|
  {
    hide Sum;
    forall c | 0 <= c < |s.contexts| && s.contexts[c].rule.Some? ensures s.contexts[c].rule.value < |s.rules| {
      assert ContextOk(s, c);
    }
  }

  /** The list is empty, no callback or create is under way and no file has a context. */
  predicate Quiescent(s: State) {
    && s.list == []
    && (forall t :: 0 <= t < |s.threads| ==> s.threads[t] == Thread(Idle, None))
    && (forall f :: 0 <= f < |s.files| ==> s.files[f] == None)
  }

  /** No leak and no double free over whole runs: once the list is cleaned up, every create
      has had its post-create and every file context was torn down, each rule ever created
      and its list entry have been freed exactly once and no context is held. */
  lemma NothingLeaks(fileCount: nat, steps: seq<(nat, Action)>)
    requires Quiescent(Reached(fileCount, steps))
    ensures var s := Reached(fileCount, steps);
            && (forall r :: 0 <= r < |s.rules| ==>
                  s.rules[r].refs == 0 && s.rules[r].frees == 1 && s.rules[r].entryFrees == 1)
            && (forall c :: 0 <= c < |s.contexts| ==> s.contexts[c].holders == 0)
  {
    var s := Reached(fileCount, steps);
    ReachedInv(fileCount, steps);
    forall c | 0 <= c < |s.contexts| ensures s.contexts[c].holders == 0 {
      assert ContextOk(s, c);
      SumZero(s.files, Attached(c));
      SumZero(s.threads, ThreadUses(c));
    }
    forall r | 0 <= r < |s.rules| ensures s.rules[r].refs == 0 && s.rules[r].frees == 1 && s.rules[r].entryFrees == 1 {
      assert RuleCounted(s, r);
      SumZero(s.contexts, Carries(r));
      SumZero(s.threads, ThreadHolds(r));
      SumZero(s.threads, ThreadDooms(r));
      SumZero(s.threads, ThreadFrees(r));
    }
  }

  /** A live context with a rule has its name: callbacks that test only the rule may use the
      name, even between the publication of the context and the two stores. */
  lemma NameBeforeRule(fileCount: nat, steps: seq<(nat, Action)>, c: nat)
    ensures var s := Reached(fileCount, steps);
            c < |s.contexts| && s.contexts[c].holders > 0 && s.contexts[c].rule.Some? ==> s.contexts[c].named
  {
    ReachedInv(fileCount, steps);
    var s := Reached(fileCount, steps);
    if c < |s.contexts| { assert ContextOk(s, c); }
  }

  // ---- What later steps cannot change ----

  /** From `s` to `n` no context's stored rule changed, no rule's code changed, and what was
      decided since on a context with a rule is exactly to refuse the guarded operations. */
  ghost predicate Follows(s: State, n: State) {
    && |s.rules| <= |n.rules| && |s.contexts| <= |n.contexts| && s.outcomes <= n.outcomes
    && (forall r :: 0 <= r < |s.rules| ==> n.rules[r].code == s.rules[r].code && s.rules[r].frees <= n.rules[r].frees)
    && (forall c :: 0 <= c < |s.contexts| ==> KeepsContext(s.contexts[c], n.contexts[c]))
    && (forall k :: |s.outcomes| <= k < |n.outcomes| ==> Blocked(s, n.outcomes[k]))
  }

  predicate KeepsContext(x: FileContext, y: FileContext) {
    y.creator == x.creator && (x.rule.Some? ==> y.rule == x.rule)
  }

  /** Thread `t` alone moves, or a thread comes up. */
  predicate OnlyMoves(s: State, n: State, t: nat) {
    || n.threads == s.threads
    || n.threads == s.threads + [Thread(Idle, None)]
    || (t < |s.threads| && |n.threads| == |s.threads| && n.threads == s.threads[t := n.threads[t]])
  }

  ghost predicate Blocked(s: State, o: Outcome) {
    o.Operated? && o.c < |s.contexts| && s.contexts[o.c].rule.Some? ==>
      o.decision.result == if Guarded(o.op) then Complete else NoCallback
  }

  lemma DecisionRule(s: State, t: nat)
    requires Inv(s) && t < |s.threads| && (s.threads[t].pc.Deciding? || s.threads[t].pc.Renaming?)
    ensures s.threads[t].pc.r < |s.rules| && ValidRuleCode(s.rules[s.threads[t].pc.r].code)
  {
    hide Sum, References, Holders;
    assert ThreadOk(s, t);
    assert ContextOk(s, s.threads[t].pc.c);
    assert RuleCounted(s, s.threads[t].pc.r);
  }

  lemma NoteFollows(s: State, t: nat, o: Outcome, pc: Pc)
    requires t < |s.threads| && Blocked(s, o)
    ensures Follows(s, Move(Note(s, o), t, pc)) && OnlyMoves(s, Move(Note(s, o), t, pc), t)
  {
    hide Blocked;
  }

  lemma DecideFollows(s: State, t: nat, a: Action)
    requires Inv(s) && t < |s.threads| && a.Decide? && (s.threads[t].pc.Deciding? || s.threads[t].pc.Renaming?)
    ensures Follows(s, StepOperation(s, t, a)) && OnlyMoves(s, StepOperation(s, t, a), t)
  {
    hide OperationDecision, Follows, OnlyMoves, Inv, Move;
    DecisionRule(s, t);
    var pc := s.threads[t].pc;
    if pc.Renaming? && pc.target < |s.rules| {
      var x := a.inputs.(matched := Some(s.rules[pc.target].code));
      RuleBlocks(pc.op, s.rules[pc.r].code, x);
      NoteFollows(s, t, Operated(pc.c, pc.op, OperationDecision(pc.op, FoundContext(Some(s.rules[pc.r].code)), x)),
                  Unwinding([DropRule(pc.target), DropContext(pc.c)], None));
    } else if pc.Deciding? {
      RuleBlocks(pc.op, s.rules[pc.r].code, a.inputs);
      NoteFollows(s, t, Operated(pc.c, pc.op,
                                 OperationDecision(pc.op, FoundContext(Some(s.rules[pc.r].code)), a.inputs)),
                  Unwinding([DropContext(pc.c)], None));
    }
    Stays(s, t);
  }

  lemma Stays(s: State, t: nat)
    ensures Follows(s, s) && OnlyMoves(s, s, t)
  {
  }

  lemma OperationFollows(s: State, t: nat, a: Action)
    requires Inv(s) && t < |s.threads|
    ensures Follows(s, StepOperation(s, t, a)) && OnlyMoves(s, StepOperation(s, t, a), t)
  {
    var pc := s.threads[t].pc;
    if (pc.Deciding? || pc.Renaming?) && a.Decide? {
      DecideFollows(s, t, a);
    } else {
      LookFollows(s, t, a);
    }
  }

  lemma LookFollows(s: State, t: nat, a: Action)
    requires t < |s.threads| && ((s.threads[t].pc.Deciding? || s.threads[t].pc.Renaming?) ==> !a.Decide?)
    ensures Follows(s, StepOperation(s, t, a)) && OnlyMoves(s, StepOperation(s, t, a), t)
  {
    hide Sum, OperationDecision, References, Inv;
    var pc := s.threads[t].pc;
    if pc.Holding? && a.TestRule? && pc.c < |s.contexts| && s.contexts[pc.c].rule.None? {
      NoteFollows(s, t, Operated(pc.c, pc.op,
                                 OperationDecision(pc.op, FoundContext(None),
                                                   OperationInputs(Success, Success, None, Success))),
                  Unwinding([DropContext(pc.c)], None));
    }
  }

  lemma CompareFollows(s: State, t: nat, namesDiffer: bool)
    requires Inv(s) && t < |s.threads| && s.threads[t].pc.LostRace?
    ensures var pc := s.threads[t].pc;
            var n := Compare(s, t, pc.f, pc.r, pc.c, pc.other, namesDiffer);
            Follows(s, n) && OnlyMoves(s, n, t)
  {
    hide Sum;
    var pc := s.threads[t].pc;
    assert ThreadOk(s, t) && ContextOk(s, pc.other);
    if s.contexts[pc.other].rule.Some? {
      var present := s.contexts[pc.other].rule.value;
      assert RuleCounted(s, present) && RuleCounted(s, pc.r);
      UpdateNeverTaken(s.rules[present].code, s.rules[pc.r].code, namesDiffer);
    }
  }

  lemma IdleFollows(s: State, t: nat, a: Action)
    requires t < |s.threads|
    ensures Follows(s, StepIdle(s, t, a)) && OnlyMoves(s, StepIdle(s, t, a), t)
  {
    hide Sum, RuleCounted, ContextOk;
  }

  lemma CreateFollows(s: State, t: nat, f: nat, r: nat, c: nat, a: Action)
    requires t < |s.threads|
    ensures a.DecideCreate? ==>
              Follows(s, FinishPreCreate(s, t, f, r, a.x)) && OnlyMoves(s, FinishPreCreate(s, t, f, r, a.x), t)
    ensures a.SetContext? ==> Follows(s, Publish(s, t, f, r, c, a.ok)) && OnlyMoves(s, Publish(s, t, f, r, c, a.ok), t)
    ensures Follows(s, StepPost(s, t, f, r, a)) && OnlyMoves(s, StepPost(s, t, f, r, a), t)
  {
    hide Sum, RuleCounted, ContextOk;
    hide CreateDecision;
  }

  lemma UnwindFollows(s: State, t: nat, todo: seq<Drop>, post: Option<(nat, nat)>)
    requires t < |s.threads|
    ensures Follows(s, Unwind(s, t, todo, post)) && OnlyMoves(s, Unwind(s, t, todo, post), t)
  {
    hide Sum, RuleCounted, ContextOk;
  }

  /** The steps that only touch one field, or none. */
  lemma PlainFollows(s: State, t: nat, a: Action)
    requires Inv(s)
    requires || a.Spawn? || s.halted || t >= |s.threads| || s.threads[t].doomed.Some?
             || s.threads[t].pc.LookedUp? || s.threads[t].pc.Rereading? || s.threads[t].pc.AwaitingPost?
             || s.threads[t].pc.Published? || s.threads[t].pc.Named? || s.threads[t].pc.Referenced?
    ensures Follows(s, Step(s, t, a)) && OnlyMoves(s, Step(s, t, a), t)
  {
    hide Sum;
    hide StepOperation, Unwind, StepIdle, Compare, FinishPreCreate, StepPost, Publish;
    hide RuleCounted, ContextOk, CreateDecision, OperationDecision;
    if t < |s.threads| { assert ThreadOk(s, t); }
  }

  lemma StepFollows(s: State, t: nat, a: Action)
    requires Inv(s)
    ensures Follows(s, Step(s, t, a)) && OnlyMoves(s, Step(s, t, a), t)
  {
    hide Sum;
    hide StepOperation, Unwind, StepIdle, Compare, FinishPreCreate, StepPost, Publish, TakeReference, ReadEntry, Free;
    hide RuleCounted, ContextOk, ThreadOk, CreateDecision, OperationDecision, Follows, OnlyMoves;
    Stays(s, t);
    if a.Spawn? || s.halted || t >= |s.threads| || s.threads[t].doomed.Some? {
      PlainFollows(s, t, a);
    } else {
      match s.threads[t].pc
      case Idle => IdleFollows(s, t, a);
      case Unwinding(todo, post) => UnwindFollows(s, t, todo, post);
      case PreCreating(f, r) => CreateFollows(s, t, f, r, 0, a);
      case PostCreating(f, r) => CreateFollows(s, t, f, r, 0, a);
      case Allocated(f, r, c) => CreateFollows(s, t, f, r, c, a);
      case LostRace(f, r, c, other) => if a.CompareRules? { CompareFollows(s, t, a.namesDiffer); }
      case Holding(_, _) => OperationFollows(s, t, a);
      case Deciding(_, _, _) => OperationFollows(s, t, a);
      case TargetFound(_, _, _, _) => OperationFollows(s, t, a);
      case TargetReread(_, _, _, _) => OperationFollows(s, t, a);
      case Renaming(_, _, _, _) => OperationFollows(s, t, a);
      case _ => PlainFollows(s, t, a);
    }
  }

  lemma {:induction false} RunFollows(s: State, steps: seq<(nat, Action)>)
    requires Inv(s)
    ensures Follows(s, RuleLifetime.Run(s, steps))
    decreases |steps|
  {
    if steps != [] {
      var m := Step(s, steps[0].0, steps[0].1);
      StepKeeps(s, steps[0].0, steps[0].1);
      StepFollows(s, steps[0].0, steps[0].1);
      RunFollows(m, steps[1..]);
    }
  }

  /** Blocking persists: from the moment a file context carries a rule, whatever happens
      later, the context keeps that rule, and every operation decided on it is completed by
      the filter if it is a write, a listed set-information class or a listed file-system
      control, and passed down if not. That the rule may have left the list, that recording
      or the rename lookup fails, changes nothing. */
  lemma BlockingPersists(fileCount: nat, before: seq<(nat, Action)>, after: seq<(nat, Action)>, c: nat)
    requires c < |Reached(fileCount, before).contexts| && Reached(fileCount, before).contexts[c].rule.Some?
    ensures var s := Reached(fileCount, before);
            var n := RuleLifetime.Run(s, after);
            && s.outcomes <= n.outcomes
            && c < |n.contexts| && n.contexts[c].rule == s.contexts[c].rule
            && forall k :: |s.outcomes| <= k < |n.outcomes| && n.outcomes[k].Operated? && n.outcomes[k].c == c ==>
                 n.outcomes[k].decision.result == if Guarded(n.outcomes[k].op) then Complete else NoCallback
  {
    ReachedInv(fileCount, before);
    var s := Reached(fileCount, before);
    RunFollows(s, after);
    var n := RuleLifetime.Run(s, after);
    forall k | |s.outcomes| <= k < |n.outcomes| && n.outcomes[k].Operated? && n.outcomes[k].c == c
      ensures n.outcomes[k].decision.result == if Guarded(n.outcomes[k].op) then Complete else NoCallback
    {
      assert Blocked(s, n.outcomes[k]);
    }
  }

  /** A file context only ever carries a readonly rule: an access-denied rule refuses the
      create and never reaches post-create. */
  lemma ContextsAreReadonly(fileCount: nat, steps: seq<(nat, Action)>, c: nat)
    ensures var s := Reached(fileCount, steps);
            c < |s.contexts| && s.contexts[c].rule.Some? ==>
              && s.contexts[c].rule.value < |s.rules|
              && s.rules[s.contexts[c].rule.value].code.major == RULE_MAJOR_READONLY
  {
    ReachedInv(fileCount, steps);
    var s := Reached(fileCount, steps);
    if c < |s.contexts| { assert ContextOk(s, c); }
  }
}
