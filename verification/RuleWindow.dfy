/** The window between publishing a file context and storing its rule: which states have one,
    what opens and operations meet in it, and that there is no other gap in the protection,
    for every interleaving. (FileGuardCore/Operations.c) */
module RuleWindow {
  import opened FileGuard
  import opened RuleHistory
  import opened Callbacks
  import opened RuleLifetime
  import opened RuleOwnership

  /** The thread that made context `c` has published it and not yet stored the rule. */
  predicate Publishing(s: State, c: nat) {
    c < |s.contexts| && s.contexts[c].creator < |s.threads| && PublishingAt(s.threads[s.contexts[c].creator].pc, c)
  }

  predicate PublishingAt(pc: Pc, c: nat) {
    (pc.Published? || pc.Named? || pc.Referenced?) && pc.c == c
  }

  predicate Covered(s: State, c: nat) {
    c < |s.contexts| && (s.contexts[c].rule.Some? || Publishing(s, c))
  }

  predicate ThreadCovered(s: State, t: nat)
    requires t < |s.threads|
  {
    var pc := s.threads[t].pc;
    (pc.LostRace? ==> Covered(s, pc.other)) && (pc.Holding? ==> Covered(s, pc.c))
  }

  predicate OutcomeCovered(s: State, o: Outcome) {
    o.Opened? && o.result.Through? ==> Covered(s, o.result.c)
  }

  /** A context that is attached to a file, that a lost race or a callback met, or that an
      open went through with has a rule or is being published. */
  ghost predicate Window(s: State) {
    && (forall f :: 0 <= f < |s.files| && s.files[f].Some? ==> Covered(s, s.files[f].value))
    && (forall t :: 0 <= t < |s.threads| ==> ThreadCovered(s, t))
    && (forall k :: 0 <= k < |s.outcomes| ==> OutcomeCovered(s, s.outcomes[k]))
  }

  // ---- Every step keeps it ----

  lemma PublisherMoves(s: State, t: nat, a: Action, c: nat)
    requires Inv(s) && t < |s.threads| && PublishingAt(s.threads[t].pc, c) && c < |s.contexts|
    ensures var n := Step(s, t, a);
            && |n.contexts| == |s.contexts| && t < |n.threads|
            && (n.contexts[c].rule.Some? || PublishingAt(n.threads[t].pc, c))
  {
    hide StepOperation, Unwind, StepIdle, Compare, FinishPreCreate, StepPost, Publish;
    assert ThreadOk(s, t);
  }

  lemma CoveredStays(s: State, t: nat, a: Action, c: nat)
    requires Inv(s) && Covered(s, c)
    ensures Covered(Step(s, t, a), c)
  {
    hide Step;
    StepFollows(s, t, a);
    var n := Step(s, t, a);
    assert KeepsContext(s.contexts[c], n.contexts[c]);
    if s.contexts[c].rule == None && s.contexts[c].creator == t {
      PublisherMoves(s, t, a, c);
    }
  }

  ghost predicate AttachedIn(s: State, c: nat) {
    exists f :: 0 <= f < |s.files| && s.files[f] == Some(c)
  }

  /** Where a step can take a context from: a file, or its own publication. */
  ghost predicate TakenFrom(s: State, n: State, t: nat) {
    && |n.files| == |s.files|
    && (forall f :: 0 <= f < |s.files| && n.files[f].Some? ==> n.files[f] == s.files[f] || Covered(n, n.files[f].value))
    && (n.threads == s.threads || n.threads == s.threads + [Thread(Idle, None)] || Moves(s, n, t))
    && (n.outcomes == s.outcomes || (|n.outcomes| == |s.outcomes| + 1 && s.outcomes <= n.outcomes))
    && (|n.outcomes| > |s.outcomes| ==> Goes(s, n, n.outcomes[|s.outcomes|]))
  }

  ghost predicate Moves(s: State, n: State, t: nat) {
    && t < |s.threads| == |n.threads| && n.threads == s.threads[t := n.threads[t]]
    && var was, now := s.threads[t].pc, n.threads[t].pc;
    && (now.LostRace? ==> now == was || AttachedIn(s, now.other))
    && (now.Holding? ==> now == was || AttachedIn(s, now.c))
  }

  ghost predicate Goes(s: State, n: State, o: Outcome) {
    o.Opened? && o.result.Through? ==> AttachedIn(s, o.result.c) || Covered(n, o.result.c)
  }

  lemma WindowKept(s: State, n: State, t: nat)
    requires Window(s) && TakenFrom(s, n, t)
    requires forall c: nat :: Covered(s, c) ==> Covered(n, c)
    ensures Window(n)
  {
    hide Covered;
    forall c: nat | AttachedIn(s, c) ensures Covered(n, c) {
      var f :| 0 <= f < |s.files| && s.files[f] == Some(c);
      assert Covered(s, s.files[f].value);
    }
    forall i | 0 <= i < |n.threads| ensures ThreadCovered(n, i) {
      if i < |s.threads| { assert ThreadCovered(s, i); }
    }
    forall k | 0 <= k < |n.outcomes| ensures OutcomeCovered(n, n.outcomes[k]) {
      if k < |s.outcomes| { assert OutcomeCovered(s, s.outcomes[k]); }
    }
  }

  lemma IdleTakes(s: State, t: nat, a: Action)
    requires t < |s.threads|
    ensures TakenFrom(s, StepIdle(s, t, a), t)
  {
  }

  lemma CreateTakes(s: State, t: nat, f: nat, r: nat, a: Action)
    requires t < |s.threads|
    ensures a.DecideCreate? ==> TakenFrom(s, FinishPreCreate(s, t, f, r, a.x), t)
    ensures TakenFrom(s, StepPost(s, t, f, r, a), t)
  {
    hide CreateDecision, Cancels, GivesUp;
  }

  lemma PublishTakes(s: State, t: nat, f: nat, r: nat, c: nat, ok: bool)
    requires Inv(s) && t < |s.threads| && s.threads[t].pc == Allocated(f, r, c)
    ensures TakenFrom(s, Publish(s, t, f, r, c, ok), t)
  {
    assert ThreadOk(s, t);
    hide Inv;
    var n := Publish(s, t, f, r, c, ok);
    if f < |s.files| && ok && s.files[f] == None {
      assert PublishingAt(n.threads[t].pc, c) && Covered(n, c);
    }
  }

  lemma OperationTakes(s: State, t: nat, a: Action)
    requires t < |s.threads|
    ensures TakenFrom(s, StepOperation(s, t, a), t)
  {
    hide OperationDecision, Gone;
  }

  lemma UnwindTakes(s: State, t: nat, todo: seq<Drop>, post: Option<(nat, nat)>)
    requires t < |s.threads|
    ensures TakenFrom(s, Unwind(s, t, todo, post), t)
  {
  }

  lemma CompareTakes(s: State, t: nat, f: nat, r: nat, c: nat, other: nat, namesDiffer: bool)
    requires t < |s.threads|
    ensures TakenFrom(s, Compare(s, t, f, r, c, other, namesDiffer), t)
  {
    hide UpdateGuard;
  }

  lemma PlainTakes(s: State, t: nat, a: Action)
    requires || a.Spawn? || s.halted || t >= |s.threads| || s.threads[t].doomed.Some?
             || s.threads[t].pc.LookedUp? || s.threads[t].pc.Rereading? || s.threads[t].pc.AwaitingPost?
             || s.threads[t].pc.Published? || s.threads[t].pc.Named? || s.threads[t].pc.Referenced?
    ensures TakenFrom(s, Step(s, t, a), t)
  {
    hide StepOperation, Unwind, StepIdle, Compare, FinishPreCreate, StepPost, Publish, Gone;
  }

  lemma StepTakes(s: State, t: nat, a: Action)
    requires Inv(s)
    ensures TakenFrom(s, Step(s, t, a), t)
  {
    hide StepOperation, Unwind, StepIdle, Compare, FinishPreCreate, StepPost, Publish, TakeReference, ReadEntry, Free,
      Inv;
    if a.Spawn? || s.halted || t >= |s.threads| || s.threads[t].doomed.Some? {
      PlainTakes(s, t, a);
    } else {
      match s.threads[t].pc
      case Idle => IdleTakes(s, t, a);
      case Unwinding(todo, post) => UnwindTakes(s, t, todo, post);
      case PreCreating(f, r) => CreateTakes(s, t, f, r, a);
      case PostCreating(f, r) => CreateTakes(s, t, f, r, a);
      case Allocated(f, r, c) => if a.SetContext? { PublishTakes(s, t, f, r, c, a.ok); }
      case LostRace(f, r, c, other) => if a.CompareRules? { CompareTakes(s, t, f, r, c, other, a.namesDiffer); }
      case Holding(_, _) => OperationTakes(s, t, a);
      case Deciding(_, _, _) => OperationTakes(s, t, a);
      case TargetFound(_, _, _, _) => OperationTakes(s, t, a);
      case TargetReread(_, _, _, _) => OperationTakes(s, t, a);
      case Renaming(_, _, _, _) => OperationTakes(s, t, a);
      case _ => PlainTakes(s, t, a);
    }
  }

  lemma {:induction false} RunWindow(s: State, steps: seq<(nat, Action)>)
    requires Inv(s) && Window(s)
    ensures Window(RuleLifetime.Run(s, steps))
    decreases |steps|
  {
    hide Inv, Window, TakenFrom, Covered, Step;
    if steps != [] {
      var (t, a) := steps[0];
      forall c: nat | Covered(s, c) ensures Covered(Step(s, t, a), c) { CoveredStays(s, t, a, c); }
      StepTakes(s, t, a);
      WindowKept(s, Step(s, t, a), t);
      StepKeeps(s, t, a);
      RunWindow(Step(s, t, a), steps[1..]);
    }
  }

  lemma ReachedWindow(fileCount: nat, steps: seq<(nat, Action)>)
    ensures Window(Reached(fileCount, steps)) && Inv(Reached(fileCount, steps))
  {
    InitialInv(fileCount);
    RunWindow(Initial(fileCount), steps);
    ReachedInv(fileCount, steps);
  }

  /** A context that is being published carries no rule yet. */
  lemma PublishedHasNoRule(s: State, c: nat)
    requires Inv(s) && Publishing(s, c)
    ensures s.contexts[c].rule == None
  {
    assert ThreadOk(s, s.contexts[c].creator);
  }

  // ---- What opens and operations meet ----

  /** The comparison after a lost race, in every reachable state: it reads a null rule, and
      stops the machine, exactly while the thread that won the race stands between setting
      its context and storing the rule. Otherwise it changes no rule and no context and the
      open ends cancelled. */
  lemma LostRaceReadsRuleIff(fileCount: nat, steps: seq<(nat, Action)>, t: nat, namesDiffer: bool)
    requires var s := Reached(fileCount, steps);
             !s.halted && t < |s.threads| && s.threads[t].pc.LostRace? && s.threads[t].doomed == None
    ensures var s := Reached(fileCount, steps);
            var pc := s.threads[t].pc;
            var n := Step(s, t, CompareRules(namesDiffer));
            && (n.halted <==> Publishing(s, pc.other))
            && (!n.halted ==>
                  && n.contexts == s.contexts && n.rules == s.rules
                  && n.outcomes == s.outcomes + [Opened(pc.f, Cancelled)])
  {
    var s := Reached(fileCount, steps);
    ReachedWindow(fileCount, steps);
    assert ThreadCovered(s, t) && ThreadOk(s, t);
    var other := s.threads[t].pc.other;
    assert ContextOk(s, other);
    if s.contexts[other].rule.Some? {
      var present := s.contexts[other].rule.value;
      assert RuleCounted(s, present) && RuleCounted(s, s.threads[t].pc.r);
      UpdateNeverTaken(s.rules[present].code, s.rules[s.threads[t].pc.r].code, namesDiffer);
      if Publishing(s, other) { PublishedHasNoRule(s, other); }
    }
  }

  /** Opens under a rule, for every interleaving: whenever a post-create under a rule has
      ended without cancelling the open, the context it went through with carries a rule,
      unless the thread that made the context is still publishing it. The same holds of
      every context attached to a file. */
  lemma OpensAreCovered(fileCount: nat, steps: seq<(nat, Action)>)
    ensures var s := Reached(fileCount, steps);
            && (forall f: nat, c: nat | Opened(f, Through(c)) in s.outcomes ::
                  c < |s.contexts| && (s.contexts[c].rule == None <==> Publishing(s, c)))
            && (forall f | 0 <= f < |s.files| && s.files[f].Some? ::
                  && s.files[f].value < |s.contexts|
                  && (s.contexts[s.files[f].value].rule == None <==> Publishing(s, s.files[f].value)))
  {
    var s := Reached(fileCount, steps);
    ReachedWindow(fileCount, steps);
    forall c: nat | Covered(s, c) ensures s.contexts[c].rule == None <==> Publishing(s, c) {
      if Publishing(s, c) { PublishedHasNoRule(s, c); }
    }
    forall f: nat, c: nat | Opened(f, Through(c)) in s.outcomes ensures Covered(s, c) {
      var k :| 0 <= k < |s.outcomes| && s.outcomes[k] == Opened(f, Through(c));
      assert OutcomeCovered(s, s.outcomes[k]);
    }
  }

  /** Operations on a file under a rule, for every interleaving: when a callback that fetched
      a context looks at its rule, the operation is passed down, guarded or not, exactly
      while the context is being published. Otherwise the callback goes on to decide under
      the context's rule. */
  lemma PassedDownIff(fileCount: nat, steps: seq<(nat, Action)>, t: nat)
    requires var s := Reached(fileCount, steps);
             !s.halted && t < |s.threads| && s.threads[t].pc.Holding? && s.threads[t].doomed == None
    ensures var s := Reached(fileCount, steps);
            var Holding(c, op) := s.threads[t].pc;
            var n := Step(s, t, TestRule);
            && c < |s.contexts|
            && if Publishing(s, c) then
                 n.outcomes == s.outcomes + [Operated(c, op, Decision(NoCallback, Untouched))]
               else
                 s.contexts[c].rule.Some? && n == Move(s, t, Deciding(c, op, s.contexts[c].rule.value))
  {
    var s := Reached(fileCount, steps);
    ReachedWindow(fileCount, steps);
    assert ThreadCovered(s, t) && ThreadOk(s, t);
    var c := s.threads[t].pc.c;
    if Publishing(s, c) { PublishedHasNoRule(s, c); }
  }

  /** Protection, for every interleaving before and after: an open under a rule that went
      through, with a context that nobody is publishing any more, is protected for good. Its
      context carries a rule, keeps it and is never being published again, and every
      operation decided on it from then on is completed by the filter exactly when it is
      guarded. */
  lemma ThroughThenBlocked(fileCount: nat, before: seq<(nat, Action)>, after: seq<(nat, Action)>, f: nat, c: nat)
    requires var s := Reached(fileCount, before); Opened(f, Through(c)) in s.outcomes && !Publishing(s, c)
    ensures var s := Reached(fileCount, before);
            var n := RuleLifetime.Run(s, after);
            && c < |s.contexts| && s.contexts[c].rule.Some?
            && c < |n.contexts| && n.contexts[c].rule == s.contexts[c].rule && !Publishing(n, c)
            && s.outcomes <= n.outcomes
            && forall k :: |s.outcomes| <= k < |n.outcomes| && n.outcomes[k].Operated? && n.outcomes[k].c == c ==>
                 n.outcomes[k].decision.result == if Guarded(n.outcomes[k].op) then Complete else NoCallback
  {
    var s := Reached(fileCount, before);
    hide RuleLifetime.Run, Publishing;
    OpensAreCovered(fileCount, before);
    BlockingPersists(fileCount, before, after, c);
    ReachedInv(fileCount, before);
    RunKeeps(s, after);
    var n := RuleLifetime.Run(s, after);
    if Publishing(n, c) { PublishedHasNoRule(n, c); }
  }

  // ---- Files ----

  predicate DetachesFile(a: Action, f: nat) {
    a.Detach? && a.f == f
  }

  lemma IdleFiles(s: State, t: nat, a: Action, f: nat)
    requires t < |s.threads| && f < |s.files| && s.files[f].Some? && !DetachesFile(a, f)
    ensures var n := StepIdle(s, t, a); |n.files| == |s.files| && n.files[f] == s.files[f]
  {
  }

  /** A file keeps its context until it is torn down. */
  lemma FileStays(s: State, t: nat, a: Action, f: nat)
    requires f < |s.files| && s.files[f].Some? && !DetachesFile(a, f)
    ensures var n := Step(s, t, a); |n.files| == |s.files| && n.files[f] == s.files[f]
  {
    hide StepOperation, Unwind, StepIdle, Compare, FinishPreCreate, StepPost, TakeReference, ReadEntry;
    if t < |s.threads| { IdleFiles(s, t, a, f); }
  }

  lemma {:induction false} RunFileStays(s: State, steps: seq<(nat, Action)>, f: nat)
    requires f < |s.files| && s.files[f].Some? && forall k :: 0 <= k < |steps| ==> !DetachesFile(steps[k].1, f)
    ensures var n := RuleLifetime.Run(s, steps); |n.files| == |s.files| && n.files[f] == s.files[f]
    decreases |steps|
  {
    hide Step;
    if steps != [] {
      FileStays(s, steps[0].0, steps[0].1, f);
      RunFileStays(Step(s, steps[0].0, steps[0].1), steps[1..], f);
    }
  }

  /** Protection of a file, for every interleaving before and after. Once a file has a context
      that nobody is publishing any more, then until the file is torn down it has that context
      and the context its rule; every callback that starts on the file fetches it; and every
      operation decided on it is completed by the filter exactly when it is guarded. */
  lemma FileIsProtected(fileCount: nat, before: seq<(nat, Action)>, after: seq<(nat, Action)>, f: nat, t: nat,
                        op: Operation)
    requires var s := Reached(fileCount, before);
             f < |s.files| && s.files[f].Some? && !Publishing(s, s.files[f].value)
    requires forall k :: 0 <= k < |after| ==> !DetachesFile(after[k].1, f)
    ensures var s := Reached(fileCount, before);
            var n := RuleLifetime.Run(s, after);
            var c := s.files[f].value;
            && f < |n.files| && n.files[f] == Some(c)
            && c < |s.contexts| && s.contexts[c].rule.Some?
            && c < |n.contexts| && n.contexts[c].rule == s.contexts[c].rule
            && (!n.halted && t < |n.threads| && n.threads[t] == Thread(Idle, None) ==>
                  Step(n, t, FetchContext(f, op)) == Move(AddHolder(n, c, 1), t, Holding(c, op)))
            && s.outcomes <= n.outcomes
            && forall k :: |s.outcomes| <= k < |n.outcomes| && n.outcomes[k].Operated? && n.outcomes[k].c == c ==>
                 n.outcomes[k].decision.result == if Guarded(n.outcomes[k].op) then Complete else NoCallback
  {
    hide RuleLifetime.Run, Publishing, Guarded;
    var s := Reached(fileCount, before);
    OpensAreCovered(fileCount, before);
    RunFileStays(s, after, f);
    BlockingPersists(fileCount, before, after, s.files[f].value);
    hide StepOperation, Unwind, Compare, FinishPreCreate, StepPost, TakeReference, ReadEntry, Publish, Free;
  }
}
