/** The reference protocol between the rule list, creates in flight, file contexts and the
    callbacks that run on open files, as a machine whose threads take one step at a time.
    (FileGuardCore/Rule.c, FileGuardCore/Operations.c, FileGuardCore/Context.c)

    Rules, contexts, files and threads are numbered. Everything that touches shared memory
    is a step of its own; in particular a lookup lets go of the list before it takes its
    reference. A step that would use memory already given back, or read a null rule, stops
    the machine. */
module RuleLifetime {
  import opened FileGuard
  import opened Sequences
  import opened RuleHistory
  import opened Callbacks

  /** FGC_RULE and the list entry made for it: `frees` and `entryFrees` count how often the
      memory of each was handed back. */
  datatype RuleCell = RuleCell(code: RuleCode, refs: int, frees: nat, entryFrees: nat)

  /** FG_FILE_CONTEXT with the filter manager's count of its holders; `creator` is the
      thread that allocated it. */
  datatype FileContext = FileContext(named: bool, rule: Option<nat>, holders: int, creator: nat)

  /** What a thread still has to let go of, in program order. */
  datatype Drop = DropRule(r: nat) | DropContext(c: nat) | FreeEntry(r: nat)

  datatype Pc =
    | Idle
    // Pre-create: a matching rule was found; then it is referenced; then its list entry is
    // read once more.
    | LookedUp(f: nat, r: nat)
    | Rereading(f: nat, r: nat)
    | PreCreating(f: nat, r: nat)
    // Between pre- and post-create: the completion context holds the rule.
    | AwaitingPost(f: nat, r: nat)
    | PostCreating(f: nat, r: nat)
    // Post-create with a fresh context, then publishing it field by field.
    | Allocated(f: nat, r: nat, c: nat)
    | Published(f: nat, r: nat, c: nat)
    | Named(f: nat, r: nat, c: nat)
    | Referenced(f: nat, r: nat, c: nat)
    // Post-create that found another context published meanwhile.
    | LostRace(f: nat, r: nat, c: nat, other: nat)
    // A callback on an open file: it holds the context, has seen its rule, and for a rename
    // looks up and references the rule the destination matches in the same three steps.
    | Holding(c: nat, op: Operation)
    | Deciding(c: nat, op: Operation, r: nat)
    | TargetFound(c: nat, op: Operation, r: nat, target: nat)
    | TargetReread(c: nat, op: Operation, r: nat, target: nat)
    | Renaming(c: nat, op: Operation, r: nat, target: nat)
    // Cleanup: release what is listed, then rest or wait for post-create.
    | Unwinding(todo: seq<Drop>, post: Option<(nat, nat)>)

  /** `doomed` is a rule whose count this thread has just taken to zero and must free. */
  datatype Thread = Thread(pc: Pc, doomed: Option<nat>)

  /** How a create that had a completion context ended in post-create. */
  datatype OpenResult = NotOpened | Cancelled | Through(c: nat)

  /** What a callback decided about an operation on the file of context `c`, or how an open
      of file `f` under a rule ended. */
  datatype Outcome = Operated(c: nat, op: Operation, decision: Decision) | Opened(f: nat, result: OpenResult)

  datatype State = State(
    rules: seq<RuleCell>,
    list: seq<nat>,
    contexts: seq<FileContext>,
    files: seq<Option<nat>>,
    threads: seq<Thread>,
    outcomes: seq<Outcome>,
    halted: bool)

  function Initial(fileCount: nat): State {
    State([], [], [], seq(fileCount, i => None), [], [], false)
  }

  datatype Action =
    | Spawn
    | AddRule(code: RuleCode)
    | Unlink(i: nat)
    | LookUp(f: nat, matches: nat -> bool)
    | Reference
    | ReadAgain
    | DecideCreate(x: CreateInputs)
    | StartPost
    | GiveUpPost(post: PostInputs)
    | FindContext
    | AllocateContext
    | SetContext(ok: bool)
    | StoreName
    | ReferenceAgain
    | StoreRule
    | CompareRules(namesDiffer: bool)
    | FetchContext(f: nat, op: Operation)
    | TestRule
    | MatchTarget(matches: nat -> bool)
    | Decide(inputs: OperationInputs)
    | Detach(f: nat)
    | DropNext
    | FreeDoomed

  function Move(s: State, t: nat, pc: Pc): State
    requires t < |s.threads|
  {
    s.(threads := s.threads[t := s.threads[t].(pc := pc)])
  }

  function AddRef(s: State, r: nat, n: int): State
    requires r < |s.rules|
  {
    s.(rules := s.rules[r := s.rules[r].(refs := s.rules[r].refs + n)])
  }

  function AddHolder(s: State, c: nat, n: int): State
    requires c < |s.contexts|
  {
    s.(contexts := s.contexts[c := s.contexts[c].(holders := s.contexts[c].holders + n)])
  }

  /** The rule a lookup finds: the first of the list whose expression matches. `matches` says
      which rules match the name at hand. */
  function FirstMatching(list: seq<nat>, matches: nat -> bool): (r: Option<nat>)
    ensures r.Some? ==> r.value in list && matches(r.value)
  {
    if list == [] then None else if matches(list[0]) then Some(list[0]) else FirstMatching(list[1..], matches)
  }

  /** The entry a lookup found was freed, or the count of its rule has reached zero. */
  predicate Gone(s: State, r: nat) {
    r >= |s.rules| || s.rules[r].entryFrees > 0 || s.rules[r].refs == 0
  }

  /** The reference a lookup takes after it let go of the list lock: it reads the entry and
      counts the rule. */
  function TakeReference(s: State, t: nat, r: nat, pc: Pc): (n: State)
    requires t < |s.threads|
    ensures n.files == s.files
  {
    if Gone(s, r) then s.(halted := true) else Move(AddRef(s, r, 1), t, pc)
  }

  /** The second read of the entry, after the reference. */
  function ReadEntry(s: State, t: nat, r: nat, pc: Pc): (n: State)
    requires t < |s.threads|
    ensures n.files == s.files
  {
    if r >= |s.rules| || s.rules[r].entryFrees > 0 then s.(halted := true) else Move(s, t, pc)
  }

  /** The LONG a rule code is compared as. */
  function CodeValue(c: RuleCode): int {
    c.minor + 0x1_0000 * c.major
  }

  /** The guard of the update branch for a lost race as the unparenthesised comparison macro
      expands: the negation applies to the first code alone. */
  predicate UpdateGuard(earlier: RuleCode, later: RuleCode, namesDiffer: bool) {
    (if CodeValue(earlier) == 0 then 1 else 0) == CodeValue(later) && namesDiffer
  }

  function WithoutAt<T>(s: seq<T>, i: nat): seq<T>
    requires i < |s|
  {
    s[..i] + s[i + 1..]
  }

  /** One step of thread `t`; an action that is not possible leaves the state alone. */
  function Step(s: State, t: nat, a: Action): State {
    if a.Spawn? then s.(threads := s.threads + [Thread(Idle, None)])
    else if s.halted || t >= |s.threads| then s
    else if s.threads[t].doomed.Some? then (if a.FreeDoomed? then Free(s, t) else s)
    else match s.threads[t].pc
      case Idle => StepIdle(s, t, a)
      case Unwinding(todo, post) => if a.DropNext? then Unwind(s, t, todo, post) else s
      case LookedUp(f, r) => if a.Reference? then TakeReference(s, t, r, Rereading(f, r)) else s
      case Rereading(f, r) => if a.ReadAgain? then ReadEntry(s, t, r, PreCreating(f, r)) else s
      case PreCreating(f, r) => if a.DecideCreate? then FinishPreCreate(s, t, f, r, a.x) else s
      case AwaitingPost(f, r) => if a.StartPost? then Move(s, t, PostCreating(f, r)) else s
      case PostCreating(f, r) => StepPost(s, t, f, r, a)
      case Allocated(f, r, c) => if a.SetContext? then Publish(s, t, f, r, c, a.ok) else s
      case Published(f, r, c) =>
        if a.StoreName? && c < |s.contexts| then
          Move(s.(contexts := s.contexts[c := s.contexts[c].(named := true)]), t, Named(f, r, c))
        else s
      case Named(f, r, c) =>
        if a.ReferenceAgain? && r < |s.rules| then Move(AddRef(s, r, 1), t, Referenced(f, r, c)) else s
      case Referenced(f, r, c) =>
        if a.StoreRule? && c < |s.contexts| then
          Move(Note(s.(contexts := s.contexts[c := s.contexts[c].(rule := Some(r))]), Opened(f, Through(c))), t,
               Unwinding([DropContext(c), DropRule(r)], None))
        else s
      case LostRace(f, r, c, other) => if a.CompareRules? then Compare(s, t, f, r, c, other, a.namesDiffer) else s
      case _ => StepOperation(s, t, a)
  }

  function StepIdle(s: State, t: nat, a: Action): State
    requires t < |s.threads|
  {
    match a
    case AddRule(code) =>
      if ValidRuleCode(code) then
        s.(rules := s.rules + [RuleCell(code, 1, 0, 0)], list := [|s.rules|] + s.list)
      else s
    case Unlink(i) =>
      if i < |s.list| then
        Move(s.(list := WithoutAt(s.list, i)), t, Unwinding([DropRule(s.list[i]), FreeEntry(s.list[i])], None))
      else s
    case LookUp(f, matches) =>
      var found := FirstMatching(s.list, matches);
      if f < |s.files| && found.Some? then Move(s, t, LookedUp(f, found.value)) else s
    case FetchContext(f, op) =>
      if f < |s.files| && s.files[f].Some? && s.files[f].value < |s.contexts| then
        var c := s.files[f].value;
        Move(AddHolder(s, c, 1), t, Holding(c, op))
      else s
    case Detach(f) =>
      if f < |s.files| && s.files[f].Some? then
        Move(s.(files := s.files[f := None]), t, Unwinding([DropContext(s.files[f].value)], None))
      else s
    case _ => s
  }

  /** The rest of pre-create: the completion context takes a reference of its own when the
      create goes on with a callback; the local one is dropped either way. */
  function FinishPreCreate(s: State, t: nat, f: nat, r: nat, x: CreateInputs): (n: State)
    requires t < |s.threads|
    ensures n.files == s.files
  {
    if r >= |s.rules| then s
    else if CreateDecision(Some(s.rules[r].code), x).result == WithCallback then
      Move(AddRef(s, r, 1), t, Unwinding([DropRule(r)], Some((f, r))))
    else Move(s, t, Unwinding([DropRule(r)], None))
  }

  /** Draining, a failed open, a failed context query or a failed allocation. */
  predicate GivesUp(x: PostInputs) {
    x.draining || !x.openOk || x.query == ContextFailed || (x.query == ContextMissing && x.allocate != Success)
  }

  function StepPost(s: State, t: nat, f: nat, r: nat, a: Action): (n: State)
    requires t < |s.threads|
    ensures n.files == s.files
  {
    match a
    case GiveUpPost(x) =>
      if GivesUp(x) then
        Move(Note(s, Opened(f, if Cancels(x) then Cancelled else NotOpened)), t, Unwinding([DropRule(r)], None))
      else s
    case FindContext =>
      if f < |s.files| && s.files[f].Some? && s.files[f].value < |s.contexts| then
        var c := s.files[f].value;
        Move(AddHolder(Note(s, Opened(f, Through(c))), c, 1), t, Unwinding([DropContext(c), DropRule(r)], None))
      else s
    case AllocateContext =>
      Move(s.(contexts := s.contexts + [FileContext(false, None, 1, t)]), t, Allocated(f, r, |s.contexts|))
    case _ => s
  }

  /** FltSetFileContext, keeping an existing context. */
  function Publish(s: State, t: nat, f: nat, r: nat, c: nat, ok: bool): State
    requires t < |s.threads|
  {
    if f >= |s.files| || c >= |s.contexts| then s
    else if !ok then Move(Note(s, Opened(f, Cancelled)), t, Unwinding([DropContext(c), DropRule(r)], None))
    else match s.files[f]
      case None => Move(AddHolder(s.(files := s.files[f := Some(c)]), c, 1), t, Published(f, r, c))
      case Some(other) =>
        if other < |s.contexts| then Move(AddHolder(s, other, 1), t, LostRace(f, r, c, other)) else s
  }

  /** The comparison after a lost race reads the other context's rule without testing it; a
      null rule there stops the machine. The open is cancelled in any case. */
  function Compare(s: State, t: nat, f: nat, r: nat, c: nat, other: nat, namesDiffer: bool): (n: State)
    requires t < |s.threads|
    ensures n.files == s.files
  {
    if other >= |s.contexts| || r >= |s.rules| then s
    else match s.contexts[other].rule
      case None => s.(halted := true)
      case Some(present) =>
        if present >= |s.rules| then s
        else if UpdateGuard(s.rules[present].code, s.rules[r].code, namesDiffer) then
          Move(AddRef(Note(s.(contexts := s.contexts[other := s.contexts[other].(rule := Some(r))]),
                           Opened(f, Cancelled)), r, 1), t,
               Unwinding([DropRule(present), DropContext(other), DropContext(c), DropRule(r)], None))
        else Move(Note(s, Opened(f, Cancelled)), t, Unwinding([DropContext(other), DropContext(c), DropRule(r)], None))
  }

  function StepOperation(s: State, t: nat, a: Action): (n: State)
    requires t < |s.threads|
    ensures n.files == s.files
  {
    match s.threads[t].pc
    case Holding(c, op) =>
      if a.TestRule? && c < |s.contexts| then
        match s.contexts[c].rule
        case None =>
          Move(Note(s, Operated(c, op, OperationDecision(op, FoundContext(None),
                                                         OperationInputs(Success, Success, None, Success)))),
               t, Unwinding([DropContext(c)], None))
        case Some(r) => Move(s, t, Deciding(c, op, r))
      else s
    case Deciding(c, op, r) =>
      if r >= |s.rules| then s
      else if a.MatchTarget? && op == Rename && FirstMatching(s.list, a.matches).Some? then
        Move(s, t, TargetFound(c, op, r, FirstMatching(s.list, a.matches).value))
      else if a.Decide? && a.inputs.matched.None? then
        Move(Note(s, Operated(c, op, OperationDecision(op, FoundContext(Some(s.rules[r].code)), a.inputs))),
             t, Unwinding([DropContext(c)], None))
      else s
    case TargetFound(c, op, r, target) =>
      if a.Reference? then TakeReference(s, t, target, TargetReread(c, op, r, target)) else s
    case TargetReread(c, op, r, target) =>
      if a.ReadAgain? then ReadEntry(s, t, target, Renaming(c, op, r, target)) else s
    case Renaming(c, op, r, target) =>
      if a.Decide? && r < |s.rules| && target < |s.rules| then
        var x := a.inputs.(matched := Some(s.rules[target].code));
        Move(Note(s, Operated(c, op, OperationDecision(op, FoundContext(Some(s.rules[r].code)), x))),
             t, Unwinding([DropRule(target), DropContext(c)], None))
      else s
    case _ => s
  }

  function Note(s: State, o: Outcome): State {
    s.(outcomes := s.outcomes + [o])
  }

  /** What the last holder of a context has to release for it. */
  function CleanupOf(x: FileContext): seq<Drop> {
    if x.holders == 1 && x.rule.Some? then [DropRule(x.rule.value)] else []
  }

  /** Release the next thing on the list. The last holder of a context runs its cleanup,
      which drops the context's rule. */
  function Unwind(s: State, t: nat, todo: seq<Drop>, post: Option<(nat, nat)>): (n: State)
    requires t < |s.threads|
    ensures n.files == s.files
  {
    if todo == [] then
      Move(s, t, match post case None => Idle case Some(p) => AwaitingPost(p.0, p.1))
    else match todo[0]
      case DropRule(r) =>
        if r >= |s.rules| then s
        else
          var moved := Move(AddRef(s, r, -1), t, Unwinding(todo[1..], post));
          if s.rules[r].refs == 1 then
            moved.(threads := moved.threads[t := moved.threads[t].(doomed := Some(r))])
          else moved
      case DropContext(c) =>
        if c >= |s.contexts| then s
        else
          var fewer := AddHolder(s, c, -1);
          var named := s.contexts[c].named && s.contexts[c].holders != 1;
          var left := fewer.(contexts := fewer.contexts[c := fewer.contexts[c].(named := named)]);
          Move(left, t, Unwinding(CleanupOf(s.contexts[c]) + todo[1..], post))
      case FreeEntry(r) =>
        if r >= |s.rules| then s
        else
          Move(s.(rules := s.rules[r := s.rules[r].(entryFrees := s.rules[r].entryFrees + 1)]), t,
               Unwinding(todo[1..], post))
  }

  function Free(s: State, t: nat): State
    requires t < |s.threads| && s.threads[t].doomed.Some?
  {
    var r := s.threads[t].doomed.value;
    if r >= |s.rules| then s
    else s.(rules := s.rules[r := s.rules[r].(frees := s.rules[r].frees + 1)],
            threads := s.threads[t := s.threads[t].(doomed := None)])
  }

  /** A run: any sequence of steps by any threads. */
  function Run(s: State, steps: seq<(nat, Action)>): State
    decreases |steps|
  {
    if steps == [] then s else Run(Step(s, steps[0].0, steps[0].1), steps[1..])
  }

  // ---- Who holds what ----

  function HeldBy(pc: Pc, r: nat): nat {
    match pc
    case Rereading(_, r') => One(r == r')
    case PreCreating(_, r') => One(r == r')
    case AwaitingPost(_, r') => One(r == r')
    case PostCreating(_, r') => One(r == r')
    case Allocated(_, r', _) => One(r == r')
    case Published(_, r', _) => One(r == r')
    case Named(_, r', _) => One(r == r')
    case Referenced(_, r', _) => 2 * One(r == r')
    case LostRace(_, r', _, _) => One(r == r')
    case TargetReread(_, _, _, target) => One(r == target)
    case Renaming(_, _, _, target) => One(r == target)
    case Unwinding(todo, post) => Sum(todo, DropsRule(r)) + One(post.Some? && post.value.1 == r)
    case _ => 0
  }

  function Holds(pc: Pc, c: nat): nat {
    match pc
    case Allocated(_, _, c') => One(c == c')
    case Published(_, _, c') => One(c == c')
    case Named(_, _, c') => One(c == c')
    case Referenced(_, _, c') => One(c == c')
    case LostRace(_, _, c', other) => One(c == c') + One(c == other)
    case Holding(c', _) => One(c == c')
    case Deciding(c', _, _) => One(c == c')
    case TargetFound(c', _, _, _) => One(c == c')
    case TargetReread(c', _, _, _) => One(c == c')
    case Renaming(c', _, _, _) => One(c == c')
    case Unwinding(todo, _) => Sum(todo, DropsContext(c))
    case _ => 0
  }

  /** Whether the entry of rule `r` is still to be freed by this thread. */
  function FreesOf(pc: Pc, r: nat): nat {
    if pc.Unwinding? then Sum(pc.todo, FreesEntry(r)) else 0
  }

  function One(b: bool): nat {
    if b then 1 else 0
  }

  function DropsRule(r: nat): Drop -> nat { (d: Drop) => One(d == DropRule(r)) }
  function DropsContext(c: nat): Drop -> nat { (d: Drop) => One(d == DropContext(c)) }
  function FreesEntry(r: nat): Drop -> nat { (d: Drop) => One(d == FreeEntry(r)) }
  function ThreadFrees(r: nat): Thread -> nat { (t: Thread) => FreesOf(t.pc, r) }
  function ThreadHolds(r: nat): Thread -> nat { (t: Thread) => HeldBy(t.pc, r) }
  function ThreadDooms(r: nat): Thread -> nat { (t: Thread) => One(t.doomed == Some(r)) }
  function ThreadUses(c: nat): Thread -> nat { (t: Thread) => Holds(t.pc, c) }
  function Carries(r: nat): FileContext -> nat { (x: FileContext) => One(x.holders > 0 && x.rule == Some(r)) }
  function Attached(c: nat): Option<nat> -> nat { (f: Option<nat>) => One(f == Some(c)) }

  /** All references to rule `r`: from the list, from live file contexts, and from threads,
      completion contexts included. */
  function References(s: State, r: nat): nat {
    One(r in s.list) + Sum(s.contexts, Carries(r)) + Sum(s.threads, ThreadHolds(r))
  }

  function Holders(s: State, c: nat): nat {
    Sum(s.files, Attached(c)) + Sum(s.threads, ThreadUses(c))
  }

  // ---- The invariant ----

  ghost predicate RuleCounted(s: State, r: nat)
    requires r < |s.rules|
  {
    && s.rules[r].refs == References(s, r)
    && s.rules[r].frees + Sum(s.threads, ThreadDooms(r)) == One(s.rules[r].refs == 0)
    && s.rules[r].entryFrees + Sum(s.threads, ThreadFrees(r)) + One(r in s.list) == 1
    && ValidRuleCode(s.rules[r].code)
  }

  predicate Readonly(s: State, r: nat) {
    r < |s.rules| && s.rules[r].code.major == RULE_MAJOR_READONLY
  }

  /** A context whose creator, thread `t`, has not stored a rule into it yet. */
  predicate Unfinished(s: State, t: nat, r: nat, c: nat) {
    Readonly(s, r) && c < |s.contexts| && s.contexts[c].creator == t && s.contexts[c].rule == None
  }

  ghost predicate DropOk(s: State, d: Drop) {
    match d
    case DropRule(r) => r < |s.rules|
    case DropContext(c) => c < |s.contexts|
    case FreeEntry(r) => r < |s.rules|
  }

  ghost predicate ThreadOk(s: State, t: nat)
    requires t < |s.threads|
  {
    && (s.threads[t].doomed.Some? ==> s.threads[t].doomed.value < |s.rules|)
    && match s.threads[t].pc
       case Idle => true
       case LookedUp(_, r) => r < |s.rules|
       case Rereading(_, r) => r < |s.rules|
       case PreCreating(_, r) => r < |s.rules|
       case AwaitingPost(_, r) => Readonly(s, r)
       case PostCreating(_, r) => Readonly(s, r)
       case Allocated(_, r, c) => Unfinished(s, t, r, c)
       case Published(_, r, c) => Unfinished(s, t, r, c)
       case Named(_, r, c) => Unfinished(s, t, r, c) && s.contexts[c].named
       case Referenced(_, r, c) => Unfinished(s, t, r, c) && s.contexts[c].named
       case LostRace(_, r, c, other) => Unfinished(s, t, r, c) && other < |s.contexts|
       case Holding(c, _) => c < |s.contexts|
       case Deciding(c, _, r) => c < |s.contexts| && s.contexts[c].rule == Some(r)
       case TargetFound(c, _, r, target) => c < |s.contexts| && s.contexts[c].rule == Some(r) && target < |s.rules|
       case TargetReread(c, _, r, target) => c < |s.contexts| && s.contexts[c].rule == Some(r) && target < |s.rules|
       case Renaming(c, _, r, target) => c < |s.contexts| && s.contexts[c].rule == Some(r) && target < |s.rules|
       case Unwinding(todo, post) =>
         && (forall k :: 0 <= k < |todo| ==> DropOk(s, todo[k]))
         && (post.Some? ==> Readonly(s, post.value.1))
  }

  /** A context's rule is known and readonly, and while the context lives its name was stored
      before the rule. */
  ghost predicate ContextOk(s: State, c: nat)
    requires c < |s.contexts|
  {
    var x := s.contexts[c];
    && x.holders == Holders(s, c)
    && x.creator < |s.threads|
    && (x.rule.Some? ==> Readonly(s, x.rule.value) && (x.holders > 0 ==> x.named))
  }

  /** Rules are numbered as they are added, and added at the head. */
  ghost predicate NewestFirst(list: seq<nat>) {
    forall i, j :: 0 <= i < j < |list| ==> list[i] > list[j]
  }

  ghost predicate Inv(s: State) {
    && (forall r :: 0 <= r < |s.rules| ==> RuleCounted(s, r))
    && (forall t :: 0 <= t < |s.threads| ==> ThreadOk(s, t))
    && (forall c :: 0 <= c < |s.contexts| ==> ContextOk(s, c))
    && (forall i :: 0 <= i < |s.list| ==> s.list[i] < |s.rules|)
    && (forall f :: 0 <= f < |s.files| && s.files[f].Some? ==> s.files[f].value < |s.contexts|)
    && NewestFirst(s.list)
  }

  lemma Moved(ts: seq<Thread>, t: nat, x: Thread)
    requires t < |ts|
    ensures forall f: Thread -> nat {:trigger Sum(ts[t := x], f)} :: Sum(ts[t := x], f) + f(ts[t]) == Sum(ts, f) + f(x)
  {
    forall f: Thread -> nat ensures Sum(ts[t := x], f) + f(ts[t]) == Sum(ts, f) + f(x) {
      SumUpdate(ts, t, x, f);
    }
  }

  // ---- How one step changes the books ----

  /** The counts of rule `r` move with its holders when thread `t` becomes `x`. */
  ghost predicate RuleDelta(s: State, n: State, t: nat, x: Thread, r: nat)
    requires t < |s.threads| && r < |s.rules| == |n.rules|
  {
    && n.rules[r].code == s.rules[r].code
    && n.rules[r].refs - s.rules[r].refs ==
         One(r in n.list) - One(r in s.list)
         + Sum(n.contexts, Carries(r)) - Sum(s.contexts, Carries(r))
         + HeldBy(x.pc, r) - HeldBy(s.threads[t].pc, r)
    && n.rules[r].frees + One(x.doomed == Some(r)) + One(s.rules[r].refs == 0) ==
         s.rules[r].frees + One(s.threads[t].doomed == Some(r)) + One(n.rules[r].refs == 0)
    && n.rules[r].entryFrees + FreesOf(x.pc, r) + One(r in n.list) ==
         s.rules[r].entryFrees + FreesOf(s.threads[t].pc, r) + One(r in s.list)
  }

  /** The holders of context `c` move with its count; a stored rule stays, a rule is stored
      only by the creator, and the name goes only with the last holder, which is `t`. */
  ghost predicate ContextDelta(s: State, n: State, t: nat, x: Thread, c: nat)
    requires t < |s.threads| && c < |s.contexts| == |n.contexts|
  {
    var was, now := s.contexts[c], n.contexts[c];
    && now.creator == was.creator
    && (was.rule.Some? || was.creator != t ==> now.rule == was.rule)
    && (was.named && !now.named ==> was.holders == 1 && now.holders == 0 && Holds(s.threads[t].pc, c) > 0)
    && now.holders - was.holders ==
         Sum(n.files, Attached(c)) - Sum(s.files, Attached(c)) + Holds(x.pc, c) - Holds(s.threads[t].pc, c)
  }

  lemma OthersKept(s: State, n: State, t: nat, x: Thread, i: nat)
    requires Inv(s) && t < |s.threads| && i < |s.threads| && i != t
    requires n.threads == s.threads[t := x]
    requires |n.rules| == |s.rules| && forall r :: 0 <= r < |s.rules| ==> RuleDelta(s, n, t, x, r)
    requires |n.contexts| == |s.contexts| && forall c :: 0 <= c < |s.contexts| ==> ContextDelta(s, n, t, x, c)
    ensures ThreadOk(n, i)
  {
    hide Sum;
    assert ThreadOk(s, i);
    forall r | 0 <= r < |s.rules| ensures n.rules[r].code == s.rules[r].code { assert RuleDelta(s, n, t, x, r); }
    forall c | 0 <= c < |s.contexts|
      ensures n.contexts[c].creator == s.contexts[c].creator
      ensures s.contexts[c].rule.Some? || s.contexts[c].creator != t ==> n.contexts[c].rule == s.contexts[c].rule
    {
      assert ContextDelta(s, n, t, x, c);
    }
    var pc := s.threads[i].pc;
    if pc.Named? || pc.Referenced? {
      var c := pc.c;
      assert ContextDelta(s, n, t, x, c) && ContextOk(s, c);
      if i < t {
        SumAtLeastTwo(s.threads, i, t, ThreadUses(c));
      } else {
        SumAtLeastTwo(s.threads, t, i, ThreadUses(c));
      }
    } else if pc.Unwinding? {
      forall k | 0 <= k < |pc.todo| ensures DropOk(n, pc.todo[k]) {
        assert DropOk(s, pc.todo[k]);
      }
    }
  }

  /** A step that moves one thread and balances the books keeps the invariant. */
  lemma Kept(s: State, n: State, t: nat, x: Thread)
    requires Inv(s) && t < |s.threads| && n.threads == s.threads[t := x]
    requires |n.rules| == |s.rules| && forall r :: 0 <= r < |s.rules| ==> RuleDelta(s, n, t, x, r)
    requires |n.contexts| == |s.contexts| && forall c :: 0 <= c < |s.contexts| ==> ContextDelta(s, n, t, x, c)
    requires ThreadOk(n, t)
    requires forall c :: 0 <= c < |s.contexts| ==> RuleNamed(n, c)
    requires forall i :: 0 <= i < |n.list| ==> n.list[i] < |n.rules|
    requires NewestFirst(n.list)
    requires forall f :: 0 <= f < |n.files| && n.files[f].Some? ==> n.files[f].value < |n.contexts|
    ensures Inv(n)
  {
    hide Sum;
    Moved(s.threads, t, x);
    forall r | 0 <= r < |n.rules| ensures RuleCounted(n, r) {
      assert RuleCounted(s, r) && RuleDelta(s, n, t, x, r);
      assert Sum(n.threads, ThreadHolds(r)) + HeldBy(s.threads[t].pc, r) ==
             Sum(s.threads, ThreadHolds(r)) + HeldBy(x.pc, r);
      assert Sum(n.threads, ThreadDooms(r)) + One(s.threads[t].doomed == Some(r)) ==
             Sum(s.threads, ThreadDooms(r)) + One(x.doomed == Some(r));
      assert Sum(n.threads, ThreadFrees(r)) + FreesOf(s.threads[t].pc, r) ==
             Sum(s.threads, ThreadFrees(r)) + FreesOf(x.pc, r);
    }
    forall c | 0 <= c < |n.contexts| ensures ContextOk(n, c) {
      assert ContextOk(s, c) && ContextDelta(s, n, t, x, c) && RuleNamed(n, c);
      assert Sum(n.threads, ThreadUses(c)) + Holds(s.threads[t].pc, c) ==
             Sum(s.threads, ThreadUses(c)) + Holds(x.pc, c);
    }
    forall i | 0 <= i < |n.threads| ensures ThreadOk(n, i) {
      if i != t { OthersKept(s, n, t, x, i); }
    }
  }

  ghost predicate RuleNamed(s: State, c: nat)
    requires c < |s.contexts|
  {
    s.contexts[c].rule.Some? ==>
      Readonly(s, s.contexts[c].rule.value) && (s.contexts[c].holders > 0 ==> s.contexts[c].named)
  }

  // ---- Every step keeps the invariant ----

  /** A list of at most four drops, counted. */
  lemma CountDrops(todo: seq<Drop>)
    requires |todo| <= 4
    ensures forall r: nat :: Sum(todo, DropsRule(r)) == CountFour(todo, DropsRule(r))
    ensures forall c: nat :: Sum(todo, DropsContext(c)) == CountFour(todo, DropsContext(c))
    ensures forall r: nat :: Sum(todo, FreesEntry(r)) == CountFour(todo, FreesEntry(r))
  {
    forall f: Drop -> nat ensures Sum(todo, f) == CountFour(todo, f) {
      if |todo| > 1 { assert todo[1..][1..] == todo[2..] && Sum(todo[1..], f) == f(todo[1]) + Sum(todo[2..], f); }
      if |todo| > 2 { assert todo[2..][1..] == todo[3..] && Sum(todo[2..], f) == f(todo[2]) + Sum(todo[3..], f); }
      if |todo| > 3 { assert todo[3..][1..] == [] && Sum(todo[3..], f) == f(todo[3]); }
    }
  }

  function CountFour(todo: seq<Drop>, f: Drop -> nat): nat {
    (if |todo| > 0 then f(todo[0]) else 0) + (if |todo| > 1 then f(todo[1]) else 0)
    + (if |todo| > 2 then f(todo[2]) else 0) + (if |todo| > 3 then f(todo[3]) else 0)
  }

  /** Steps that change nothing but one thread's program counter and the log. */
  lemma MoveKeeps(s: State, t: nat, pc: Pc, log: seq<Outcome>)
    requires Inv(s) && t < |s.threads|
    requires var n := Move(s.(outcomes := log), t, pc);
             && ThreadOk(n, t)
             && (forall r: nat ::
                   HeldBy(pc, r) == HeldBy(s.threads[t].pc, r) && FreesOf(pc, r) == FreesOf(s.threads[t].pc, r))
             && (forall c: nat :: Holds(pc, c) == Holds(s.threads[t].pc, c))
    ensures Inv(Move(s.(outcomes := log), t, pc))
  {
    hide Sum;
    var n := Move(s.(outcomes := log), t, pc);
    forall c | 0 <= c < |s.contexts| ensures RuleNamed(n, c) { assert ContextOk(s, c); }
    Kept(s, n, t, n.threads[t]);
  }

  /** Steps that also take references to one rule. */
  lemma ReferenceKeeps(s: State, t: nat, r: nat, pc: Pc)
    requires Inv(s) && t < |s.threads| && r < |s.rules| && s.rules[r].refs > 0
    requires var n := Move(AddRef(s, r, 1), t, pc);
             && ThreadOk(n, t)
             && (forall q: nat :: HeldBy(pc, q) == HeldBy(s.threads[t].pc, q) + One(q == r)
                                && FreesOf(pc, q) == FreesOf(s.threads[t].pc, q))
             && (forall c: nat :: Holds(pc, c) == Holds(s.threads[t].pc, c))
    ensures Inv(Move(AddRef(s, r, 1), t, pc))
  {
    hide Sum;
    var n := Move(AddRef(s, r, 1), t, pc);
    forall c | 0 <= c < |s.contexts| ensures RuleNamed(n, c) { assert ContextOk(s, c); }
    Kept(s, n, t, n.threads[t]);
  }

  /** Steps that fetch a context. */
  lemma FetchKeeps(s: State, t: nat, c: nat, pc: Pc, log: seq<Outcome>)
    requires Inv(s) && t < |s.threads| && c < |s.contexts| && s.contexts[c].holders > 0
    requires var n := Move(AddHolder(s.(outcomes := log), c, 1), t, pc);
             && ThreadOk(n, t)
             && (forall r: nat ::
                   HeldBy(pc, r) == HeldBy(s.threads[t].pc, r) && FreesOf(pc, r) == FreesOf(s.threads[t].pc, r))
             && (forall d: nat :: Holds(pc, d) == Holds(s.threads[t].pc, d) + One(d == c))
    ensures Inv(Move(AddHolder(s.(outcomes := log), c, 1), t, pc))
  {
    hide Sum;
    var n := Move(AddHolder(s.(outcomes := log), c, 1), t, pc);
    forall r | 0 <= r < |s.rules| ensures RuleDelta(s, n, t, n.threads[t], r) {
      SumUpdate(s.contexts, c, n.contexts[c], Carries(r));
    }
    forall d | 0 <= d < |s.contexts| ensures RuleNamed(n, d) { assert ContextOk(s, d); }
    Kept(s, n, t, n.threads[t]);
  }

  lemma ListedIsReferenced(s: State, i: nat)
    requires Inv(s) && i < |s.list|
    ensures s.rules[s.list[i]].refs > 0
  {
    var r := s.list[i];
    assert RuleCounted(s, r);
  }

  lemma HeldIsReferenced(s: State, t: nat, r: nat)
    requires Inv(s) && t < |s.threads| && r < |s.rules| && HeldBy(s.threads[t].pc, r) > 0
    ensures s.rules[r].refs > 0
  {
    assert RuleCounted(s, r);
    SumAtLeast(s.threads, t, ThreadHolds(r));
  }

  lemma CarriedIsReferenced(s: State, c: nat)
    requires Inv(s) && c < |s.contexts| && s.contexts[c].holders > 0 && s.contexts[c].rule.Some?
    ensures s.contexts[c].rule.value < |s.rules| && s.rules[s.contexts[c].rule.value].refs > 0
  {
    var r := s.contexts[c].rule.value;
    assert ContextOk(s, c) && RuleCounted(s, r);
    SumAtLeast(s.contexts, c, Carries(r));
  }

  lemma AttachedIsHeld(s: State, f: nat)
    requires Inv(s) && f < |s.files| && s.files[f].Some?
    ensures s.contexts[s.files[f].value].holders > 0
  {
    var c := s.files[f].value;
    assert ContextOk(s, c);
    SumAtLeast(s.files, f, Attached(c));
  }

  lemma UsedIsHeld(s: State, t: nat, c: nat)
    requires Inv(s) && t < |s.threads| && c < |s.contexts| && Holds(s.threads[t].pc, c) > 0
    ensures s.contexts[c].holders > 0
  {
    assert ContextOk(s, c);
    SumAtLeast(s.threads, t, ThreadUses(c));
  }

  lemma SpawnKeeps(s: State, x: Thread)
    requires Inv(s) && x == Thread(Idle, None)
    ensures Inv(s.(threads := s.threads + [x]))
  {
    var n := s.(threads := s.threads + [x]);
    forall f: Thread -> nat ensures Sum(n.threads, f) == Sum(s.threads, f) + f(x) {
      SumConcat(s.threads, [x], f);
      SumOne(x, f);
    }
    forall r | 0 <= r < |n.rules| ensures RuleCounted(n, r) {
      assert RuleCounted(s, r);
      assert Sum(n.threads, ThreadHolds(r)) == Sum(s.threads, ThreadHolds(r));
      assert Sum(n.threads, ThreadDooms(r)) == Sum(s.threads, ThreadDooms(r));
      assert Sum(n.threads, ThreadFrees(r)) == Sum(s.threads, ThreadFrees(r));
    }
    forall c | 0 <= c < |n.contexts| ensures ContextOk(n, c) {
      assert ContextOk(s, c);
      assert Sum(n.threads, ThreadUses(c)) == Sum(s.threads, ThreadUses(c));
    }
    forall i | 0 <= i < |n.threads| ensures ThreadOk(n, i) {
      if i < |s.threads| { SameThreadOk(s, n, i); }
    }
  }

  /** Growing the state does not disturb a thread. */
  lemma SameThreadOk(s: State, n: State, i: nat)
    requires i < |s.threads| <= |n.threads| && ThreadOk(s, i) && n.threads[i] == s.threads[i]
    requires s.rules <= n.rules && s.contexts <= n.contexts
    ensures ThreadOk(n, i)
  {
    var pc := s.threads[i].pc;
    if pc.Unwinding? {
      forall k | 0 <= k < |pc.todo| ensures DropOk(n, pc.todo[k]) { assert DropOk(s, pc.todo[k]); }
    }
  }

  lemma NobodyHoldsYet(s: State, r: nat)
    requires Inv(s) && r >= |s.rules|
    ensures References(s, r) == 0 && Sum(s.threads, ThreadDooms(r)) == 0 && Sum(s.threads, ThreadFrees(r)) == 0
  {
    forall c | 0 <= c < |s.contexts| ensures Carries(r)(s.contexts[c]) == 0 { assert ContextOk(s, c); }
    SumZero(s.contexts, Carries(r));
    forall t | 0 <= t < |s.threads|
      ensures ThreadHolds(r)(s.threads[t]) == 0 && ThreadDooms(r)(s.threads[t]) == 0 &&
              ThreadFrees(r)(s.threads[t]) == 0
    {
      assert ThreadOk(s, t);
      if s.threads[t].pc.Unwinding? {
        var todo := s.threads[t].pc.todo;
        forall k | 0 <= k < |todo| ensures DropsRule(r)(todo[k]) == 0 && FreesEntry(r)(todo[k]) == 0 {
          assert DropOk(s, todo[k]);
        }
        SumZero(todo, DropsRule(r));
        SumZero(todo, FreesEntry(r));
      }
    }
    SumZero(s.threads, ThreadHolds(r));
    SumZero(s.threads, ThreadDooms(r));
    SumZero(s.threads, ThreadFrees(r));
  }

  lemma NobodyUsesYet(s: State, c: nat)
    requires Inv(s) && c == |s.contexts|
    ensures Holders(s, c) == 0
  {
    SumZero(s.files, Attached(c));
    forall t | 0 <= t < |s.threads| ensures ThreadUses(c)(s.threads[t]) == 0 {
      assert ThreadOk(s, t);
      if s.threads[t].pc.Unwinding? {
        var todo := s.threads[t].pc.todo;
        forall k | 0 <= k < |todo| ensures DropsContext(c)(todo[k]) == 0 { assert DropOk(s, todo[k]); }
        SumZero(todo, DropsContext(c));
      }
    }
    SumZero(s.threads, ThreadUses(c));
  }

  lemma AddRuleKeeps(s: State, code: RuleCode)
    requires Inv(s) && ValidRuleCode(code)
    ensures Inv(s.(rules := s.rules + [RuleCell(code, 1, 0, 0)], list := [|s.rules|] + s.list))
  {
    var id: nat := |s.rules|;
    var first: seq<nat> := [id];
    var n := s.(rules := s.rules + [RuleCell(code, 1, 0, 0)], list := first + s.list);
    NobodyHoldsYet(s, id);
    forall r | 0 <= r < |n.rules| ensures RuleCounted(n, r) {
      assert r in n.list <==> r == id || r in s.list;
      if r < id { assert RuleCounted(s, r); }
    }
    forall c | 0 <= c < |n.contexts| ensures ContextOk(n, c) { assert ContextOk(s, c); }
    forall i | 0 <= i < |n.threads| ensures ThreadOk(n, i) { SameThreadOk(s, n, i); }
  }

  lemma UnlinkKeeps(s: State, t: nat, i: nat)
    requires Inv(s) && t < |s.threads| && s.threads[t].pc.Idle? && i < |s.list|
    ensures Inv(Move(s.(list := WithoutAt(s.list, i)), t, Unwinding([DropRule(s.list[i]), FreeEntry(s.list[i])], None)))
  {
    hide Sum;
    var n := Move(s.(list := WithoutAt(s.list, i)), t, Unwinding([DropRule(s.list[i]), FreeEntry(s.list[i])], None));
    assert ThreadOk(s, t);
    CountDrops([DropRule(s.list[i]), FreeEntry(s.list[i])]);
    assert forall r :: r in n.list <==> r in s.list && r != s.list[i];
    forall c | 0 <= c < |s.contexts| ensures RuleNamed(n, c) { assert ContextOk(s, c); }
    Kept(s, n, t, n.threads[t]);
  }

  lemma DetachKeeps(s: State, t: nat, f: nat)
    requires Inv(s) && t < |s.threads| && s.threads[t].pc.Idle? && f < |s.files| && s.files[f].Some?
    ensures Inv(Move(s.(files := s.files[f := None]), t, Unwinding([DropContext(s.files[f].value)], None)))
  {
    hide Sum;
    var n := Move(s.(files := s.files[f := None]), t, Unwinding([DropContext(s.files[f].value)], None));
    assert ThreadOk(s, t);
    CountDrops([DropContext(s.files[f].value)]);
    forall c | 0 <= c < |s.contexts| ensures ContextDelta(s, n, t, n.threads[t], c) && RuleNamed(n, c) {
      assert ContextOk(s, c);
      SumUpdate(s.files, f, None, Attached(c));
    }
    Kept(s, n, t, n.threads[t]);
  }

  lemma AllocateKeeps(s: State, t: nat)
    requires Inv(s) && t < |s.threads| && s.threads[t].pc.PostCreating?
    ensures var pc := s.threads[t].pc;
            Inv(Move(s.(contexts := s.contexts + [FileContext(false, None, 1, t)]), t,
                     Allocated(pc.f, pc.r, |s.contexts|)))
  {
    hide Sum;
    var PostCreating(f, r) := s.threads[t].pc;
    var id := |s.contexts|;
    var made := FileContext(false, None, 1, t);
    var pc := Allocated(f, r, id);
    var n := Move(s.(contexts := s.contexts + [made]), t, pc);
    var x := n.threads[t];
    assert ThreadOk(s, t);
    NobodyUsesYet(s, id);
    Moved(s.threads, t, x);
    forall q | 0 <= q < |n.rules| ensures RuleCounted(n, q) {
      assert RuleCounted(s, q);
      SumConcat(s.contexts, [made], Carries(q));
      SumOne(made, Carries(q));
      assert Sum(n.threads, ThreadHolds(q)) == Sum(s.threads, ThreadHolds(q));
      assert Sum(n.threads, ThreadDooms(q)) == Sum(s.threads, ThreadDooms(q));
      assert Sum(n.threads, ThreadFrees(q)) == Sum(s.threads, ThreadFrees(q));
    }
    forall c | 0 <= c < |n.contexts| ensures ContextOk(n, c) {
      assert Sum(n.threads, ThreadUses(c)) == Sum(s.threads, ThreadUses(c)) + One(c == id);
      if c < id { assert ContextOk(s, c); }
    }
    forall i | 0 <= i < |n.threads| ensures ThreadOk(n, i) {
      if i != t { SameThreadOk(s, n, i); }
    }
  }

  lemma AttachKeeps(s: State, t: nat, f: nat, r: nat, c: nat)
    requires Inv(s) && t < |s.threads| && s.threads[t].pc == Allocated(f, r, c)
    requires f < |s.files| && s.files[f] == None && c < |s.contexts|
    ensures Inv(Move(AddHolder(s.(files := s.files[f := Some(c)]), c, 1), t, Published(f, r, c)))
  {
    hide Sum;
    var n := Move(AddHolder(s.(files := s.files[f := Some(c)]), c, 1), t, Published(f, r, c));
    assert ThreadOk(s, t);
    UsedIsHeld(s, t, c);
    forall q | 0 <= q < |s.rules| ensures RuleDelta(s, n, t, n.threads[t], q) {
      SumUpdate(s.contexts, c, n.contexts[c], Carries(q));
    }
    forall d | 0 <= d < |s.contexts| ensures ContextDelta(s, n, t, n.threads[t], d) && RuleNamed(n, d) {
      assert ContextOk(s, d);
      SumUpdate(s.files, f, Some(c), Attached(d));
    }
    Kept(s, n, t, n.threads[t]);
  }

  lemma StoreNameKeeps(s: State, t: nat, f: nat, r: nat, c: nat)
    requires Inv(s) && t < |s.threads| && s.threads[t].pc == Published(f, r, c) && c < |s.contexts|
    ensures Inv(Move(s.(contexts := s.contexts[c := s.contexts[c].(named := true)]), t, Named(f, r, c)))
  {
    hide Sum;
    var n := Move(s.(contexts := s.contexts[c := s.contexts[c].(named := true)]), t, Named(f, r, c));
    assert ThreadOk(s, t);
    forall q | 0 <= q < |s.rules| ensures RuleDelta(s, n, t, n.threads[t], q) {
      SumUpdate(s.contexts, c, n.contexts[c], Carries(q));
    }
    forall d | 0 <= d < |s.contexts| ensures ContextDelta(s, n, t, n.threads[t], d) && RuleNamed(n, d) {
      assert ContextOk(s, d);
    }
    Kept(s, n, t, n.threads[t]);
  }

  lemma StoreRuleKeeps(s: State, t: nat, f: nat, r: nat, c: nat)
    requires Inv(s) && t < |s.threads| && s.threads[t].pc == Referenced(f, r, c) && c < |s.contexts|
    ensures Inv(Move(Note(s.(contexts := s.contexts[c := s.contexts[c].(rule := Some(r))]), Opened(f, Through(c))), t,
                     Unwinding([DropContext(c), DropRule(r)], None)))
  {
    hide Sum;
    var todo := [DropContext(c), DropRule(r)];
    var n := Move(Note(s.(contexts := s.contexts[c := s.contexts[c].(rule := Some(r))]), Opened(f, Through(c))), t,
                  Unwinding(todo, None));
    assert ThreadOk(s, t);
    UsedIsHeld(s, t, c);
    CountDrops(todo);
    forall q | 0 <= q < |s.rules| ensures RuleDelta(s, n, t, n.threads[t], q) {
      SumUpdate(s.contexts, c, n.contexts[c], Carries(q));
    }
    forall d | 0 <= d < |s.contexts| ensures ContextDelta(s, n, t, n.threads[t], d) && RuleNamed(n, d) {
      assert ContextOk(s, d);
    }
    Kept(s, n, t, n.threads[t]);
  }

  lemma DropRuleRules(s: State, n: State, t: nat, r: nat, rest: seq<Drop>, post: Option<(nat, nat)>, q: nat)
    requires t < |s.threads| && r < |s.rules| && s.rules[r].refs > 0 && q < |s.rules|
    requires s.threads[t] == Thread(Unwinding([DropRule(r)] + rest, post), None)
    requires n == Unwind(s, t, [DropRule(r)] + rest, post)
    ensures RuleDelta(s, n, t, n.threads[t], q)
  {
    hide Sum;
    var todo := [DropRule(r)] + rest;
    assert todo[1..] == rest;
    SumCons(DropRule(r), rest, DropsRule(q));
    SumCons(DropRule(r), rest, FreesEntry(q));
    assert n.list == s.list && n.contexts == s.contexts &&
           n.rules == s.rules[r := s.rules[r].(refs := s.rules[r].refs - 1)];
    assert n.threads[t] == Thread(Unwinding(rest, post), if s.rules[r].refs == 1 then Some(r) else None);
    hide Unwind, CleanupOf;
    assert HeldBy(s.threads[t].pc, q) == One(q == r) + HeldBy(n.threads[t].pc, q);
    assert FreesOf(s.threads[t].pc, q) == FreesOf(n.threads[t].pc, q);
    hide HeldBy, FreesOf;
  }

  lemma DropRuleKeeps(s: State, t: nat, r: nat, rest: seq<Drop>, post: Option<(nat, nat)>)
    requires Inv(s) && t < |s.threads| && s.threads[t] == Thread(Unwinding([DropRule(r)] + rest, post), None)
    ensures Inv(Unwind(s, t, [DropRule(r)] + rest, post))
  {
    hide Sum, References, Holders, RuleDelta, ContextDelta;
    var todo := [DropRule(r)] + rest;
    var n := Unwind(s, t, todo, post);
    assert todo[1..] == rest && ThreadOk(s, t) && DropOk(s, todo[0]);
    SumCons(DropRule(r), rest, DropsRule(r));
    HeldIsReferenced(s, t, r);
    forall k | 0 <= k < |rest| ensures DropOk(n, rest[k]) { assert todo[k + 1] == rest[k] && DropOk(s, todo[k + 1]); }
    forall c | 0 <= c < |s.contexts| ensures RuleNamed(n, c) && ContextDelta(s, n, t, n.threads[t], c) {
      assert ContextOk(s, c);
      DropRuleContexts(s, n, t, r, rest, post, c);
    }
    forall q | 0 <= q < |s.rules| ensures RuleDelta(s, n, t, n.threads[t], q) {
      DropRuleRules(s, n, t, r, rest, post, q);
    }
    Kept(s, n, t, n.threads[t]);
  }

  lemma DropRuleContexts(s: State, n: State, t: nat, r: nat, rest: seq<Drop>, post: Option<(nat, nat)>, d: nat)
    requires t < |s.threads| && r < |s.rules| && d < |s.contexts|
    requires s.threads[t] == Thread(Unwinding([DropRule(r)] + rest, post), None)
    requires n == Unwind(s, t, [DropRule(r)] + rest, post)
    ensures ContextDelta(s, n, t, n.threads[t], d)
  {
    hide Sum;
    assert ([DropRule(r)] + rest)[1..] == rest;
    SumCons(DropRule(r), rest, DropsContext(d));
  }

  lemma DropContextRules(s: State, n: State, t: nat, c: nat, rest: seq<Drop>, post: Option<(nat, nat)>, q: nat)
    requires t < |s.threads| && c < |s.contexts| && s.contexts[c].holders > 0 && q < |s.rules|
    requires s.threads[t] == Thread(Unwinding([DropContext(c)] + rest, post), None)
    requires n == Unwind(s, t, [DropContext(c)] + rest, post)
    ensures RuleDelta(s, n, t, n.threads[t], q)
  {
    hide Sum;
    var cleanup := CleanupOf(s.contexts[c]);
    var todo := [DropContext(c)] + rest;
    assert todo[1..] == rest;
    CountDrops(cleanup);
    assert n.contexts == s.contexts[c := n.contexts[c]] && n.rules == s.rules && n.list == s.list;
    assert n.threads[t] == Thread(Unwinding(cleanup + rest, post), None);
    SumUpdate(s.contexts, c, n.contexts[c], Carries(q));
    SumConcat(cleanup, rest, DropsRule(q));
    SumConcat(cleanup, rest, FreesEntry(q));
    SumCons(DropContext(c), rest, DropsRule(q));
    SumCons(DropContext(c), rest, FreesEntry(q));
    assert FreesOf(n.threads[t].pc, q) == FreesOf(s.threads[t].pc, q);
    assert HeldBy(n.threads[t].pc, q) ==
           Sum(cleanup, DropsRule(q)) + Sum(rest, DropsRule(q)) + One(post.Some? && post.value.1 == q);
    assert Carries(q)(s.contexts[c]) == Carries(q)(n.contexts[c]) + Sum(cleanup, DropsRule(q));
  }

  lemma DropContextHolders(s: State, n: State, t: nat, c: nat, rest: seq<Drop>, post: Option<(nat, nat)>, d: nat)
    requires t < |s.threads| && c < |s.contexts| && s.contexts[c].holders > 0 && d < |s.contexts|
    requires s.threads[t] == Thread(Unwinding([DropContext(c)] + rest, post), None)
    requires n == Unwind(s, t, [DropContext(c)] + rest, post)
    ensures ContextDelta(s, n, t, n.threads[t], d)
  {
    hide Sum;
    var cleanup := CleanupOf(s.contexts[c]);
    var todo := [DropContext(c)] + rest;
    assert todo[1..] == rest;
    CountDrops(cleanup);
    SumConcat(cleanup, rest, DropsContext(d));
    SumCons(DropContext(c), rest, DropsContext(d));
  }

  lemma DropContextKeeps(s: State, t: nat, c: nat, rest: seq<Drop>, post: Option<(nat, nat)>)
    requires Inv(s) && t < |s.threads| && s.threads[t] == Thread(Unwinding([DropContext(c)] + rest, post), None)
    ensures Inv(Unwind(s, t, [DropContext(c)] + rest, post))
  {
    hide Sum;
    var todo := [DropContext(c)] + rest;
    var n := Unwind(s, t, todo, post);
    assert todo[1..] == rest && ThreadOk(s, t) && DropOk(s, todo[0]);
    SumCons(DropContext(c), rest, DropsContext(c));
    UsedIsHeld(s, t, c);
    assert ContextOk(s, c);
    var cleanup := CleanupOf(s.contexts[c]);
    forall k | 0 <= k < |cleanup + rest| ensures DropOk(n, (cleanup + rest)[k]) {
      if k >= |cleanup| { assert todo[k - |cleanup| + 1] == (cleanup + rest)[k] && DropOk(s, todo[k - |cleanup| + 1]); }
    }
    forall q | 0 <= q < |s.rules| ensures RuleDelta(s, n, t, n.threads[t], q) {
      DropContextRules(s, n, t, c, rest, post, q);
    }
    forall d | 0 <= d < |s.contexts| ensures ContextDelta(s, n, t, n.threads[t], d) && RuleNamed(n, d) {
      assert ContextOk(s, d);
      DropContextHolders(s, n, t, c, rest, post, d);
    }
    Kept(s, n, t, n.threads[t]);
  }

  lemma FreeEntryKeeps(s: State, t: nat, r: nat, rest: seq<Drop>, post: Option<(nat, nat)>)
    requires Inv(s) && t < |s.threads| && s.threads[t] == Thread(Unwinding([FreeEntry(r)] + rest, post), None)
    ensures Inv(Unwind(s, t, [FreeEntry(r)] + rest, post))
  {
    hide Sum;
    var todo := [FreeEntry(r)] + rest;
    var n := Unwind(s, t, todo, post);
    assert todo[1..] == rest && ThreadOk(s, t) && DropOk(s, todo[0]);
    forall k | 0 <= k < |rest| ensures DropOk(n, rest[k]) { assert todo[k + 1] == rest[k] && DropOk(s, todo[k + 1]); }
    forall c | 0 <= c < |s.contexts| ensures RuleNamed(n, c) { assert ContextOk(s, c); }
    forall q | 0 <= q < |s.rules| ensures RuleDelta(s, n, t, n.threads[t], q) {
      SumCons(FreeEntry(r), rest, FreesEntry(q));
      SumCons(FreeEntry(r), rest, DropsRule(q));
    }
    forall d | 0 <= d < |s.contexts| ensures ContextDelta(s, n, t, n.threads[t], d) {
      SumCons(FreeEntry(r), rest, DropsContext(d));
    }
    hide ContextDelta, RuleDelta, References, Holders, Unwind;
    Kept(s, n, t, n.threads[t]);
  }

  lemma FreeKeeps(s: State, t: nat)
    requires Inv(s) && t < |s.threads| && s.threads[t].doomed.Some?
    ensures Inv(Free(s, t))
  {
    hide Sum;
    var n := Free(s, t);
    var r := s.threads[t].doomed.value;
    assert ThreadOk(s, t) && RuleCounted(s, r);
    forall c | 0 <= c < |s.contexts| ensures RuleNamed(n, c) { assert ContextOk(s, c); }
    Kept(s, n, t, n.threads[t]);
  }

  lemma IdleKeeps(s: State, t: nat, a: Action)
    requires Inv(s) && t < |s.threads| && s.threads[t] == Thread(Idle, None)
    ensures Inv(StepIdle(s, t, a))
  {
    hide Sum;
    match a
    case AddRule(code) =>
      if ValidRuleCode(code) { AddRuleKeeps(s, code); }
    case Unlink(i) =>
      if i < |s.list| { UnlinkKeeps(s, t, i); }
    case LookUp(f, matches) =>
      var found := FirstMatching(s.list, matches);
      if f < |s.files| && found.Some? { MoveKeeps(s, t, LookedUp(f, found.value), s.outcomes); }
    case FetchContext(f, op) =>
      if f < |s.files| && s.files[f].Some? {
        var c := s.files[f].value;
        AttachedIsHeld(s, f);
        FetchKeeps(s, t, c, Holding(c, op), s.outcomes);
      }
    case Detach(f) =>
      if f < |s.files| && s.files[f].Some? { DetachKeeps(s, t, f); }
    case _ =>
  }

  lemma FinishPreCreateKeeps(s: State, t: nat, f: nat, r: nat, x: CreateInputs)
    requires Inv(s) && t < |s.threads| && s.threads[t] == Thread(PreCreating(f, r), None)
    ensures Inv(FinishPreCreate(s, t, f, r, x))
  {
    hide Sum;
    assert ThreadOk(s, t) && RuleCounted(s, r);
    HeldIsReferenced(s, t, r);
    CountDrops([DropRule(r)]);
    if CreateDecision(Some(s.rules[r].code), x).result == WithCallback {
      OnlyReadonlyPassesCreate(s.rules[r].code, x);
      ReferenceKeeps(s, t, r, Unwinding([DropRule(r)], Some((f, r))));
    } else {
      MoveKeeps(s, t, Unwinding([DropRule(r)], None), s.outcomes);
    }
  }

  lemma PostKeeps(s: State, t: nat, f: nat, r: nat, a: Action)
    requires Inv(s) && t < |s.threads| && s.threads[t] == Thread(PostCreating(f, r), None) && !s.halted
    ensures Inv(StepPost(s, t, f, r, a))
  {
    hide Sum;
    assert ThreadOk(s, t);
    match a
    case GiveUpPost(x) =>
      CountDrops([DropRule(r)]);
      if GivesUp(x) {
        MoveKeeps(s, t, Unwinding([DropRule(r)], None),
                  s.outcomes + [Opened(f, if Cancels(x) then Cancelled else NotOpened)]);
      }
    case FindContext =>
      if f < |s.files| && s.files[f].Some? {
        var c := s.files[f].value;
        AttachedIsHeld(s, f);
        CountDrops([DropContext(c), DropRule(r)]);
        FetchKeeps(s, t, c, Unwinding([DropContext(c), DropRule(r)], None), s.outcomes + [Opened(f, Through(c))]);
      }
    case AllocateContext => AllocateKeeps(s, t);
    case _ =>
  }

  lemma PublishKeeps(s: State, t: nat, f: nat, r: nat, c: nat, ok: bool)
    requires Inv(s) && t < |s.threads| && s.threads[t] == Thread(Allocated(f, r, c), None)
    ensures Inv(Publish(s, t, f, r, c, ok))
  {
    hide Sum;
    assert ThreadOk(s, t);
    if f < |s.files| {
      if !ok {
        CountDrops([DropContext(c), DropRule(r)]);
        MoveKeeps(s, t, Unwinding([DropContext(c), DropRule(r)], None), s.outcomes + [Opened(f, Cancelled)]);
      } else if s.files[f] == None {
        AttachKeeps(s, t, f, r, c);
      } else {
        AttachedIsHeld(s, f);
        FetchKeeps(s, t, s.files[f].value, LostRace(f, r, c, s.files[f].value), s.outcomes);
      }
    }
  }

  /** Stored codes are never zero, so the update branch of a lost race is dead code: a
      context's rule is set once. */
  lemma UpdateNeverTaken(earlier: RuleCode, later: RuleCode, namesDiffer: bool)
    requires ValidRuleCode(earlier) && ValidRuleCode(later)
    ensures !UpdateGuard(earlier, later, namesDiffer)
  {
  }

  lemma CompareKeeps(s: State, t: nat, f: nat, r: nat, c: nat, other: nat, namesDiffer: bool)
    requires Inv(s) && t < |s.threads| && s.threads[t] == Thread(LostRace(f, r, c, other), None)
    ensures Inv(Compare(s, t, f, r, c, other, namesDiffer))
  {
    hide Sum;
    assert ThreadOk(s, t) && ContextOk(s, other);
    if s.contexts[other].rule.Some? {
      var present := s.contexts[other].rule.value;
      assert RuleCounted(s, present) && RuleCounted(s, r);
      UpdateNeverTaken(s.rules[present].code, s.rules[r].code, namesDiffer);
      CountDrops([DropContext(other), DropContext(c), DropRule(r)]);
      MoveKeeps(s, t, Unwinding([DropContext(other), DropContext(c), DropRule(r)], None),
                s.outcomes + [Opened(f, Cancelled)]);
    } else {
      HaltKeeps(s);
    }
  }

  lemma HaltKeeps(s: State)
    requires Inv(s)
    ensures Inv(s.(halted := true))
  {
    var n := s.(halted := true);
    forall q | 0 <= q < |s.rules| ensures RuleCounted(n, q) { assert RuleCounted(s, q); }
    forall d | 0 <= d < |s.contexts| ensures ContextOk(n, d) { assert ContextOk(s, d); }
    forall i | 0 <= i < |s.threads| ensures ThreadOk(n, i) { SameThreadOk(s, n, i); }
  }

  /** The reference after a lookup, for a create or for the destination of a rename. */
  lemma TakeReferenceKeeps(s: State, t: nat, r: nat, pc: Pc)
    requires Inv(s) && t < |s.threads| && s.threads[t].doomed == None
    requires || (pc.Rereading? && s.threads[t].pc == LookedUp(pc.f, r) && pc.r == r)
             || (pc.TargetReread? && s.threads[t].pc == TargetFound(pc.c, pc.op, pc.r, r) && pc.target == r)
    ensures Inv(TakeReference(s, t, r, pc))
  {
    hide Sum;
    assert ThreadOk(s, t) && RuleCounted(s, r);
    if Gone(s, r) {
      HaltKeeps(s);
    } else {
      ReferenceKeeps(s, t, r, pc);
    }
  }

  /** The second read of the entry keeps what the reference took. */
  lemma ReadEntryKeeps(s: State, t: nat, r: nat, pc: Pc)
    requires Inv(s) && t < |s.threads| && s.threads[t].doomed == None
    requires || (pc.PreCreating? && s.threads[t].pc == Rereading(pc.f, r) && pc.r == r)
             || (pc.Renaming? && s.threads[t].pc == TargetReread(pc.c, pc.op, pc.r, r) && pc.target == r)
    ensures Inv(ReadEntry(s, t, r, pc))
  {
    hide Sum;
    assert ThreadOk(s, t) && RuleCounted(s, r);
    if s.rules[r].entryFrees > 0 {
      HaltKeeps(s);
    } else {
      MoveKeeps(s, t, pc, s.outcomes);
    }
  }

  /** A decision taken under the rule the context carries, after which the thread lets go of
      what `todo` lists. */
  lemma DecideKeeps(s: State, t: nat, r: nat, x: OperationInputs, todo: seq<Drop>)
    requires Inv(s) && t < |s.threads| && s.threads[t].doomed == None
    requires (s.threads[t].pc.Deciding? || s.threads[t].pc.Renaming?) && s.threads[t].pc.r == r
    requires todo == if s.threads[t].pc.Renaming?
                     then [DropRule(s.threads[t].pc.target), DropContext(s.threads[t].pc.c)]
                     else [DropContext(s.threads[t].pc.c)]
    ensures r < |s.rules|
    ensures var pc := s.threads[t].pc;
            Inv(Move(Note(s, Operated(pc.c, pc.op,
                                      OperationDecision(pc.op, FoundContext(Some(s.rules[r].code)), x))), t,
                     Unwinding(todo, None)))
  {
    hide Sum, OperationDecision, RuleDecision, References, Holders;
    var pc := s.threads[t].pc;
    assert ThreadOk(s, t) && ContextOk(s, pc.c) && RuleCounted(s, r);
    var d := OperationDecision(pc.op, FoundContext(Some(s.rules[r].code)), x);
    CountDrops(todo);
    MoveKeeps(s, t, Unwinding(todo, None), s.outcomes + [Operated(pc.c, pc.op, d)]);
  }

  lemma HoldingKeeps(s: State, t: nat, a: Action)
    requires Inv(s) && t < |s.threads| && s.threads[t].doomed == None && s.threads[t].pc.Holding?
    ensures Inv(StepOperation(s, t, a))
  {
    hide Sum;
    var Holding(c, op) := s.threads[t].pc;
    assert ThreadOk(s, t);
    if a.TestRule? {
      assert ContextOk(s, c);
      CountDrops([DropContext(c)]);
      match s.contexts[c].rule
      case None =>
        var d := OperationDecision(op, FoundContext(None), OperationInputs(Success, Success, None, Success));
        MoveKeeps(s, t, Unwinding([DropContext(c)], None), s.outcomes + [Operated(c, op, d)]);
      case Some(r) => MoveKeeps(s, t, Deciding(c, op, r), s.outcomes);
    }
  }

  lemma DecidingKeeps(s: State, t: nat, a: Action)
    requires Inv(s) && t < |s.threads| && s.threads[t].doomed == None && s.threads[t].pc.Deciding?
    ensures Inv(StepOperation(s, t, a))
  {
    hide Sum;
    var Deciding(c, op, r) := s.threads[t].pc;
    assert ThreadOk(s, t);
    if a.MatchTarget? && op == Rename && FirstMatching(s.list, a.matches).Some? {
      MoveKeeps(s, t, TargetFound(c, op, r, FirstMatching(s.list, a.matches).value), s.outcomes);
    } else if a.Decide? && a.inputs.matched.None? {
      DecideKeeps(s, t, r, a.inputs, [DropContext(c)]);
    }
  }

  lemma OperationKeeps(s: State, t: nat, a: Action)
    requires Inv(s) && t < |s.threads| && s.threads[t].doomed == None
    ensures Inv(StepOperation(s, t, a))
  {
    match s.threads[t].pc
    case Holding(c, op) => HoldingKeeps(s, t, a);
    case Deciding(c, op, r) => DecidingKeeps(s, t, a);
    case TargetFound(c, op, r, target) =>
      if a.Reference? { TakeReferenceKeeps(s, t, target, TargetReread(c, op, r, target)); }
    case TargetReread(c, op, r, target) =>
      if a.ReadAgain? { ReadEntryKeeps(s, t, target, Renaming(c, op, r, target)); }
    case Renaming(c, op, r, target) =>
      assert ThreadOk(s, t);
      if a.Decide? {
        DecideKeeps(s, t, r, a.inputs.(matched := Some(s.rules[target].code)), [DropRule(target), DropContext(c)]);
      }
    case _ =>
  }

  lemma UnwindKeeps(s: State, t: nat, todo: seq<Drop>, post: Option<(nat, nat)>)
    requires Inv(s) && t < |s.threads| && s.threads[t] == Thread(Unwinding(todo, post), None)
    ensures Inv(Unwind(s, t, todo, post))
  {
    hide Sum;
    assert ThreadOk(s, t);
    if todo == [] {
      CountDrops(todo);
      MoveKeeps(s, t, match post case None => Idle case Some(p) => AwaitingPost(p.0, p.1), s.outcomes);
    } else {
      assert todo == [todo[0]] + todo[1..];
      match todo[0]
      case DropRule(r) => DropRuleKeeps(s, t, r, todo[1..], post);
      case DropContext(c) => DropContextKeeps(s, t, c, todo[1..], post);
      case FreeEntry(r) => FreeEntryKeeps(s, t, r, todo[1..], post);
    }
  }

  lemma StartPostKeeps(s: State, t: nat, f: nat, r: nat)
    requires Inv(s) && t < |s.threads| && s.threads[t] == Thread(AwaitingPost(f, r), None)
    ensures Inv(Move(s, t, PostCreating(f, r)))
  {
    hide Sum, RuleCounted, ContextOk;
    assert ThreadOk(s, t);
    MoveKeeps(s, t, PostCreating(f, r), s.outcomes);
  }

  lemma ReferenceAgainKeeps(s: State, t: nat, f: nat, r: nat, c: nat)
    requires Inv(s) && t < |s.threads| && s.threads[t] == Thread(Named(f, r, c), None)
    ensures r < |s.rules| && Inv(Move(AddRef(s, r, 1), t, Referenced(f, r, c)))
  {
    hide Sum, RuleCounted, ContextOk;
    assert ThreadOk(s, t);
    HeldIsReferenced(s, t, r);
    ReferenceKeeps(s, t, r, Referenced(f, r, c));
  }

  lemma StepKeeps(s: State, t: nat, a: Action)
    requires Inv(s)
    ensures Inv(Step(s, t, a))
  {
    hide Sum, StepOperation, Unwind, StepIdle, Compare, FinishPreCreate, StepPost, Publish, Free, TakeReference,
      ReadEntry;
    hide Inv, Move, AddRef, Note, RuleCounted, ContextOk;
    if a.Spawn? {
      SpawnKeeps(s, Thread(Idle, None));
    } else if !s.halted && t < |s.threads| {
      if s.threads[t].doomed.Some? {
        if a.FreeDoomed? { FreeKeeps(s, t); }
      } else {
        match s.threads[t].pc
        case Idle => IdleKeeps(s, t, a);
        case Unwinding(todo, post) => UnwindKeeps(s, t, todo, post);
        case LookedUp(f, r) => if a.Reference? { TakeReferenceKeeps(s, t, r, Rereading(f, r)); }
        case Rereading(f, r) => if a.ReadAgain? { ReadEntryKeeps(s, t, r, PreCreating(f, r)); }
        case PreCreating(f, r) => if a.DecideCreate? { FinishPreCreateKeeps(s, t, f, r, a.x); }
        case AwaitingPost(f, r) => StartPostKeeps(s, t, f, r);
        case PostCreating(f, r) => PostKeeps(s, t, f, r, a);
        case Allocated(f, r, c) => if a.SetContext? { PublishKeeps(s, t, f, r, c, a.ok); }
        case Published(f, r, c) => if a.StoreName? && c < |s.contexts| { StoreNameKeeps(s, t, f, r, c); }
        case Named(f, r, c) => ReferenceAgainKeeps(s, t, f, r, c);
        case Referenced(f, r, c) => if a.StoreRule? && c < |s.contexts| { StoreRuleKeeps(s, t, f, r, c); }
        case LostRace(f, r, c, other) => if a.CompareRules? { CompareKeeps(s, t, f, r, c, other, a.namesDiffer); }
        case _ => OperationKeeps(s, t, a);
      }
    }
  }

  lemma InitialInv(fileCount: nat)
    ensures Inv(Initial(fileCount))
  {
  }

  lemma {:induction false} RunKeeps(s: State, steps: seq<(nat, Action)>)
    requires Inv(s)
    ensures Inv(Run(s, steps))
    decreases |steps|
  {
    if steps != [] {
      StepKeeps(s, steps[0].0, steps[0].1);
      RunKeeps(Step(s, steps[0].0, steps[0].1), steps[1..]);
    }
  }
}
