/** Whole sessions: any sequence of requests from user mode, through messages and the rule
    list, and what lookups and queries answer afterwards. (FileGuardLib/FileGuardLib.c,
    FileGuardCore/Communication.c, FileGuardCore/Rule.c) */
module RuleService {
  import opened FileGuard
  import opened Sequences
  import opened RuleFrames
  import opened RuleHistory
  import opened RuleList
  import opened RuleClient

  /** What an application asks for. */
  datatype ClientRequest =
    | AddBulk(rules: seq<FglRule>, mallocOk: bool, pool: nat -> Allocations)
    | RemoveBulk(rules: seq<FglRule>, mallocOk: bool)
    | CleanupAll

  /** The amount fits its sixteen bits and the message its thirty-two. */
  ghost predicate Representable(q: ClientRequest) {
    q.CleanupAll? || (|q.rules| < 0x1_0000 && SIZEOF_MESSAGE + RequestSize(q.rules) < ULONG_MODULUS)
  }

  /** The request the driver acts on; one that never leaves user mode has no effect. */
  ghost function Effect(q: ClientRequest): seq<RuleHistory.Request> {
    match q
    case AddBulk(rules, mallocOk, pool) => if Delivered(rules, mallocOk) then [Add(Sent(rules), pool)] else []
    case RemoveBulk(rules, mallocOk) => if Delivered(rules, mallocOk) then [Remove(Sent(rules))] else []
    case CleanupAll => [Cleanup]
  }

  ghost function History(qs: seq<ClientRequest>): seq<RuleHistory.Request> {
    if qs == [] then [] else History(qs[..|qs| - 1]) + Effect(qs[|qs| - 1])
  }

  lemma OneMore(nt: Runtime, h: seq<RuleHistory.Request>, q: ClientRequest)
    ensures RuleHistory.Run(nt, h + Effect(q)) ==
            if Effect(q) == [] then RuleHistory.Run(nt, h) else Apply(nt, RuleHistory.Run(nt, h), Effect(q)[0])
  {
    hide Apply;
    if Effect(q) == [] {
      assert h + Effect(q) == h;
    } else {
      assert |Effect(q)| == 1 && (h + Effect(q))[..|h|] == h;
    }
  }

  /** One request, dispatched to the routine that serves it. A request that is empty, gets no
      memory or has an invalid code changes nothing; an addition puts what it accepted up to
      some stop in front of the old list; a removal keeps, in order, the rules that no sent
      rule is the same as; a cleanup leaves nothing. */
  method Serve(store: RuleStore, q: ClientRequest)
    requires store.Valid() && Representable(q)
    modifies store, store.head, store.entries, store.Objects()
    ensures store.Valid()
    ensures q.CleanupAll? ==> store.Contents == []
    ensures !q.CleanupAll? && (q.rules == [] || !q.mallocOk || exists r :: r in q.rules && !ValidRuleCode(r.code)) ==>
              store.Contents == old(store.Contents)
    ensures q.RemoveBulk? && q.rules != [] && q.mallocOk && (forall r :: r in q.rules ==> ValidRuleCode(r.code)) ==>
              store.Contents ==
              Filter(old(store.Contents),
                     e => forall k :: 0 <= k < |q.rules| ==> !SameRule(store.nt, Sent(q.rules)[k], e))
    ensures q.AddBulk? && q.rules != [] && q.mallocOk && (forall r :: r in q.rules ==> ValidRuleCode(r.code)) ==>
              var stop := PlanAdd(store.nt, old(store.Contents), Sent(q.rules), q.pool, 0).stop;
              store.Contents ==
              Reverse(FirstOccurrences(store.nt, old(store.Contents), Sent(q.rules), 0, stop)) + old(store.Contents)
    ensures store.Contents ==
            if Effect(q) == [] then old(store.Contents) else Apply(store.nt, old(store.Contents), Effect(q)[0])
    ensures forall e :: e in store.entries ==> e in old(store.entries) || (fresh(e) && e.rule != null && fresh(e.rule))
  {
    hide store.Valid, PlanAdd, AddTo, RemoveFrom, FirstOccurrences, Asked, Filter, SameRule, Reverse, RequestSize;
    match q {
      case AddBulk(rules, mallocOk, pool) =>
        AddSpecification(store.nt, store.Contents, Sent(rules), pool);
        var status, added := AddBulkRules(store, rules, mallocOk, pool, 0);
      case RemoveBulk(rules, mallocOk) =>
        RemovedWhole(store.nt, store.Contents, Sent(rules));
        var status, removed := RemoveBulkRules(store, rules, mallocOk, 0);
      case CleanupAll => var clean := store.CleanupRuleEntriesList();
    }
  }

  lemma RemovedWhole(nt: Runtime, store: seq<Rule>, reqs: seq<Rule>)
    ensures RemoveFrom(nt, store, reqs, 0) ==
            Filter(store, e => forall k :: 0 <= k < |reqs| ==> !SameRule(nt, reqs[k], e))
  {
    RemoveIsFilter(nt, store, reqs, 0);
    assert reqs[0..] == reqs;
    FilterSame(store, UnlikeAll(nt, reqs), e => forall k :: 0 <= k < |reqs| ==> !SameRule(nt, reqs[k], e));
  }

  // ---- What a session leaves, request by request ----

  /** Request `q` reaches the driver and asks, before the rule at which the driver stops on the
      list `store`, for a rule that is kept as `e`. */
  ghost predicate Asks(nt: Runtime, store: seq<Rule>, q: ClientRequest, e: Rule) {
    && q.AddBulk? && q.rules != [] && q.mallocOk && (forall r :: r in q.rules ==> ValidRuleCode(r.code))
    && exists j :: 0 <= j < PlanAdd(nt, store, Sent(q.rules), q.pool, 0).stop && Stored(nt, Sent(q.rules)[j]) == e
  }

  /** Request `q` empties the list, or reaches the driver and names a rule that is the same as
      `e`. */
  ghost predicate Drops(nt: Runtime, q: ClientRequest, e: Rule) {
    || q.CleanupAll?
    || (&& q.RemoveBulk? && q.rules != [] && q.mallocOk && (forall r :: r in q.rules ==> ValidRuleCode(r.code))
        && exists j :: 0 <= j < |q.rules| && SameRule(nt, Sent(q.rules)[j], e))
  }

  /** The list after the first `k` requests of a session. */
  ghost function After(nt: Runtime, qs: seq<ClientRequest>, k: nat): seq<Rule>
    requires k <= |qs|
  {
    RuleHistory.Run(nt, History(qs[..k]))
  }

  lemma AfterStep(nt: Runtime, qs: seq<ClientRequest>, k: nat, e: Rule)
    requires k < |qs|
    ensures e in After(nt, qs, k + 1) <==>
            Asks(nt, After(nt, qs, k), qs[k], e) || (e in After(nt, qs, k) && !Drops(nt, qs[k], e))
  {
    hide Apply, Asks, Drops, Effect;
    assert qs[..k + 1][..k] == qs[..k];
    OneMore(nt, History(qs[..k]), qs[k]);
    EffectHolds(nt, After(nt, qs, k), qs[k], e);
  }

  lemma EffectHolds(nt: Runtime, store: seq<Rule>, q: ClientRequest, e: Rule)
    ensures e in (if Effect(q) == [] then store else Apply(nt, store, Effect(q)[0])) <==>
            Asks(nt, store, q, e) || (e in store && !Drops(nt, q, e))
  {
    hide Stored, SameRule, RemoveFrom, AddTo, PlanAdd, Asked;
    if q.AddBulk? && Delivered(q.rules, q.mallocOk) {
      AddSpecification(nt, store, Sent(q.rules), q.pool);
      AskedOfSent(nt, q.rules, PlanAdd(nt, store, Sent(q.rules), q.pool, 0).stop, e);
    } else if q.RemoveBulk? && Delivered(q.rules, q.mallocOk) {
      RemovedHas(nt, store, q.rules, e);
    }
  }

  lemma RemovedHas(nt: Runtime, store: seq<Rule>, rules: seq<FglRule>, e: Rule)
    ensures e in RemoveFrom(nt, store, Sent(rules), 0) <==>
            e in store && forall j :: 0 <= j < |rules| ==> !SameRule(nt, Sent(rules)[j], e)
  {
    hide SameRule;
    var keep := (r: Rule) => forall j :: 0 <= j < |rules| ==> !SameRule(nt, Sent(rules)[j], r);
    RemovedWhole(nt, store, Sent(rules));
    FilterSame(store, keep, r => forall j :: 0 <= j < |Sent(rules)| ==> !SameRule(nt, Sent(rules)[j], r));
    FilterHas(store, keep, e);
  }

  /** All sent rules of a delivered request are valid. */
  lemma AskedOfSent(nt: Runtime, rules: seq<FglRule>, k: nat, e: Rule)
    requires k <= |rules| && forall r :: r in rules ==> ValidRuleCode(r.code)
    ensures Asked(nt, Sent(rules), k, e) <==> exists j :: 0 <= j < k && Stored(nt, Sent(rules)[j]) == e
  {
    forall j | 0 <= j < |rules| ensures Sent(rules)[j].code == rules[j].code {
      SentFrom(rules, j);
    }
  }

  /** Request `k` asked for `e`, and none of the `n` first requests dropped it later. */
  ghost predicate Brings(nt: Runtime, qs: seq<ClientRequest>, n: nat, e: Rule, k: nat)
    requires n <= |qs|
  {
    k < n && Asks(nt, After(nt, qs, k), qs[k], e) && forall m :: k < m < n ==> !Drops(nt, qs[m], e)
  }

  /** A rule is in the list after a session exactly when some request asked for it and no later
      one dropped it. */
  lemma {:induction false} SessionHoldsIff(nt: Runtime, qs: seq<ClientRequest>, n: nat, e: Rule)
    requires n <= |qs|
    ensures e in After(nt, qs, n) <==> exists k: nat :: Brings(nt, qs, n, e, k)
    decreases n
  {
    hide Asks, Drops, After;
    if n == 0 {
      NothingAtFirst(nt, qs);
    } else {
      SessionHoldsIff(nt, qs, n - 1, e);
      AfterStep(nt, qs, n - 1, e);
      if Asks(nt, After(nt, qs, n - 1), qs[n - 1], e) {
        assert Brings(nt, qs, n, e, n - 1);
      } else if e in After(nt, qs, n) {
        var k: nat :| Brings(nt, qs, n - 1, e, k);
        assert Brings(nt, qs, n, e, k);
      }
      if k: nat :| Brings(nt, qs, n, e, k) {
        assert k == n - 1 || Brings(nt, qs, n - 1, e, k);
      }
    }
  }

  lemma NothingAtFirst(nt: Runtime, qs: seq<ClientRequest>)
    ensures After(nt, qs, 0) == []
  {
  }

  /** A rule that a delivered removal names is not in the list afterwards, unless a later
      addition asks for it again. */
  lemma RemovedStaysAway(nt: Runtime, qs: seq<ClientRequest>, k: nat, j: nat, e: Rule)
    requires k < |qs| && qs[k].RemoveBulk? && qs[k].mallocOk && j < |qs[k].rules|
    requires (forall r :: r in qs[k].rules ==> ValidRuleCode(r.code)) && SameRule(nt, Sent(qs[k].rules)[j], e)
    requires forall m :: k < m < |qs| ==> !Asks(nt, After(nt, qs, m), qs[m], e)
    ensures e !in RuleHistory.Run(nt, History(qs))
  {
    assert qs[..|qs|] == qs;
    assert Drops(nt, qs[k], e);
    hide Asks, Drops;
    SessionHoldsIff(nt, qs, |qs|, e);
    RemovalAsksNothing(nt, After(nt, qs, k), qs[k], e);
  }

  lemma RemovalAsksNothing(nt: Runtime, store: seq<Rule>, q: ClientRequest, e: Rule)
    requires q.RemoveBulk?
    ensures !Asks(nt, store, q, e)
  {
  }

  /** A session that starts with an empty list. */
  method ServeAll(nt: Runtime, qs: seq<ClientRequest>) returns (store: RuleStore)
    requires forall q :: q in qs ==> Representable(q)
    ensures fresh(store) && store.nt == nt && store.Valid()
    ensures store.Contents == RuleHistory.Run(nt, History(qs))
    ensures forall e :: e in store.Contents <==> exists k: nat :: Brings(nt, qs, |qs|, e, k)
    ensures qs != [] && qs[|qs| - 1] == CleanupAll ==> store.Contents == []
    ensures forall e :: e in store.entries ==> fresh(e) && e.rule != null && fresh(e.rule)
  {
    hide store.Valid, Representable, Effect, Apply;
    store := new RuleStore(nt);
    var i := 0;
    while i < |qs|
      invariant 0 <= i <= |qs| && fresh(store) && fresh(store.head) && store.nt == nt && store.Valid()
      invariant forall e :: e in store.entries ==> fresh(e) && e.rule != null && fresh(e.rule)
      invariant store.Contents == RuleHistory.Run(nt, History(qs[..i]))
      invariant i > 0 && qs[i - 1] == CleanupAll ==> store.Contents == []
    {
      assert qs[..i + 1][..i] == qs[..i];
      OneMore(nt, History(qs[..i]), qs[i]);
      forall k | 0 <= k < |store.entries| ensures fresh(store.entries[k]) { assert store.entries[k] in store.entries; }
      Serve(store, qs[i]);
      i := i + 1;
    }
    assert qs[..i] == qs;
    SessionHolds(nt, qs);
  }

  lemma SessionHolds(nt: Runtime, qs: seq<ClientRequest>)
    ensures forall e :: e in RuleHistory.Run(nt, History(qs)) <==> exists k: nat :: Brings(nt, qs, |qs|, e, k)
  {
    hide Brings;
    assert qs[..|qs|] == qs;
    forall e: Rule ensures e in RuleHistory.Run(nt, History(qs)) <==> exists k: nat :: Brings(nt, qs, |qs|, e, k) {
      SessionHoldsIff(nt, qs, |qs|, e);
    }
  }

  lemma MatchOfSession(nt: Runtime, qs: seq<ClientRequest>, name: UnicodeString)
    ensures match FirstMatch(nt, RuleHistory.Run(nt, History(qs)), name)
            case None => forall e, k: nat :: Brings(nt, qs, |qs|, e, k) ==> !nt.matches(e.expr, name)
            case Some(r) => nt.matches(r.expr, name) && exists k: nat :: Brings(nt, qs, |qs|, r, k)
  {
    hide Brings;
    var now := RuleHistory.Run(nt, History(qs));
    SessionHolds(nt, qs);
    FirstMatchIs(nt, now, name);
    forall e, k: nat | Brings(nt, qs, |qs|, e, k) ensures e in now {
    }
    var found := FirstMatch(nt, now, name);
    if found.Some? { assert found.value in now; }
  }

  /** After any session a lookup finds the most recently inserted surviving rule that matches,
      and nothing exactly when no surviving rule does. */
  method ServeAndMatch(nt: Runtime, qs: seq<ClientRequest>, name: UnicodeString) returns (found: RuleObject?)
    requires forall q :: q in qs ==> Representable(q)
    ensures var log := Log(nt, History(qs));
            if found == null then
              forall i :: 0 <= i < |log| && Survives(nt, log, i) ==> !nt.matches(log[i].rule.expr, name)
            else
              exists i: nat :: NewestMatch(nt, log, |log|, name, i) && log[i].rule == Rule(found.code, found.expr)
    ensures if found == null then
              forall e, k: nat :: Brings(nt, qs, |qs|, e, k) ==> !nt.matches(e.expr, name)
            else
              && nt.matches(found.expr, name)
              && exists k: nat :: Brings(nt, qs, |qs|, Rule(found.code, found.expr), k)
  {
    hide Brings, Survives, NewestMatch, RuleStore.Valid, RuleHistory.Run, Log, History;
    var store := ServeAll(nt, qs);
    found := store.MatchRules(name);
    NewestMatchingRuleWins(nt, History(qs), name);
    MatchOfSession(nt, qs, name);
  }

  /** After any session an undisturbed query that gets its memory returns the surviving rules,
      newest first, exactly if they fit the size reported in thirty-two bits and there is at
      most one or all but the first take at most two gigabytes; it fails exactly if that size
      is one of the sixteen largest. */
  method ServeAndQuery(nt: Runtime, qs: seq<ClientRequest>) returns (r: QueryResult)
    requires forall q :: q in qs ==> Representable(q)
    requires var rules := RuleHistory.Run(nt, History(qs));
             Fetchable(rules, TotalSize(rules) % ULONG_MODULUS)
    ensures var log := Log(nt, History(qs));
            var rules := Survivors(nt, log, |log|);
            var reported := TotalSize(rules) % ULONG_MODULUS;
            if reported >= ULONG_MODULUS - SIZEOF_RESULT then r == Failed(InvalidParameter)
            else !r.Failed? && (r == Rules(rules) <==> Whole(rules, reported))
    ensures var rules := RuleHistory.Run(nt, History(qs));
            r == Rules(rules) ==> forall e :: e in r.rules <==> exists k: nat :: Brings(nt, qs, |qs|, e, k)
  {
    hide Brings;
    var store := ServeAll(nt, qs);
    r := QueryRules(store, store, n => true);
    StoreIsSurvivors(nt, History(qs));
  }
}
