/** What the rule list means: the store as a sequence of rules, newest first, and what
    whole histories of requests leave in it. (FileGuardCore/Rule.c) */
module RuleHistory {
  import opened FileGuard
  import opened Sequences

  /** Equal codes and expressions equal without regard to case. */
  predicate SameRule(nt: Runtime, a: Rule, b: Rule) {
    a.code == b.code && Upcase(nt, a.expr) == Upcase(nt, b.expr)
  }

  /** A rule as the store keeps it: the expression upcased. */
  function Stored(nt: Runtime, r: Rule): Rule {
    Rule(r.code, Upcase(nt, r.expr))
  }

  predicate StoredForm(nt: Runtime, r: Rule) {
    ValidRuleCode(r.code) && r.expr != [] && Upcase(nt, r.expr) == r.expr
  }

  /** The store invariant. */
  ghost predicate StoreOk(nt: Runtime, store: seq<Rule>) {
    Distinct(store) && forall r :: r in store ==> StoredForm(nt, r)
  }

  /** In a store the case-insensitive comparison singles out one entry: the stored form. */
  lemma SameAsStored(nt: Runtime, q: Rule, e: Rule)
    requires StoredForm(nt, e)
    ensures SameRule(nt, q, e) <==> Stored(nt, q) == e
  {
  }

  /** What that means letter by letter: same code, same length, and letters that differ in
      case only. */
  lemma SameRuleIff(nt: Runtime, a: Rule, b: Rule)
    ensures SameRule(nt, a, b) <==>
            (&& a.code == b.code && |a.expr| == |b.expr|
             && forall i :: 0 <= i < |a.expr| ==> nt.up(a.expr[i]) == nt.up(b.expr[i]))
  {
    var x, y := Upcase(nt, a.expr), Upcase(nt, b.expr);
    if SameRule(nt, a, b) {
      forall i | 0 <= i < |a.expr| ensures nt.up(a.expr[i]) == nt.up(b.expr[i]) {
        assert x[i] == y[i];
      }
    } else if |a.expr| == |b.expr| && forall i :: 0 <= i < |a.expr| ==> nt.up(a.expr[i]) == nt.up(b.expr[i]) {
      assert x == y;
    }
  }

  lemma StoredIff(nt: Runtime, r: Rule, e: Rule)
    ensures e == Stored(nt, r) <==>
            (&& e.code == r.code && |e.expr| == |r.expr|
             && forall i :: 0 <= i < |r.expr| ==> e.expr[i] == nt.up(r.expr[i]))
  {
    if |e.expr| == |r.expr| && forall i :: 0 <= i < |r.expr| ==> e.expr[i] == nt.up(r.expr[i]) {
      assert e.expr == Upcase(nt, r.expr);
    }
  }

  // ---- Adding ----

  /** Which of the steps behind one new entry succeed: three pool allocations, and upcasing
      the expression into the second block. */
  datatype Allocations = Allocations(entry: bool, text: bool, upcased: bool, rule: bool)

  /** The outcome of creating the entry of one rule. */
  function CreateStatus(a: Allocations, expr: UnicodeString): Status {
    if !a.entry then InsufficientResources
    else if expr == [] then InvalidParameter
    else if !a.text then InsufficientResources
    else if !a.upcased then OtherFailure
    else if !a.rule then InsufficientResources
    else Success
  }

  /** What an add request does from its k-th rule on: the rules it inserts in request
      order, the status it returns, and the index at which it stops. */
  datatype AddPlan = AddPlan(accepted: seq<Rule>, status: Status, stop: nat)

  function PlanAdd(nt: Runtime, store: seq<Rule>, reqs: seq<Rule>, pool: nat -> Allocations, k: nat): (p: AddPlan)
    requires k <= |reqs|
    ensures k <= p.stop <= |reqs| && |p.accepted| <= p.stop - k
    ensures p.status == Success <==> p.stop == |reqs|
    decreases |reqs| - k
  {
    if k == |reqs| then AddPlan([], Success, k)
    else if !ValidRuleCode(reqs[k].code) || Stored(nt, reqs[k]) in store then
      PlanAdd(nt, store, reqs, pool, k + 1)
    else if CreateStatus(pool(k), reqs[k].expr) != Success then
      AddPlan([], CreateStatus(pool(k), reqs[k].expr), k)
    else
      var r := Stored(nt, reqs[k]);
      var rest := PlanAdd(nt, [r] + store, reqs, pool, k + 1);
      AddPlan([r] + rest.accepted, rest.status, rest.stop)
  }

  /** The plan of a whole request, given what was accepted so far and the plan of the rest. */
  function Resume(acc: seq<Rule>, rest: AddPlan): AddPlan {
    AddPlan(acc + rest.accepted, rest.status, rest.stop)
  }

  /** One request rule of an add: skipped, accepted, or the end of the request. */
  lemma PlanStep(nt: Runtime, now: seq<Rule>, reqs: seq<Rule>, pool: nat -> Allocations, k: nat, acc: seq<Rule>)
    requires k < |reqs|
    ensures var r := Stored(nt, reqs[k]);
            var status := CreateStatus(pool(k), reqs[k].expr);
            Resume(acc, PlanAdd(nt, now, reqs, pool, k)) ==
            if !ValidRuleCode(reqs[k].code) || r in now then Resume(acc, PlanAdd(nt, now, reqs, pool, k + 1))
            else if status != Success then AddPlan(acc, status, k)
            else Resume(acc + [r], PlanAdd(nt, [r] + now, reqs, pool, k + 1))
  {
    var r := Stored(nt, reqs[k]);
    var rest := PlanAdd(nt, [r] + now, reqs, pool, k + 1);
    assert acc + ([r] + rest.accepted) == acc + [r] + rest.accepted;
  }

  lemma PlanEnds(nt: Runtime, now: seq<Rule>, reqs: seq<Rule>, pool: nat -> Allocations)
    ensures PlanAdd(nt, now, reqs, pool, |reqs|) == AddPlan([], Success, |reqs|)
    ensures Resume([], PlanAdd(nt, now, reqs, pool, 0)) == PlanAdd(nt, now, reqs, pool, 0)
    ensures Reverse<Rule>([]) + now == now
  {
  }

  lemma PrependAccepted(acc: seq<Rule>, r: Rule, store: seq<Rule>)
    ensures Reverse(acc + [r]) + store == [r] + (Reverse(acc) + store)
  {
    ReverseSnoc(acc, r);
  }

  /** The store after an add request. */
  function AddTo(nt: Runtime, store: seq<Rule>, reqs: seq<Rule>, pool: nat -> Allocations): seq<Rule> {
    Reverse(PlanAdd(nt, store, reqs, pool, 0).accepted) + store
  }

  lemma {:induction false} PlanKeepsStore(
      nt: Runtime, store: seq<Rule>, reqs: seq<Rule>, pool: nat -> Allocations, k: nat)
    requires k <= |reqs| && StoreOk(nt, store)
    ensures StoreOk(nt, Reverse(PlanAdd(nt, store, reqs, pool, k).accepted) + store)
    decreases |reqs| - k
  {
    if k < |reqs| {
      if !ValidRuleCode(reqs[k].code) || Stored(nt, reqs[k]) in store {
        PlanKeepsStore(nt, store, reqs, pool, k + 1);
      } else if CreateStatus(pool(k), reqs[k].expr) == Success {
        var r := Stored(nt, reqs[k]);
        UpcaseIdempotent(nt, reqs[k].expr);
        assert StoredForm(nt, r);
        PlanKeepsStore(nt, [r] + store, reqs, pool, k + 1);
        var acc := PlanAdd(nt, [r] + store, reqs, pool, k + 1).accepted;
        assert ([r] + acc)[1..] == acc;
        assert Reverse([r] + acc) + store == Reverse(acc) + ([r] + store);
      } else {
        assert Reverse<Rule>([]) + store == store;
      }
    } else {
      assert Reverse<Rule>([]) + store == store;
    }
  }

  /** Request rule `k` is valid and neither stored already nor asked for earlier on. */
  ghost predicate FirstOccurrence(nt: Runtime, store: seq<Rule>, reqs: seq<Rule>, k: nat)
    requires k < |reqs|
  {
    && ValidRuleCode(reqs[k].code)
    && Stored(nt, reqs[k]) !in store
    && !Asked(nt, reqs, k, Stored(nt, reqs[k]))
  }

  /** One of the first `k` request rules is valid and would be stored as `e`. */
  ghost predicate Asked(nt: Runtime, reqs: seq<Rule>, k: nat, e: Rule)
    requires k <= |reqs|
  {
    exists j :: 0 <= j < k && ValidRuleCode(reqs[j].code) && Stored(nt, reqs[j]) == e
  }

  ghost function FirstOccurrences(nt: Runtime, store: seq<Rule>, reqs: seq<Rule>, k: nat, n: nat): seq<Rule>
    requires k <= n <= |reqs|
    decreases n - k
  {
    if k == n then []
    else (if FirstOccurrence(nt, store, reqs, k) then [Stored(nt, reqs[k])] else [])
         + FirstOccurrences(nt, store, reqs, k + 1, n)
  }

  /** The duplicate test against the growing list accepts exactly the first occurrences,
      up to the first rule that cannot be created. `now` is the list when rule `k` is
      reached. */
  lemma {:induction false} PlanAcceptsFirstOccurrences(
      nt: Runtime, store: seq<Rule>, now: seq<Rule>, reqs: seq<Rule>, pool: nat -> Allocations, k: nat)
    requires k <= |reqs|
    requires forall e :: e in now <==> e in store || Asked(nt, reqs, k, e)
    ensures var p := PlanAdd(nt, now, reqs, pool, k);
            && p.accepted == FirstOccurrences(nt, store, reqs, k, p.stop)
            && (p.stop < |reqs| ==>
                  && FirstOccurrence(nt, store, reqs, p.stop)
                  && p.status == CreateStatus(pool(p.stop), reqs[p.stop].expr))
            && forall e :: e in Reverse(p.accepted) + now <==> e in store || Asked(nt, reqs, p.stop, e)
    decreases |reqs| - k
  {
    if k < |reqs| {
      var r := Stored(nt, reqs[k]);
      var valid := ValidRuleCode(reqs[k].code);
      AskedNext(nt, reqs, k);
      if !valid || r in now {
        PlanAcceptsFirstOccurrences(nt, store, now, reqs, pool, k + 1);
      } else if CreateStatus(pool(k), reqs[k].expr) == Success {
        PlanAcceptsFirstOccurrences(nt, store, [r] + now, reqs, pool, k + 1);
        var acc := PlanAdd(nt, [r] + now, reqs, pool, k + 1).accepted;
        assert ([r] + acc)[1..] == acc;
        assert Reverse([r] + acc) + now == Reverse(acc) + ([r] + now);
      } else {
        assert Reverse<Rule>([]) + now == now;
      }
    } else {
      assert Reverse<Rule>([]) + now == now;
    }
  }

  /** The request stops at the first failure: every first occurrence before is created. */
  lemma {:induction false} StopsAtFirstFailure(
      nt: Runtime, store: seq<Rule>, now: seq<Rule>, reqs: seq<Rule>, pool: nat -> Allocations, k: nat)
    requires k <= |reqs|
    requires forall e :: e in now <==> e in store || Asked(nt, reqs, k, e)
    ensures var p := PlanAdd(nt, now, reqs, pool, k);
            && (p.stop == |reqs| ==> p.status == Success)
            && forall j :: k <= j < p.stop && FirstOccurrence(nt, store, reqs, j) ==>
                 CreateStatus(pool(j), reqs[j].expr) == Success
    decreases |reqs| - k
  {
    if k < |reqs| {
      var r := Stored(nt, reqs[k]);
      var valid := ValidRuleCode(reqs[k].code);
      AskedNext(nt, reqs, k);
      if !valid || r in now {
        StopsAtFirstFailure(nt, store, now, reqs, pool, k + 1);
      } else if CreateStatus(pool(k), reqs[k].expr) == Success {
        StopsAtFirstFailure(nt, store, [r] + now, reqs, pool, k + 1);
      }
    }
  }

  lemma AskedNext(nt: Runtime, reqs: seq<Rule>, k: nat)
    requires k < |reqs|
    ensures forall e :: Asked(nt, reqs, k + 1, e) <==>
              Asked(nt, reqs, k, e) || (ValidRuleCode(reqs[k].code) && e == Stored(nt, reqs[k]))
  {
    forall e ensures Asked(nt, reqs, k + 1, e) <==>
              Asked(nt, reqs, k, e) || (ValidRuleCode(reqs[k].code) && e == Stored(nt, reqs[k]))
    {
      if ValidRuleCode(reqs[k].code) && e == Stored(nt, reqs[k]) { assert 0 <= k < k + 1; }
    }
  }

  /** An add request, on any store: it inserts the first occurrences of its valid rules
      before the first of them that cannot be created, newest in front, and afterwards the
      store holds exactly the old rules and the valid rules asked for up to that point. */
  lemma AddSpecification(nt: Runtime, store: seq<Rule>, reqs: seq<Rule>, pool: nat -> Allocations)
    ensures var p := PlanAdd(nt, store, reqs, pool, 0);
            && AddTo(nt, store, reqs, pool) == Reverse(FirstOccurrences(nt, store, reqs, 0, p.stop)) + store
            && (forall e :: e in AddTo(nt, store, reqs, pool) <==> e in store || Asked(nt, reqs, p.stop, e))
            && (p.stop < |reqs| ==>
                  && FirstOccurrence(nt, store, reqs, p.stop)
                  && p.status == CreateStatus(pool(p.stop), reqs[p.stop].expr) != Success)
            && (p.stop == |reqs| ==> p.status == Success)
            && (forall j :: 0 <= j < p.stop && FirstOccurrence(nt, store, reqs, j) ==>
                  CreateStatus(pool(j), reqs[j].expr) == Success)
  {
    PlanAcceptsFirstOccurrences(nt, store, store, reqs, pool, 0);
    StopsAtFirstFailure(nt, store, store, reqs, pool, 0);
  }

  /** Where the first occurrences stand in the request. */
  lemma {:induction false} FirstOccurrencesAt(nt: Runtime, store: seq<Rule>, reqs: seq<Rule>, k: nat, n: nat)
    returns (at: seq<nat>)
    requires k <= n <= |reqs|
    ensures |at| == |FirstOccurrences(nt, store, reqs, k, n)|
    ensures forall i :: 0 <= i < |at| ==>
              k <= at[i] < n && FirstOccurrences(nt, store, reqs, k, n)[i] == Stored(nt, reqs[at[i]])
    ensures forall i, j :: 0 <= i < j < |at| ==> at[i] < at[j]
    ensures forall j :: k <= j < n ==> (j in at <==> FirstOccurrence(nt, store, reqs, j))
    decreases n - k
  {
    hide FirstOccurrence, Stored;
    at := [];
    if k < n {
      at := FirstOccurrencesAt(nt, store, reqs, k + 1, n);
      if FirstOccurrence(nt, store, reqs, k) {
        at := [k] + at;
      }
    }
  }

  /** No rule stored already, and none valid among the first `k` of the request, is the same
      as rule `k`. */
  lemma FirstOccurrenceIff(nt: Runtime, store: seq<Rule>, reqs: seq<Rule>, k: nat)
    requires k < |reqs| && forall e :: e in store ==> StoredForm(nt, e)
    ensures FirstOccurrence(nt, store, reqs, k) <==>
            (&& ValidRuleCode(reqs[k].code)
             && (forall e :: e in store ==> !SameRule(nt, reqs[k], e))
             && forall j :: 0 <= j < k && ValidRuleCode(reqs[j].code) ==> !SameRule(nt, reqs[j], reqs[k]))
  {
  }

  /** An add request, said without the plan: there are positions in the request, up to the stop,
      whose rules end up upcased in front of the old list, the last one first. They are
      exactly those of the valid rules that are neither the same as a stored rule nor as an
      earlier valid one; each of them had its entry created, and if the request stops early,
      it does at such a rule for want of that. */
  lemma AddExactly(nt: Runtime, store: seq<Rule>, reqs: seq<Rule>, pool: nat -> Allocations)
    returns (stop: nat, at: seq<nat>)
    requires StoreOk(nt, store)
    ensures stop == PlanAdd(nt, store, reqs, pool, 0).stop <= |reqs|
    ensures var now := AddTo(nt, store, reqs, pool);
            && |now| == |at| + |store| && now[|at|..] == store
            && forall i :: 0 <= i < |at| ==> at[i] < stop && now[|at| - 1 - i] == Stored(nt, reqs[at[i]])
    ensures forall i, j :: 0 <= i < j < |at| ==> at[i] < at[j]
    ensures forall k :: 0 <= k < stop ==>
              (k in at <==>
               (&& ValidRuleCode(reqs[k].code)
                && (forall e :: e in store ==> !SameRule(nt, reqs[k], e))
                && forall j :: 0 <= j < k && ValidRuleCode(reqs[j].code) ==> !SameRule(nt, reqs[j], reqs[k])))
    ensures forall k :: k in at ==>
              pool(k).entry && reqs[k].expr != [] && pool(k).text && pool(k).upcased && pool(k).rule
    ensures stop < |reqs| ==>
              && ValidRuleCode(reqs[stop].code)
              && (forall e :: e in store ==> !SameRule(nt, reqs[stop], e))
              && (forall j :: 0 <= j < stop && ValidRuleCode(reqs[j].code) ==> !SameRule(nt, reqs[j], reqs[stop]))
              && !(pool(stop).entry && reqs[stop].expr != [] && pool(stop).text && pool(stop).upcased &&
                   pool(stop).rule)
  {
    hide SameRule, Stored, FirstOccurrence, FirstOccurrences, PlanAdd, Asked, StoredForm, ValidRuleCode;
    AddSpecification(nt, store, reqs, pool);
    stop := PlanAdd(nt, store, reqs, pool, 0).stop;
    at := FirstOccurrencesAt(nt, store, reqs, 0, stop);
    var added := FirstOccurrences(nt, store, reqs, 0, stop);
    forall i | 0 <= i < |added| ensures Reverse(added)[|added| - 1 - i] == added[i] {
      ReverseAt(added, i);
    }
    forall k | 0 <= k < |reqs|
      ensures FirstOccurrence(nt, store, reqs, k) <==>
              (&& ValidRuleCode(reqs[k].code)
               && (forall e :: e in store ==> !SameRule(nt, reqs[k], e))
               && forall j :: 0 <= j < k && ValidRuleCode(reqs[j].code) ==> !SameRule(nt, reqs[j], reqs[k]))
    {
      FirstOccurrenceIff(nt, store, reqs, k);
    }
  }

  /** An input: of two rules that differ in case only one is stored, and removing the one asked
      for removes the one stored. */
  lemma CaseIsIgnored(nt: Runtime, code: RuleCode, pool: nat -> Allocations)
    requires ValidRuleCode(code) && nt.up(97) == 65 == nt.up(65)
    requires pool(0) == pool(1) == Allocations(true, true, true, true)
    ensures AddTo(nt, [], [Rule(code, [97]), Rule(code, [65])], pool) == [Rule(code, [65])]
    ensures RemoveFrom(nt, [Rule(code, [65])], [Rule(code, [97])], 0) == []
  {
    var small, large := Rule(code, [97]), Rule(code, [65]);
    StoredIff(nt, small, large);
    StoredIff(nt, large, large);
    SameRuleIff(nt, small, large);
    assert PlanAdd(nt, [large], [small, large], pool, 2) == AddPlan([], Success, 2);
    assert PlanAdd(nt, [large], [small, large], pool, 1) == AddPlan([], Success, 2);
    assert PlanAdd(nt, [], [small, large], pool, 0) == AddPlan([large], Success, 2);
    assert Reverse([large]) == Reverse<Rule>([]) + [large];
    assert Filter([large], Unlike(nt, small)) == Filter<Rule>([], Unlike(nt, small));
    assert RemoveFrom(nt, [large], [small], 0) == RemoveFrom(nt, [], [small], 1) == [];
  }

  // ---- Removing ----

  function Unlike(nt: Runtime, q: Rule): Rule -> bool {
    (e: Rule) => !SameRule(nt, q, e)
  }

  function UnlikeAll(nt: Runtime, reqs: seq<Rule>): Rule -> bool {
    (e: Rule) => forall k :: 0 <= k < |reqs| ==> !SameRule(nt, reqs[k], e)
  }

  /** The store after removing request rules `k` and later, one after the other. */
  function RemoveFrom(nt: Runtime, store: seq<Rule>, reqs: seq<Rule>, k: nat): seq<Rule>
    requires k <= |reqs|
    decreases |reqs| - k
  {
    if k == |reqs| then store else RemoveFrom(nt, Filter(store, Unlike(nt, reqs[k])), reqs, k + 1)
  }

  lemma {:induction false} FilterTwice(nt: Runtime, store: seq<Rule>, q: Rule, reqs: seq<Rule>)
    ensures Filter(Filter(store, Unlike(nt, q)), UnlikeAll(nt, reqs)) == Filter(store, UnlikeAll(nt, [q] + reqs))
  {
    if store != [] {
      FilterTwice(nt, store[1..], q, reqs);
      var e := store[0];
      var all := [q] + reqs;
      assert UnlikeAll(nt, all)(e) <==> Unlike(nt, q)(e) && UnlikeAll(nt, reqs)(e) by {
        assert all[0] == q && forall k :: 0 <= k < |reqs| ==> all[k + 1] == reqs[k];
      }
      var rest := Filter(store[1..], Unlike(nt, q));
      if Unlike(nt, q)(e) {
        assert ([e] + rest)[1..] == rest;
      } else {
        assert [] + rest == rest;
      }
    }
  }

  lemma RemoveNone(nt: Runtime, store: seq<Rule>, reqs: seq<Rule>)
    requires reqs == []
    ensures Filter(store, UnlikeAll(nt, reqs)) == store
  {
    FilterAll(store, UnlikeAll(nt, reqs));
  }

  /** Removal leaves exactly the rules that no request rule names, in their old order. */
  lemma {:induction false} RemoveIsFilter(nt: Runtime, store: seq<Rule>, reqs: seq<Rule>, k: nat)
    requires k <= |reqs|
    ensures RemoveFrom(nt, store, reqs, k) == Filter(store, UnlikeAll(nt, reqs[k..]))
    decreases |reqs| - k
  {
    hide UnlikeAll, Unlike, Filter, SameRule;
    if k == |reqs| {
      RemoveNone(nt, store, reqs[k..]);
    } else {
      RemoveIsFilter(nt, Filter(store, Unlike(nt, reqs[k])), reqs, k + 1);
      FilterTwice(nt, store, reqs[k], reqs[k + 1..]);
      assert [reqs[k]] + reqs[k + 1..] == reqs[k..];
    }
  }

  /** The same, letter by letter: removal keeps, in order, the entries whose code, length or
      letters differ from every rule of the request, whatever the case. */
  lemma RemoveExactly(nt: Runtime, store: seq<Rule>, reqs: seq<Rule>, keep: Rule -> bool)
    requires forall e :: keep(e) <==> forall k :: 0 <= k < |reqs| ==>
               !(&& reqs[k].code == e.code && |reqs[k].expr| == |e.expr|
                 && forall i :: 0 <= i < |e.expr| ==> nt.up(reqs[k].expr[i]) == nt.up(e.expr[i]))
    ensures RemoveFrom(nt, store, reqs, 0) == Filter(store, keep)
  {
    RemoveIsFilter(nt, store, reqs, 0);
    assert reqs[0..] == reqs;
    forall e: Rule ensures keep(e) == UnlikeAll(nt, reqs)(e) {
      forall k | 0 <= k < |reqs| {
        SameRuleIff(nt, reqs[k], e);
      }
    }
    FilterSame(store, keep, UnlikeAll(nt, reqs));
  }

  lemma {:induction false} FilterDropsOne<T>(s: seq<T>, p: T -> bool, x: T)
    requires Distinct(s)
    requires forall e :: e in s && !p(e) ==> e == x
    ensures |s| - |Filter(s, p)| <= 1
  {
    if s != [] {
      if p(s[0]) {
        FilterDropsOne(s[1..], p, x);
      } else {
        FilterAll(s[1..], p);
      }
    }
  }

  lemma FilterKeepsStore(nt: Runtime, store: seq<Rule>, p: Rule -> bool)
    requires StoreOk(nt, store)
    ensures StoreOk(nt, Filter(store, p))
  {
    FilterDistinct(store, p);
    forall r | r in Filter(store, p) ensures StoredForm(nt, r) {
      FilterHas(store, p, r);
    }
  }

  /** Because stored rules are unique a request removes at most one entry per request
      rule, so the sixteen bit counter of removed rules cannot wrap. */
  lemma {:induction false} RemoveBound(nt: Runtime, store: seq<Rule>, reqs: seq<Rule>, k: nat)
    requires k <= |reqs| && StoreOk(nt, store)
    ensures StoreOk(nt, RemoveFrom(nt, store, reqs, k))
    ensures 0 <= |store| - |RemoveFrom(nt, store, reqs, k)| <= |reqs| - k
    decreases |reqs| - k
  {
    if k < |reqs| {
      var p := Unlike(nt, reqs[k]);
      FilterKeepsStore(nt, store, p);
      FilterDropsOne(store, p, Stored(nt, reqs[k]));
      RemoveBound(nt, Filter(store, p), reqs, k + 1);
    }
  }

  /** One request rule of a removal. */
  lemma RemoveStep(nt: Runtime, store: seq<Rule>, reqs: seq<Rule>, k: nat)
    requires k < |reqs|
    ensures var rest := Filter(store, Unlike(nt, reqs[k]));
            && RemoveFrom(nt, store, reqs, k) == RemoveFrom(nt, rest, reqs, k + 1)
            && |RemoveFrom(nt, store, reqs, k)| <= |rest| <= |store|
  {
    RemoveShrinks(nt, Filter(store, Unlike(nt, reqs[k])), reqs, k + 1);
  }

  lemma RemoveEnds(nt: Runtime, store: seq<Rule>, reqs: seq<Rule>)
    ensures RemoveFrom(nt, store, reqs, |reqs|) == store
  {
  }

  lemma {:induction false} RemoveShrinks(nt: Runtime, store: seq<Rule>, reqs: seq<Rule>, k: nat)
    requires k <= |reqs|
    ensures |RemoveFrom(nt, store, reqs, k)| <= |store|
    decreases |reqs| - k
  {
    if k < |reqs| {
      RemoveShrinks(nt, Filter(store, Unlike(nt, reqs[k])), reqs, k + 1);
    }
  }

  // ---- Matching ----

  datatype Option<T> = None | Some(value: T)

  function MatchesName(nt: Runtime, name: UnicodeString): Rule -> bool {
    (r: Rule) => nt.matches(r.expr, name)
  }

  /** The rules that match a name, in list order. */
  function Matching(nt: Runtime, store: seq<Rule>, name: UnicodeString): seq<Rule> {
    Filter(store, MatchesName(nt, name))
  }

  /** The listing has every rule that matches and no other, each as often as the list. */
  lemma {:induction false} MatchingIs(nt: Runtime, store: seq<Rule>, name: UnicodeString, e: Rule)
    ensures multiset(Matching(nt, store, name))[e] == if nt.matches(e.expr, name) then multiset(store)[e] else 0
  {
    if store != [] {
      MatchingIs(nt, store[1..], name, e);
      assert store == [store[0]] + store[1..];
    }
  }

  /** The rule a lookup finds: the first of the list that matches. */
  function FirstMatch(nt: Runtime, store: seq<Rule>, name: UnicodeString): Option<Rule> {
    if store == [] then None
    else if nt.matches(store[0].expr, name) then Some(store[0])
    else FirstMatch(nt, store[1..], name)
  }

  /** The single lookup and the listing of all matches agree. */
  lemma {:induction false} FirstMatchIsFirstListed(nt: Runtime, store: seq<Rule>, name: UnicodeString)
    ensures FirstMatch(nt, store, name) ==
            if Matching(nt, store, name) == [] then None else Some(Matching(nt, store, name)[0])
  {
    if store != [] {
      FirstMatchIsFirstListed(nt, store[1..], name);
    }
  }

  /** It matches, it is listed, and nothing before it matches; if none is found, nothing does. */
  lemma {:induction false} FirstMatchIs(nt: Runtime, store: seq<Rule>, name: UnicodeString)
    ensures match FirstMatch(nt, store, name)
            case None => forall e :: e in store ==> !nt.matches(e.expr, name)
            case Some(r) => exists i :: 0 <= i < |store| && store[i] == r && nt.matches(r.expr, name) &&
                              forall j :: 0 <= j < i ==> !nt.matches(store[j].expr, name)
  {
    if store != [] && !nt.matches(store[0].expr, name) {
      FirstMatchIs(nt, store[1..], name);
      var found := FirstMatch(nt, store[1..], name);
      if found.Some? {
        var i :| 0 <= i < |store[1..]| && store[1..][i] == found.value &&
                 forall j :: 0 <= j < i ==> !nt.matches(store[1..][j].expr, name);
        forall j | 0 <= j < i + 1 ensures !nt.matches(store[j].expr, name) {
          if j > 0 { assert store[j] == store[1..][j - 1]; }
        }
        assert store[i + 1] == found.value;
      }
    }
  }

  lemma MatchingStep(nt: Runtime, store: seq<Rule>, name: UnicodeString)
    requires store != []
    ensures var rest := Matching(nt, store[1..], name);
            if nt.matches(store[0].expr, name) then
              Matching(nt, store, name) == [store[0]] + rest && Matching(nt, store, name)[1..] == rest
            else Matching(nt, store, name) == rest
  {
  }

  // ---- Histories ----

  datatype Request =
    | Add(rules: seq<Rule>, pool: nat -> Allocations)
    | Remove(rules: seq<Rule>)
    | Cleanup

  function Apply(nt: Runtime, store: seq<Rule>, q: Request): seq<Rule> {
    match q
    case Add(rules, pool) => AddTo(nt, store, rules, pool)
    case Remove(rules) => RemoveFrom(nt, store, rules, 0)
    case Cleanup => []
  }

  /** The store after a whole history of requests, starting empty. */
  function Run(nt: Runtime, history: seq<Request>): seq<Rule> {
    if history == [] then []
    else Apply(nt, Run(nt, history[..|history| - 1]), history[|history| - 1])
  }

  /** The store invariant holds after every history. */
  lemma {:induction false} StoreInvariant(nt: Runtime, history: seq<Request>)
    ensures StoreOk(nt, Run(nt, history))
  {
    if history != [] {
      var before := history[..|history| - 1];
      StoreInvariant(nt, before);
      match history[|history| - 1]
      case Add(rules, pool) => PlanKeepsStore(nt, Run(nt, before), rules, pool, 0);
      case Remove(rules) => RemoveBound(nt, Run(nt, before), rules, 0);
      case Cleanup =>
    }
  }

  /** What happened to the list, one entry at a time. */
  datatype Event = Inserted(rule: Rule) | Deleted(rule: Rule) | Cleared

  function InsertEvents(rs: seq<Rule>): (evs: seq<Event>)
    ensures |evs| == |rs| && forall k :: 0 <= k < |rs| ==> evs[k] == Inserted(rs[k])
  {
    seq(|rs|, k requires 0 <= k < |rs| => Inserted(rs[k]))
  }

  function DeleteEvents(rs: seq<Rule>): (evs: seq<Event>)
    ensures |evs| == |rs| && forall k :: 0 <= k < |rs| ==> evs[k] == Deleted(rs[k])
  {
    seq(|rs|, k requires 0 <= k < |rs| => Deleted(rs[k]))
  }

  function EventsOf(nt: Runtime, store: seq<Rule>, q: Request): seq<Event> {
    match q
    case Add(rules, pool) => InsertEvents(PlanAdd(nt, store, rules, pool, 0).accepted)
    case Remove(rules) => DeleteEvents(rules)
    case Cleanup => [Cleared]
  }

  /** The log of a history: every insertion that happened, every removal asked for. */
  function Log(nt: Runtime, history: seq<Request>): seq<Event> {
    if history == [] then []
    else
      var before := history[..|history| - 1];
      Log(nt, before) + EventsOf(nt, Run(nt, before), history[|history| - 1])
  }

  ghost predicate Kills(nt: Runtime, ev: Event, r: Rule) {
    ev.Cleared? || (ev.Deleted? && SameRule(nt, ev.rule, r))
  }

  /** Event `i` inserted a rule and nothing logged later removed it. */
  ghost predicate Survives(nt: Runtime, log: seq<Event>, i: nat) {
    && i < |log| && log[i].Inserted?
    && forall j :: i < j < |log| ==> !Kills(nt, log[j], log[i].rule)
  }

  /** The surviving insertions among the first `n` events, newest first. */
  ghost function Survivors(nt: Runtime, log: seq<Event>, n: nat): seq<Rule>
    requires n <= |log|
  {
    if n == 0 then []
    else (if Survives(nt, log, n - 1) then [log[n - 1].rule] else []) + Survivors(nt, log, n - 1)
  }

  ghost function NotKilledBy(nt: Runtime, ev: Event): Rule -> bool {
    (r: Rule) => !Kills(nt, ev, r)
  }

  lemma SurvivesSnoc(nt: Runtime, log: seq<Event>, ev: Event, i: nat)
    requires i < |log|
    ensures (log + [ev])[i] == log[i]
    ensures Survives(nt, log + [ev], i) <==> Survives(nt, log, i) && !Kills(nt, ev, log[i].rule)
  {
    var longer := log + [ev];
    assert longer[|log|] == ev && forall j :: 0 <= j < |log| ==> longer[j] == log[j];
    hide Kills;
  }

  lemma {:induction false} SurvivorsSnoc(nt: Runtime, log: seq<Event>, ev: Event, n: nat)
    requires n <= |log|
    ensures Survivors(nt, log + [ev], n) == Filter(Survivors(nt, log, n), NotKilledBy(nt, ev))
  {
    hide Kills;
    if n > 0 {
      var i := n - 1;
      SurvivorsSnoc(nt, log, ev, i);
      SurvivesSnoc(nt, log, ev, i);
      var head := if Survives(nt, log, i) then [log[i].rule] else [];
      FilterConcat(head, Survivors(nt, log, i), NotKilledBy(nt, ev));
      if Survives(nt, log, i) { assert head[1..] == []; }
    }
  }

  lemma SurvivorsAfter(nt: Runtime, log: seq<Event>, ev: Event)
    ensures Survivors(nt, log + [ev], |log| + 1) ==
            (if ev.Inserted? then [ev.rule] else [])
            + Filter(Survivors(nt, log, |log|), NotKilledBy(nt, ev))
  {
    SurvivorsSnoc(nt, log, ev, |log|);
    assert (log + [ev])[|log|] == ev;
  }

  lemma InsertionSurvives(nt: Runtime, log: seq<Event>, r: Rule)
    ensures Survivors(nt, log + [Inserted(r)], |log| + 1) == [r] + Survivors(nt, log, |log|)
  {
    SurvivorsAfter(nt, log, Inserted(r));
    FilterAll(Survivors(nt, log, |log|), NotKilledBy(nt, Inserted(r)));
  }

  lemma {:induction false} InsertionsSurvive(nt: Runtime, log: seq<Event>, acc: seq<Rule>)
    ensures var longer := log + InsertEvents(acc);
            Survivors(nt, longer, |longer|) == Reverse(acc) + Survivors(nt, log, |log|)
    decreases |acc|
  {
    hide Survivors;
    if acc == [] {
      assert log + InsertEvents(acc) == log;
    } else {
      var init, last := acc[..|acc| - 1], acc[|acc| - 1];
      var mid := log + InsertEvents(init);
      InsertionsSurvive(nt, log, init);
      InsertionSurvives(nt, mid, last);
      assert log + InsertEvents(acc) == mid + [Inserted(last)];
      assert acc == init + [last];
      ReverseSnoc(init, last);
    }
  }

  lemma {:induction false} DeletionsFilter(nt: Runtime, log: seq<Event>, reqs: seq<Rule>, k: nat)
    requires k <= |reqs|
    ensures var longer := log + DeleteEvents(reqs[k..]);
            Survivors(nt, longer, |longer|) == RemoveFrom(nt, Survivors(nt, log, |log|), reqs, k)
    decreases |reqs| - k
  {
    hide Survivors, Filter, SameRule;
    if k == |reqs| {
      assert log + DeleteEvents(reqs[k..]) == log;
    } else {
      var ev := Deleted(reqs[k]);
      SurvivorsAfter(nt, log, ev);
      FilterSame(Survivors(nt, log, |log|), NotKilledBy(nt, ev), Unlike(nt, reqs[k]));
      assert [] + Filter(Survivors(nt, log, |log|), NotKilledBy(nt, ev)) ==
             Filter(Survivors(nt, log, |log|), Unlike(nt, reqs[k]));
      DeletionsFilter(nt, log + [ev], reqs, k + 1);
      assert log + DeleteEvents(reqs[k..]) == (log + [ev]) + DeleteEvents(reqs[k + 1..]);
    }
  }

  lemma {:induction false} FilterSame<T(!new)>(s: seq<T>, p: T -> bool, q: T -> bool)
    requires forall x :: p(x) == q(x)
    ensures Filter(s, p) == Filter(s, q)
  {
    if s != [] {
      FilterSame(s[1..], p, q);
    }
  }

  lemma {:induction false} FilterNone<T>(s: seq<T>, p: T -> bool)
    requires forall x :: x in s ==> !p(x)
    ensures Filter(s, p) == []
  {
    if s != [] {
      FilterNone(s[1..], p);
    }
  }

  /** After every history the list is exactly the surviving insertions, newest first. */
  lemma {:induction false} StoreIsSurvivors(nt: Runtime, history: seq<Request>)
    ensures var log := Log(nt, history); Run(nt, history) == Survivors(nt, log, |log|)
  {
    if history != [] {
      var before := history[..|history| - 1];
      StoreIsSurvivors(nt, before);
      var log := Log(nt, before);
      match history[|history| - 1]
      case Add(rules, pool) =>
        InsertionsSurvive(nt, log, PlanAdd(nt, Run(nt, before), rules, pool, 0).accepted);
      case Remove(rules) =>
        DeletionsFilter(nt, log, rules, 0);
        assert rules[0..] == rules;
      case Cleanup =>
        SurvivorsAfter(nt, log, Cleared);
        FilterNone(Survivors(nt, log, |log|), NotKilledBy(nt, Cleared));
    }
  }

  /** Insertion `i` survives, matches, and no later surviving insertion matches. */
  ghost predicate NewestMatch(nt: Runtime, log: seq<Event>, n: nat, name: UnicodeString, i: nat)
    requires n <= |log|
  {
    && i < n && Survives(nt, log, i) && nt.matches(log[i].rule.expr, name)
    && forall j :: i < j < n && Survives(nt, log, j) ==> !nt.matches(log[j].rule.expr, name)
  }

  lemma {:induction false} FirstMatchOfSurvivors(nt: Runtime, log: seq<Event>, n: nat, name: UnicodeString)
    requires n <= |log|
    ensures match FirstMatch(nt, Survivors(nt, log, n), name)
            case Some(r) => exists i: nat :: NewestMatch(nt, log, n, name, i) && log[i].rule == r
            case None => forall i :: 0 <= i < n && Survives(nt, log, i) ==> !nt.matches(log[i].rule.expr, name)
  {
    if n > 0 {
      FirstMatchOfSurvivors(nt, log, n - 1, name);
      var rest := Survivors(nt, log, n - 1);
      assert [] + rest == rest;
      if Survives(nt, log, n - 1) {
        assert ([log[n - 1].rule] + rest)[1..] == rest;
        if nt.matches(log[n - 1].rule.expr, name) {
          assert NewestMatch(nt, log, n, name, n - 1);
          return;
        }
      }
      var found := FirstMatch(nt, rest, name);
      if found.Some? {
        var i: nat :| NewestMatch(nt, log, n - 1, name, i) && log[i].rule == found.value;
        assert NewestMatch(nt, log, n, name, i);
      }
    }
  }

  /** The newest matching rule wins over all histories: a lookup returns the rule of the
      most recent surviving insertion that matches, and nothing exactly when none does. */
  lemma NewestMatchingRuleWins(nt: Runtime, history: seq<Request>, name: UnicodeString)
    ensures var log := Log(nt, history);
            match FirstMatch(nt, Run(nt, history), name)
            case Some(r) => exists i: nat :: NewestMatch(nt, log, |log|, name, i) && log[i].rule == r
            case None => forall i :: 0 <= i < |log| && Survives(nt, log, i) ==> !nt.matches(log[i].rule.expr, name)
  {
    StoreIsSurvivors(nt, history);
    FirstMatchOfSurvivors(nt, Log(nt, history), |Log(nt, history)|, name);
  }
}
