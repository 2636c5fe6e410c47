/** The driver's rule list: a circular doubly linked list of reference-counted rules,
    edited and walked in place. (FileGuardCore/Rule.c, FileGuardCore/Rule.h) */
module RuleList {
  import opened FileGuard
  import opened Sequences
  import opened RuleFrames
  import opened RuleHistory

  /** FGC_RULE. The code and expression never change; `freed` records that the memory was
      handed back and `owner` is the list entry made for the rule. */
  class RuleObject {
    const code: RuleCode
    const expr: UnicodeString
    var references: int
    ghost var freed: bool
    ghost var owner: RuleEntry?

    constructor (code: RuleCode, expr: UnicodeString)
      ensures this.code == code && this.expr == expr
      ensures references == 1 && !freed
    {
      this.code, this.expr := code, expr;
      references, freed := 1, false;
    }

    method Reference()
      modifies this`references
      ensures references == old(references) + 1
    {
      references := references + 1;
    }

    method Release()
      requires !freed && references > 0
      modifies `references, `freed
      ensures references == old(references) - 1
      ensures freed <==> references == 0
    {
      references := references - 1;
      if references == 0 {
        freed := true;
      }
    }
  }

  /** FGC_RULE_ENTRY, and LIST_ENTRY for the list head, which has no rule. `freed` records
      that the memory was handed back; a walk reads an entry through Next and Carried, which
      forbid that. */
  class RuleEntry {
    var flink: RuleEntry
    var blink: RuleEntry
    const rule: RuleObject?
    ghost var freed: bool

    constructor (rule: RuleObject?)
      modifies if rule == null then {} else {rule}`owner
      ensures this.rule == rule && flink == this && blink == this && !freed
      ensures rule != null ==> rule.owner == this
    {
      flink, blink, freed := this, this, false;
      this.rule := rule;
      new;
      if rule != null {
        rule.owner := this;
      }
    }

    function Next(): RuleEntry
      requires !freed
      reads this
    {
      flink
    }

    function Carried(): RuleObject?
      requires !freed
      reads this
    {
      rule
    }
  }

  ghost predicate HaveRules(es: seq<RuleEntry>) {
    forall e :: e in es ==> e.rule != null
  }

  ghost function RuleObjects(es: set<RuleEntry>): set<RuleObject> {
    set e | e in es && e.rule != null :: e.rule
  }

  /** The rule an entry stands for. */
  ghost function ValueOf(e: RuleEntry): Rule
    requires e.rule != null
  {
    Rule(e.rule.code, e.rule.expr)
  }

  /** The entry is live, and so is its rule, which was made for it and has a reference for
      the list to hold. */
  ghost predicate LiveRule(e: RuleEntry)
    reads e, e.rule
  {
    !e.freed && e.rule != null && e.rule.owner == e && e.rule.references > 0 && !e.rule.freed
  }

  /** Creating an entry: three pool allocations, undone in full when one fails. `blocks`
      counts the pool blocks still allocated on return. */
  method CreateRuleEntry(nt: Runtime, r: Rule, a: Allocations)
    returns (status: Status, entry: RuleEntry?, blocks: nat)
    ensures status == CreateStatus(a, r.expr)
    ensures !a.entry ==> status == InsufficientResources
    ensures a.entry && r.expr == [] ==> status == InvalidParameter
    ensures a.entry && r.expr != [] && !a.text ==> status == InsufficientResources
    ensures a.entry && r.expr != [] && a.text && !a.upcased ==> status == OtherFailure
    ensures a.entry && r.expr != [] && a.text && a.upcased && !a.rule ==> status == InsufficientResources
    ensures a.entry && r.expr != [] && a.text && a.upcased && a.rule ==> status == Success
    ensures blocks == if status == Success then 3 else 0
    ensures entry != null <==> status == Success
    ensures entry != null ==> fresh(entry) && entry.rule != null && fresh(entry.rule)
    ensures entry != null ==> LiveRule(entry) && ValueOf(entry) == Stored(nt, r)
    ensures entry != null ==> entry.rule.references == 1
  {
    status, entry, blocks := InsufficientResources, null, 0;
    if a.entry {
      blocks := blocks + 1;
      var rule: RuleObject?;
      var inner: nat;
      status, rule, inner := CreateRule(nt, r, a);
      blocks := blocks + inner;
      if status == Success {
        entry := new RuleEntry(rule);
      } else {
        blocks := blocks - 1;
      }
    }
  }

  method CreateRule(nt: Runtime, r: Rule, a: Allocations)
    returns (status: Status, rule: RuleObject?, blocks: nat)
    ensures status == CreateStatus(a.(entry := true), r.expr)
    ensures blocks == if status == Success then 2 else 0
    ensures rule != null <==> status == Success
    ensures rule != null ==> fresh(rule) && rule.references == 1 && !rule.freed
    ensures rule != null ==> Rule(rule.code, rule.expr) == Stored(nt, r)
  {
    rule, blocks := null, 0;
    status := if r.expr == [] then InvalidParameter else if a.text then Success else InsufficientResources;
    if status == Success {
      blocks := blocks + 1;
      if !a.upcased {
        status := OtherFailure;
      } else if !a.rule {
        status := InsufficientResources;
      } else {
        blocks := blocks + 1;
        rule := new RuleObject(r.code, Upcase(nt, r.expr));
      }
      if status != Success {
        blocks := blocks - 1;
      }
    }
  }

  /** A walk that has decided about the first `i` rules of a list and will drop those of the
      rest that equal `q`. */
  function HalfFiltered(nt: Runtime, q: Rule, rs: seq<Rule>, i: nat): seq<Rule>
    requires i <= |rs|
  {
    rs[..i] + Filter(rs[i..], Unlike(nt, q))
  }

  lemma HalfFilteredStep(nt: Runtime, q: Rule, rs: seq<Rule>, i: nat)
    requires i < |rs|
    ensures HalfFiltered(nt, q, rs, i) ==
            if SameRule(nt, q, rs[i]) then HalfFiltered(nt, q, rs[..i] + rs[i + 1..], i)
            else HalfFiltered(nt, q, rs, i + 1)
  {
    assert rs[i..][1..] == rs[i + 1..];
    if SameRule(nt, q, rs[i]) {
      var less := rs[..i] + rs[i + 1..];
      assert less[..i] == rs[..i] && less[i..] == rs[i + 1..];
    } else {
      assert rs[..i + 1] == rs[..i] + [rs[i]];
    }
  }

  lemma HalfFilteredEnds(nt: Runtime, q: Rule, rs: seq<Rule>)
    ensures HalfFiltered(nt, q, rs, 0) == Filter(rs, Unlike(nt, q))
    ensures HalfFiltered(nt, q, rs, |rs|) == rs
  {
    assert rs[0..] == rs && rs[|rs|..] == [] && rs[..|rs|] == rs;
  }

  /** The state of an adding loop before request rule `k`, with `now` in the list: what was
      accepted lies in front of the old list, and the plan of the rest completes the plan of
      the request. */
  ghost predicate Adding(nt: Runtime, now: seq<Rule>, before: seq<Rule>, reqs: seq<Rule>, pool: nat -> Allocations,
                         k: nat, acc: seq<Rule>)
    requires k <= |reqs|
  {
    && now == Reverse(acc) + before
    && PlanAdd(nt, before, reqs, pool, 0) == Resume(acc, PlanAdd(nt, now, reqs, pool, k))
  }

  lemma AddingTurn(nt: Runtime, now: seq<Rule>, before: seq<Rule>, reqs: seq<Rule>, pool: nat -> Allocations,
                   k: nat, acc: seq<Rule>)
    requires k < |reqs| && Adding(nt, now, before, reqs, pool, k, acc)
    ensures var r := Stored(nt, reqs[k]);
            var status := CreateStatus(pool(k), reqs[k].expr);
            if !ValidRuleCode(reqs[k].code) || r in now then Adding(nt, now, before, reqs, pool, k + 1, acc)
            else if status == Success then Adding(nt, [r] + now, before, reqs, pool, k + 1, acc + [r])
            else now == Reverse(acc) + before && PlanAdd(nt, before, reqs, pool, 0) == AddPlan(acc, status, k)
  {
    hide PlanAdd, Stored, Reverse, CreateStatus, ValidRuleCode;
    PlanStep(nt, now, reqs, pool, k, acc);
    PrependAccepted(acc, Stored(nt, reqs[k]), before);
  }

  class RuleStore {
    const nt: Runtime
    const head: RuleEntry
    ghost var entries: seq<RuleEntry>
    ghost var Contents: seq<Rule>

    /** The k-th element of the ring that starts and ends at the list head. */
    ghost function Ring(k: nat): RuleEntry
      reads this
    {
      if 0 < k <= |entries| then entries[k - 1] else head
    }

    /** The links form one ring through the head, mutually inverse. */
    ghost predicate Linked()
      reads this, head, entries
    {
      && head !in entries && !head.freed
      && forall k :: 0 <= k <= |entries| ==> Ring(k).flink == Ring(k + 1) && Ring(k + 1).blink == Ring(k)
    }

    /** A ring whose entries carry live rules with the abstract contents. */
    ghost predicate Shaped()
      reads this, head, entries, set e | e in entries && e.rule != null :: e.rule
    {
      && Linked()
      && |Contents| == |entries|
      && forall k :: 0 <= k < |entries| ==> LiveRule(entries[k]) && Contents[k] == ValueOf(entries[k])
    }

    /** The invariant every request keeps: a well-shaped list over a proper store. */
    ghost predicate Valid()
      reads this, head, entries, set e | e in entries && e.rule != null :: e.rule
    {
      Shaped() && StoreOk(nt, Contents)
    }

    /** The rules of the listed entries. */
    ghost function Objects(): set<RuleObject>
      reads this
    {
      RuleObjects(set e | e in entries)
    }

    constructor (nt: Runtime)
      ensures Valid() && this.nt == nt && Contents == [] && entries == [] && fresh(head)
    {
      this.nt := nt;
      head := new RuleEntry(null);
      entries, Contents := [], [];
    }

    /** No entry is linked twice: following the links from two equal entries would reach
        the head at two different distances. */
    lemma {:induction false} EntriesDiffer(i: nat, j: nat)
      requires Linked() && i < j < |entries|
      ensures entries[i] != entries[j]
      decreases |entries| - j
    {
      assert Ring(i + 1).flink == Ring(i + 2) && Ring(j + 1).flink == Ring(j + 2);
      if j + 1 < |entries| {
        EntriesDiffer(i + 1, j + 1);
      }
    }

    /** InsertHeadList. */
    method InsertHead(e: RuleEntry)
      requires Shaped() && e != head && e !in entries && LiveRule(e)
      modifies this, head`flink, head.flink`blink, e`flink, e`blink
      ensures Shaped() && entries == [e] + old(entries) && Contents == [ValueOf(e)] + old(Contents)
    {
      var first := head.flink;
      assert first == Ring(0).flink == Ring(1);
      e.flink := first;
      e.blink := head;
      first.blink := e;
      head.flink := e;
      entries, Contents := [e] + entries, [ValueOf(e)] + Contents;
      forall k | 0 <= k <= |entries| ensures Ring(k).flink == Ring(k + 1) && Ring(k + 1).blink == Ring(k) {
        if k > 1 {
          assert Ring(k) == old(Ring(k - 1)) && Ring(k + 1) == old(Ring(k));
          assert old(Ring(k - 1).flink) == old(Ring(k)) && old(Ring(k).blink) == old(Ring(k - 1));
        }
      }
    }

    /** RemoveEntryList. */
    method RemoveEntry(e: RuleEntry, ghost i: nat)
      requires Linked() && i < |entries| == |Contents| && entries[i] == e
      modifies this, e.flink`blink, e.blink`flink
      ensures Linked() && entries == old(entries)[..i] + old(entries)[i + 1..]
      ensures Contents == old(Contents)[..i] + old(Contents)[i + 1..]
      ensures forall f :: f in entries <==> f in old(entries) && f != e
    {
      forall j, k | 0 <= j < k < |entries| ensures entries[j] != entries[k] { EntriesDiffer(j, k); }
      var next, prev := e.flink, e.blink;
      assert Ring(i + 1) == e && next == Ring(i + 2) && prev == Ring(i);
      prev.flink := next;
      next.blink := prev;
      entries, Contents := entries[..i] + entries[i + 1..], Contents[..i] + Contents[i + 1..];
      forall k | 0 <= k <= |entries| ensures Ring(k).flink == Ring(k + 1) && Ring(k + 1).blink == Ring(k) {
        if k < i {
          assert Ring(k) == old(Ring(k)) && Ring(k + 1) == old(Ring(k + 1));
        } else if k > i {
          assert Ring(k) == old(Ring(k + 1)) && Ring(k + 1) == old(Ring(k + 2));
        }
      }
    }

    /** Unlink one entry and free it (FgcFreeRuleEntry): the list's reference to its rule
        is dropped and the entry's memory handed back. */
    method Discard(e: RuleEntry, ghost i: nat)
      requires Shaped() && i < |entries| && entries[i] == e
      modifies this, e.flink`blink, e.blink`flink, e`freed, e.rule`references, e.rule`freed
      ensures Shaped()
      ensures entries == old(entries)[..i] + old(entries)[i + 1..]
      ensures Contents == old(Contents)[..i] + old(Contents)[i + 1..]
      ensures forall f :: f in entries <==> f in old(entries) && f != e
      ensures e.rule.references == old(e.rule.references) - 1
      ensures e.rule.freed <==> e.rule.references == 0
      ensures e.freed
    {
      RemoveEntry(e, i);
      forall k | 0 <= k < |entries|
        ensures LiveRule(entries[k]) && Contents[k] == ValueOf(entries[k]) && entries[k].rule != e.rule
      {
        var was := if k < i then k else k + 1;
        assert entries[k] == old(entries)[was] && Contents[k] == old(Contents)[was];
        assert entries[k] in entries;
      }
      e.rule.Release();
      e.freed := true;
    }

    /** One step of a removing walk: compare the entry and drop it if it equals `q`. */
    method Visit(q: Rule, e: RuleEntry, ghost i: nat, ghost counts: map<RuleEntry, int>) returns (hit: bool)
      requires Shaped() && i < |entries| && entries[i] == e
      requires Counted(entries, counts)
      modifies this, e.flink`blink, e.blink`flink, e`freed, e.rule`references, e.rule`freed
      ensures Shaped() && Counted(entries, counts)
      ensures hit == SameRule(nt, q, ValueOf(e))
      ensures entries == if hit then old(entries)[..i] + old(entries)[i + 1..] else old(entries)
      ensures Contents == if hit then old(Contents)[..i] + old(Contents)[i + 1..] else old(Contents)
    {
      var rule := e.Carried();
      hit := q.code == rule.code && Upcase(nt, q.expr) == Upcase(nt, rule.expr);
      if hit {
        Discard(e, i);
      }
    }

    /** What the links say about the entry a walk stands on. */
    lemma Neighbours(i: nat, counts: map<RuleEntry, int>)
      requires Shaped() && i <= |entries| && Counted(entries, counts)
      ensures Ring(i).flink == Ring(i + 1) && |Contents| == |entries|
      ensures Ring(i + 1) == head <==> i == |entries|
      ensures i < |entries| ==> Ring(i + 1).rule in RuleObjects(counts.Keys) && ValueOf(entries[i]) == Contents[i]
      ensures i < |entries| ==> Ring(i + 1).flink == Ring(i + 2) && Ring(i + 1).blink == Ring(i)
      ensures Ring(i) == head || Ring(i) in counts
      ensures Ring(i + 1) == head || Ring(i + 1) in counts
      ensures Ring(i + 2) == head || Ring(i + 2) in counts
      ensures !Ring(i).freed && !Ring(i + 1).freed && !Ring(i + 2).freed
    {
    }

    /** The inner loop of removal: unlink and release every entry that equals `q`, while
        walking the list with the next entry saved. */
    method RemoveMatching(q: Rule, ghost counts: map<RuleEntry, int>) returns (removed: nat)
      requires Shaped() && Counted(entries, counts)
      modifies this, head, counts.Keys, RuleObjects(counts.Keys)
      ensures Shaped() && Counted(entries, counts)
      ensures Contents == Filter(old(Contents), Unlike(nt, q))
      ensures removed == |old(entries)| - |entries|
    {
      hide Counted, Shaped, HalfFiltered, SameRule, Filter, Unlike, ValueOf, RuleObjects, StoreOk;
      ghost var i := 0;
      removed := 0;
      Neighbours(0, counts);
      var curr := head.Next();
      var next := curr.Next();
      HalfFilteredEnds(nt, q, Contents);
      while curr != head
        invariant Shaped() && Counted(entries, counts) && |Contents| == |entries|
        invariant 0 <= i <= |entries| && curr == Ring(i + 1) && next == curr.flink
        invariant removed == |old(entries)| - |entries|
        invariant HalfFiltered(nt, q, Contents, i) == Filter(old(Contents), Unlike(nt, q))
        decreases |entries| - i
      {
        Neighbours(i, counts);
        HalfFilteredStep(nt, q, Contents, i);
        var hit := Visit(q, curr, i, counts);
        if hit {
          removed := removed + 1;
        } else {
          i := i + 1;
        }
        Neighbours(i, counts);
        curr := next;
        next := curr.Next();
      }
      Neighbours(i, counts);
      HalfFilteredEnds(nt, q, Contents);
    }

    lemma StartCounting()
      requires Shaped()
      ensures HaveRules(entries) && Counted(entries, Counts(entries)) && |Contents| == |entries|
    {
    }

    /** FgcFindAndRemoveRule: remove every rule a request message lists. `reqs` are the
        rules whose frames the message holds. */
    method FindAndRemoveRule(message: seq<Byte>, base: nat, rulesAmount: Ushort, ghost reqs: seq<Rule>)
      returns (status: Status, removedAmount: Ushort)
      requires Valid()
      requires |reqs| == rulesAmount && Holds(message, base, reqs)
      modifies this, head, entries, Objects()
      ensures Valid() && Contents == RemoveFrom(nt, old(Contents), reqs, 0)
      ensures status == if rulesAmount == 0 then InvalidParameter else Success
      ensures removedAmount == |old(Contents)| - |Contents| <= rulesAmount
      ensures old(HaveRules(entries)) && Counted(entries, old(Counts(entries)))
      ensures forall e :: e in old(entries) ==>
                && e.rule.references == old(e.rule.references) - (if e in entries then 0 else 1)
                && (e.freed <==> e !in entries) && (e.rule.freed <==> e.rule.references == 0)
    {
      hide Shaped, Counted, StoreOk, Filter, Holds, RemoveFrom, SameRule, Unlike, Image, RuleAt;
      status, removedAmount := Success, 0;
      StartCounting();
      RemoveEnds(nt, Contents, reqs);
      ghost var counts := Counts(entries);
      if rulesAmount == 0 {
        WhatCounted(entries, counts);
        return InvalidParameter, 0;
      }
      ghost var before := Contents;
      RemoveBound(nt, before, reqs, 0);
      var ruleIdx, cursor: nat := 0, base;
      while ruleIdx < rulesAmount
        invariant 0 <= ruleIdx <= rulesAmount
        invariant Shaped() && Counted(entries, counts) && |Contents| == |entries|
        invariant Holds(message, cursor, reqs[ruleIdx..])
        invariant RemoveFrom(nt, Contents, reqs, ruleIdx) == RemoveFrom(nt, before, reqs, 0)
        invariant removedAmount == |before| - |Contents|
      {
        RemoveStep(nt, Contents, reqs, ruleIdx);
        WalkStep(message, cursor, reqs, ruleIdx);
        var hits := RemoveMatching(RuleAt(message, cursor), counts);
        StartCounting();
        removedAmount := (removedAmount + hits) % 0x1_0000;
        cursor := cursor + SIZEOF_RULE + ExprSizeAt(message, cursor);
        ruleIdx := ruleIdx + 1;
      }
      RemoveEnds(nt, Contents, reqs);
      WhatCounted(entries, counts);
    }

    /** The inner loop of adding: is a rule equal to `q` listed already? */
    method IsListed(q: Rule) returns (listed: bool)
      requires Valid()
      ensures listed <==> Stored(nt, q) in Contents
      ensures listed <==>
              exists k :: 0 <= k < |Contents| && Contents[k].code == q.code && |Contents[k].expr| == |q.expr| &&
                forall i :: 0 <= i < |q.expr| ==> Contents[k].expr[i] == nt.up(q.expr[i])
    {
      forall e: Rule {
        StoredIff(nt, q, e);
      }
      var curr := head.Next();
      assert curr == Ring(0).flink == Ring(1);
      var next := curr.Next();
      ghost var i := 0;
      while curr != head
        invariant 0 <= i <= |entries| && curr == Ring(i + 1) && next == curr.flink
        invariant forall k :: 0 <= k < i ==> Contents[k] != Stored(nt, q)
        decreases |entries| - i
      {
        var rule := curr.Carried();
        assert Contents[i] in Contents && next == Ring(i + 2);
        SameAsStored(nt, q, Contents[i]);
        if q.code == rule.code && Upcase(nt, q.expr) == Upcase(nt, rule.expr) {
          return true;
        }
        i := i + 1;
        curr := next;
        next := curr.Next();
      }
      return false;
    }

    /** One turn of the adding loop: skip an invalid or listed rule, insert a new one. */
    method AddOne(r: Rule, a: Allocations) returns (status: Status, entry: RuleEntry?)
      requires Valid()
      modifies this, head, head.flink
      ensures Valid()
      ensures var skip := !ValidRuleCode(r.code) || Stored(nt, r) in old(Contents);
              && status == (if skip then Success else CreateStatus(a, r.expr))
              && (entry != null <==> !skip && status == Success)
      ensures Contents == if entry != null then [Stored(nt, r)] + old(Contents) else old(Contents)
      ensures entries == if entry != null then [entry] + old(entries) else old(entries)
      ensures entry != null ==> fresh(entry) && entry.rule != null && fresh(entry.rule)
    {
      status, entry := Success, null;
      if !ValidRuleCode(r.code) {
        return;
      }
      var listed := IsListed(r);
      if listed {
        return;
      }
      var blocks: nat;
      status, entry, blocks := CreateRuleEntry(nt, r, a);
      if status == Success {
        InsertNew(entry, r);
      }
    }

    /** One turn of the adding loop with the cursor of the message: `acc` are the rules
        accepted so far. */
    method AddNext(message: seq<Byte>, cursor: nat, k: nat, pool: nat -> Allocations,
                   ghost reqs: seq<Rule>, ghost before: seq<Rule>, ghost acc: seq<Rule>)
      returns (status: Status, entry: RuleEntry?, newCursor: nat)
      requires Valid() && k < |reqs| && Holds(message, cursor, reqs[k..]) &&
               Adding(nt, Contents, before, reqs, pool, k, acc)
      modifies this, head, head.flink
      ensures Valid() && entries == if entry != null then [entry] + old(entries) else old(entries)
      ensures entry != null ==> fresh(entry) && entry.rule != null && fresh(entry.rule)
      ensures status == Success ==>
                && Holds(message, newCursor, reqs[k + 1..])
                && Adding(nt, Contents, before, reqs, pool, k + 1,
                          if entry != null then acc + [Stored(nt, reqs[k])] else acc)
      ensures status != Success ==>
                && entry == null && Contents == Reverse(acc) + before
                && PlanAdd(nt, before, reqs, pool, 0) == AddPlan(acc, status, k)
    {
      hide Valid, Adding, Reverse, PlanAdd, Holds, Ring, RuleAt, CreateStatus, ValidRuleCode, Stored;
      WalkStep(message, cursor, reqs, k);
      AddingTurn(nt, Contents, before, reqs, pool, k, acc);
      status, entry := AddOne(RuleAt(message, cursor), pool(k));
      newCursor := cursor + SIZEOF_RULE + ExprSizeAt(message, cursor);
    }

    /** FgcAddRules: insert the rules of a request message at the head, one by one. */
    method AddRules(message: seq<Byte>, base: nat, rulesAmount: Ushort, ghost reqs: seq<Rule>, pool: nat -> Allocations)
      returns (status: Status, addedAmount: Ushort)
      requires Valid()
      requires |reqs| == rulesAmount && Holds(message, base, reqs)
      modifies this, head, entries
      ensures Valid() && Contents == AddTo(nt, old(Contents), reqs, pool)
      ensures status == if rulesAmount == 0 then InvalidParameter else PlanAdd(nt, old(Contents), reqs, pool, 0).status
      ensures addedAmount == |Contents| - |old(Contents)| <= rulesAmount
      ensures |entries| == |old(entries)| + addedAmount && entries[addedAmount..] == old(entries)
      ensures forall e :: e in entries[..addedAmount] ==> fresh(e) && e.rule != null && fresh(e.rule)
    {
      hide Valid, Reverse, PlanAdd, Holds, Ring, Adding;
      status, addedAmount := Success, 0;
      ghost var before, all := Contents, entries;
      ghost var acc: seq<Rule>, news: seq<RuleEntry> := [], [];
      StartAdding(reqs, pool);
      if rulesAmount == 0 {
        EndAdding(before, reqs, pool, acc);
        return InvalidParameter, 0;
      }
      var ruleIdx, cursor: nat := 0, base;
      while ruleIdx < rulesAmount
        invariant 0 <= ruleIdx <= rulesAmount && Valid() && status == Success
        invariant Holds(message, cursor, reqs[ruleIdx..])
        invariant Adding(nt, Contents, before, reqs, pool, ruleIdx, acc)
        invariant addedAmount == |acc| == |news| <= ruleIdx
        invariant entries == news + all && forall e :: e in news ==> fresh(e) && e.rule != null && fresh(e.rule)
      {
        FirstEntry(news, all);
        var entry: RuleEntry?;
        status, entry, cursor := AddNext(message, cursor, ruleIdx, pool, reqs, before, acc);
        if status != Success {
          return;
        }
        if entry != null {
          assert [entry] + news + all == [entry] + (news + all);
          acc, news := acc + [Stored(nt, reqs[ruleIdx])], [entry] + news;
          addedAmount := addedAmount + 1;
        }
        ruleIdx := ruleIdx + 1;
      }
      EndAdding(before, reqs, pool, acc);
    }

    lemma StartAdding(reqs: seq<Rule>, pool: nat -> Allocations)
      ensures Adding(nt, Contents, Contents, reqs, pool, 0, []) && reqs[0..] == reqs
    {
      PlanEnds(nt, Contents, reqs, pool);
    }

    lemma EndAdding(before: seq<Rule>, reqs: seq<Rule>, pool: nat -> Allocations, acc: seq<Rule>)
      requires Adding(nt, Contents, before, reqs, pool, |reqs|, acc)
      ensures Contents == Reverse(acc) + before
      ensures PlanAdd(nt, before, reqs, pool, 0) == AddPlan(acc, Success, |reqs|)
    {
      PlanEnds(nt, Contents, reqs, pool);
    }

    lemma FirstEntry(news: seq<RuleEntry>, rest: seq<RuleEntry>)
      requires Valid() && entries == news + rest
      ensures head.flink == head || head.flink in news || head.flink in rest
    {
      assert head.flink == Ring(0).flink == Ring(1);
    }

    /** Inserting a created entry keeps the store proper: the rule is valid, not empty,
        upcased and new. */
    method InsertNew(e: RuleEntry, ghost r: Rule)
      requires Valid() && e != head && e !in entries && LiveRule(e)
      requires ValueOf(e) == Stored(nt, r) && ValidRuleCode(r.code) && r.expr != [] && Stored(nt, r) !in Contents
      modifies this, head, head.flink, e
      ensures Valid() && entries == [e] + old(entries) && Contents == [Stored(nt, r)] + old(Contents)
    {
      InsertHead(e);
      UpcaseIdempotent(nt, r.expr);
    }

    /** FgcMatchRules: the first rule whose expression matches, with a reference taken for
        the caller; lookup and reference are one step here. */
    method MatchRules(name: UnicodeString) returns (found: RuleObject?)
      requires Valid()
      modifies set e | e in entries && e.rule != null :: e.rule`references
      ensures Valid()
      ensures match FirstMatch(nt, Contents, name)
              case None => found == null
              case Some(r) => found != null && r == Rule(found.code, found.expr)
      ensures found == null ==> forall e :: e in Contents ==> !nt.matches(e.expr, name)
      ensures found != null ==>
                exists i :: 0 <= i < |entries| && entries[i].rule == found && nt.matches(found.expr, name) &&
                  forall j :: 0 <= j < i ==> !nt.matches(Contents[j].expr, name)
      ensures forall e :: e in entries ==>
                e.rule.references == old(e.rule.references) + (if e.rule == found then 1 else 0)
      ensures found != null ==> exists e :: e in entries && e.rule == found
    {
      FirstLinks();
      var entry := head.Next();
      var next := entry.Next();
      ghost var i := 0;
      found := null;
      while entry != head
        invariant 0 <= i <= |entries| && entry == Ring(i + 1) && next == entry.flink && found == null
        invariant FirstMatch(nt, Contents, name) == FirstMatch(nt, Contents[i..], name)
        invariant forall j :: 0 <= j < i ==> !nt.matches(Contents[j].expr, name)
        decreases |entries| - i
      {
        assert next == Ring(i + 2) && entry in entries && Contents[i..][0] == Contents[i];
        if nt.matches(entry.Carried().expr, name) {
          found := entry.Carried();
          found.Reference();
          return;
        }
        assert Contents[i..][1..] == Contents[i + 1..];
        i := i + 1;
        entry := next;
        next := entry.Next();
      }
    }

    lemma FirstLinks()
      requires Shaped()
      ensures head.flink == Ring(1) && HaveRules(entries) && !head.freed
    {
      assert head.flink == Ring(0).flink;
    }

    /** What a walk that has passed `i` entries knows about where it stands. */
    lemma Standing(i: nat)
      requires Shaped() && i <= |entries|
      ensures |Contents| == |entries| && (Ring(i + 1) == head <==> i == |entries|)
      ensures !Ring(i).freed && !Ring(i + 1).freed && !Ring(i + 2).freed
      ensures i < |entries| ==>
                && Ring(i + 1).flink == Ring(i + 2)
                && Ring(i + 1).rule != null && ValueOf(Ring(i + 1)) == Contents[i]
                && Contents[i..][0] == Contents[i] && Contents[i..][1..] == Contents[i + 1..]
    {
    }

    /** FgcGetRules: size the whole list, then write its frames into the buffer. The buffer
        is the caller's whole buffer, and the size counter starts at zero. The sum wraps, so
        the test on it does not keep the writing walk inside; `RuleFrames.WalkInsideIff`
        says what does. */
    method GetRules(buf: array<Byte>) returns (status: Status, rulesAmount: Ushort, rulesSize: Ulong)
      requires Valid() && buf.Length < ULONG_MODULUS
      requires TotalSize(Contents) % ULONG_MODULUS > buf.Length || buf.Length == 0 || WalkInside(Contents, buf.Length)
      modifies buf
      ensures rulesSize == TotalSize(Contents) % ULONG_MODULUS && rulesAmount == |Contents| % 0x1_0000
      ensures status == if rulesSize > buf.Length then BufferTooSmall else Success
      ensures buf[..] == if status == Success && buf.Length > 0 then Walk(old(buf[..]), 0, buf.Length, Contents)
                         else old(buf[..])
    {
      hide Walk, WalkInside;
      rulesAmount, rulesSize := MeasureRules();
      status := Success;
      if rulesSize > buf.Length {
        return BufferTooSmall, rulesAmount, rulesSize;
      }
      if buf.Length == 0 {
        return;
      }
      WriteRules(buf);
    }

    /** The writing walk of FgcGetRules. The remaining size is kept in thirty-two bits and
        tested as a signed number. */
    method WriteRules(buf: array<Byte>)
      requires Valid() && buf.Length < ULONG_MODULUS && WalkInside(Contents, buf.Length)
      modifies buf
      ensures buf[..] == Walk(old(buf[..]), 0, buf.Length, Contents)
    {
      hide Shaped, Ring, Walk, WalkInside, Image;
      FirstLinks();
      var listEntry := head.Next();
      Standing(0);
      ghost var i := 0;
      ghost var goal := Walk(buf[..], 0, buf.Length, Contents);
      var next := listEntry.Next();
      var cursor: nat, room: Ulong := 0, buf.Length;
      assert Contents[0..] == Contents;
      while listEntry != head
        invariant 0 <= i <= |entries| && listEntry == Ring(i + 1) && next == listEntry.flink
        invariant Shaped() && |Contents| == |entries|
        invariant cursor + room == buf.Length && WalkInside(Contents[i..], room)
        invariant goal == Walk(buf[..], cursor, room, Contents[i..])
        decreases |entries| - i
      {
        Standing(i);
        Standing(i + 1);
        var rule := listEntry.Carried();
        CopyStep(buf[..], cursor, room, Contents[i..]);
        WriteFrame(buf, cursor, Rule(rule.code, rule.expr));
        var size := SIZEOF_RULE + 2 * |rule.expr|;
        room := (room - size) % ULONG_MODULUS;
        if 0 < room <= LONG_MAX {
          cursor := cursor + size;
        } else {
          return;
        }
        i := i + 1;
        listEntry := next;
        next := listEntry.Next();
      }
      Standing(i);
      NothingToCopy(buf[..], cursor, room, Contents[i..]);
    }

    /** The sizing walk of FgcGetRules. */
    method MeasureRules() returns (amount: Ushort, size: Ulong)
      requires Valid()
      ensures size == TotalSize(Contents) % ULONG_MODULUS && amount == |Contents| % 0x1_0000
    {
      hide Shaped, Ring;
      FirstLinks();
      Standing(0);
      var listEntry := head.Next();
      var next := listEntry.Next();
      amount, size := 0, 0;
      ghost var i, sum: nat := 0, 0;
      while listEntry != head
        invariant 0 <= i <= |entries| && listEntry == Ring(i + 1) && next == listEntry.flink
        invariant |Contents| == |entries|
        invariant size == sum % ULONG_MODULUS && sum + TotalSize(Contents[i..]) == TotalSize(Contents)
        invariant amount == i % 0x1_0000
        decreases |entries| - i
      {
        Standing(i);
        Standing(i + 1);
        ghost var stride := Stride(Contents[i]);
        WrapAdd(sum, stride);
        size := (size + SIZEOF_RULE + 2 * |listEntry.Carried().expr|) % ULONG_MODULUS;
        sum := sum + stride;
        WrapStep(i);
        amount := (amount + 1) % 0x1_0000;
        i := i + 1;
        listEntry := next;
        next := listEntry.Next();
      }
      Standing(i);
    }

    /** FgcMatchRulesEx: size, count and write every rule that matches. */
    method MatchRulesEx(name: UnicodeString, buf: array<Byte>)
      returns (status: Status, rulesAmount: Ushort, rulesSize: Ulong)
      requires Valid() && buf.Length < ULONG_MODULUS
      modifies buf
      ensures var found := Matching(nt, Contents, name);
              && rulesSize == TotalSize(found) % ULONG_MODULUS && rulesAmount == |found| % 0x1_0000
              && status == (if rulesSize > buf.Length then BufferTooSmall else if rulesAmount == 0 then NotFound
                            else Success)
              && buf[..] == if rulesSize > buf.Length then Zeros(buf.Length)
                            else Fill(old(buf[..]), 0, buf.Length, found)
    {
      status := Success;
      rulesAmount, rulesSize := WriteMatching(name, buf);
      if rulesAmount == 0 {
        status := NotFound;
      }
      if buf.Length < rulesSize {
        forall k | 0 <= k < buf.Length {
          buf[k] := 0;
        }
        status := BufferTooSmall;
      }
    }

    /** The walk of FgcMatchRulesEx. */
    method WriteMatching(name: UnicodeString, buf: array<Byte>)
      returns (rulesAmount: Ushort, rulesSize: Ulong)
      requires Valid() && buf.Length < ULONG_MODULUS
      modifies buf
      ensures var found := Matching(nt, Contents, name);
              && rulesSize == TotalSize(found) % ULONG_MODULUS && rulesAmount == |found| % 0x1_0000
              && buf[..] == Fill(old(buf[..]), 0, buf.Length, found)
    {
      hide Shaped, Ring, Matching, Fill;
      FirstLinks();
      Standing(0);
      ghost var found := Matching(nt, Contents, name);
      ghost var goal := Fill(buf[..], 0, buf.Length, found);
      rulesAmount, rulesSize := 0, 0;
      var entry := head.Next();
      var next := entry.Next();
      var cursor: nat, room: Ulong := 0, buf.Length;
      ghost var i, done, sum: nat := 0, 0, 0;
      assert Contents[0..] == Contents;
      while entry != head
        invariant 0 <= i <= |entries| && entry == Ring(i + 1) && next == entry.flink
        invariant Shaped() && |Contents| == |entries|
        invariant cursor + room <= buf.Length
        invariant rulesSize == sum % ULONG_MODULUS &&
                  sum + TotalSize(Matching(nt, Contents[i..], name)) == TotalSize(found)
        invariant rulesAmount == done % 0x1_0000 && done + |Matching(nt, Contents[i..], name)| == |found|
        invariant goal == Fill(buf[..], cursor, room, Matching(nt, Contents[i..], name))
        decreases |entries| - i
      {
        Standing(i);
        Standing(i + 1);
        var rule := entry.Carried();
        MatchingStep(nt, Contents[i..], name);
        if nt.matches(rule.expr, name) {
          WrapAdd(sum, Stride(Contents[i]));
          rulesSize := (rulesSize + SIZEOF_RULE + 2 * |rule.expr|) % ULONG_MODULUS;
          sum := sum + Stride(Contents[i]);
          WrapStep(done);
          rulesAmount := (rulesAmount + 1) % 0x1_0000;
          done := done + 1;
          cursor, room := PutIfRoom(buf, cursor, room, Rule(rule.code, rule.expr), Matching(nt, Contents[i..], name));
        }
        i := i + 1;
        entry := next;
        next := entry.Next();
      }
      Standing(i);
      NothingToFill(nt, buf[..], cursor, room, Contents[i..], name);
    }

    /** RemoveHeadList, then FgcFreeRuleEntry. */
    method DropFirst(e: RuleEntry, ghost counts: map<RuleEntry, int>)
      requires Shaped() && Counted(entries, counts) && |entries| > 0 && e == Ring(1)
      modifies this, e.flink`blink, e.blink`flink, e`freed, e.rule`references, e.rule`freed
      ensures Shaped() && Counted(entries, counts)
      ensures entries == old(entries)[1..] && Contents == old(Contents)[1..]
    {
      Discard(e, 0);
    }

    /** FgcCleanupRuleEntriesList: take entries off the head and free them until none is
        left. */
    method CleanupRuleEntriesList() returns (clean: nat)
      requires Valid()
      modifies this, head, entries, Objects()
      ensures Valid() && Contents == [] && entries == []
      ensures clean == |old(Contents)|
      ensures old(HaveRules(entries)) && Counted(entries, old(Counts(entries)))
      ensures forall e :: e in old(entries) ==>
                && e.rule.references == old(e.rule.references) - 1
                && e.freed && (e.rule.freed <==> e.rule.references == 0)
    {
      hide Shaped, Counted;
      StartCounting();
      ghost var counts := Counts(entries);
      clean := 0;
      Neighbours(0, counts);
      while head.Next() != head
        invariant !head.freed && Shaped() && Counted(entries, counts)
        invariant clean + |entries| == |old(Contents)|
        decreases |entries|
      {
        Neighbours(0, counts);
        DropFirst(head.Next(), counts);
        clean := clean + 1;
      }
      Neighbours(0, counts);
      WhatCounted(entries, counts);
    }
  }

  lemma WhatCounted(now: seq<RuleEntry>, counts: map<RuleEntry, int>)
    requires Counted(now, counts)
    ensures forall e :: e in counts ==>
              && e.rule != null
              && e.rule.references == counts[e] - (if e in now then 0 else 1)
              && (e.freed <==> e !in now) && (e.rule.freed <==> e.rule.references == 0)
  {
  }

  /** Counting on in sixteen bits. */
  lemma WrapStep(n: nat)
    ensures (n % 0x1_0000 + 1) % 0x1_0000 == (n + 1) % 0x1_0000
  {
  }

  /** Adding up in thirty-two bits. */
  lemma WrapAdd(sum: nat, d: nat)
    ensures (sum % ULONG_MODULUS + d) % ULONG_MODULUS == (sum + d) % ULONG_MODULUS
  {
  }

  /** Write one matching rule where the cursor stands, if it fits, and move on. `rs` are the
      matching rules that remain, this one included. */
  method PutIfRoom(buf: array<Byte>, cursor: nat, room: Ulong, r: Rule, ghost rs: seq<Rule>)
    returns (newCursor: nat, newRoom: Ulong)
    requires cursor + room <= buf.Length && rs != [] && rs[0] == r
    modifies buf
    ensures newCursor + newRoom <= buf.Length
    ensures Fill(old(buf[..]), cursor, room, rs) == Fill(buf[..], newCursor, newRoom, rs[1..])
  {
    FillStep(buf[..], cursor, room, rs);
    newCursor, newRoom := cursor, room;
    var size := SIZEOF_RULE + 2 * |r.expr|;
    if buf.Length != 0 && room >= size {
      WriteFrame(buf, cursor, r);
      newRoom := room - size;
      if 0 < newRoom <= LONG_MAX {
        newCursor := cursor + size;
      }
    }
  }

  lemma NothingToFill(nt: Runtime, b: seq<Byte>, i: nat, room: nat, store: seq<Rule>, name: UnicodeString)
    requires store == [] && i + room <= |b|
    ensures Matching(nt, store, name) == [] && Fill(b, i, room, Matching(nt, store, name)) == b
  {
  }

  ghost function Counts(es: seq<RuleEntry>): map<RuleEntry, int>
    requires HaveRules(es)
    reads set e | e in es && e.rule != null :: e.rule
  {
    map e | e in es :: e.rule.references
  }

  /** The entries of a list before an edit and their rules' counts then, against the entries
      now: nobody's count but the list's changed. An entry still in `now` has the count it
      had; one that left was freed and gave up exactly one reference, and its rule was freed
      if that was the last. */
  ghost predicate Counted(now: seq<RuleEntry>, counts: map<RuleEntry, int>)
    reads counts.Keys, RuleObjects(counts.Keys)
  {
    && (forall e :: e in now ==> e in counts)
    && (forall e :: e in counts ==>
          && e.rule != null && e.rule.owner == e
          && e.rule.references == counts[e] - (if e in now then 0 else 1)
          && (e.freed <==> e !in now)
          && (e.rule.freed <==> e.rule.references == 0))
  }
}
