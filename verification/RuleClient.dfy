/** The user-mode side of rule management: building request messages, reading rule buffers,
    and the two-call queries. (FileGuardLib/FileGuardLib.c, FileGuardAdmin/FileGuardAdmin.cpp) */
module RuleClient {
  import opened FileGuard
  import opened ByteLayout
  import opened RuleFrames
  import opened RuleHistory
  import opened RuleList
  import opened Sequences

  // ---- Request messages ----

  /** FGL_RULE: the expression is a wide string of any length. */
  datatype FglRule = FglRule(code: RuleCode, text: seq<Wchar>)

  /** The sizing loop of FglCreateRulesMessage. */
  function RequestSize(rules: seq<FglRule>): nat {
    if rules == [] then 0 else 2 * |rules[0].text| + SIZEOF_RULE + RequestSize(rules[1..])
  }

  /** The length the writing loop uses is cut to sixteen bits, twice. */
  function SentSize(text: seq<Wchar>): Ushort {
    ((|text| % 0x1_0000) * 2) % 0x1_0000
  }

  /** A rule as the writing loop puts it into the message. */
  function AsSent(r: FglRule): Rule {
    Rule(r.code, r.text[..SentSize(r.text) / 2])
  }

  function Sent(rules: seq<FglRule>): (rs: seq<Rule>)
    ensures |rs| == |rules|
  {
    if rules == [] then [] else [AsSent(rules[0])] + Sent(rules[1..])
  }

  predicate Short(r: FglRule) {
    |r.text| <= 32767
  }

  ghost predicate AllShort(rules: seq<FglRule>) {
    forall r :: r in rules ==> Short(r)
  }

  /** Every rule goes out with its own code and its whole expression. */
  ghost predicate SentWhole(rules: seq<FglRule>) {
    forall k :: 0 <= k < |rules| ==> Sent(rules)[k].code == rules[k].code && Sent(rules)[k].expr == rules[k].text
  }

  lemma SentSizeExact(text: seq<Wchar>)
    ensures SentSize(text) / 2 <= |text|
    ensures SentSize(text) / 2 == |text| <==> |text| <= 32767
    ensures SentSize(text) % 2 == 0
  {
  }

  /** For every request the written frames stay within what the sizing loop counted, and the
      two loops agree, which is to say every rule goes out whole, exactly when no expression
      is longer than 32767 characters. */
  lemma {:induction false} LoopsAgreeIff(rules: seq<FglRule>)
    ensures TotalSize(Sent(rules)) <= RequestSize(rules)
    ensures TotalSize(Sent(rules)) == RequestSize(rules) <==> AllShort(rules)
    ensures SentWhole(rules) <==> AllShort(rules)
  {
    if rules != [] {
      LoopsAgreeIff(rules[1..]);
      SentSizeExact(rules[0].text);
      assert rules == [rules[0]] + rules[1..];
      assert forall k :: 0 <= k < |rules[1..]| ==> Sent(rules)[k + 1] == Sent(rules[1..])[k];
      assert forall k :: 0 < k < |rules| ==> Sent(rules)[k] == Sent(rules[1..])[k - 1];
      assert Sent(rules)[0].expr == rules[0].text <==> Short(rules[0]);
    }
  }

  /** An input that fails: a text of 32768 characters is sent as an empty expression. */
  lemma LongTextIsCut(code: RuleCode)
    ensures var rules := [FglRule(code, seq(32768, i => 65))];
            Sent(rules) == [Rule(code, [])] && TotalSize(Sent(rules)) == 8 && RequestSize(rules) == 65544
  {
    var rules := [FglRule(code, seq(32768, i => 65))];
    assert rules[1..] == [] && Sent(rules)[1..] == [];
    assert AsSent(rules[0]) == Rule(code, []);
  }

  lemma {:induction false} SentFrom(rules: seq<FglRule>, k: nat)
    requires k < |rules|
    ensures Sent(rules)[k..] == [AsSent(rules[k])] + Sent(rules)[k + 1..] && Sent(rules)[k] == AsSent(rules[k])
  {
    if k > 0 {
      SentFrom(rules[1..], k - 1);
      assert Sent(rules)[k..] == Sent(rules[1..])[k - 1..] && Sent(rules)[k + 1..] == Sent(rules[1..])[k..];
    }
  }

  /** For every request, what is sent of a text of any length: it is cut to its length modulo
      32768. */
  lemma SentExactly(rules: seq<FglRule>, k: nat)
    requires k < |rules|
    ensures Sent(rules)[k].code == rules[k].code && Sent(rules)[k].expr == rules[k].text[..|rules[k].text| % 32768]
  {
    hide Sent;
    SentFrom(rules, k);
    CutLength(rules[k].text);
  }

  lemma CutLength(text: seq<Wchar>)
    ensures SentSize(text) / 2 == |text| % 32768
  {
    var n := |text| % 0x1_0000;
    assert |text| % 32768 == n % 32768;
    assert n < 32768 || n - 32768 < 32768;
  }

  /** The message header: MessageSize at 4, RulesAmount at 8, RulesSize at 12. */
  ghost predicate Header(m: seq<Byte>, rulesAmount: Ushort, rulesSize: nat) {
    && |m| == SIZEOF_MESSAGE + rulesSize
    && At(m, 4, Le32(|m| % ULONG_MODULUS))
    && At(m, 8, Le16(rulesAmount))
    && At(m, 12, Le32(rulesSize % ULONG_MODULUS))
  }

  /** FglCreateRulesMessage. `mallocOk` says whether the allocation succeeds; on success the
      cursor's final position is returned as well. */
  method CreateRulesMessage(rules: seq<FglRule>, mallocOk: bool)
    returns (status: Status, message: array?<Byte>, end: nat)
    requires |rules| < 0x1_0000
    ensures status ==
            if |rules| == 0 then InvalidParameter
            else if !mallocOk then InsufficientResources
            else if exists r :: r in rules && !ValidRuleCode(r.code) then InvalidParameter
            else Success
    ensures message != null <==> status == Success
    ensures message != null ==>
              && fresh(message)
              && Header(message[..], |rules|, RequestSize(rules))
              && Holds(message[..], SIZEOF_MESSAGE, Sent(rules))
              && end == SIZEOF_MESSAGE + TotalSize(Sent(rules)) <= message.Length
  {
    hide Header, Sent, PutRules, Holds;
    status, message, end := Success, null, 0;
    if |rules| == 0 {
      return InvalidParameter, null, 0;
    }
    var rulesSize := MeasureRequest(rules);
    if !mallocOk {
      return InsufficientResources, null, 0;
    }
    var m := new Byte[SIZEOF_MESSAGE + rulesSize](i => 0);
    WriteHeader(m, |rules|, rulesSize);
    ghost var headed := m[..];
    LoopsAgreeIff(rules);
    var ok: bool;
    ok, end := WriteRequest(m, rules);
    if !ok {
      return InvalidParameter, null, 0;
    }
    PutRulesOutside(headed, SIZEOF_MESSAGE, Sent(rules));
    PutRulesHolds(headed, SIZEOF_MESSAGE, Sent(rules));
    HeaderStays(headed, m[..], |rules|, rulesSize);
    message := m;
  }

  /** The writing loop. */
  method WriteRequest(m: array<Byte>, rules: seq<FglRule>) returns (ok: bool, end: nat)
    requires SIZEOF_MESSAGE + TotalSize(Sent(rules)) <= m.Length
    modifies m
    ensures ok <==> forall r :: r in rules ==> ValidRuleCode(r.code)
    ensures ok ==> m[..] == PutRules(old(m[..]), SIZEOF_MESSAGE, Sent(rules))
    ensures ok ==> end == SIZEOF_MESSAGE + TotalSize(Sent(rules))
  {
    hide Sent, Image, Overlay, SentSize;
    ghost var goal := PutRules(m[..], SIZEOF_MESSAGE, Sent(rules));
    var i := 0;
    end := SIZEOF_MESSAGE;
    assert Sent(rules)[0..] == Sent(rules);
    while i < |rules|
      invariant 0 <= i <= |rules|
      invariant end + TotalSize(Sent(rules)[i..]) == SIZEOF_MESSAGE + TotalSize(Sent(rules)) <= m.Length
      invariant forall k :: 0 <= k < i ==> ValidRuleCode(rules[k].code)
      invariant PutRules(m[..], end, Sent(rules)[i..]) == goal
    {
      if !ValidRuleCode(rules[i].code) {
        return false, end;
      }
      SentFrom(rules, i);
      SentSizeExact(rules[i].text);
      var pathExpressionSize := SentSize(rules[i].text);
      WriteFrame(m, end, AsSent(rules[i]));
      end := end + SIZEOF_RULE + pathExpressionSize;
      i := i + 1;
    }
    ok := true;
  }

  /** The sizing loop. */
  method MeasureRequest(rules: seq<FglRule>) returns (rulesSize: nat)
    ensures rulesSize == RequestSize(rules)
  {
    rulesSize := 0;
    var i := 0;
    assert rules[0..] == rules;
    while i < |rules|
      invariant 0 <= i <= |rules| && rulesSize + RequestSize(rules[i..]) == RequestSize(rules)
    {
      assert rules[i..][1..] == rules[i + 1..];
      rulesSize := rulesSize + |rules[i].text| * 2 + SIZEOF_RULE;
      i := i + 1;
    }
  }

  method WriteHeader(m: array<Byte>, rulesAmount: Ushort, rulesSize: nat)
    requires m.Length == SIZEOF_MESSAGE + rulesSize
    modifies m
    ensures Header(m[..], rulesAmount, rulesSize)
  {
    CopyMemory(m, 4, Le32(m.Length % ULONG_MODULUS));
    ghost var one := m[..];
    CopyMemory(m, 8, Le16(rulesAmount));
    ghost var two := m[..];
    CopyMemory(m, 12, Le32(rulesSize % ULONG_MODULUS));
    assert m[..][4..8] == m[..][..12][4..8] == two[..12][4..8] == two[..8][4..8] == one[..8][4..8];
    assert m[..][8..10] == m[..][..12][8..10] == two[..12][8..10];
  }

  lemma HeaderStays(a: seq<Byte>, b: seq<Byte>, rulesAmount: Ushort, rulesSize: nat)
    requires Header(a, rulesAmount, rulesSize) && |a| == |b| && a[..SIZEOF_MESSAGE] == b[..SIZEOF_MESSAGE]
    ensures Header(b, rulesAmount, rulesSize)
  {
    assert b[4..8] == b[..16][4..8] == a[..16][4..8] == a[4..8];
    assert b[8..10] == b[..16][8..10] == a[..16][8..10] == a[8..10];
    assert b[12..16] == b[..16][12..16] == a[..16][12..16] == a[12..16];
  }

  /** The cursor of the writing loop ends exactly at the end of the message, and the kernel
      walk of the message visits the rules the caller passed, whole and in order, exactly
      when no expression is longer than 32767 characters. The size fields say the truth
      exactly when the message has less than four gigabytes. */
  lemma RequestRoundTripIff(rules: seq<FglRule>, m: seq<Byte>)
    requires |rules| < 0x1_0000
    requires Header(m, |rules|, RequestSize(rules)) && Holds(m, SIZEOF_MESSAGE, Sent(rules))
    ensures ReadLe16(m, 8) == |rules|
    ensures ReadLe32(m, 4) == |m| % ULONG_MODULUS && (ReadLe32(m, 4) == |m| <==> |m| < ULONG_MODULUS)
    ensures ReadLe32(m, 12) == RequestSize(rules) % ULONG_MODULUS
    ensures var end := SIZEOF_MESSAGE + TotalSize(Sent(rules));
            && end <= |m| && Framed(m, SIZEOF_MESSAGE, end) && Decode(m, SIZEOF_MESSAGE, end) == Sent(rules)
            && (end == |m| <==> AllShort(rules))
    ensures SentWhole(rules) <==> AllShort(rules)
  {
    hide SentWhole, AllShort, RequestSize, Sent, Header, Holds, Framed, Decode, ReadLe16, ReadLe32;
    LoopsAgreeIff(rules);
    ReadHeader(m, |rules|, RequestSize(rules));
    DecodeInvertsHolds(m, SIZEOF_MESSAGE, Sent(rules));
  }

  lemma ReadHeader(m: seq<Byte>, rulesAmount: Ushort, rulesSize: nat)
    requires Header(m, rulesAmount, rulesSize)
    ensures SIZEOF_MESSAGE + rulesSize == |m|
    ensures ReadLe32(m, 4) == |m| % ULONG_MODULUS && ReadLe16(m, 8) == rulesAmount
    ensures ReadLe32(m, 12) == rulesSize % ULONG_MODULUS
  {
    hide ReadLe32, ReadLe16, Le32, Le16, At;
    ReadLe32At(m, 4, |m| % ULONG_MODULUS);
    ReadLe16At(m, 8, rulesAmount);
    ReadLe32At(m, 12, rulesSize % ULONG_MODULUS);
  }

  /** The request reaches the driver. */
  ghost predicate Delivered(rules: seq<FglRule>, mallocOk: bool) {
    |rules| > 0 && mallocOk && forall r :: r in rules ==> ValidRuleCode(r.code)
  }

  /** FglAddBulkRules, message and kernel side together. The caller's variable for the count,
      which holds `before`, is written exactly when the call succeeds: a request that stops
      half way adds what it accepted and reports only its failure. */
  method AddBulkRules(store: RuleStore, rules: seq<FglRule>, mallocOk: bool, pool: nat -> Allocations, before: Ushort)
    returns (status: Status, added: Ushort)
    requires store.Valid() && |rules| < 0x1_0000 && SIZEOF_MESSAGE + RequestSize(rules) < ULONG_MODULUS
    modifies store, store.head, store.entries
    ensures store.Valid()
    ensures var delivered := Delivered(rules, mallocOk);
            var plan := PlanAdd(store.nt, old(store.Contents), Sent(rules), pool, 0);
            && store.Contents == (if delivered then AddTo(store.nt, old(store.Contents), Sent(rules), pool)
                                  else old(store.Contents))
            && (delivered ==> status == plan.status)
            && (!delivered ==> status != Success)
            && added == if status == Success then |plan.accepted| else before
    ensures status == Success ==> added == |store.Contents| - |old(store.Contents)|
    ensures rules == [] ==> status == InvalidParameter
    ensures rules != [] && !mallocOk ==> status == InsufficientResources
    ensures rules != [] && mallocOk && (exists r :: r in rules && !ValidRuleCode(r.code)) ==> status == InvalidParameter
    ensures forall e :: e in store.entries ==> e in old(store.entries) || (fresh(e) && e.rule != null && fresh(e.rule))
  {
    var message: array?<Byte>;
    var end: nat;
    added := before;
    status, message, end := CreateRulesMessage(rules, mallocOk);
    if status != Success {
      return;
    }
    var amount: Ushort;
    status, amount := store.AddRules(message[..], SIZEOF_MESSAGE, |rules|, Sent(rules), pool);
    if status == Success {
      added := amount;
    }
  }

  /** A rule and one with an empty expression. */
  function HalfRequest(code: RuleCode): seq<FglRule> {
    [FglRule(code, [65]), FglRule(code, [])]
  }

  lemma HalfRequestPlan(nt: Runtime, code: RuleCode, pool: nat -> Allocations)
    requires ValidRuleCode(code) && CreateStatus(pool(0), [65]) == Success && pool(1).entry
    ensures Sent(HalfRequest(code)) == [Rule(code, [65]), Rule(code, [])]
    ensures PlanAdd(nt, [], Sent(HalfRequest(code)), pool, 0) ==
            AddPlan([Stored(nt, Rule(code, [65]))], InvalidParameter, 1)
    ensures AddTo(nt, [], Sent(HalfRequest(code)), pool) == [Stored(nt, Rule(code, [65]))]
  {
    var rules := HalfRequest(code);
    assert rules[1..] == [FglRule(code, [])] && rules[1..][1..] == [];
    var reqs := Sent(rules);
    assert AsSent(rules[0]) == Rule(code, [65]) && AsSent(rules[1]) == Rule(code, []);
    assert reqs == [Rule(code, [65]), Rule(code, [])];
    var r := Stored(nt, reqs[0]);
    assert |r.expr| == 1 && |Stored(nt, reqs[1]).expr| == 0;
    assert PlanAdd(nt, [r], reqs, pool, 1) == AddPlan([], InvalidParameter, 1);
    assert Reverse([r]) == Reverse<Rule>([r][1..]) + [r];
    assert [r] + [] == [r];
  }

  /** An input: the list grows by the first rule and the caller learns of the failure only. */
  method HalfRequestIsSilent(nt: Runtime, code: RuleCode, before: Ushort)
    returns (store: RuleStore, status: Status, added: Ushort)
    requires ValidRuleCode(code)
    ensures store.Valid() && store.Contents == [Stored(nt, Rule(code, [65]))]
    ensures status == InvalidParameter && added == before
  {
    var pool := (k: nat) => Allocations(true, true, true, true);
    HalfRequestPlan(nt, code, pool);
    HalfRequestSize(code);
    store := new RuleStore(nt);
    status, added := AddBulkRules(store, HalfRequest(code), true, pool, before);
  }

  lemma HalfRequestSize(code: RuleCode)
    ensures RequestSize(HalfRequest(code)) == 18
  {
    var rules := HalfRequest(code);
    var rest := rules[1..];
    assert rest[0] == FglRule(code, []) && rest[1..] == [];
    assert |rules[0].text| == 1 && |rest[0].text| == 0;
    assert RequestSize(rest) == 8 + RequestSize(rest[1..]);
    assert RequestSize(rules) == 10 + RequestSize(rest);
  }

  /** FglRemoveBulkRules, message and kernel side together. */
  method RemoveBulkRules(store: RuleStore, rules: seq<FglRule>, mallocOk: bool, before: Ushort)
    returns (status: Status, removed: Ushort)
    requires store.Valid() && |rules| < 0x1_0000 && SIZEOF_MESSAGE + RequestSize(rules) < ULONG_MODULUS
    modifies store, store.head, store.entries, store.Objects()
    ensures store.Valid()
    ensures var delivered := Delivered(rules, mallocOk);
            && store.Contents == (if delivered then RemoveFrom(store.nt, old(store.Contents), Sent(rules), 0)
                                  else old(store.Contents))
            && (status == Success <==> delivered)
            && removed == if status == Success then |old(store.Contents)| - |store.Contents| else before
    ensures rules == [] ==> status == InvalidParameter
    ensures rules != [] && !mallocOk ==> status == InsufficientResources
    ensures rules != [] && mallocOk && (exists r :: r in rules && !ValidRuleCode(r.code)) ==> status == InvalidParameter
    ensures forall e :: e in store.entries ==> e in old(store.entries)
  {
    var message: array?<Byte>;
    var end: nat;
    removed := before;
    status, message, end := CreateRulesMessage(rules, mallocOk);
    if status != Success {
      return;
    }
    var amount: Ushort;
    status, amount := store.FindAndRemoveRule(message[..], SIZEOF_MESSAGE, |rules|, Sent(rules));
    if status == Success {
      removed := amount;
    }
  }

  // ---- Queries ----

  /** ResolveRulesBuffer: walk the frames until the size is used up. */
  method ResolveRulesBuffer(buf: seq<Byte>, bufSize: nat) returns (rules: seq<Rule>)
    requires bufSize <= |buf| && Framed(buf, 0, bufSize)
    ensures rules == Decode(buf, 0, bufSize)
  {
    hide RuleAt;
    rules := [];
    var offset: nat, left := 0, bufSize;
    while left > 0
      invariant left >= 0 && offset + left == bufSize && Framed(buf, offset, bufSize)
      invariant rules + Decode(buf, offset, bufSize) == Decode(buf, 0, bufSize)
    {
      rules := rules + [RuleAt(buf, offset)];
      var size := SIZEOF_RULE + ExprSizeAt(buf, offset);
      offset := offset + size;
      left := left - size;
    }
  }

  /** The result area of a query, a header and the caller's buffer, is sized in thirty-two
      bits; for the sixteen largest buffers the size wraps below the header's. */
  function ResultSize(bufferSize: Ulong): Ulong {
    (SIZEOF_RESULT + bufferSize) % ULONG_MODULUS
  }

  predicate ResultFits(bufferSize: Ulong) {
    bufferSize < ULONG_MODULUS - SIZEOF_RESULT
  }

  /** The kernel may be asked for the list with a buffer of the given size: its writing walk
      does not leave the buffer. */
  predicate Fetchable(rs: seq<Rule>, size: Ulong) {
    TotalSize(rs) % ULONG_MODULUS > size || size == 0 || WalkInside(rs, size)
  }

  /** Any list of less than four gigabytes may be asked for with any buffer. */
  lemma SmallListsAreFetchable(rs: seq<Rule>, size: Ulong)
    requires TotalSize(rs) < ULONG_MODULUS
    ensures Fetchable(rs, size)
  {
    if TotalSize(rs) <= size {
      WalkIsExport(Zeros(size), 0, size, rs);
    }
  }

  /** The rules fit and the remaining size stays in the signed range. */
  predicate Whole(rs: seq<Rule>, size: nat) {
    TotalSize(rs) <= size && StaysSigned(rs, size)
  }

  /** FglQueryRules with a buffer of the given size: the kernel fills a zeroed result area
      and the library hands out what the result says was filled, which is the whole list
      exactly if it fits and the remaining size stayed in the signed range. The driver rejects a result
      area smaller than its header; the caller's size, which holds `before`, is then left as
      it was. */
  method FglQueryRules(store: RuleStore, bufferSize: Ulong, mallocOk: bool, before: Ulong)
    returns (status: Status, rulesSize: Ulong, buf: seq<Byte>)
    requires store.Valid() && (ResultFits(bufferSize) ==> Fetchable(store.Contents, bufferSize))
    ensures status == if !mallocOk then InsufficientResources
                      else if bufferSize >= ULONG_MODULUS - SIZEOF_RESULT then InvalidParameter
                      else if TotalSize(store.Contents) % ULONG_MODULUS > bufferSize then BufferTooSmall
                      else Success
    ensures rulesSize == if mallocOk && ResultFits(bufferSize) then TotalSize(store.Contents) % ULONG_MODULUS
                         else before
    ensures status == Success ==> |buf| == rulesSize && Delivers(buf, store.Contents, Whole(store.Contents, bufferSize))
  {
    hide Walk, WalkInside, Whole, Delivers, TotalSize, store.Valid;
    ProperStore(store);
    rulesSize, buf := before, [];
    if !mallocOk {
      return InsufficientResources, before, [];
    }
    var resultSize := ResultSize(bufferSize);
    if resultSize < SIZEOF_RESULT {
      return InvalidParameter, before, [];
    }
    var area := new Byte[resultSize - SIZEOF_RESULT](i => 0);
    var amount: Ushort;
    assert area[..] == Zeros(bufferSize);
    status, amount, rulesSize := store.GetRules(area);
    if status == Success {
      buf := area[..rulesSize];
      if TotalSize(store.Contents) <= bufferSize {
        ExportDelivers(area[..], store.Contents, bufferSize);
      } else {
        TooMuchForBuffer(buf, store.Contents, bufferSize);
      }
    }
  }

  /** An input: a query of an empty list with one of the sixteen largest buffers fails. */
  method LargestBufferFails(nt: Runtime, before: Ulong) returns (status: Status, rulesSize: Ulong)
    ensures status == InvalidParameter && rulesSize == before
  {
    var store := new RuleStore(nt);
    var buf: seq<Byte>;
    status, rulesSize, buf := FglQueryRules(store, 0xFFFF_FFF0, true, before);
  }

  lemma ProperStore(store: RuleStore)
    requires store.Valid()
    ensures Distinct(store.Contents) && forall r :: r in store.Contents ==> ValidRuleCode(r.code)
  {
  }

  /** `b` decodes to `rs` if `whole` holds, and otherwise not: it has other frames or none. */
  ghost predicate Delivers(b: seq<Byte>, rs: seq<Rule>, whole: bool) {
    (Framed(b, 0, |b|) && Decode(b, 0, |b|) == rs) <==> whole
  }

  lemma ExportDelivers(area: seq<Byte>, rs: seq<Rule>, size: nat)
    requires TotalSize(rs) <= size && forall r :: r in rs ==> ValidRuleCode(r.code)
    requires size == 0 || WalkInside(rs, size)
    requires area == if size == 0 then Zeros(size) else Walk(Zeros(size), 0, size, rs)
    ensures Delivers(area[..TotalSize(rs)], rs, Whole(rs, size))
  {
    hide Holds, PutRules, Decode, Walk;
    WalkIsExport(Zeros(size), 0, size, rs);
    NothingExported(rs, size);
    var b := area[..TotalSize(rs)];
    if StaysSigned(rs, size) {
      CutBuffer(area, Zeros(size), rs);
    } else {
      ExportDropsSecond(rs, size);
      SizesOfTwo(rs);
      FirstFrameCut(area, rs);
      var j := Stride(rs[0]);
      assert b[j] == area[j] && b[j + 1] == area[j + 1];
      if Framed(b, 0, |b|) && Decode(b, 0, |b|) == rs {
        DecodeTwo(b, rs);
        assert false;
      }
    }
  }

  /** An empty buffer takes an empty list only. */
  lemma NothingExported(rs: seq<Rule>, size: nat)
    requires TotalSize(rs) <= size
    ensures size == 0 ==> rs == [] && PutRules(Zeros(size), 0, Exported(rs, size)) == Zeros(size)
  {
  }

  /** Rules that take more than the buffer are not what its bytes decode to. */
  lemma TooMuchForBuffer(b: seq<Byte>, rs: seq<Rule>, size: nat)
    requires |b| <= size < TotalSize(rs)
    ensures Delivers(b, rs, Whole(rs, size))
  {
    hide Decode, Framed;
    if Framed(b, 0, |b|) {
      DecodeFits(b, 0, |b|);
    }
  }

  lemma {:induction false} DecodeFits(b: seq<Byte>, i: nat, end: nat)
    requires end <= |b| && Framed(b, i, end)
    ensures TotalSize(Decode(b, i, end)) <= end - i
    decreases end - i
  {
    hide RuleAt;
    if i < end {
      DecodeFits(b, i + SIZEOF_RULE + ExprSizeAt(b, i), end);
    }
  }

  lemma SizesOfTwo(rs: seq<Rule>)
    requires |rs| > 1
    ensures Stride(rs[0]) + Stride(rs[1]) <= TotalSize(rs)
  {
    assert rs[1..][0] == rs[1];
  }

  lemma FirstFrameCut(area: seq<Byte>, rs: seq<Rule>)
    requires rs != [] && TotalSize(rs) <= |area| && At(area, 0, Image(rs[0]))
    ensures At(area[..TotalSize(rs)], 0, Image(rs[0]))
  {
    var e := |Image(rs[0])|;
    assert area[..TotalSize(rs)][0..e] == area[0..e];
  }

  /** The second rule of a decoded buffer is what lies behind the first frame. */
  lemma DecodeTwo(b: seq<Byte>, rs: seq<Rule>)
    requires |rs| > 1 && Stride(rs[0]) + Stride(rs[1]) <= |b| && At(b, 0, Image(rs[0]))
    requires Framed(b, 0, |b|) && Decode(b, 0, |b|) == rs
    ensures rs[1].code.minor == b[Stride(rs[0])] as int + 0x100 * b[Stride(rs[0]) + 1] as int
  {
    hide RuleAt, Image;
    ReadFrame(b, 0, rs[0]);
    var j := Stride(rs[0]);
    assert Decode(b, j, |b|) == rs[1..];
    assert rs[1] == rs[1..][0] == RuleAt(b, j);
    RuleAtCode(b, j);
  }

  lemma RuleAtCode(b: seq<Byte>, i: nat)
    requires i + SIZEOF_RULE <= |b| && i + SIZEOF_RULE + ExprSizeAt(b, i) <= |b|
    ensures RuleAt(b, i).code.minor == b[i] as int + 0x100 * b[i + 1] as int
  {
  }

  /** Only the first TotalSize bytes of a filled buffer matter. */
  lemma CutBuffer(b: seq<Byte>, was: seq<Byte>, rs: seq<Rule>)
    requires TotalSize(rs) <= |was| && b == PutRules(was, 0, rs)
    ensures var cut := b[..TotalSize(rs)]; Framed(cut, 0, |cut|) && Decode(cut, 0, |cut|) == rs
  {
    hide Holds, PutRules, TotalSize, Framed, Decode, RuleAt;
    PutRulesHolds(was, 0, rs);
    HoldsCut(b, 0, rs, TotalSize(rs));
    DecodeInvertsHolds(b[..TotalSize(rs)], 0, rs);
  }

  lemma {:induction false} HoldsCut(b: seq<Byte>, i: nat, rs: seq<Rule>, n: nat)
    requires Holds(b, i, rs) && i + TotalSize(rs) <= n <= |b|
    ensures Holds(b[..n], i, rs)
    decreases |rs|
  {
    if rs != [] {
      HoldsCut(b, i + Stride(rs[0]), rs[1..], n);
      var e := i + |Image(rs[0])|;
      assert b[..n][i..e] == b[i..e];
    }
  }

  /** `Garbled` stands for whatever the parser makes of bytes that are no frames. */
  datatype QueryResult = Rules(rules: seq<Rule>) | Failed(status: Status) | Garbled

  /** The parser on a buffer that may not hold frames. */
  method Resolve(buf: seq<Byte>) returns (r: QueryResult)
    ensures forall rs :: r == Rules(rs) <==> Framed(buf, 0, |buf|) && Decode(buf, 0, |buf|) == rs
    ensures !r.Failed?
  {
    if !Framed(buf, 0, |buf|) {
      return Garbled;
    }
    var rules := ResolveRulesBuffer(buf, |buf|);
    return Rules(rules);
  }

  /** CoreClient::QueryRules: size the list, then fetch it. Between the two calls anything
      may happen to the store, so the second call sees a store of its own. `memory` says
      which of the two calls gets its result area. */
  method QueryRules(atSizing: RuleStore, atFetch: RuleStore, memory: nat -> bool) returns (r: QueryResult)
    requires atSizing.Valid() && atFetch.Valid()
    requires var reported := TotalSize(atSizing.Contents) % ULONG_MODULUS;
             ResultFits(reported) ==> Fetchable(atFetch.Contents, reported)
    ensures var reported := TotalSize(atSizing.Contents) % ULONG_MODULUS;
            if !memory(0) || !memory(1) then r == Failed(InsufficientResources)
            else if reported >= ULONG_MODULUS - SIZEOF_RESULT then r == Failed(InvalidParameter)
            else if TotalSize(atFetch.Contents) % ULONG_MODULUS > reported then r == Failed(BufferTooSmall)
            else !r.Failed? && (r == Rules(atFetch.Contents) <==> Whole(atFetch.Contents, reported))
  {
    hide Framed, Decode, Whole, TotalSize, WalkInside;
    var status: Status;
    var size: Ulong;
    var buf: seq<Byte>;
    status, size, buf := FglQueryRules(atSizing, 0, memory(0), 0);
    if status != Success && status != BufferTooSmall {
      return Failed(status);
    }
    status, size, buf := FglQueryRules(atFetch, size, memory(1), size);
    if status != Success {
      return Failed(status);
    }
    r := Resolve(buf);
  }

  /** The path name as the driver gets it: its byte length is cut to sixteen bits. */
  function SentName(path: seq<Wchar>): UnicodeString {
    path[..((2 * |path|) % 0x1_0000) / 2]
  }

  lemma SentNameWholeIff(path: seq<Wchar>)
    ensures SentName(path) == path[..|path| % 32768]
    ensures SentName(path) == path <==> |path| <= 32767
  {
    assert |SentName(path)| == ((2 * |path|) % 0x1_0000) / 2;
    if |path| <= 32767 { assert path[..|path|] == path; }
  }

  /** FglCheckMatchedRules with a buffer of the given size, with the same result area. The size
      is reported in thirty-two bits and the amount counted in sixteen. */
  method FglCheckMatchedRules(store: RuleStore, path: seq<Wchar>, bufferSize: Ulong, mallocOk: bool, before: Ulong)
    returns (status: Status, rulesSize: Ulong, buf: seq<Byte>)
    requires store.Valid() && SIZEOF_MESSAGE + 2 * |path| < ULONG_MODULUS
    ensures var found := Matching(store.nt, store.Contents, SentName(path));
            && status == (if !mallocOk then InsufficientResources
                          else if bufferSize >= ULONG_MODULUS - SIZEOF_RESULT then InvalidParameter
                          else if TotalSize(found) % ULONG_MODULUS > bufferSize then BufferTooSmall
                          else if |found| % 0x1_0000 == 0 then NotFound
                          else Success)
            && rulesSize == (if mallocOk && ResultFits(bufferSize) then TotalSize(found) % ULONG_MODULUS else before)
            && (status == Success ==> |buf| == rulesSize && Delivers(buf, found, Whole(found, bufferSize)))
  {
    hide Whole, Delivers, Fill, TotalSize, store.Valid, Matching, Distinct, SentName;
    ProperMatches(store, SentName(path));
    rulesSize, buf := before, [];
    if !mallocOk {
      return InsufficientResources, before, [];
    }
    var resultSize := ResultSize(bufferSize);
    if resultSize < SIZEOF_RESULT {
      return InvalidParameter, before, [];
    }
    var area := new Byte[resultSize - SIZEOF_RESULT](i => 0);
    var amount: Ushort;
    ghost var zeroed := area[..];
    status, amount, rulesSize := store.MatchRulesEx(SentName(path), area);
    if status == Success {
      buf := area[..rulesSize];
      if TotalSize(Matching(store.nt, store.Contents, SentName(path))) <= bufferSize {
        FillDelivers(zeroed, Matching(store.nt, store.Contents, SentName(path)));
      } else {
        TooMuchForBuffer(buf, Matching(store.nt, store.Contents, SentName(path)), bufferSize);
      }
    }
  }

  lemma ProperMatches(store: RuleStore, name: UnicodeString)
    requires store.Valid()
    ensures Distinct(Matching(store.nt, store.Contents, name))
  {
    ProperStore(store);
    FilterDistinct(store.Contents, MatchesName(store.nt, name));
  }

  lemma FillDelivers(was: seq<Byte>, rs: seq<Rule>)
    requires TotalSize(rs) <= |was| && Distinct(rs)
    ensures Delivers(Fill(was, 0, |was|, rs)[..TotalSize(rs)], rs, Whole(rs, |was|))
  {
    hide Holds, PutRules, Decode, Fill;
    var b := Fill(was, 0, |was|, rs)[..TotalSize(rs)];
    if StaysSigned(rs, |was|) {
      FillIsPut(was, 0, |was|, rs);
      CutBuffer(Fill(was, 0, |was|, rs), was, rs);
    } else {
      var k := FillOverwrites(was, 0, |was|, rs);
      FrameFits(rs, k);
      var e := |Image(rs[k])|;
      assert b[0..e] == Fill(was, 0, |was|, rs)[0..e];
      ReadFrame(b, 0, rs[k]);
      if Framed(b, 0, |b|) && Decode(b, 0, |b|) == rs {
        DecodeFirst(b, rs);
        assert false;
      }
    }
  }

  lemma DecodeFirst(b: seq<Byte>, rs: seq<Rule>)
    requires rs != [] && Framed(b, 0, |b|) && Decode(b, 0, |b|) == rs
    ensures |b| > 0 && rs[0] == RuleAt(b, 0)
  {
  }

  /** CoreClient::CheckMatchedRules, with the same interference. */
  method CheckMatchedRules(atSizing: RuleStore, atFetch: RuleStore, path: seq<Wchar>, memory: nat -> bool)
    returns (r: QueryResult)
    requires SIZEOF_MESSAGE + 2 * |path| < ULONG_MODULUS
    requires atSizing.Valid() && atFetch.Valid()
    ensures var sized := Matching(atSizing.nt, atSizing.Contents, SentName(path));
            var reported := TotalSize(sized) % ULONG_MODULUS;
            var found := Matching(atFetch.nt, atFetch.Contents, SentName(path));
            if !memory(0) then r == Failed(InsufficientResources)
            else if reported == 0 && |sized| % 0x1_0000 == 0 then r == Failed(NotFound)
            else if !memory(1) then r == Failed(InsufficientResources)
            else if reported >= ULONG_MODULUS - SIZEOF_RESULT then r == Failed(InvalidParameter)
            else if TotalSize(found) % ULONG_MODULUS > reported then r == Failed(BufferTooSmall)
            else if |found| % 0x1_0000 == 0 then r == Failed(NotFound)
            else !r.Failed? && (r == Rules(found) <==> Whole(found, reported))
  {
    hide Framed, Decode, Whole, Matching, TotalSize, SentName;
    var status: Status;
    var size: Ulong;
    var buf: seq<Byte>;
    status, size, buf := FglCheckMatchedRules(atSizing, path, 0, memory(0), 0);
    if status != Success && status != BufferTooSmall {
      return Failed(status);
    }
    status, size, buf := FglCheckMatchedRules(atFetch, path, size, memory(1), size);
    if status != Success {
      return Failed(status);
    }
    r := Resolve(buf);
  }
}
