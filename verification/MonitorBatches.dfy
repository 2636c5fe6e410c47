/** The monitor queue, the batches the driver makes of it and the parser at the other end.
    (FileGuardCore/Monitor.c, FileGuardLib/FileGuardLib.c) */
module MonitorBatches {
  import opened FileGuard
  import opened ByteLayout
  import opened MonitorRecords

  function BatchSize(rs: seq<Record>): nat {
    if rs == [] then 0 else RecordSize(rs[0]) + BatchSize(rs[1..])
  }

  /** The records one after the other, as a batch carries them. */
  function Images(rs: seq<Record>): (b: seq<Byte>)
    ensures |b| == BatchSize(rs)
  {
    if rs == [] then [] else RecordImage(rs[0]) + Images(rs[1..])
  }

  lemma {:induction false} BatchSnoc(rs: seq<Record>, r: Record)
    ensures BatchSize(rs + [r]) == BatchSize(rs) + RecordSize(r)
    ensures Images(rs + [r]) == Images(rs) + RecordImage(r)
  {
    hide RecordImage;
    if rs == [] {
      assert ([] + [r])[1..] == [];
    } else {
      assert (rs + [r])[1..] == rs[1..] + [r];
      BatchSnoc(rs[1..], r);
    }
  }

  /** A batch has room for at most 455 records in 32 KiB. */
  lemma {:induction false} BatchCount(rs: seq<Record>)
    ensures SIZEOF_RECORD * |rs| <= BatchSize(rs)
  {
    if rs != [] {
      BatchCount(rs[1..]);
    }
  }

  // ---- How much a batch takes ----

  /** How many records from the front fit into `room` bytes. */
  function LongestPrefix(q: seq<Record>, room: nat): (n: nat)
    ensures n <= |q|
  {
    if q == [] || RecordSize(q[0]) > room then 0 else 1 + LongestPrefix(q[1..], room - RecordSize(q[0]))
  }

  /** Any split of a queue whose front fits, and whose next record does not, is the greedy
      one. */
  lemma {:induction false} GreedyIsLongest(taken: seq<Record>, rest: seq<Record>, room: nat)
    requires BatchSize(taken) <= room
    requires rest == [] || room - BatchSize(taken) < RecordSize(rest[0])
    ensures LongestPrefix(taken + rest, room) == |taken|
  {
    if taken == [] {
      assert taken + rest == rest;
    } else {
      assert (taken + rest)[1..] == taken[1..] + rest;
      GreedyIsLongest(taken[1..], rest, room - RecordSize(taken[0]));
    }
  }

  /** It is the longest prefix that fits: what it takes fits, and no longer prefix does. */
  lemma {:induction false} LongestPrefixIsMaximal(q: seq<Record>, room: nat, m: nat)
    requires m <= |q|
    ensures BatchSize(q[..m]) <= room <==> m <= LongestPrefix(q, room)
  {
    if m > 0 {
      assert q[..m][1..] == q[1..][..m - 1];
      if RecordSize(q[0]) <= room {
        LongestPrefixIsMaximal(q[1..], room - RecordSize(q[0]), m - 1);
      }
    }
  }

  /** The queue after a number of calls with no recorder running. */
  function AfterCalls(q: seq<Record>, room: nat, calls: nat): seq<Record> {
    if calls == 0 then q else AfterCalls(q[LongestPrefix(q, room)..], room, calls - 1)
  }

  ghost predicate AllFit(q: seq<Record>, room: nat) {
    forall r :: r in q ==> RecordSize(r) <= room
  }

  /** Repeated calls drain the queue exactly when every record fits into one batch, and then
      no more calls are needed than there are records. */
  lemma DrainsIff(q: seq<Record>, room: nat)
    ensures (exists calls: nat :: AfterCalls(q, room, calls) == []) <==> AllFit(q, room)
    ensures AllFit(q, room) ==> AfterCalls(q, room, |q|) == []
  {
    if AllFit(q, room) {
      CallsDrain(q, room, |q|);
    } else {
      forall calls: nat ensures AfterCalls(q, room, calls) != [] {
        BigRecordStays(q, room, calls);
      }
    }
  }

  lemma {:induction false} CallsDrain(q: seq<Record>, room: nat, calls: nat)
    requires AllFit(q, room) && |q| <= calls
    ensures AfterCalls(q, room, calls) == []
  {
    if calls > 0 {
      CallsDrain(q[LongestPrefix(q, room)..], room, calls - 1);
    }
  }

  lemma {:induction false} BigRecordStays(q: seq<Record>, room: nat, calls: nat)
    requires !AllFit(q, room)
    ensures !AllFit(AfterCalls(q, room, calls), room)
    decreases calls
  {
    if calls > 0 {
      var r :| r in q && RecordSize(r) > room;
      var i :| 0 <= i < |q| && q[i] == r;
      PrefixFits(q, room, i);
      assert r == q[LongestPrefix(q, room)..][i - LongestPrefix(q, room)];
      BigRecordStays(q[LongestPrefix(q, room)..], room, calls - 1);
    }
  }

  lemma {:induction false} PrefixFits(q: seq<Record>, room: nat, i: nat)
    requires i < |q| && RecordSize(q[i]) > room
    ensures LongestPrefix(q, room) <= i
  {
    if i > 0 && RecordSize(q[0]) <= room {
      PrefixFits(q[1..], room - RecordSize(q[0]), i - 1);
    }
  }

  // ---- The queue ----

  lemma {:induction false} OneMoreCall(q: seq<Record>, room: nat, calls: nat)
    ensures var left := AfterCalls(q, room, calls);
            AfterCalls(q, room, calls + 1) == left[LongestPrefix(left, room)..]
    decreases calls
  {
    if calls > 0 {
      OneMoreCall(q[LongestPrefix(q, room)..], room, calls - 1);
    }
  }

  function Flatten(batches: seq<seq<Record>>): seq<Record> {
    if batches == [] then [] else Flatten(batches[..|batches| - 1]) + batches[|batches| - 1]
  }

  lemma FlattenOne(b: seq<Record>)
    ensures Flatten([]) == [] && Flatten([b]) == b
  {
    assert [b][..0] == [];
  }

  lemma {:induction false} FlattenConcat(a: seq<seq<Record>>, b: seq<seq<Record>>)
    ensures Flatten(a + b) == Flatten(a) + Flatten(b)
    decreases |b|
  {
    if b == [] {
      assert a + b == a;
    } else {
      var n := |b| - 1;
      FlattenConcat(a, b[..n]);
      assert (a + b)[..|a| + n] == a + b[..n] && (a + b)[|a| + n] == b[n];
      assert Flatten(a) + (Flatten(b[..n]) + b[n]) == (Flatten(a) + Flatten(b[..n])) + b[n];
    }
  }

  /** What recorders do while the consumer has let go of the lock: the records they insert
      and the net change they make to the counter. */
  datatype Others = Others(arrived: seq<Record>, counted: int)

  function Arrived(others: nat -> Others, n: nat): seq<Record> {
    if n == 0 then [] else Arrived(others, n - 1) + others(n - 1).arrived
  }

  function CountedBy(others: nat -> Others, n: nat): int {
    if n == 0 then 0 else CountedBy(others, n - 1) + others(n - 1).counted
  }

  /** What arrives is what each release of the lock lets in, one after the other. */
  lemma {:induction false} ArrivedIs(others: nat -> Others, n: nat)
    ensures Arrived(others, n) == Flatten(seq(n, k requires 0 <= k < n => others(k).arrived))
  {
    var all := seq(n, k requires 0 <= k < n => others(k).arrived);
    if n > 0 {
      ArrivedIs(others, n - 1);
      assert all[..n - 1] == seq(n - 1, k requires 0 <= k < n - 1 => others(k).arrived);
    }
  }

  /** Recorders that count what they insert keep the counter in step with the queue; a steady
      change adds up. */
  lemma {:induction false} CountedIs(others: nat -> Others, n: nat, c: int)
    ensures (forall k :: 0 <= k < n ==> others(k).counted == |others(k).arrived|) ==>
              CountedBy(others, n) == |Arrived(others, n)|
    ensures (forall k :: 0 <= k < n ==> others(k).counted == c) ==> CountedBy(others, n) == n * c
  {
    if n > 0 {
      CountedIs(others, n - 1, c);
      assert (n - 1) * c + c == n * c;
    }
  }

  /** First in, first out, nothing lost, nothing twice: what was taken followed by what is
      queued now is what was queued before followed by what arrived since, and every record
      taken was in the queue by then. */
  ghost predicate InOrder(before: seq<Record>, taken: seq<Record>, now: seq<Record>, others: nat -> Others) {
    && taken + now == before + Arrived(others, |taken|)
    && forall k :: 0 <= k < |taken| ==> k < |before| + |Arrived(others, k)|
  }

  /** A batch is closed when the queue is empty or its head does not fit any more. */
  ghost predicate Closed(taken: seq<Record>, now: seq<Record>, room: int) {
    now == [] || room - BatchSize(taken) < RecordSize(now[0])
  }

  /** The globals of Monitor.c: the queue of records and the count of those allocated. */
  class RecordQueue {
    var records: seq<Record>
    var recordsAllocated: int

    constructor ()
      ensures records == [] && recordsAllocated == 0
    {
      records, recordsAllocated := [], 0;
    }

    /** FgcRecordRuleMatched, run alone. */
    method RecordRuleMatched(r: Record, limit: int, poolOk: bool) returns (status: Status)
      modifies this
      ensures status == if old(recordsAllocated) >= limit then NoMoreEntries
                        else if !poolOk then InsufficientResources
                        else Success
      ensures records == if status == Success then old(records) + [r] else old(records)
      ensures recordsAllocated == if status == Success then old(recordsAllocated) + 1 else old(recordsAllocated)
      ensures old(recordsAllocated) <= limit ==> recordsAllocated <= limit
    {
      if recordsAllocated >= limit {
        return NoMoreEntries;
      }
      if !poolOk {
        return InsufficientResources;
      }
      recordsAllocated := recordsAllocated + 1;
      records := records + [r];
      return Success;
    }

    /** FgcGetRecords. The lock is let go of once for every record taken, to copy it and count
        it off; `others(k)` is what happens to the queue and the counter the k-th time. */
    method GetRecords(out: array<Byte>, others: nat -> Others)
      returns (status: Status, returned: nat, ghost taken: seq<Record>)
      modifies this, out
      ensures InOrder(old(records), taken, records, others)
      ensures recordsAllocated == old(recordsAllocated) - |taken| + CountedBy(others, |taken|)
      ensures returned == BatchSize(taken) <= out.Length
      ensures out[..returned] == Images(taken) && out[returned..] == old(out[returned..])
      ensures Closed(taken, records, out.Length)
      ensures records == [] || out.Length - returned < RecordSize(records[0])
      ensures status == if taken != [] then Success
                        else if old(records) != [] && out.Length > 0 then BufferTooSmall
                        else Unsuccessful
    {
      hide RecordImage, BatchSize, Images, InOrder;
      taken := [];
      var recordsAvailable := false;
      var room: nat, bytesWritten: nat := out.Length, 0;
      var drops := 0;
      NothingBatched(records, others);
      assert out[..0] == [];
      while records != [] && room > 0
        invariant bytesWritten + room == out.Length && bytesWritten == BatchSize(taken)
        invariant out[..bytesWritten] == Images(taken) && out[bytesWritten..] == old(out[bytesWritten..])
        invariant InOrder(old(records), taken, records, others)
        invariant recordsAllocated == old(recordsAllocated) - |taken| + CountedBy(others, |taken|)
        invariant drops == |taken| && (recordsAvailable ==> taken != [])
        invariant taken == [] ==> records == old(records)
        decreases room
      {
        recordsAvailable := true;
        TakeHead(old(records), taken, records, others);
        var entry := records[0];
        records := records[1..];
        var writeSize := RecordSize(entry);
        if room < writeSize {
          records := [entry] + records;
          break;
        }
        BatchSnoc(taken, entry);
        CopyRecord(out, bytesWritten, entry);
        records, recordsAllocated := records + others(drops).arrived, recordsAllocated + others(drops).counted;
        drops := drops + 1;
        recordsAllocated := recordsAllocated - 1;
        bytesWritten, room := bytesWritten + writeSize, room - writeSize;
        taken := taken + [entry];
      }
      BatchCount(taken);
      returned := bytesWritten;
      if bytesWritten == 0 && recordsAvailable {
        status := BufferTooSmall;
      } else if bytesWritten > 0 {
        status := Success;
      } else {
        status := Unsuccessful;
      }
    }

    /** FgcCleanupMonitorRecords, after the recorders and the consumer have stopped. */
    method CleanupMonitorRecords() returns (count: nat)
      modifies this
      ensures records == [] && count == |old(records)|
      ensures recordsAllocated == old(recordsAllocated) - |old(records)|
    {
      count := 0;
      while records != []
        invariant count + |records| == |old(records)|
        invariant recordsAllocated == old(recordsAllocated) - count
        decreases |records|
      {
        records := records[1..];
        recordsAllocated := recordsAllocated - 1;
        count := count + 1;
      }
    }
  }

  lemma NothingBatched(records: seq<Record>, others: nat -> Others)
    ensures BatchSize([]) == 0 && Images([]) == [] && InOrder(records, [], records, others)
  {
  }

  /** Taking the head while others append at the tail keeps the order; putting it back
      restores the queue. */
  lemma TakeHead(before: seq<Record>, taken: seq<Record>, now: seq<Record>, others: nat -> Others)
    requires now != [] && InOrder(before, taken, now, others)
    ensures InOrder(before, taken + [now[0]], now[1..] + others(|taken|).arrived, others)
    ensures [now[0]] + now[1..] == now
  {
    var arrived := others(|taken|).arrived;
    var all := Arrived(others, |taken|);
    assert (taken + [now[0]]) + (now[1..] + arrived) == (taken + now) + arrived;
    assert (before + all) + arrived == before + (all + arrived);
    assert Arrived(others, |taken| + 1) == all + arrived;
  }

  ghost predicate Silent(others: nat -> Others) {
    forall k :: others(k) == Others([], 0)
  }

  lemma {:induction false} NothingArrives(others: nat -> Others, n: nat)
    requires Silent(others)
    ensures Arrived(others, n) == []
  {
    if n > 0 {
      NothingArrives(others, n - 1);
    }
  }

  /** With no recorder running, a call that ended as GetRecords promises has taken the
      longest prefix that fits and left the rest. */
  lemma AloneTakesLongest(before: seq<Record>, taken: seq<Record>, now: seq<Record>, others: nat -> Others, room: nat)
    requires Silent(others) && InOrder(before, taken, now, others)
    requires BatchSize(taken) <= room && Closed(taken, now, room)
    ensures var n := LongestPrefix(before, room); taken == before[..n] && now == before[n..]
    ensures before != [] && room > 0 ==> (taken == [] <==> RecordSize(before[0]) > room)
  {
    NothingArrives(others, |taken|);
    assert taken + now == before;
    assert taken != [] ==> before[0] == taken[0];
    GreedyIsLongest(taken, now, room);
  }

  /** RtlCopyMemory of one record after what the batch holds. */
  method CopyRecord(out: array<Byte>, written: nat, r: Record)
    requires written + RecordSize(r) <= out.Length
    modifies out
    ensures out[..written + RecordSize(r)] == old(out[..written]) + RecordImage(r)
    ensures out[written + RecordSize(r)..] == old(out[written + RecordSize(r)..])
  {
    CopyMemory(out, written, RecordImage(r));
  }

  /** FG_RECORDS_MESSAGE_BODY: the buffer and the size of what the driver put into it. */
  datatype Message = Message(dataSize: Ulong, dataBuffer: seq<Byte>)

  /** The driver put the records `rs` into the message. */
  ghost predicate Carries(m: Message, rs: seq<Record>) {
    && |m.dataBuffer| == MESSAGE_BUFFER_SIZE
    && m.dataSize == BatchSize(rs)
    && At(m.dataBuffer, 0, Images(rs))
  }

  /** What the client port does in one round: whether a client is there, and how a send ends. */
  datatype Port = Port(connected: bool, sending: Status)

  /** A round of the monitor thread: the queue the round before left, the records taken and the
      queue left behind. */
  datatype Round = Round(before: seq<Record>, taken: seq<Record>, after: seq<Record>)

  /** What a round does when `inserted` arrives before it, `others` happens at its lock drops
      and its client is as `port` says. */
  ghost predicate RoundOk(r: Round, inserted: seq<Record>, others: nat -> Others, port: Port) {
    && InOrder(r.before + inserted, r.taken, r.after, others)
    && if port.connected then
         BatchSize(r.taken) <= MESSAGE_BUFFER_SIZE && Closed(r.taken, r.after, MESSAGE_BUFFER_SIZE)
       else r.taken == []
  }

  /** A message is handed to the port, unless no client is there or the head of the queue alone
      does not fit. */
  predicate Sends(r: Round, inserted: seq<Record>, port: Port) {
    port.connected && (r.taken != [] || r.before + inserted == [])
  }

  /** One round of FgcMonitorThreadRoutine: zero the body unless the last send failed, wait,
      fill it from the queue and hand it over. `last` is the status the round before left. */
  method MonitorRound(queue: RecordQueue, body: array<Byte>, last: Status, inserted: seq<Record>,
                      others: nat -> Others, port: Port)
    returns (status: Status, sent: bool, message: Message, ghost taken: seq<Record>)
    requires body.Length == MESSAGE_BUFFER_SIZE
    modifies queue, body
    ensures var r := Round(old(queue.records), taken, queue.records);
            && RoundOk(r, inserted, others, port)
            && (sent <==> Sends(r, inserted, port))
            && (sent ==> Carries(message, taken))
            && (!sent ==> taken == [])
    ensures !port.connected ==> taken == [] && queue.records == old(queue.records) + inserted
    ensures port.connected ==>
              queue.records == [] || MESSAGE_BUFFER_SIZE - BatchSize(taken) < RecordSize(queue.records[0])
    ensures sent <==> port.connected && (taken != [] || old(queue.records) + inserted == [])
    ensures status == if !port.connected then PortDisconnected else if sent then port.sending else BufferTooSmall
    ensures queue.recordsAllocated == old(queue.recordsAllocated) - |taken| + CountedBy(others, |taken|)
  {
    hide RecordImage, Images, InOrder;
    status, sent, message, taken := last, false, Message(0, []), [];
    if status == Success || status == BufferTooSmall {
      forall k | 0 <= k < body.Length {
        body[k] := 0;
      }
    }
    queue.records := queue.records + inserted;
    NothingBatched(queue.records, others);
    if !port.connected {
      status := PortDisconnected;
      return;
    }
    var dataSize: nat;
    status, dataSize, taken := queue.GetRecords(body, others);
    if status != BufferTooSmall {
      assert body[..][0..0 + dataSize] == body[..dataSize];
      status, sent, message := port.sending, true, Message(dataSize, body[..]);
    }
  }

  // ---- Any number of rounds ----

  /** What happens around the rounds of the monitor thread: `waiting(i)` are the records inserted
      while the thread waits for round i, `others(i)` is what recorders do at its lock drops,
      and `port(i)` what its client does. */
  datatype Surroundings = Surroundings(waiting: nat -> seq<Record>, others: nat -> nat -> Others, port: nat -> Port)

  /** The queue after the rounds `h`. */
  function QueueAfter(h: seq<Round>, queue: seq<Record>): seq<Record> {
    if h == [] then queue else h[|h| - 1].after
  }

  /** `h` is what the rounds do when they start with `queue`. */
  ghost predicate Happens(h: seq<Round>, queue: seq<Record>, w: Surroundings) {
    h == [] ||
    var n := |h| - 1;
    && Happens(h[..n], queue, w)
    && h[n].before == QueueAfter(h[..n], queue)
    && RoundOk(h[n], w.waiting(n), w.others(n), w.port(n))
  }

  /** All records that arrive up to the last round. */
  function Heard(h: seq<Round>, w: Surroundings): seq<Record> {
    if h == [] then []
    else
      var n := |h| - 1;
      Heard(h[..n], w) + (w.waiting(n) + Arrived(w.others(n), |h[n].taken|))
  }

  function Takes(h: seq<Round>): (ts: seq<seq<Record>>)
    ensures |ts| == |h| && forall i :: 0 <= i < |h| ==> ts[i] == h[i].taken
  {
    seq(|h|, i requires 0 <= i < |h| => h[i].taken)
  }

  /** Round `i` hands a message over and the send succeeds. */
  predicate Delivers(h: seq<Round>, w: Surroundings, i: nat)
    requires i < |h|
  {
    Sends(h[i], w.waiting(i), w.port(i)) && w.port(i).sending == Success
  }

  /** The batches that reach the client. */
  function Delivered(h: seq<Round>, w: Surroundings): seq<seq<Record>> {
    if h == [] then []
    else
      var n := |h| - 1;
      Delivered(h[..n], w) + (if Delivers(h, w, n) then [h[n].taken] else [])
  }

  /** They are what was inserted while the thread waited for each round and what arrived during
      it. */
  lemma {:induction false} HeardIs(h: seq<Round>, w: Surroundings)
    ensures Heard(h, w) ==
            Flatten(seq(|h|, i requires 0 <= i < |h| => w.waiting(i) + Arrived(w.others(i), |h[i].taken|)))
    decreases |h|
  {
    hide Arrived;
    var all := seq(|h|, i requires 0 <= i < |h| => w.waiting(i) + Arrived(w.others(i), |h[i].taken|));
    if h != [] {
      var n := |h| - 1;
      HeardIs(h[..n], w);
      assert all[..n] == seq(n, i requires 0 <= i < n => w.waiting(i) + Arrived(w.others(i), |h[..n][i].taken|));
    }
  }

  /** The batches that reach the client are those of the rounds with a client and a send that
      succeeds, in order, but for rounds whose head alone does not fit. */
  lemma {:induction false} DeliveredAt(h: seq<Round>, w: Surroundings) returns (at: seq<nat>)
    ensures |at| == |Delivered(h, w)|
    ensures forall k :: 0 <= k < |at| ==> at[k] < |h| && Delivered(h, w)[k] == h[at[k]].taken
    ensures forall j, k :: 0 <= j < k < |at| ==> at[j] < at[k]
    ensures forall i :: 0 <= i < |h| ==>
              (i in at <==>
               (&& w.port(i).connected && w.port(i).sending == Success
                && (h[i].taken != [] || h[i].before + w.waiting(i) == [])))
    decreases |h|
  {
    at := [];
    if h != [] {
      var n := |h| - 1;
      at := DeliveredAt(h[..n], w);
      if Delivers(h, w, n) {
        at := at + [n];
      }
    }
  }

  /** A round's surroundings leave it no choice. */
  lemma RoundIsDetermined(x: Round, y: Round, inserted: seq<Record>, others: nat -> Others, port: Port)
    requires RoundOk(x, inserted, others, port) && RoundOk(y, inserted, others, port) && x.before == y.before
    ensures x == y
  {
    LongerTake(x, y, inserted, others, port);
    LongerTake(y, x, inserted, others, port);
    var all := x.taken + x.after;
    assert all[..|x.taken|] == x.taken && all[..|x.taken|] == y.taken;
    assert all[|x.taken|..] == x.after && all[|x.taken|..] == y.after;
  }

  /** No batch is longer: one is not closed where another goes on. */
  lemma LongerTake(x: Round, y: Round, inserted: seq<Record>, others: nat -> Others, port: Port)
    requires RoundOk(x, inserted, others, port) && RoundOk(y, inserted, others, port) && x.before == y.before
    ensures |y.taken| <= |x.taken|
  {
    if |x.taken| < |y.taken| {
      var n := |x.taken|;
      var came := ArrivedSplit(others, n, |y.taken|);
      assert x.after != [];
      assert (y.taken + y.after)[..n + 1] == y.taken[..n + 1];
      assert y.taken + y.after == (x.taken + x.after) + came;
      assert y.taken[..n + 1] == x.taken + [x.after[0]];
      BatchSnoc(x.taken, x.after[0]);
      BatchPrefix(y.taken, n + 1);
    }
  }

  lemma {:induction false} ArrivedSplit(others: nat -> Others, n: nat, m: nat) returns (came: seq<Record>)
    requires n <= m
    ensures Arrived(others, m) == Arrived(others, n) + came
  {
    if n == m {
      came := [];
    } else {
      came := ArrivedSplit(others, n, m - 1);
      assert (Arrived(others, n) + came) + others(m - 1).arrived == Arrived(others, n) + (came + others(m - 1).arrived);
      came := came + others(m - 1).arrived;
    }
  }

  lemma {:induction false} BatchPrefix(rs: seq<Record>, n: nat)
    requires n <= |rs|
    ensures BatchSize(rs[..n]) <= BatchSize(rs)
  {
    if n > 0 {
      assert rs[..n][1..] == rs[1..][..n - 1];
      BatchPrefix(rs[1..], n - 1);
    }
  }

  /** The history of the rounds is a function of what surrounds them. */
  lemma {:induction false} HistoryIsDetermined(g: seq<Round>, h: seq<Round>, queue: seq<Record>, w: Surroundings)
    requires |g| == |h| && Happens(g, queue, w) && Happens(h, queue, w)
    ensures g == h
  {
    hide RoundOk;
    if g != [] {
      var n := |g| - 1;
      HistoryIsDetermined(g[..n], h[..n], queue, w);
      RoundIsDetermined(g[n], h[n], w.waiting(n), w.others(n), w.port(n));
      assert g == g[..n] + [g[n]] && h == h[..n] + [h[n]];
    }
  }

  /** Nothing is lost or reordered: the batches taken and the queue are what was queued at first
      and everything that arrived since. */
  lemma {:induction false} RoundsConserve(h: seq<Round>, queue: seq<Record>, w: Surroundings)
    requires Happens(h, queue, w)
    ensures Flatten(Takes(h)) + QueueAfter(h, queue) == queue + Heard(h, w)
  {
    hide Flatten, Heard, Arrived, Takes, RoundOk;
    if h == [] {
      NothingYet(queue, w);
    } else {
      var n := |h| - 1;
      RoundsConserve(h[..n], queue, w);
      TakesSnoc(h, w);
      OrderOf(h[n], w.waiting(n), w.others(n), w.port(n));
      var came := Arrived(w.others(n), |h[n].taken|);
      Regroup(Flatten(Takes(h[..n])), h[n].taken, h[n].after, h[n].before, w.waiting(n), came, queue, Heard(h[..n], w));
    }
  }

  lemma OrderOf(r: Round, inserted: seq<Record>, others: nat -> Others, port: Port)
    requires RoundOk(r, inserted, others, port)
    ensures r.taken + r.after == (r.before + inserted) + Arrived(others, |r.taken|)
    ensures r.taken != [] ==> Sends(r, inserted, port)
  {
  }

  lemma NothingYet(queue: seq<Record>, w: Surroundings)
    ensures Flatten(Takes([])) + QueueAfter([], queue) == queue + Heard([], w)
  {
  }

  lemma TakesSnoc(h: seq<Round>, w: Surroundings)
    requires h != []
    ensures var n := |h| - 1;
            && Flatten(Takes(h)) == Flatten(Takes(h[..n])) + h[n].taken
            && Heard(h, w) == Heard(h[..n], w) + (w.waiting(n) + Arrived(w.others(n), |h[n].taken|))
  {
    assert Takes(h)[..|h| - 1] == Takes(h[..|h| - 1]);
  }

  lemma Regroup(sent: seq<Record>, taken: seq<Record>, now: seq<Record>, was: seq<Record>, inserted: seq<Record>,
                came: seq<Record>, first: seq<Record>, heard: seq<Record>)
    requires sent + was == first + heard && taken + now == (was + inserted) + came
    ensures (sent + taken) + now == first + (heard + (inserted + came))
  {
    assert (sent + taken) + now == sent + (taken + now);
    assert sent + ((was + inserted) + came) == (sent + was) + (inserted + came);
    assert (first + heard) + (inserted + came) == first + (heard + (inserted + came));
  }

  /** The client is handed every record that was taken exactly when no send failed that carried
      any. */
  lemma NothingLostIff(h: seq<Round>, queue: seq<Record>, w: Surroundings)
    requires Happens(h, queue, w)
    ensures Flatten(Delivered(h, w)) == Flatten(Takes(h)) <==>
            forall i :: 0 <= i < |h| && h[i].taken != [] ==> w.port(i).sending == Success
  {
    DeliveredPart(h, queue, w);
  }

  lemma {:induction false} DeliveredPart(h: seq<Round>, queue: seq<Record>, w: Surroundings)
    requires Happens(h, queue, w)
    ensures |Flatten(Delivered(h, w))| <= |Flatten(Takes(h))|
    ensures if forall i :: 0 <= i < |h| && h[i].taken != [] ==> w.port(i).sending == Success
            then Flatten(Delivered(h, w)) == Flatten(Takes(h))
            else |Flatten(Delivered(h, w))| < |Flatten(Takes(h))|
  {
    hide Flatten, Takes, Heard, Delivered, RoundOk, Sends;
    if h == [] {
      FlattenNothing(w);
    } else {
      var n := |h| - 1;
      DeliveredPart(h[..n], queue, w);
      TakesSnoc(h, w);
      DeliveredSnoc(h, w);
      OrderOf(h[n], w.waiting(n), w.others(n), w.port(n));
    }
  }

  lemma DeliveredSnoc(h: seq<Round>, w: Surroundings)
    requires h != []
    ensures var n := |h| - 1;
            Flatten(Delivered(h, w)) == Flatten(Delivered(h[..n], w)) + (if Delivers(h, w, n) then h[n].taken else [])
  {
    hide Delivers;
    var n := |h| - 1;
    var d := Delivered(h[..n], w);
    assert (d + [h[n].taken])[..|d|] == d && d + [] == d;
  }

  lemma FlattenNothing(w: Surroundings)
    ensures Flatten(Delivered([], w)) == [] && Flatten(Takes([])) == []
  {
  }

  /** A round with a client, nothing inserted and no recorder running. */
  ghost predicate Quiet(w: Surroundings, i: nat) {
    w.waiting(i) == [] && Silent(w.others(i)) && w.port(i).connected
  }

  /** With clients there and no recorder running, the queue ends up as repeated calls leave it. */
  lemma {:induction false} QuietRounds(h: seq<Round>, queue: seq<Record>, w: Surroundings)
    requires Happens(h, queue, w) && forall i :: 0 <= i < |h| ==> Quiet(w, i)
    ensures QueueAfter(h, queue) == AfterCalls(queue, MESSAGE_BUFFER_SIZE, |h|)
  {
    hide RoundOk, AfterCalls, Silent;
    if h == [] {
      NoCalls(queue);
    } else {
      var n := |h| - 1;
      QuietRounds(h[..n], queue, w);
      assert Quiet(w, n);
      QuietRound(h[n], w.others(n), w.port(n));
      OneMoreCall(queue, MESSAGE_BUFFER_SIZE, n);
    }
  }

  lemma NoCalls(queue: seq<Record>)
    ensures AfterCalls(queue, MESSAGE_BUFFER_SIZE, 0) == queue
  {
  }

  lemma QuietRound(r: Round, others: nat -> Others, port: Port)
    requires RoundOk(r, [], others, port) && Silent(others) && port.connected
    ensures r.after == r.before[LongestPrefix(r.before, MESSAGE_BUFFER_SIZE)..]
  {
    hide Silent, InOrder;
    assert r.before + [] == r.before;
    AloneTakesLongest(r.before, r.taken, r.after, others, MESSAGE_BUFFER_SIZE);
  }

  /** A number of rounds of FgcMonitorThreadRoutine; `messages` are those that reach the client.
      They carry the delivered batches, and everything taken, left and arrived is accounted
      for by `history`, which the surroundings determine. */
  method MonitorRounds(queue: RecordQueue, rounds: nat, w: Surroundings)
    returns (messages: seq<Message>, ghost history: seq<Round>)
    modifies queue
    ensures |history| == rounds && Happens(history, old(queue.records), w)
    ensures queue.records == QueueAfter(history, old(queue.records))
    ensures |messages| == |Delivered(history, w)|
    ensures forall k :: 0 <= k < |messages| ==> Carries(messages[k], Delivered(history, w)[k])
    ensures Flatten(Takes(history)) + queue.records == old(queue.records) + Heard(history, w)
  {
    hide RecordImage, Carries, RoundOk, Flatten, Takes, Heard;
    messages, history := [], [];
    var body := new Byte[MESSAGE_BUFFER_SIZE];
    var status := Success;
    var round := 0;
    while round < rounds
      invariant 0 <= round <= rounds && |history| == round
      invariant Happens(history, old(queue.records), w)
      invariant queue.records == QueueAfter(history, old(queue.records))
      invariant |messages| == |Delivered(history, w)|
      invariant forall k :: 0 <= k < |messages| ==> Carries(messages[k], Delivered(history, w)[k])
    {
      ghost var was := queue.records;
      var sent: bool;
      var message: Message;
      ghost var taken: seq<Record>;
      status, sent, message, taken :=
        MonitorRound(queue, body, status, w.waiting(round), w.others(round), w.port(round));
      ghost var r := Round(was, taken, queue.records);
      OneMoreRound(history, r, old(queue.records), w);
      OneMoreDelivery(history, r, w);
      history := history + [r];
      if sent && status == Success {
        messages := messages + [message];
      }
      round := round + 1;
    }
    RoundsConserve(history, old(queue.records), w);
  }

  lemma OneMoreRound(h: seq<Round>, r: Round, queue: seq<Record>, w: Surroundings)
    requires Happens(h, queue, w) && r.before == QueueAfter(h, queue)
    requires RoundOk(r, w.waiting(|h|), w.others(|h|), w.port(|h|))
    ensures Happens(h + [r], queue, w) && QueueAfter(h + [r], queue) == r.after
  {
    hide RoundOk;
    assert (h + [r])[..|h|] == h;
  }

  lemma OneMoreDelivery(h: seq<Round>, r: Round, w: Surroundings)
    ensures Delivered(h + [r], w) == Delivered(h, w) + (if Delivers(h + [r], w, |h|) then [r.taken] else [])
  {
    hide Delivers;
    assert (h + [r])[..|h|] == h;
  }
}
