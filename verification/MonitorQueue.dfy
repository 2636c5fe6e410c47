/** The monitor queue under concurrency: any number of recorders, the monitor thread, which
    lets go of the lock for every record it takes, and the cleanup at unload, one step at a
    time. (FileGuardCore/Monitor.c) */
module MonitorQueue {
  import opened Sequences
  import opened MonitorRecords
  import opened MonitorBatches

  /** A recorder between its check of the limit, its increment and its insertion. */
  datatype Recorder = Resting | Checked(r: Record) | Counted(r: Record)

  /** The monitor thread: filling a batch with the lock held; copying a record it has
      unlinked; having copied it but not yet counted it off; sending. `Stopped` is a thread
      that has seen its end flag; after it, cleanup may run. */
  datatype Consumer =
    | Waiting
    | Filling(batch: seq<Record>)
    | Copying(batch: seq<Record>, r: Record)
    | Copied(batch: seq<Record>)
    | Sending(batch: seq<Record>)
    | Stopped
    | Dropping

  /** A batch handed to the filter manager and whether it arrived. */
  datatype Sent = Sent(batch: seq<Record>, delivered: bool)

  /** `inserted` is every record ever inserted, in order; `dropped` are those the cleanup
      threw away. */
  datatype State = State(
    recordsAllocated: int,
    queue: seq<Record>,
    recorders: seq<Recorder>,
    consumer: Consumer,
    inserted: seq<Record>,
    log: seq<Sent>,
    dropped: seq<Record>)

  function Initial(recorderCount: nat): State {
    State(0, [], seq(recorderCount, i => Resting), Waiting, [], [], [])
  }

  datatype Action =
    | Check(r: Record)
    | GiveUp
    | Count
    | Insert
    | Wake
    | Take
    | Copy
    | CountOff
    | Close
    | Send(delivered: bool)
    | Stop
    | DropHead
    | CountDropped

  /** One step of recorder `i`, or of the consumer. `limit` is MaxMonitorRecordsAllocated. */
  function Step(s: State, limit: nat, i: nat, a: Action): State {
    if a.Check? || a.GiveUp? || a.Count? || a.Insert? then
      if i < |s.recorders| then StepRecorder(s, limit, i, a) else s
    else StepConsumer(s, a)
  }

  function StepRecorder(s: State, limit: nat, i: nat, a: Action): State
    requires i < |s.recorders|
  {
    match (s.recorders[i], a)
    case (Resting, Check(r)) =>
      // At the limit the recorder answers STATUS_NO_MORE_ENTRIES and rests.
      if s.recordsAllocated >= limit then s else s.(recorders := s.recorders[i := Checked(r)])
    case (Checked(r), GiveUp) => s.(recorders := s.recorders[i := Resting])
    case (Checked(r), Count) =>
      s.(recorders := s.recorders[i := Counted(r)], recordsAllocated := s.recordsAllocated + 1)
    case (Counted(r), Insert) =>
      s.(recorders := s.recorders[i := Resting], queue := s.queue + [r], inserted := s.inserted + [r])
    case _ => s
  }

  /** The head of the queue fits after what the batch holds. */
  predicate HeadFits(s: State, batch: seq<Record>) {
    s.queue != [] && BatchSize(batch) + RecordSize(s.queue[0]) <= MESSAGE_BUFFER_SIZE
  }

  function StepConsumer(s: State, a: Action): State {
    match (s.consumer, a)
    case (Waiting, Wake) => s.(consumer := Filling([]))
    case (Waiting, Stop) => s.(consumer := Stopped)
    case (Filling(batch), Take) =>
      if HeadFits(s, batch) then s.(queue := s.queue[1..], consumer := Copying(batch, s.queue[0])) else s
    case (Copying(batch, r), Copy) => s.(consumer := Copied(batch + [r]))
    case (Copied(batch), CountOff) => s.(recordsAllocated := s.recordsAllocated - 1, consumer := Filling(batch))
    case (Filling(batch), Close) =>
      // The lock is given up for good when the queue is empty or its head does not fit; a
      // head that was unlinked is linked back first. If it alone is too large, nothing is
      // sent; if there was no record at all, an empty message is.
      if HeadFits(s, batch) then s
      else if batch == [] && s.queue != [] then s.(consumer := Waiting)
      else s.(consumer := Sending(batch))
    case (Sending(batch), Send(delivered)) => s.(consumer := Waiting, log := s.log + [Sent(batch, delivered)])
    case (Stopped, DropHead) =>
      if s.queue == [] then s
      else s.(queue := s.queue[1..], dropped := s.dropped + [s.queue[0]], consumer := Dropping)
    case (Dropping, CountDropped) => s.(recordsAllocated := s.recordsAllocated - 1, consumer := Stopped)
    case _ => s
  }

  function Run(s: State, limit: nat, steps: seq<(nat, Action)>): State
    decreases |steps|
  {
    if steps == [] then s else Run(Step(s, limit, steps[0].0, steps[0].1), limit, steps[1..])
  }

  // ---- Where every record is ----

  /** The records of the batches handed over so far. */
  function Flat(log: seq<Sent>): seq<Record> {
    if log == [] then [] else Flat(log[..|log| - 1]) + log[|log| - 1].batch
  }

  /** What the consumer has taken out of the queue and not handed over yet, the record it is
      copying last. */
  function InHand(c: Consumer): seq<Record> {
    match c
    case Filling(batch) => batch
    case Copying(batch, r) => batch + [r]
    case Copied(batch) => batch
    case Sending(batch) => batch
    case _ => []
  }

  /** A record unlinked and not yet counted off. */
  function Uncounted(c: Consumer): nat {
    if c.Copying? || c.Copied? || c.Dropping? then 1 else 0
  }

  function IsCounted(): Recorder -> nat { (x: Recorder) => if x.Counted? then 1 else 0 }
  function IsChecked(): Recorder -> nat { (x: Recorder) => if x.Checked? then 1 else 0 }

  /** Everything there is, oldest first. */
  function Whole(sent: seq<Record>, hand: seq<Record>, dropped: seq<Record>, queue: seq<Record>): seq<Record> {
    sent + hand + dropped + queue
  }

  ghost predicate Inv(s: State, limit: nat) {
    && s.inserted == Whole(Flat(s.log), InHand(s.consumer), s.dropped, s.queue)
    && (s.dropped != [] || s.consumer.Dropping? ==> s.consumer.Stopped? || s.consumer.Dropping?)
    && s.recordsAllocated == Sum(s.recorders, IsCounted()) + |s.queue| + Uncounted(s.consumer)
    && (|s.recorders| > 0 ==> s.recordsAllocated + Sum(s.recorders, IsChecked()) <= limit + |s.recorders| - 1)
    && (|s.recorders| == 0 ==> s.recordsAllocated == 0)
    && BatchSize(InHand(s.consumer)) <= MESSAGE_BUFFER_SIZE
    && (forall k :: 0 <= k < |s.log| ==> BatchSize(s.log[k].batch) <= MESSAGE_BUFFER_SIZE)
  }

  lemma {:induction false} SumAtMost(s: seq<Recorder>, i: nat)
    requires i < |s| && s[i].Resting?
    ensures Sum(s, IsChecked()) <= |s| - 1
  {
    if i > 0 {
      SumAtMost(s[1..], i - 1);
    } else {
      SumAtMostAll(s[1..]);
    }
  }

  lemma {:induction false} SumAtMostAll(s: seq<Recorder>)
    ensures Sum(s, IsChecked()) <= |s|
  {
    if s != [] {
      SumAtMostAll(s[1..]);
    }
  }

  lemma RecorderKeeps(s: State, limit: nat, i: nat, a: Action)
    requires Inv(s, limit) && i < |s.recorders|
    ensures Inv(StepRecorder(s, limit, i, a), limit)
  {
    hide Whole, Flat, InHand, BatchSize;
    var n := StepRecorder(s, limit, i, a);
    if n != s {
      SumUpdate(s.recorders, i, n.recorders[i], IsCounted());
      SumUpdate(s.recorders, i, n.recorders[i], IsChecked());
      if a.Check? { SumAtMost(s.recorders, i); }
      if a.Insert? { TailGrows(Flat(s.log), InHand(s.consumer), s.dropped, s.queue, s.recorders[i].r); }
    }
  }

  lemma TailGrows(a: seq<Record>, b: seq<Record>, c: seq<Record>, q: seq<Record>, r: Record)
    ensures Whole(a, b, c, q + [r]) == Whole(a, b, c, q) + [r]
  {
  }

  /** A record moves from the front of the queue to the end of what lies before it. */
  lemma HeadMoves(a: seq<Record>, b: seq<Record>, c: seq<Record>, q: seq<Record>)
    requires q != []
    ensures Whole(a, b, c + [q[0]], q[1..]) == Whole(a, b, c, q)
    ensures c == [] ==> Whole(a, b + [q[0]], c, q[1..]) == Whole(a, b, c, q)
  {
    assert q == [q[0]] + q[1..];
  }

  lemma BatchLeaves(log: seq<Sent>, batch: seq<Record>, delivered: bool, c: seq<Record>, q: seq<Record>)
    ensures Whole(Flat(log + [Sent(batch, delivered)]), [], c, q) == Whole(Flat(log), batch, c, q)
  {
    var longer := log + [Sent(batch, delivered)];
    assert longer[..|longer| - 1] == log;
    assert Flat(longer) + [] == Flat(log) + batch;
  }

  lemma NothingInHand()
    ensures InHand(Waiting) == InHand(Stopped) == InHand(Dropping) == [] && BatchSize([]) == 0
  {
  }

  lemma TakeKeeps(s: State, limit: nat)
    requires Inv(s, limit)
    ensures Inv(StepConsumer(s, Take), limit)
  {
    hide Sum, Whole, Flat, BatchSize, RecordSize;
    if s.consumer.Filling? && HeadFits(s, s.consumer.batch) {
      HeadMoves(Flat(s.log), s.consumer.batch, s.dropped, s.queue);
      BatchSnoc(s.consumer.batch, s.queue[0]);
    }
  }

  lemma SendKeeps(s: State, limit: nat, delivered: bool)
    requires Inv(s, limit)
    ensures Inv(StepConsumer(s, Send(delivered)), limit)
  {
    hide Sum, Whole, Flat, BatchSize, RecordSize;
    NothingInHand();
    if s.consumer.Sending? { BatchLeaves(s.log, s.consumer.batch, delivered, s.dropped, s.queue); }
  }

  lemma DropKeeps(s: State, limit: nat)
    requires Inv(s, limit)
    ensures Inv(StepConsumer(s, DropHead), limit)
  {
    hide Sum, Whole, Flat, BatchSize, RecordSize;
    NothingInHand();
    if s.consumer.Stopped? && s.queue != [] { HeadMoves(Flat(s.log), [], s.dropped, s.queue); }
  }

  lemma ConsumerKeeps(s: State, limit: nat, a: Action)
    requires Inv(s, limit)
    ensures Inv(StepConsumer(s, a), limit)
  {
    if a.Take? {
      TakeKeeps(s, limit);
    } else if a.Send? {
      SendKeeps(s, limit, a.delivered);
    } else if a.DropHead? {
      DropKeeps(s, limit);
    } else {
      OtherKeeps(s, limit, a);
    }
  }

  /** The steps that leave every record where it is. */
  lemma OtherKeeps(s: State, limit: nat, a: Action)
    requires Inv(s, limit) && !a.Take? && !a.Send? && !a.DropHead?
    ensures Inv(StepConsumer(s, a), limit)
  {
    hide Sum, Whole, Flat, BatchSize, RecordSize, HeadFits;
    NothingInHand();
  }

  lemma {:induction false} RunKeeps(s: State, limit: nat, steps: seq<(nat, Action)>)
    requires Inv(s, limit)
    ensures Inv(Run(s, limit, steps), limit)
    decreases |steps|
  {
    if steps != [] {
      var (i, a) := steps[0];
      if a.Check? || a.GiveUp? || a.Count? || a.Insert? {
        if i < |s.recorders| { RecorderKeeps(s, limit, i, a); }
      } else {
        ConsumerKeeps(s, limit, a);
      }
      RunKeeps(Step(s, limit, i, a), limit, steps[1..]);
    }
  }

  function Reached(recorderCount: nat, limit: nat, steps: seq<(nat, Action)>): State {
    Run(Initial(recorderCount), limit, steps)
  }

  lemma ReachedInv(recorderCount: nat, limit: nat, steps: seq<(nat, Action)>)
    ensures Inv(Reached(recorderCount, limit, steps), limit)
  {
    var s := Initial(recorderCount);
    SumZero(s.recorders, IsCounted());
    SumZero(s.recorders, IsChecked());
    assert Whole(Flat([]), [], [], []) == [];
    RunKeeps(s, limit, steps);
  }

  // ---- What holds in every state of every run ----

  /** First in, first out, and nothing lost on the way: at every step the batches handed over,
      the batch in hand, what cleanup dropped and the queue are together exactly the inserted
      records in the order of insertion. */
  lemma RecordsAreConserved(recorderCount: nat, limit: nat, steps: seq<(nat, Action)>)
    ensures var s := Reached(recorderCount, limit, steps);
            s.inserted == Flat(s.log) + InHand(s.consumer) + s.dropped + s.queue
  {
    ReachedInv(recorderCount, limit, steps);
  }

  /** Where a batch begins in the sequence of all inserted records. */
  function Start(log: seq<Sent>, k: nat): nat
    requires k <= |log|
  {
    |Flat(log[..k])|
  }

  lemma {:induction false} BatchPlace(log: seq<Sent>, k: nat)
    requires k < |log|
    ensures Start(log, k + 1) == Start(log, k) + |log[k].batch| <= |Flat(log)|
    ensures Flat(log)[Start(log, k)..Start(log, k + 1)] == log[k].batch
    decreases |log|
  {
    var init := log[..|log| - 1];
    if k < |init| {
      BatchPlace(init, k);
      assert init[..k] == log[..k] && init[..k + 1] == log[..k + 1];
      assert Flat(log)[Start(log, k)..Start(log, k + 1)] == Flat(init)[Start(log, k)..Start(log, k + 1)];
    } else {
      assert log[..k + 1] == log && log[..k] == init;
    }
  }

  lemma FrontOf(a: seq<Record>, b: seq<Record>, c: seq<Record>, d: seq<Record>, from: nat, to: nat)
    requires from <= to <= |a|
    ensures (a + b + c + d)[from..to] == a[from..to]
  {
  }

  /** Batches are consecutive runs of the inserted records, one after the other: no record is
      in two batches, so none is sent twice, and a send that fails loses the records of that
      batch and no others. */
  lemma BatchesAreConsecutive(recorderCount: nat, limit: nat, steps: seq<(nat, Action)>, k: nat)
    requires k < |Reached(recorderCount, limit, steps).log|
    ensures var s := Reached(recorderCount, limit, steps);
            && Start(s.log, k + 1) == Start(s.log, k) + |s.log[k].batch| <= |s.inserted|
            && s.inserted[Start(s.log, k)..Start(s.log, k + 1)] == s.log[k].batch
            && BatchSize(s.log[k].batch) <= MESSAGE_BUFFER_SIZE
  {
    ReachedInv(recorderCount, limit, steps);
    var s := Reached(recorderCount, limit, steps);
    BatchPlace(s.log, k);
    hide Flat, InHand, BatchSize;
    FrontOf(Flat(s.log), InHand(s.consumer), s.dropped, s.queue, Start(s.log, k), Start(s.log, k + 1));
  }

  /** What was handed over stays handed over and the order of insertion never changes. */
  lemma {:induction false} HistoryGrows(s: State, limit: nat, steps: seq<(nat, Action)>)
    ensures s.inserted <= Run(s, limit, steps).inserted && s.log <= Run(s, limit, steps).log
    decreases |steps|
  {
    if steps != [] {
      HistoryGrows(Step(s, limit, steps[0].0, steps[0].1), limit, steps[1..]);
    }
  }

  /** The counter is exact at every step: records counted but not inserted, records queued,
      and the one record unlinked but not counted off. */
  lemma CounterIsExact(recorderCount: nat, limit: nat, steps: seq<(nat, Action)>)
    ensures var s := Reached(recorderCount, limit, steps);
            s.recordsAllocated == Sum(s.recorders, IsCounted()) + |s.queue| + Uncounted(s.consumer)
  {
    ReachedInv(recorderCount, limit, steps);
  }

  /** Checking before counting lets k recorders overshoot the limit, but by no more than
      k - 1 records; one recorder alone never exceeds it. */
  lemma CounterIsBounded(recorderCount: nat, limit: nat, steps: seq<(nat, Action)>)
    requires recorderCount > 0
    ensures Reached(recorderCount, limit, steps).recordsAllocated <= limit + recorderCount - 1
  {
    ReachedInv(recorderCount, limit, steps);
    RecordersStay(Initial(recorderCount), limit, steps);
  }

  lemma {:induction false} RecordersStay(s: State, limit: nat, steps: seq<(nat, Action)>)
    ensures |Run(s, limit, steps).recorders| == |s.recorders|
    decreases |steps|
  {
    if steps != [] {
      RecordersStay(Step(s, limit, steps[0].0, steps[0].1), limit, steps[1..]);
    }
  }

  // What the monitor thread does when no recorder runs.

  function Consume(acts: seq<Action>): seq<(nat, Action)> {
    if acts == [] then [] else [(0, acts[0])] + Consume(acts[1..])
  }

  /** The steps that take `n` records and let go of the lock. */
  function TakeSteps(n: nat): seq<Action> {
    if n == 0 then [Close] else [Take, Copy, CountOff] + TakeSteps(n - 1)
  }

  lemma ConsumeStep(s: State, limit: nat, a: Action, acts: seq<Action>)
    requires !a.Check? && !a.GiveUp? && !a.Count? && !a.Insert?
    ensures Run(s, limit, Consume([a] + acts)) == Run(StepConsumer(s, a), limit, Consume(acts))
  {
    hide StepConsumer;
    assert ([a] + acts)[1..] == acts;
    assert Consume([a] + acts)[1..] == Consume(acts);
  }

  lemma TakesOne(s: State, limit: nat, batch: seq<Record>, rest: seq<Action>)
    requires s.consumer == Filling(batch) && HeadFits(s, batch)
    ensures Run(s, limit, Consume([Take, Copy, CountOff] + rest)) ==
            Run(s.(queue := s.queue[1..], recordsAllocated := s.recordsAllocated - 1,
                   consumer := Filling(batch + [s.queue[0]])),
                limit, Consume(rest))
  {
    var taken := s.(queue := s.queue[1..], consumer := Copying(batch, s.queue[0]));
    var copied := taken.(consumer := Copied(batch + [s.queue[0]]));
    assert [Take, Copy, CountOff] + rest == [Take] + ([Copy] + ([CountOff] + rest));
    hide Consume, Run, HeadFits;
    ConsumeStep(s, limit, Take, [Copy] + ([CountOff] + rest));
    ConsumeStep(taken, limit, Copy, [CountOff] + rest);
    ConsumeStep(copied, limit, CountOff, rest);
  }

  /** `n` records more in the batch, and the lock given up. */
  function Closed(s: State, batch: seq<Record>, n: nat): State
    requires n <= |s.queue|
  {
    s.(queue := s.queue[n..], recordsAllocated := s.recordsAllocated - n,
       consumer := if batch + s.queue[..n] == [] && s.queue != [] then Waiting else Sending(batch + s.queue[..n]))
  }

  lemma ClosedStep(s: State, batch: seq<Record>, n: nat)
    requires 0 < n <= |s.queue|
    ensures var more := batch + [s.queue[0]];
            Closed(s.(queue := s.queue[1..], recordsAllocated := s.recordsAllocated - 1, consumer := Filling(more)),
                   more, n - 1) ==
            Closed(s, batch, n)
  {
    assert batch + [s.queue[0]] + s.queue[1..][..n - 1] == batch + s.queue[..n];
    assert s.queue[1..][n - 1..] == s.queue[n..];
  }

  lemma {:induction false} TakesLongest(s: State, limit: nat, batch: seq<Record>)
    requires s.consumer == Filling(batch) && BatchSize(batch) <= MESSAGE_BUFFER_SIZE
    ensures var n := LongestPrefix(s.queue, MESSAGE_BUFFER_SIZE - BatchSize(batch));
            Run(s, limit, Consume(TakeSteps(n))) == Closed(s, batch, n)
    decreases |s.queue|
  {
    var n := LongestPrefix(s.queue, MESSAGE_BUFFER_SIZE - BatchSize(batch));
    hide Consume, RecordSize, Run, StepConsumer, Closed, TakeSteps;
    if n == 0 {
      CloseRuns(s, limit, batch);
    } else {
      var more := batch + [s.queue[0]];
      BatchSnoc(batch, s.queue[0]);
      assert HeadFits(s, batch) && TakeSteps(n) == [Take, Copy, CountOff] + TakeSteps(n - 1) by { StepsOf(n); }
      TakesOne(s, limit, batch, TakeSteps(n - 1));
      TakesLongest(s.(queue := s.queue[1..], recordsAllocated := s.recordsAllocated - 1, consumer := Filling(more)),
                   limit, more);
      ClosedStep(s, batch, n);
    }
  }

  lemma StepsOf(n: nat)
    requires n > 0
    ensures TakeSteps(n) == [Take, Copy, CountOff] + TakeSteps(n - 1)
  {
  }

  lemma CloseRuns(s: State, limit: nat, batch: seq<Record>)
    requires s.consumer == Filling(batch) && !HeadFits(s, batch)
    ensures Run(s, limit, Consume(TakeSteps(0))) == Closed(s, batch, 0)
  {
    assert batch + s.queue[..0] == batch;
    assert [Close] + [] == [Close];
    ConsumeStep(s, limit, Close, []);
  }

  /** With no recorder running, one round of the monitor thread puts the longest prefix of
      the queue that fits a message into a batch and counts exactly those records off; it
      sends nothing exactly when the head alone does not fit. */
  lemma RoundTakesLongest(s: State, limit: nat)
    requires s.consumer.Waiting?
    ensures var n := LongestPrefix(s.queue, MESSAGE_BUFFER_SIZE);
            Run(s, limit, Consume([Wake] + TakeSteps(n))) ==
            s.(queue := s.queue[n..], recordsAllocated := s.recordsAllocated - n,
               consumer := if n == 0 && s.queue != [] then Waiting else Sending(s.queue[..n]))
  {
    var n := LongestPrefix(s.queue, MESSAGE_BUFFER_SIZE);
    ConsumeStep(s, limit, Wake, TakeSteps(n));
    TakesLongest(s.(consumer := Filling([])), limit, []);
    assert [] + s.queue[..n] == s.queue[..n];
  }

  // The bound is reached, whatever the limit and the number of recorders.

  lemma {:induction false} RunSnoc(s: State, limit: nat, steps: seq<(nat, Action)>, i: nat, a: Action)
    ensures Run(s, limit, steps + [(i, a)]) == Step(Run(s, limit, steps), limit, i, a)
    decreases |steps|
  {
    if steps == [] {
      assert ([] + [(i, a)])[1..] == [];
    } else {
      assert (steps + [(i, a)])[1..] == steps[1..] + [(i, a)];
      RunSnoc(Step(s, limit, steps[0].0, steps[0].1), limit, steps[1..], i, a);
    }
  }

  /** Recorder 0 records `n` times, then all of the first `k` check, then all of them count. */
  function Recordings(r: Record, n: nat): seq<(nat, Action)> {
    if n == 0 then [] else Recordings(r, n - 1) + [(0, Check(r))] + [(0, Count)] + [(0, Insert)]
  }

  function Checks(before: seq<(nat, Action)>, r: Record, k: nat): seq<(nat, Action)> {
    if k == 0 then before else Checks(before, r, k - 1) + [(k - 1, Check(r))]
  }

  function Counts(before: seq<(nat, Action)>, k: nat): seq<(nat, Action)> {
    if k == 0 then before else Counts(before, k - 1) + [(k - 1, Count)]
  }

  lemma {:induction false} RecordingsRun(recorderCount: nat, limit: nat, r: Record, n: nat)
    requires 0 < recorderCount && n <= limit
    ensures var s := Reached(recorderCount, limit, Recordings(r, n));
            s.recordsAllocated == n && s.recorders == Initial(recorderCount).recorders
  {
    if n > 0 {
      RecordingsRun(recorderCount, limit, r, n - 1);
      var steps := Recordings(r, n - 1);
      RunSnoc(Initial(recorderCount), limit, steps, 0, Check(r));
      RunSnoc(Initial(recorderCount), limit, steps + [(0, Check(r))], 0, Count);
      RunSnoc(Initial(recorderCount), limit, steps + [(0, Check(r))] + [(0, Count)], 0, Insert);
    }
  }

  lemma {:induction false} ChecksRun(recorderCount: nat, limit: nat, before: seq<(nat, Action)>, r: Record, k: nat)
    requires k <= recorderCount
    requires var s := Reached(recorderCount, limit, before);
             s.recordsAllocated < limit && s.recorders == Initial(recorderCount).recorders
    ensures var s := Reached(recorderCount, limit, before);
            var n := Reached(recorderCount, limit, Checks(before, r, k));
            && n.recordsAllocated == s.recordsAllocated && |n.recorders| == recorderCount
            && forall i :: 0 <= i < recorderCount ==> n.recorders[i] == if i < k then Checked(r) else Resting
  {
    if k > 0 {
      ChecksRun(recorderCount, limit, before, r, k - 1);
      RunSnoc(Initial(recorderCount), limit, Checks(before, r, k - 1), k - 1, Check(r));
    }
  }

  lemma {:induction false} CountsRun(recorderCount: nat, limit: nat, before: seq<(nat, Action)>, r: Record, k: nat)
    requires k <= recorderCount
    requires var s := Reached(recorderCount, limit, before);
             |s.recorders| == recorderCount && forall i :: 0 <= i < recorderCount ==> s.recorders[i] == Checked(r)
    ensures var s := Reached(recorderCount, limit, before);
            var n := Reached(recorderCount, limit, Counts(before, k));
            && n.recordsAllocated == s.recordsAllocated + k && |n.recorders| == recorderCount
            && forall i :: k <= i < recorderCount ==> n.recorders[i] == Checked(r)
  {
    if k > 0 {
      CountsRun(recorderCount, limit, before, r, k - 1);
      RunSnoc(Initial(recorderCount), limit, Counts(before, k - 1), k - 1, Count);
    }
  }

  lemma CounterBoundIsReached(recorderCount: nat, limit: nat, r: Record)
    requires recorderCount > 0 && limit > 0
    ensures exists steps :: Reached(recorderCount, limit, steps).recordsAllocated == limit + recorderCount - 1
  {
    var recorded := Recordings(r, limit - 1);
    RecordingsRun(recorderCount, limit, r, limit - 1);
    var checked := Checks(recorded, r, recorderCount);
    ChecksRun(recorderCount, limit, recorded, r, recorderCount);
    CountsRun(recorderCount, limit, checked, r, recorderCount);
    assert Reached(recorderCount, limit, Counts(checked, recorderCount)).recordsAllocated == limit + recorderCount - 1;
  }

  /** Nobody records, the monitor thread has ended and no cleanup step is pending. */
  predicate Quiescent(s: State) {
    s.consumer.Stopped? && forall i :: 0 <= i < |s.recorders| ==> s.recorders[i].Resting?
  }

  function CleanupSteps(n: nat): seq<(nat, Action)> {
    if n == 0 then [] else [(0, DropHead), (0, CountDropped)] + CleanupSteps(n - 1)
  }

  /** Cleanup at quiescence empties the queue and brings the counter to zero. */
  lemma CleanupResetsCounter(recorderCount: nat, limit: nat, steps: seq<(nat, Action)>)
    requires Quiescent(Reached(recorderCount, limit, steps))
    ensures var s := Reached(recorderCount, limit, steps);
            var n := Run(s, limit, CleanupSteps(|s.queue|));
            n.queue == [] && n.recordsAllocated == 0 && n.dropped == s.dropped + s.queue && n.log == s.log
  {
    ReachedInv(recorderCount, limit, steps);
    var s := Reached(recorderCount, limit, steps);
    SumZero(s.recorders, IsCounted());
    CleanupRuns(s, limit);
  }

  lemma {:induction false} CleanupRuns(s: State, limit: nat)
    requires s.consumer.Stopped?
    ensures var n := Run(s, limit, CleanupSteps(|s.queue|));
            n == s.(queue := [], recordsAllocated := s.recordsAllocated - |s.queue|, dropped := s.dropped + s.queue)
    decreases |s.queue|
  {
    if s.queue == [] {
      assert s.dropped + s.queue == s.dropped;
    } else {
      var steps := CleanupSteps(|s.queue|);
      var one := Step(s, limit, 0, DropHead);
      var two := Step(one, limit, 0, CountDropped);
      assert steps[1..][1..] == CleanupSteps(|s.queue| - 1) && steps[1..][0] == (0, CountDropped);
      assert Run(s, limit, steps) == Run(one, limit, steps[1..]) == Run(two, limit, steps[1..][1..]);
      CleanupRuns(two, limit);
      assert s.dropped + [s.queue[0]] + s.queue[1..] == s.dropped + s.queue;
    }
  }
}
