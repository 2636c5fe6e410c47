/** The user-mode end of the monitor: parsing a batch into an array that grows on demand, and
    handing every record to the callback. (FileGuardLib/FileGuardLib.c) */
module MonitorClient {
  import opened FileGuard
  import opened ByteLayout
  import opened MonitorRecords
  import opened MonitorBatches

  /** The records `rs` lie one after the other in `b` from offset `i`. */
  ghost predicate RecordsIn(b: seq<Byte>, i: nat, rs: seq<Record>)
    decreases |rs|
  {
    rs == [] || (At(b, i, RecordImage(rs[0])) && RecordsIn(b, i + RecordSize(rs[0]), rs[1..]))
  }

  lemma {:induction false} ImagesAreRecords(b: seq<Byte>, i: nat, rs: seq<Record>)
    requires At(b, i, Images(rs))
    ensures RecordsIn(b, i, rs)
    decreases |rs|
  {
    hide RecordImage;
    if rs != [] {
      AtSplit(b, i, RecordImage(rs[0]), Images(rs[1..]));
      ImagesAreRecords(b, i + RecordSize(rs[0]), rs[1..]);
    }
  }

  /** Where the records of a batch start. */
  function Offsets(rs: seq<Record>, i: nat): (os: seq<nat>)
    ensures |os| == |rs|
  {
    if rs == [] then [] else [i] + Offsets(rs[1..], i + RecordSize(rs[0]))
  }

  /** Every offset leads to its record, whole. */
  lemma {:induction false} OffsetsLead(b: seq<Byte>, i: nat, rs: seq<Record>, k: nat)
    requires RecordsIn(b, i, rs) && k < |rs|
    ensures var o := Offsets(rs, i)[k];
            o + SIZEOF_RECORD <= |b| && o + SizeAt(b, o) <= |b| && RecordAt(b, o) == rs[k]
    decreases |rs|
  {
    hide RecordImage, RecordAt, At;
    if k == 0 {
      RecordRoundTrip(b, i, rs[0]);
    } else {
      OffsetsLead(b, i + RecordSize(rs[0]), rs[1..], k - 1);
    }
  }

  datatype ParseResult = Parsed | InsufficientBuffer

  /** FglParseMonitorRecords: the array receives the offsets of the records, as many as it has
      slots. `rs` are the records the batch carries. */
  method ParseMonitorRecords(buffer: seq<Byte>, totalSize: Ulong, recordsArray: array<nat>, arrayLength: Ushort,
                             ghost rs: seq<Record>)
    returns (hr: ParseResult, parsedCount: Ushort)
    requires arrayLength <= recordsArray.Length
    requires RecordsIn(buffer, 0, rs) && totalSize == BatchSize(rs)
    modifies recordsArray
    ensures hr == if |rs| > arrayLength then InsufficientBuffer else Parsed
    ensures parsedCount == if |rs| > arrayLength then arrayLength else |rs|
    ensures recordsArray[..parsedCount] == Offsets(rs, 0)[..parsedCount]
    ensures recordsArray[parsedCount..] == old(recordsArray[parsedCount..])
  {
    hide RecordImage, At, RecordAt, RecordsIn, SizeAt, RecordSize;
    var offset: Ulong, recordCount: nat := 0, 0;
    assert rs[0..] == rs;
    while offset < totalSize
      invariant recordCount <= |rs| && recordCount <= arrayLength
      invariant offset + BatchSize(rs[recordCount..]) == totalSize
      invariant RecordsIn(buffer, offset, rs[recordCount..])
      invariant Offsets(rs, 0)[recordCount..] == Offsets(rs[recordCount..], offset)
      invariant forall k :: 0 <= k < recordCount ==> recordsArray[k] == Offsets(rs, 0)[k]
      invariant forall k :: recordCount <= k < recordsArray.Length ==> recordsArray[k] == old(recordsArray[k])
      decreases totalSize - offset
    {
      assert recordCount < |rs|;
      if recordCount >= arrayLength {
        return InsufficientBuffer, recordCount;
      }
      NextRecord(buffer, offset, rs, recordCount);
      recordsArray[recordCount] := offset;
      recordCount := recordCount + 1;
      offset := offset + SizeAt(buffer, offset);
    }
    BatchCount(rs[recordCount..]);
    return Parsed, recordCount;
  }

  lemma NextRecord(b: seq<Byte>, i: nat, rs: seq<Record>, k: nat)
    requires k < |rs| && RecordsIn(b, i, rs[k..]) && Offsets(rs, 0)[k..] == Offsets(rs[k..], i)
    ensures i + SIZEOF_RECORD <= |b| && SizeAt(b, i) == RecordSize(rs[k])
    ensures BatchSize(rs[k..]) == RecordSize(rs[k]) + BatchSize(rs[k + 1..])
    ensures RecordsIn(b, i + RecordSize(rs[k]), rs[k + 1..])
    ensures Offsets(rs, 0)[k] == i && Offsets(rs, 0)[k + 1..] == Offsets(rs[k + 1..], i + RecordSize(rs[k]))
  {
    hide RecordImage, At, RecordAt;
    assert rs[k..][1..] == rs[k + 1..] && rs[k..][0] == rs[k];
    RecordRoundTrip(b, i, rs[k]);
    assert Offsets(rs, 0)[k..][0] == Offsets(rs, 0)[k];
    assert Offsets(rs, 0)[k..][1..] == Offsets(rs, 0)[k + 1..];
  }

  // ---- Receiving ----

  const INITIAL_SLOTS := 32
  const MOST_SLOTS := 512

  /** The lengths the array can have: 32, doubled any number of times, but never more than 512
      because a batch of 32 KiB carries at most 455 records. */
  predicate SlotsOk(n: nat) {
    n in {32, 64, 128, 256, MOST_SLOTS}
  }

  /** Doubling `n` slots until there are `count`, when `memory` says which lengths are granted. */
  predicate Granted(n: nat, count: nat, memory: nat -> bool)
    requires n > 0
    decreases count - n
  {
    count <= n || (memory(2 * n) && Granted(2 * n, count, memory))
  }

  /** The length that doubling ends with. */
  function Doubled(n: nat, count: nat): (m: nat)
    requires n > 0
    ensures count <= m && n <= m
    decreases count - n
  {
    if count <= n then n else Doubled(2 * n, count)
  }

  /** What was granted for one message need not be asked for again. */
  lemma {:induction false} GrantedOnce(n: nat, count: nat, next: nat, memory: nat -> bool)
    requires n > 0 && Granted(n, count, memory)
    ensures Granted(n, next, memory) <==> Granted(Doubled(n, count), next, memory)
    decreases count - n
  {
    if count > n {
      GrantedOnce(2 * n, count, next, memory);
    }
  }

  lemma {:induction false} AlwaysGranted(n: nat, count: nat, memory: nat -> bool)
    requires n > 0 && forall k :: memory(k)
    ensures Granted(n, count, memory)
    decreases count - n
  {
    if count > n {
      AlwaysGranted(2 * n, count, memory);
    }
  }

  /** How many of the messages are handled, starting with `n` slots. */
  function Handled(n: nat, batches: seq<seq<Record>>, memory: nat -> bool): (k: nat)
    requires n > 0
    ensures k <= |batches|
    decreases |batches|
  {
    if batches == [] || !Granted(n, |batches[0]|, memory) then 0
    else 1 + Handled(Doubled(n, |batches[0]|), batches[1..], memory)
  }

  /** Starting with 32 slots, doubling asks for the lengths up to the first that suffices. */
  lemma GrantedFromStart(count: nat, memory: nat -> bool)
    requires count <= 512
    ensures Granted(32, count, memory) <==>
            (&& (count > 32 ==> memory(64)) && (count > 64 ==> memory(128))
             && (count > 128 ==> memory(256)) && (count > 256 ==> memory(512)))
    ensures Doubled(32, count) == if count <= 32 then 32 else if count <= 64 then 64
                                  else if count <= 128 then 128 else if count <= 256 then 256 else 512
  {
    assert Granted(512, count, memory) && Doubled(512, count) == 512;
    assert Granted(256, count, memory) <==> count <= 256 || memory(512);
    assert Granted(128, count, memory) <==> count <= 128 || (memory(256) && Granted(256, count, memory));
    assert Granted(64, count, memory) <==> count <= 64 || (memory(128) && Granted(128, count, memory));
    assert Doubled(256, count) == if count <= 256 then 256 else 512;
    assert Doubled(128, count) == if count <= 128 then 128 else Doubled(256, count);
    assert Doubled(64, count) == if count <= 64 then 64 else Doubled(128, count);
  }

  /** The handled messages are those before the first that meets a refused length. */
  lemma {:induction false} HandledUpToRefusal(n: nat, batches: seq<seq<Record>>, memory: nat -> bool)
    requires n > 0
    ensures var k := Handled(n, batches, memory);
            && (forall j :: 0 <= j < k ==> Granted(n, |batches[j]|, memory))
            && (k < |batches| ==> !Granted(n, |batches[k]|, memory))
    decreases |batches|
  {
    if batches != [] && Granted(n, |batches[0]|, memory) {
      var m := Doubled(n, |batches[0]|);
      HandledUpToRefusal(m, batches[1..], memory);
      forall k | 0 < k < |batches|
        ensures Granted(n, |batches[k]|, memory) <==> Granted(m, |batches[1..][k - 1]|, memory)
      {
        GrantedOnce(n, |batches[0]|, |batches[k]|, memory);
      }
    }
  }

  /** All messages are handled exactly when each of them could be handled first. */
  lemma HandledAllIff(n: nat, batches: seq<seq<Record>>, memory: nat -> bool)
    requires n > 0
    ensures Handled(n, batches, memory) == |batches| <==>
            forall k :: 0 <= k < |batches| ==> Granted(n, |batches[k]|, memory)
  {
    HandledUpToRefusal(n, batches, memory);
  }

  /** realloc: a longer array with the old contents in front. */
  method Grow(parsedRecords: array<nat>, length: nat) returns (longer: array<nat>)
    requires parsedRecords.Length <= length
    ensures fresh(longer) && longer.Length == length && longer[..parsedRecords.Length] == parsedRecords[..]
  {
    longer := new nat[length](i => 0);
    forall k | 0 <= k < parsedRecords.Length {
      longer[k] := parsedRecords[k];
    }
  }

  /** The parse-and-retry loop for one message. It ends with every record of the message
      parsed, unless an allocation fails; the length, kept in sixteen bits, never wraps. */
  method ParseAll(m: Message, parsedRecords: array<nat>, memory: nat -> bool, ghost rs: seq<Record>)
    returns (ok: bool, slots: array<nat>, parsedCount: Ushort)
    requires Carries(m, rs) && SlotsOk(parsedRecords.Length)
    modifies parsedRecords
    ensures SlotsOk(slots.Length) && (slots == parsedRecords || fresh(slots))
    ensures ok ==> parsedCount == |rs| <= slots.Length && slots[..parsedCount] == Offsets(rs, 0)
    ensures ok <==> Granted(parsedRecords.Length, |rs|, memory)
    ensures ok ==> slots.Length == Doubled(parsedRecords.Length, |rs|)
    ensures slots.Length == parsedRecords.Length || slots.Length < 2 * |rs|
  {
    hide RecordImage, Images, RecordsIn, Offsets, BatchSize;
    ImagesAreRecords(m.dataBuffer, 0, rs);
    BatchCount(rs);
    AtFits(m.dataBuffer, rs);
    slots := parsedRecords;
    var parsedRecordsArrayLength: Ushort := parsedRecords.Length;
    var hr;
    hr, parsedCount := ParseMonitorRecords(m.dataBuffer, m.dataSize, slots, parsedRecordsArrayLength, rs);
    while hr == InsufficientBuffer
      invariant parsedRecordsArrayLength == slots.Length && SlotsOk(slots.Length)
      invariant slots == parsedRecords || fresh(slots)
      invariant hr == if |rs| > slots.Length then InsufficientBuffer else Parsed
      invariant hr == Parsed ==> parsedCount == |rs| && slots[..parsedCount] == Offsets(rs, 0)[..parsedCount]
      invariant slots.Length == parsedRecords.Length || slots.Length < 2 * |rs|
      invariant Granted(slots.Length, |rs|, memory) <==> Granted(parsedRecords.Length, |rs|, memory)
      invariant Doubled(slots.Length, |rs|) == Doubled(parsedRecords.Length, |rs|)
      decreases MOST_SLOTS - slots.Length
    {
      parsedRecordsArrayLength := (parsedRecordsArrayLength * 2) % 0x1_0000;
      if !memory(parsedRecordsArrayLength) {
        return false, slots, parsedCount;
      }
      slots := Grow(slots, parsedRecordsArrayLength);
      hr, parsedCount := ParseMonitorRecords(m.dataBuffer, m.dataSize, slots, parsedRecordsArrayLength, rs);
    }
    ok := true;
  }

  lemma AtFits(b: seq<Byte>, rs: seq<Record>)
    requires At(b, 0, Images(rs))
    ensures BatchSize(rs) <= |b|
  {
  }

  /** The callback runs once per parsed record, in order; `seen` are its arguments. */
  method CallBack(m: Message, slots: array<nat>, parsedCount: nat, ghost rs: seq<Record>) returns (seen: seq<Record>)
    requires Carries(m, rs)
    requires parsedCount == |rs| <= slots.Length && slots[..parsedCount] == Offsets(rs, 0)
    ensures seen == rs
  {
    hide RecordImage, RecordAt, Offsets, Images, At;
    ImagesAreRecords(m.dataBuffer, 0, rs);
    seen := [];
    var i := 0;
    while i < parsedCount
      invariant 0 <= i <= parsedCount && seen == rs[..i]
    {
      OffsetsLead(m.dataBuffer, 0, rs, i);
      assert slots[i] == slots[..parsedCount][i];
      seen := seen + [RecordAt(m.dataBuffer, slots[i])];
      i := i + 1;
    }
  }

  /** How many of the messages of a session are handled: none if the first array is refused. */
  function Received(batches: seq<seq<Record>>, memory: nat -> bool): (n: nat)
    ensures n <= |batches|
  {
    if memory(INITIAL_SLOTS) then Handled(INITIAL_SLOTS, batches, memory) else 0
  }

  /** Every message is handled exactly when all lengths that doubling asks for, from the first
      array on, are granted. */
  lemma ReceivedAllIff(batches: seq<seq<Record>>, memory: nat -> bool)
    ensures Received(batches, memory) == |batches| <==>
            batches == [] ||
            (memory(INITIAL_SLOTS) && forall k :: 0 <= k < |batches| ==> Granted(INITIAL_SLOTS, |batches[k]|, memory))
    ensures (forall n :: memory(n)) ==> Received(batches, memory) == |batches|
  {
    HandledAllIff(INITIAL_SLOTS, batches, memory);
    if forall n :: memory(n) {
      forall k | 0 <= k < |batches| ensures Granted(INITIAL_SLOTS, |batches[k]|, memory) {
        AlwaysGranted(INITIAL_SLOTS, |batches[k]|, memory);
      }
    }
  }

  /** FglReceiveMonitorRecords over the messages of a whole session: the callback sees every
      record of every message once and in order, up to the first message for which a length
      that doubling asks for is refused. `batches` are the records the messages carry. */
  method ReceiveMonitorRecords(messages: seq<Message>, memory: nat -> bool, ghost batches: seq<seq<Record>>)
    returns (ok: bool, seen: seq<Record>, received: nat)
    requires |messages| == |batches| && forall k :: 0 <= k < |messages| ==> Carries(messages[k], batches[k])
    ensures received == Received(batches, memory) && seen == Flatten(batches[..received])
    ensures ok <==> memory(INITIAL_SLOTS) && received == |messages|
    ensures (forall n :: memory(n)) ==> ok
  {
    hide Carries, Granted, Doubled;
    ReceivedAllIff(batches, memory);
    ok, seen, received := false, [], 0;
    if !memory(INITIAL_SLOTS) {
      return;
    }
    var slots := new nat[INITIAL_SLOTS](i => 0);
    ok := true;
    assert batches[0..] == batches;
    while received < |messages|
      invariant received <= |messages| && seen == Flatten(batches[..received])
      invariant SlotsOk(slots.Length) && fresh(slots) && ok
      invariant received + Handled(slots.Length, batches[received..], memory) == Received(batches, memory)
    {
      var parsedCount: Ushort;
      var m := messages[received];
      assert Carries(m, batches[received]);
      assert batches[received..][0] == batches[received] && batches[received..][1..] == batches[received + 1..];
      ok, slots, parsedCount := ParseAll(m, slots, memory, batches[received]);
      if !ok {
        return;
      }
      var calls := CallBack(m, slots, parsedCount, batches[received]);
      assert batches[..received + 1][..received] == batches[..received];
      seen := seen + calls;
      received := received + 1;
    }
  }

  /** One round from the driver's queue to the callback: what the callback sees is what
      GetRecords took, in the order of the queue. */
  method Relay(queue: RecordQueue, others: nat -> Others) returns (status: Status, seen: seq<Record>)
    modifies queue
    ensures InOrder(old(queue.records), seen, queue.records, others)
    ensures status == if seen != [] then Success else if old(queue.records) != [] then BufferTooSmall else Unsuccessful
    ensures Closed(seen, queue.records, MESSAGE_BUFFER_SIZE)
  {
    hide RecordImage, Images, InOrder, BatchSize, Offsets;
    var body := new Byte[MESSAGE_BUFFER_SIZE](i => 0);
    var dataSize: nat;
    ghost var taken: seq<Record>;
    status, dataSize, taken := queue.GetRecords(body, others);
    var m := Message(dataSize, body[..]);
    assert m.dataBuffer[0..0 + dataSize] == body[..dataSize];
    var slots := new nat[INITIAL_SLOTS](i => 0);
    var ok: bool;
    var parsedCount: Ushort;
    AlwaysGranted(INITIAL_SLOTS, |taken|, n => true);
    ok, slots, parsedCount := ParseAll(m, slots, n => true, taken);
    seen := CallBack(m, slots, parsedCount, taken);
  }

  /** A whole session from the driver's queue to the callback. The callback sees the records of
      the delivered batches, in the order of the queue, up to the first message that meets
      a refused length. When it sees them all, what it saw followed by the queue is what was
      queued and what arrived, in order, exactly when no send failed that carried records. */
  method Session(queue: RecordQueue, rounds: nat, w: Surroundings, memory: nat -> bool)
    returns (seen: seq<Record>, received: nat, ghost history: seq<Round>)
    modifies queue
    ensures |history| == rounds && Happens(history, old(queue.records), w)
    ensures queue.records == QueueAfter(history, old(queue.records))
    ensures received == Received(Delivered(history, w), memory)
    ensures seen == Flatten(Delivered(history, w)[..received])
    ensures received == |Delivered(history, w)| ==>
              (seen + queue.records == old(queue.records) + Heard(history, w) <==>
               forall i :: 0 <= i < rounds && history[i].taken != [] ==> w.port(i).sending == Success)
  {
    hide Carries, Flatten, Happens, QueueAfter, Takes, Heard, Received;
    var messages: seq<Message>;
    messages, history := MonitorRounds(queue, rounds, w);
    var ok: bool;
    ok, seen, received := ReceiveMonitorRecords(messages, memory, Delivered(history, w));
    NothingLostIff(history, old(queue.records), w);
    ghost var batches := Delivered(history, w);
    assert batches[..|batches|] == batches;
    SameFront(Flatten(batches), Flatten(Takes(history)), queue.records);
  }

  lemma SameFront(x: seq<Record>, y: seq<Record>, z: seq<Record>)
    ensures x + z == y + z <==> x == y
  {
    if x + z == y + z {
      assert |x| == |y|;
      assert (x + z)[..|x|] == x && (y + z)[..|y|] == y;
    }
  }
}
