/** Monitor records as bytes: how the driver lays one out and batches them for a message, and
    how user mode finds them again. (FileGuardCore/Monitor.c, FileGuardLib/FileGuardLib.c) */
module MonitorRecords {
  import opened FileGuard
  import opened ByteLayout
  import opened RuleFrames

  // FG_MONITOR_RECORD: functions at 0 and 1, process at 8, thread at 16, time at 24, file id
  // at 32, rule code at 56, three sizes at 60, 62 and 64, Buffer at 66, padded to 72 bytes.
  const RECORD_PAYLOAD_OFFSET := 66
  const SIZEOF_RECORD := 72
  const MESSAGE_BUFFER_SIZE := 32 * 1024

  /** What a recorder knows. Every caller leaves the file id and the rename path out. */
  datatype Record = Record(
    majorFunction: Byte,
    minorFunction: Byte,
    pid: Ulonglong,
    tid: Ulonglong,
    time: Ulonglong,
    code: RuleCode,
    expr: UnicodeString,
    path: UnicodeString)

  function RecordSize(r: Record): nat {
    SIZEOF_RECORD + 2 * |r.expr| + 2 * |r.path|
  }

  function PathOffset(r: Record): nat {
    RECORD_PAYLOAD_OFFSET + 2 * |r.expr|
  }

  /** Byte `k` of a record; what no field covers is zero, as the pool hands it out. */
  function RecordByte(r: Record, k: nat): Byte
    requires k < RecordSize(r)
  {
    if k == 0 then r.majorFunction
    else if k == 1 then r.minorFunction
    else if 8 <= k < 16 then Le64(r.pid)[k - 8]
    else if 16 <= k < 24 then Le64(r.tid)[k - 16]
    else if 24 <= k < 32 then Le64(r.time)[k - 24]
    else if 56 <= k < 60 then CodeBytes(r.code)[k - 56]
    else if 60 <= k < 62 then Le16(2 * |r.expr|)[k - 60]
    else if 62 <= k < 64 then Le16(2 * |r.path|)[k - 62]
    else if RECORD_PAYLOAD_OFFSET <= k < PathOffset(r) then WideBytes(r.expr)[k - RECORD_PAYLOAD_OFFSET]
    else if PathOffset(r) <= k < PathOffset(r) + 2 * |r.path| then WideBytes(r.path)[k - PathOffset(r)]
    else 0
  }

  function RecordImage(r: Record): (b: seq<Byte>)
    ensures |b| == RecordSize(r)
  {
    var b := seq<Byte>(RecordSize(r), (k: int) requires 0 <= k < RecordSize(r) => RecordByte(r, k));
    b
  }

  /** The bytes of a record, field by field, at the offsets the compiler gives them. */
  lemma RecordBytes(r: Record)
    ensures var b, n := RecordImage(r), |r.expr|;
            && |b| == RecordSize(r) == 72 + 2 * |r.expr| + 2 * |r.path|
            && b[0] == r.majorFunction && b[1] == r.minorFunction
            && Value(b[8..16]) == r.pid && Value(b[16..24]) == r.tid && Value(b[24..32]) == r.time
            && Value(b[56..58]) == r.code.minor && Value(b[58..60]) == r.code.major
            && Value(b[60..62]) == 2 * |r.expr| && Value(b[62..64]) == 2 * |r.path|
  {
    hide Le64, Le16, Value, WideBytes;
    var b := RecordImage(r);
    LeValues(r.code.minor, 0, r.pid);
    LeValues(r.code.major, 0, r.tid);
    LeValues(2 * |r.expr|, 0, r.time);
    LeValues(2 * |r.path|, 0, 0);
    assert b[8..16] == Le64(r.pid) && b[16..24] == Le64(r.tid) && b[24..32] == Le64(r.time);
    assert b[60..62] == Le16(2 * |r.expr|) && b[62..64] == Le16(2 * |r.path|);
    CodeParts(r.code);
    assert b[56..58] == CodeBytes(r.code)[..2] && b[58..60] == CodeBytes(r.code)[2..];
  }

  lemma CodeParts(c: RuleCode)
    ensures CodeBytes(c)[..2] == Le16(c.minor) && CodeBytes(c)[2..] == Le16(c.major)
  {
  }

  /** Its texts start at byte 66, the path right behind the expression, and the rest is zero. */
  lemma RecordTexts(r: Record)
    ensures var b, n := RecordImage(r), |r.expr|;
            && (forall k :: 0 <= k < n ==> b[66 + 2 * k] as int + 0x100 * b[67 + 2 * k] as int == r.expr[k])
            && (forall k :: 0 <= k < |r.path| ==>
                b[66 + 2 * n + 2 * k] as int + 0x100 * b[67 + 2 * n + 2 * k] as int == r.path[k])
            && (forall k :: 0 <= k < |b| && (2 <= k < 8 || 32 <= k < 56 || k == 64 || k == 65 || |b| - 6 <= k) ==>
                b[k] == 0)
  {
    hide Le64, Le16, WideBytes, CodeBytes;
    var b, n := RecordImage(r), |r.expr|;
    forall k | 0 <= k < n ensures b[66 + 2 * k] as int + 0x100 * b[67 + 2 * k] as int == r.expr[k] {
      WidePair(r.expr, k);
    }
    forall k | 0 <= k < |r.path|
      ensures b[66 + 2 * n + 2 * k] as int + 0x100 * b[67 + 2 * n + 2 * k] as int == r.path[k]
    {
      WidePair(r.path, k);
    }
  }

  // ---- Reading a record ----

  function ExpressionSizeAt(b: seq<Byte>, i: nat): Ushort
    requires i + SIZEOF_RECORD <= |b|
  {
    ReadLe16(b, i + 60)
  }

  function PathSizeAt(b: seq<Byte>, i: nat): Ushort
    requires i + SIZEOF_RECORD <= |b|
  {
    ReadLe16(b, i + 62)
  }

  /** The distance to the next record. */
  function SizeAt(b: seq<Byte>, i: nat): (n: nat)
    requires i + SIZEOF_RECORD <= |b|
    ensures n >= SIZEOF_RECORD
  {
    SIZEOF_RECORD + ExpressionSizeAt(b, i) + PathSizeAt(b, i) + ReadLe16(b, i + 64)
  }

  function RecordAt(b: seq<Byte>, i: nat): Record
    requires i + SIZEOF_RECORD <= |b| && i + SizeAt(b, i) <= |b|
  {
    var payload := i + RECORD_PAYLOAD_OFFSET;
    Record(b[i], b[i + 1], ReadLe64(b, i + 8), ReadLe64(b, i + 16), ReadLe64(b, i + 24),
           RuleCode(ReadLe16(b, i + 56), ReadLe16(b, i + 58)),
           ReadWide(b, payload, ExpressionSizeAt(b, i) / 2),
           ReadWide(b, payload + ExpressionSizeAt(b, i), PathSizeAt(b, i) / 2))
  }

  /** A field of a record image is found in any buffer that holds the image. */
  lemma FieldAt(b: seq<Byte>, i: nat, r: Record, off: nat, x: seq<Byte>)
    requires At(b, i, RecordImage(r)) && off + |x| <= RecordSize(r)
    requires forall k :: 0 <= k < |x| ==> RecordByte(r, off + k) == x[k]
    ensures At(b, i + off, x)
  {
    forall k | 0 <= k < |x| ensures b[i + off + k] == x[k] {
      AtByte(b, i, RecordImage(r), off + k);
    }
    assert b[i + off..i + off + |x|] == x;
  }

  /** Reading a record anywhere gives back what was recorded: code, expression and path at
      their offsets, and a distance that leads exactly past it. */
  lemma RecordRoundTrip(b: seq<Byte>, i: nat, r: Record)
    requires At(b, i, RecordImage(r))
    ensures i + SIZEOF_RECORD <= |b| && SizeAt(b, i) == RecordSize(r) && i + RecordSize(r) <= |b|
    ensures RecordAt(b, i) == r
  {
    hide RecordByte, RecordImage, ReadWide, ReadLe64, ReadLe16, RecordAt, SizeAt;
    HeadRoundTrip(b, i, r);
    SizesRoundTrip(b, i, r);
    TextRoundTrip(b, i, r);
    Assembled(b, i, r);
  }

  lemma Assembled(b: seq<Byte>, i: nat, r: Record)
    requires i + RecordSize(r) <= |b|
    requires b[i] == r.majorFunction && b[i + 1] == r.minorFunction
    requires ReadLe64(b, i + 8) == r.pid && ReadLe64(b, i + 16) == r.tid && ReadLe64(b, i + 24) == r.time
    requires RuleCode(ReadLe16(b, i + 56), ReadLe16(b, i + 58)) == r.code
    requires ReadLe16(b, i + 60) == 2 * |r.expr| && ReadLe16(b, i + 62) == 2 * |r.path| && ReadLe16(b, i + 64) == 0
    requires ReadWide(b, i + RECORD_PAYLOAD_OFFSET, |r.expr|) == r.expr
    requires ReadWide(b, i + PathOffset(r), |r.path|) == r.path
    ensures SizeAt(b, i) == RecordSize(r) && RecordAt(b, i) == r
  {
    hide ReadWide, ReadLe64, ReadLe16;
    assert ExpressionSizeAt(b, i) / 2 == |r.expr| && PathSizeAt(b, i) / 2 == |r.path|;
  }

  lemma HeadRoundTrip(b: seq<Byte>, i: nat, r: Record)
    requires At(b, i, RecordImage(r))
    ensures b[i] == r.majorFunction && b[i + 1] == r.minorFunction
    ensures ReadLe64(b, i + 8) == r.pid && ReadLe64(b, i + 16) == r.tid && ReadLe64(b, i + 24) == r.time
  {
    hide Le64, ReadLe64;
    AtByte(b, i, RecordImage(r), 0);
    AtByte(b, i, RecordImage(r), 1);
    FieldAt(b, i, r, 8, Le64(r.pid));
    FieldAt(b, i, r, 16, Le64(r.tid));
    FieldAt(b, i, r, 24, Le64(r.time));
    ReadLe64At(b, i + 8, r.pid);
    ReadLe64At(b, i + 16, r.tid);
    ReadLe64At(b, i + 24, r.time);
  }

  lemma SizesRoundTrip(b: seq<Byte>, i: nat, r: Record)
    requires At(b, i, RecordImage(r))
    ensures RuleCode(ReadLe16(b, i + 56), ReadLe16(b, i + 58)) == r.code
    ensures ReadLe16(b, i + 60) == 2 * |r.expr| && ReadLe16(b, i + 62) == 2 * |r.path| && ReadLe16(b, i + 64) == 0
  {
    hide Le64, WideBytes, ReadLe16;
    FieldAt(b, i, r, 56, Le16(r.code.minor));
    FieldAt(b, i, r, 58, Le16(r.code.major));
    FieldAt(b, i, r, 60, Le16(2 * |r.expr|));
    FieldAt(b, i, r, 62, Le16(2 * |r.path|));
    FieldAt(b, i, r, 64, Le16(0));
    ReadLe16At(b, i + 56, r.code.minor);
    ReadLe16At(b, i + 58, r.code.major);
    ReadLe16At(b, i + 60, 2 * |r.expr|);
    ReadLe16At(b, i + 62, 2 * |r.path|);
    ReadLe16At(b, i + 64, 0);
  }

  lemma TextRoundTrip(b: seq<Byte>, i: nat, r: Record)
    requires At(b, i, RecordImage(r))
    ensures ReadWide(b, i + RECORD_PAYLOAD_OFFSET, |r.expr|) == r.expr
    ensures ReadWide(b, i + PathOffset(r), |r.path|) == r.path
  {
    hide Le64, Le16, WideBytes, ReadWide;
    FieldAt(b, i, r, RECORD_PAYLOAD_OFFSET, WideBytes(r.expr));
    FieldAt(b, i, r, PathOffset(r), WideBytes(r.path));
    ReadWideAt(b, i + RECORD_PAYLOAD_OFFSET, r.expr);
    ReadWideAt(b, i + PathOffset(r), r.path);
  }

  // ---- Building a record ----

  /** Copying into a buffer, byte by byte. */
  lemma OverlayByte(b: seq<Byte>, i: nat, img: seq<Byte>, k: nat)
    requires i + |img| <= |b| && k < |b|
    ensures Overlay(b, i, img)[k] == if i <= k < i + |img| then img[k - i] else b[k]
  {
  }

  /** The record part of FgcRecordRuleMatched: a zeroed block of the size asked of the pool,
      filled in field by field. */
  method BuildRecord(r: Record) returns (block: array<Byte>)
    ensures fresh(block) && block[..] == RecordImage(r)
  {
    hide Le64, Le16, WideBytes, CodeBytes, Overlay, At, RecordByte;
    block := new Byte[RecordSize(r)](k => 0);
    ghost var b0 := block[..];
    CopyMemory(block, 0, [r.majorFunction, r.minorFunction]);
    ghost var b1 := block[..];
    CopyMemory(block, 8, Le64(r.pid));
    ghost var b2 := block[..];
    CopyMemory(block, 16, Le64(r.tid));
    ghost var b3 := block[..];
    CopyMemory(block, 24, Le64(r.time));
    ghost var b4 := block[..];
    CopyMemory(block, 56, CodeBytes(r.code));
    ghost var b5 := block[..];
    CopyMemory(block, RECORD_PAYLOAD_OFFSET, WideBytes(r.expr));
    ghost var b6 := block[..];
    CopyMemory(block, 60, Le16(2 * |r.expr|));
    ghost var b7 := block[..];
    CopyMemory(block, PathOffset(r), WideBytes(r.path));
    ghost var b8 := block[..];
    CopyMemory(block, 62, Le16(2 * |r.path|));
    forall k | 0 <= k < RecordSize(r) ensures block[..][k] == RecordImage(r)[k] {
      FilledByte(r, b0, b1, b2, b3, b4, b5, b6, b7, b8, block[..], k);
    }
  }

  lemma FilledByte(r: Record, b0: seq<Byte>, b1: seq<Byte>, b2: seq<Byte>, b3: seq<Byte>, b4: seq<Byte>,
                   b5: seq<Byte>, b6: seq<Byte>, b7: seq<Byte>, b8: seq<Byte>, b9: seq<Byte>, k: nat)
    requires k < RecordSize(r) == |b0| && b0[k] == 0
    requires b1 == Overlay(b0, 0, [r.majorFunction, r.minorFunction])
    requires b2 == Overlay(b1, 8, Le64(r.pid)) && b3 == Overlay(b2, 16, Le64(r.tid)) &&
             b4 == Overlay(b3, 24, Le64(r.time))
    requires b5 == Overlay(b4, 56, CodeBytes(r.code)) && b6 == Overlay(b5, RECORD_PAYLOAD_OFFSET, WideBytes(r.expr))
    requires b7 == Overlay(b6, 60, Le16(2 * |r.expr|)) && b8 == Overlay(b7, PathOffset(r), WideBytes(r.path))
    requires b9 == Overlay(b8, 62, Le16(2 * |r.path|))
    ensures b9[k] == RecordByte(r, k)
  {
    hide Le64, Le16, WideBytes, CodeBytes, Overlay, At;
    OverlayByte(b0, 0, [r.majorFunction, r.minorFunction], k);
    OverlayByte(b1, 8, Le64(r.pid), k);
    OverlayByte(b2, 16, Le64(r.tid), k);
    OverlayByte(b3, 24, Le64(r.time), k);
    OverlayByte(b4, 56, CodeBytes(r.code), k);
    OverlayByte(b5, RECORD_PAYLOAD_OFFSET, WideBytes(r.expr), k);
    OverlayByte(b6, 60, Le16(2 * |r.expr|), k);
    OverlayByte(b7, PathOffset(r), WideBytes(r.path), k);
    OverlayByte(b8, 62, Le16(2 * |r.path|), k);
  }
}
