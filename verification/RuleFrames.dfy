/** The variable-length frame that carries one rule between user mode and the driver.

    A frame is a six byte header, the expression bytes straight after it, and two bytes of
    padding: the payload starts inside the eight bytes of FG_RULE, but the next frame
    starts a whole FG_RULE plus payload further on. */
module RuleFrames {
  import opened FileGuard
  import opened ByteLayout

  function Stride(r: Rule): nat {
    SIZEOF_RULE + 2 * |r.expr|
  }

  function TotalSize(rs: seq<Rule>): nat {
    if rs == [] then 0 else Stride(rs[0]) + TotalSize(rs[1..])
  }

  lemma {:induction false} TotalSizeConcat(s: seq<Rule>, t: seq<Rule>)
    ensures TotalSize(s + t) == TotalSize(s) + TotalSize(t)
  {
    if s == [] {
      assert s + t == t;
    } else {
      assert (s + t)[1..] == s[1..] + t;
      TotalSizeConcat(s[1..], t);
    }
  }

  function CodeBytes(c: RuleCode): (b: seq<Byte>)
    ensures |b| == 4
  {
    Le16(c.minor) + Le16(c.major)
  }

  /** The bytes of a frame that are written; the padding is not part of it. */
  function Image(r: Rule): (b: seq<Byte>)
    ensures |b| == RULE_PAYLOAD_OFFSET + 2 * |r.expr|
  {
    CodeBytes(r.code) + Le16(2 * |r.expr|) + WideBytes(r.expr)
  }

  /** The bytes of a frame, field by field: minor and major code, size in bytes, characters, each
      with its low byte first, and where the next frame starts. */
  lemma FrameBytes(r: Rule)
    ensures var b := Image(r);
            && |b| == 6 + 2 * |r.expr| && Stride(r) == 8 + 2 * |r.expr|
            && b[0] as int + 0x100 * b[1] as int == r.code.minor
            && b[2] as int + 0x100 * b[3] as int == r.code.major
            && b[4] as int + 0x100 * b[5] as int == 2 * |r.expr|
            && forall k :: 0 <= k < |r.expr| ==> b[6 + 2 * k] as int + 0x100 * b[7 + 2 * k] as int == r.expr[k]
  {
    hide Le16, WideBytes;
    Le16Value(r.code.minor);
    Le16Value(r.code.major);
    Le16Value(2 * |r.expr|);
    forall k | 0 <= k < |r.expr|
      ensures Image(r)[6 + 2 * k] as int + 0x100 * Image(r)[7 + 2 * k] as int == r.expr[k]
    {
      WidePair(r.expr, k);
    }
  }

  /** The frames of `rs` lie one after the other in `b` from offset `i`. */
  ghost predicate Holds(b: seq<Byte>, i: nat, rs: seq<Rule>)
    decreases |rs|
  {
    rs == [] ||
    (i + Stride(rs[0]) <= |b| && At(b, i, Image(rs[0])) && Holds(b, i + Stride(rs[0]), rs[1..]))
  }

  lemma {:induction false} HoldsInside(b: seq<Byte>, i: nat, rs: seq<Rule>)
    requires Holds(b, i, rs) && rs != []
    ensures i + TotalSize(rs) <= |b|
    decreases |rs|
  {
    if |rs| > 1 {
      HoldsInside(b, i + Stride(rs[0]), rs[1..]);
    }
  }

  // What a reader finds in a frame.

  function CodeAt(b: seq<Byte>, i: nat): RuleCode
    requires i + SIZEOF_RULE <= |b|
  {
    RuleCode(ReadLe16(b, i), ReadLe16(b, i + 2))
  }

  function ExprSizeAt(b: seq<Byte>, i: nat): Ushort
    requires i + SIZEOF_RULE <= |b|
  {
    ReadLe16(b, i + 4)
  }

  function RuleAt(b: seq<Byte>, i: nat): (r: Rule)
    requires i + SIZEOF_RULE <= |b| && i + SIZEOF_RULE + ExprSizeAt(b, i) <= |b|
    ensures Stride(r) <= SIZEOF_RULE + ExprSizeAt(b, i)
  {
    Rule(CodeAt(b, i), ReadWide(b, i + RULE_PAYLOAD_OFFSET, ExprSizeAt(b, i) / 2))
  }

  lemma ReadFrame(b: seq<Byte>, i: nat, r: Rule)
    requires i + Stride(r) <= |b| && At(b, i, Image(r))
    ensures ExprSizeAt(b, i) == 2 * |r.expr| && RuleAt(b, i) == r
  {
    var size := Le16(2 * |r.expr|);
    AtSplit(b, i, CodeBytes(r.code) + size, WideBytes(r.expr));
    AtSplit(b, i, CodeBytes(r.code), size);
    AtSplit(b, i, Le16(r.code.minor), Le16(r.code.major));
    ReadLe16At(b, i, r.code.minor);
    ReadLe16At(b, i + 2, r.code.major);
    ReadLe16At(b, i + 4, 2 * |r.expr|);
    ReadWideAt(b, i + 6, r.expr);
  }

  /** One step of a cursor that walks the frames of a message. */
  lemma WalkStep(b: seq<Byte>, i: nat, rs: seq<Rule>, k: nat)
    requires k < |rs| && Holds(b, i, rs[k..])
    ensures i + Stride(rs[k]) <= |b| && ExprSizeAt(b, i) == 2 * |rs[k].expr| && RuleAt(b, i) == rs[k]
    ensures Holds(b, i + SIZEOF_RULE + ExprSizeAt(b, i), rs[k + 1..])
  {
    ReadFrame(b, i, rs[k..][0]);
    assert rs[k..][1..] == rs[k + 1..];
  }

  /** Every frame of `b[i..end]` stays inside and the last one ends at `end`. */
  predicate Framed(b: seq<Byte>, i: nat, end: nat)
    requires end <= |b|
    decreases end - i
  {
    i == end ||
    (i + SIZEOF_RULE <= end && i + SIZEOF_RULE + ExprSizeAt(b, i) <= end &&
     Framed(b, i + SIZEOF_RULE + ExprSizeAt(b, i), end))
  }

  /** The rules of a well-framed buffer. */
  function Decode(b: seq<Byte>, i: nat, end: nat): seq<Rule>
    requires end <= |b| && Framed(b, i, end)
    decreases end - i
  {
    if i == end then [] else [RuleAt(b, i)] + Decode(b, i + SIZEOF_RULE + ExprSizeAt(b, i), end)
  }

  /** Decoding is the inverse of laying frames out, whatever the padding holds, and the
      frames end exactly where their sizes say. */
  lemma {:induction false} DecodeInvertsHolds(b: seq<Byte>, i: nat, rs: seq<Rule>)
    requires Holds(b, i, rs) && i + TotalSize(rs) <= |b|
    ensures Framed(b, i, i + TotalSize(rs)) && Decode(b, i, i + TotalSize(rs)) == rs
    decreases |rs|
  {
    hide Image, RuleAt, ExprSizeAt;
    if rs != [] {
      ReadFrame(b, i, rs[0]);
      DecodeInvertsHolds(b, i + Stride(rs[0]), rs[1..]);
    }
  }

  /** `b` with the frames of `rs` laid out from offset `i`; padding and surroundings keep
      their old bytes. */
  function PutRules(b: seq<Byte>, i: nat, rs: seq<Rule>): (r: seq<Byte>)
    requires i + TotalSize(rs) <= |b|
    ensures |r| == |b|
    decreases |rs|
  {
    if rs == [] then b else PutRules(Overlay(b, i, Image(rs[0])), i + Stride(rs[0]), rs[1..])
  }

  lemma {:induction false} PutRulesOutside(b: seq<Byte>, i: nat, rs: seq<Rule>)
    requires i + TotalSize(rs) <= |b|
    ensures PutRules(b, i, rs)[..i] == b[..i]
    ensures PutRules(b, i, rs)[i + TotalSize(rs)..] == b[i + TotalSize(rs)..]
    decreases |rs|
  {
    hide Image;
    if rs != [] {
      var o := Overlay(b, i, Image(rs[0]));
      var j := i + Stride(rs[0]);
      PutRulesOutside(o, j, rs[1..]);
      var p := PutRules(o, j, rs[1..]);
      assert p[..i] == p[..j][..i] == o[..j][..i] == o[..i];
      TailKept(o, b, i + |Image(rs[0])|, i + TotalSize(rs));
    }
  }

  lemma TailKept(o: seq<Byte>, b: seq<Byte>, k: nat, e: nat)
    requires k <= e <= |o| == |b| && o[k..] == b[k..]
    ensures o[e..] == b[e..]
  {
    assert o[e..] == o[k..][e - k..] && b[e..] == b[k..][e - k..];
  }

  lemma {:induction false} PutRulesHolds(b: seq<Byte>, i: nat, rs: seq<Rule>)
    requires i + TotalSize(rs) <= |b|
    ensures Holds(PutRules(b, i, rs), i, rs)
    decreases |rs|
  {
    hide Image;
    if rs != [] {
      var o := Overlay(b, i, Image(rs[0]));
      var j := i + Stride(rs[0]);
      PutRulesHolds(o, j, rs[1..]);
      PutRulesOutside(o, j, rs[1..]);
      KeptBelow(PutRules(o, j, rs[1..]), o, j, i, i + |Image(rs[0])|);
    }
  }

  /** Encoding then decoding gives the rules back, for every rule list, every old buffer
      content and every offset. */
  lemma FrameRoundTrip(b: seq<Byte>, i: nat, rs: seq<Rule>)
    requires i + TotalSize(rs) <= |b|
    ensures var p := PutRules(b, i, rs);
            Framed(p, i, i + TotalSize(rs)) && Decode(p, i, i + TotalSize(rs)) == rs
  {
    PutRulesHolds(b, i, rs);
    DecodeInvertsHolds(PutRules(b, i, rs), i, rs);
  }

  /** A kernel-side writer fills one frame: expression, then code, then size. */
  method WriteFrame(buf: array<Byte>, i: nat, r: Rule)
    requires i + |Image(r)| <= buf.Length
    modifies buf
    ensures buf[..] == Overlay(old(buf[..]), i, Image(r))
  {
    ghost var b := buf[..];
    CopyMemory(buf, i + RULE_PAYLOAD_OFFSET, WideBytes(r.expr));
    CopyMemory(buf, i, CodeBytes(r.code));
    CopyMemory(buf, i + 4, Le16(2 * |r.expr|));
    OverlayThrice(b, i, CodeBytes(r.code), Le16(2 * |r.expr|), WideBytes(r.expr));
  }

  lemma OverlayThrice(b: seq<Byte>, i: nat, x: seq<Byte>, y: seq<Byte>, z: seq<Byte>)
    requires i + |x| + |y| + |z| <= |b|
    ensures Overlay(Overlay(Overlay(b, i + |x| + |y|, z), i, x), i + |x|, y) == Overlay(b, i, x + y + z)
  {
  }

  /** The frames FgcGetRules writes: all of them, unless a second one would have to be
      written while more than LONG_MAX bytes remain, which its signed test takes for an
      exhausted buffer. */
  function Exported(rs: seq<Rule>, size: nat): seq<Rule> {
    if |rs| > 1 && size - Stride(rs[0]) > LONG_MAX then rs[..1] else rs
  }

  lemma {:induction false} ExportedFits(rs: seq<Rule>, size: nat)
    requires TotalSize(rs) <= size
    ensures TotalSize(Exported(rs, size)) <= size
  {
    if |rs| > 1 {
      assert rs == rs[..1] + rs[1..];
      TotalSizeConcat(rs[..1], rs[1..]);
    }
  }

  /** The remaining size stays in the signed range after the first of several frames. */
  predicate StaysSigned(rs: seq<Rule>, size: nat) {
    |rs| <= 1 || size - Stride(rs[0]) <= LONG_MAX
  }

  /** The writing walk of FgcGetRules with `room` bytes counted as remaining writes inside the
      buffer. It tests the remaining size, as a signed number, only after a frame was written,
      and the padding of a frame is not written. */
  predicate WalkInside(rs: seq<Rule>, room: nat) {
    rs == [] ||
    var left := room - Stride(rs[0]);
    |Image(rs[0])| <= room && (0 < left <= LONG_MAX ==> WalkInside(rs[1..], left))
  }

  /** What that walk leaves in its buffer, from cursor `i`. */
  function Walk(b: seq<Byte>, i: nat, room: nat, rs: seq<Rule>): (r: seq<Byte>)
    requires i + room <= |b| && WalkInside(rs, room)
    ensures |r| == |b|
    decreases |rs|
  {
    if rs == [] then b
    else
      var o, left := Overlay(b, i, Image(rs[0])), room - Stride(rs[0]);
      if 0 < left <= LONG_MAX then Walk(o, i + Stride(rs[0]), left, rs[1..]) else o
  }

  lemma CopyStep(b: seq<Byte>, i: nat, room: nat, rs: seq<Rule>)
    requires rs != [] && i + room <= |b| && WalkInside(rs, room)
    ensures i + |Image(rs[0])| <= |b| && room - Stride(rs[0]) >= -2
    ensures var o, left := Overlay(b, i, Image(rs[0])), room - Stride(rs[0]);
            if 0 < left <= LONG_MAX then
              WalkInside(rs[1..], left) && Walk(b, i, room, rs) == Walk(o, i + Stride(rs[0]), left, rs[1..])
            else Walk(b, i, room, rs) == o
  {
    hide Image, Overlay;
  }

  lemma NothingToCopy(b: seq<Byte>, i: nat, room: nat, rs: seq<Rule>)
    requires rs == [] && i + room <= |b|
    ensures WalkInside(rs, room) && Walk(b, i, room, rs) == b
  {
  }

  /** When the list fits, the walk stays inside and lays out the exported frames. */
  lemma {:induction false} WalkIsExport(b: seq<Byte>, i: nat, room: nat, rs: seq<Rule>)
    requires i + room <= |b| && TotalSize(rs) <= room
    ensures WalkInside(rs, room) && TotalSize(Exported(rs, room)) <= room
    ensures Walk(b, i, room, rs) == PutRules(b, i, Exported(rs, room))
    decreases |rs|
  {
    hide Image;
    ExportedFits(rs, room);
    if rs != [] {
      var left := room - Stride(rs[0]);
      if 0 < left <= LONG_MAX {
        WalkIsExport(Overlay(b, i, Image(rs[0])), i + Stride(rs[0]), left, rs[1..]);
      } else {
        FitsUpToFirst(rs, room);
      }
    }
  }

  lemma FitsUpToFirst(rs: seq<Rule>, room: nat)
    requires rs != [] && TotalSize(rs) <= room && !(0 < room - Stride(rs[0]) <= LONG_MAX)
    ensures Exported(rs, room) == [rs[0]]
  {
    if |rs| > 1 {
      assert TotalSize(rs[1..]) >= Stride(rs[1..][0]) > 0;
    }
  }

  /** The buffer ends with a frame, or in its padding. */
  ghost predicate EndsWithFrame(rs: seq<Rule>, room: nat) {
    exists k :: 1 <= k <= |rs| && TotalSize(rs[..k]) - 2 <= room <= TotalSize(rs[..k])
  }

  /** The walk stays inside exactly when the list fits, or the buffer ends with one of its
      frames, or more than LONG_MAX bytes remain after the first. */
  lemma WalkInsideIff(rs: seq<Rule>, room: nat)
    requires rs != []
    ensures WalkInside(rs, room) <==>
              (TotalSize(rs) <= room || EndsWithFrame(rs, room) || room - Stride(rs[0]) > LONG_MAX)
  {
    if room - Stride(rs[0]) <= LONG_MAX {
      SignedWalkInsideIff(rs, room);
    }
  }

  lemma {:induction false} SignedWalkInsideIff(rs: seq<Rule>, room: nat)
    requires rs != [] && room - Stride(rs[0]) <= LONG_MAX
    ensures WalkInside(rs, room) <==> TotalSize(rs) <= room || EndsWithFrame(rs, room)
  {
    var left := room - Stride(rs[0]);
    forall k | 1 <= k <= |rs|
      ensures TotalSize(rs[..k]) == Stride(rs[0]) + TotalSize(rs[1..][..k - 1])
    {
      assert rs[..k][1..] == rs[1..][..k - 1];
    }
    if left <= 0 {
      assert TotalSize(rs[..1]) == Stride(rs[0]);
    } else if |rs| > 1 {
      SignedWalkInsideIff(rs[1..], left);
      if EndsWithFrame(rs[1..], left) {
        var k :| 1 <= k <= |rs[1..]| && TotalSize(rs[1..][..k]) - 2 <= left <= TotalSize(rs[1..][..k]);
        assert TotalSize(rs[..k + 1]) - 2 <= room <= TotalSize(rs[..k + 1]);
      }
      if EndsWithFrame(rs, room) {
        var k :| 1 <= k <= |rs| && TotalSize(rs[..k]) - 2 <= room <= TotalSize(rs[..k]);
        assert TotalSize(rs[1..][..k - 1]) - 2 <= left <= TotalSize(rs[1..][..k - 1]);
      }
    }
  }

  /** A frame of a valid rule cannot be read where the buffer is all zero. */
  lemma NoFrameInZeros(b: seq<Byte>, i: nat, r: Rule)
    requires ValidRuleCode(r.code) && i + SIZEOF_RULE <= |b|
    requires b[i] == 0 && b[i + 1] == 0
    ensures !(i + Stride(r) <= |b| && At(b, i, Image(r)))
  {
    if i + Stride(r) <= |b| && At(b, i, Image(r)) {
      ReadFrame(b, i, r);
      assert false;
    }
  }

  function Zeros(n: nat): (b: seq<Byte>)
    ensures |b| == n && forall k :: 0 <= k < n ==> b[k] == 0
  {
    seq<Byte>(n, (k: int) => 0)
  }

  /** Into a zeroed buffer, FgcGetRules delivers the whole list exactly when it has at most
      one rule or at most LONG_MAX bytes remain after the first. */
  lemma ExportCompleteIff(rs: seq<Rule>, size: nat)
    requires TotalSize(rs) <= size
    requires forall r :: r in rs ==> ValidRuleCode(r.code)
    ensures TotalSize(Exported(rs, size)) <= size
    ensures Holds(PutRules(Zeros(size), 0, Exported(rs, size)), 0, rs) <==> StaysSigned(rs, size)
  {
    ExportedFits(rs, size);
    if StaysSigned(rs, size) {
      PutRulesHolds(Zeros(size), 0, rs);
    } else {
      ExportDropsSecond(rs, size);
    }
  }

  /** The failing family: the export stops after the first frame, so the second rule is not
      in the buffer, which is zero where its frame would begin. */
  lemma ExportDropsSecond(rs: seq<Rule>, size: nat)
    requires TotalSize(rs) <= size && !StaysSigned(rs, size) && ValidRuleCode(rs[1].code)
    ensures TotalSize(Exported(rs, size)) <= size
    ensures var out, j := PutRules(Zeros(size), 0, Exported(rs, size)), Stride(rs[0]);
            && !Holds(out, 0, rs) && At(out, 0, Image(rs[0]))
            && j + Stride(rs[1]) <= size && out[j] == 0 && out[j + 1] == 0
  {
    hide Image;
    var one := Exported(rs, size);
    ExportedFits(rs, size);
    var out, j := PutRules(Zeros(size), 0, one), Stride(rs[0]);
    assert one[1..] == [] && rs[1..][0] == rs[1];
    assert TotalSize(one) == j && j + Stride(rs[1]) <= size;
    PutRulesOutside(Zeros(size), 0, one);
    PutRulesHolds(Zeros(size), 0, one);
    assert out[j] == out[j..][0] == Zeros(size)[j..][0] && out[j + 1] == out[j..][1] == Zeros(size)[j..][1];
    NoFrameInZeros(out, j, rs[1]);
  }

  /** Two rules that differ in their one character. */
  const TWO_RULES: seq<Rule> :=
    [Rule(RuleCode(RULE_MINOR_MONITORED, RULE_MAJOR_READONLY), [65]),
     Rule(RuleCode(RULE_MINOR_MONITORED, RULE_MAJOR_READONLY), [66])]

  const LARGE_BUFFER: nat := LONG_MAX + 11

  lemma TwoRulesSizes()
    ensures TotalSize(TWO_RULES) == 20 && !StaysSigned(TWO_RULES, LARGE_BUFFER)
  {
    var rs := TWO_RULES;
    assert |rs[0].expr| == 1 && |rs[1].expr| == 1;
    assert rs[1..][0] == rs[1] && rs[1..][1..] == [];
    assert TotalSize(rs[1..]) == Stride(rs[1]) + TotalSize(rs[1..][1..]);
    assert TotalSize(rs) == Stride(rs[0]) + TotalSize(rs[1..]);
  }

  /** An input that fails: two short rules and one byte too much of buffer. */
  lemma LargeBufferLosesRule()
    ensures LARGE_BUFFER == 2147483658 && TotalSize(TWO_RULES) == 20
    ensures TotalSize(Exported(TWO_RULES, LARGE_BUFFER)) <= LARGE_BUFFER
    ensures !Holds(PutRules(Zeros(LARGE_BUFFER), 0, Exported(TWO_RULES, LARGE_BUFFER)), 0, TWO_RULES)
  {
    hide Holds, PutRules, Exported, Zeros, TotalSize, Image;
    TwoRulesSizes();
    ExportDropsSecond(TWO_RULES, LARGE_BUFFER);
  }

  /** What FgcMatchRulesEx leaves in its buffer, from cursor `i` with `room` bytes counted as
      remaining: a frame that does not fit is skipped, and the cursor stays put when the
      remaining size, read as a signed number, is not positive. */
  function Fill(b: seq<Byte>, i: nat, room: nat, rs: seq<Rule>): (r: seq<Byte>)
    requires i + room <= |b|
    ensures |r| == |b|
    decreases |rs|
  {
    if rs == [] then b
    else if room < Stride(rs[0]) then Fill(b, i, room, rs[1..])
    else
      var left := room - Stride(rs[0]);
      Fill(Overlay(b, i, Image(rs[0])), if 0 < left <= LONG_MAX then i + Stride(rs[0]) else i, left, rs[1..])
  }

  lemma FillStep(b: seq<Byte>, i: nat, room: nat, rs: seq<Rule>)
    requires i + room <= |b| && rs != []
    ensures var left := room - Stride(rs[0]);
            Fill(b, i, room, rs) ==
            if left < 0 then Fill(b, i, room, rs[1..])
            else Fill(Overlay(b, i, Image(rs[0])), if 0 < left <= LONG_MAX then i + Stride(rs[0]) else i, left, rs[1..])
  {
  }

  lemma {:induction false} FillOutside(b: seq<Byte>, i: nat, room: nat, rs: seq<Rule>)
    requires i + room <= |b|
    ensures Fill(b, i, room, rs)[..i] == b[..i]
    decreases |rs|
  {
    hide Image;
    if rs != [] {
      if room < Stride(rs[0]) {
        FillOutside(b, i, room, rs[1..]);
      } else {
        var left := room - Stride(rs[0]);
        var o := Overlay(b, i, Image(rs[0]));
        var j := if 0 < left <= LONG_MAX then i + Stride(rs[0]) else i;
        FillOutside(o, j, left, rs[1..]);
        var f := Fill(o, j, left, rs[1..]);
        assert f[..i] == f[..j][..i] == o[..j][..i] == o[..i];
      }
    }
  }

  /** When everything fits and the remaining size stays in the signed range after the first
      frame, the buffer ends up holding the frames of all the rules in order. */
  lemma {:induction false} FillIsPut(b: seq<Byte>, i: nat, room: nat, rs: seq<Rule>)
    requires i + room <= |b| && TotalSize(rs) <= room
    requires |rs| <= 1 || room - Stride(rs[0]) <= LONG_MAX
    ensures Fill(b, i, room, rs) == PutRules(b, i, rs)
    decreases |rs|
  {
    hide Image;
    if |rs| > 1 {
      var left := room - Stride(rs[0]);
      assert left >= TotalSize(rs[1..]) >= Stride(rs[1..][0]) > 0;
      FillIsPut(Overlay(b, i, Image(rs[0])), i + Stride(rs[0]), left, rs[1..]);
    } else if |rs| == 1 {
      assert rs[1..] == [];
    }
  }

  /** Otherwise a later frame overwrites the first. */
  lemma {:induction false} FillOverwrites(b: seq<Byte>, i: nat, room: nat, rs: seq<Rule>) returns (k: nat)
    requires i + room <= |b| && TotalSize(rs) <= room && rs != []
    ensures k < |rs| && At(Fill(b, i, room, rs), i, Image(rs[k]))
    ensures |rs| > 1 && room - Stride(rs[0]) > LONG_MAX ==> k > 0
    decreases |rs|
  {
    hide Image;
    var left := room - Stride(rs[0]);
    var o := Overlay(b, i, Image(rs[0]));
    if |rs| > 1 && left > LONG_MAX {
      k := FillOverwrites(o, i, left, rs[1..]);
      k := k + 1;
    } else {
      k := 0;
      if |rs| == 1 {
        assert rs[1..] == [];
      } else {
        assert left >= TotalSize(rs[1..]) >= Stride(rs[1..][0]) > 0;
        var j := i + Stride(rs[0]);
        FillOutside(o, j, left, rs[1..]);
        var f := Fill(o, j, left, rs[1..]);
        KeptBelow(f, o, j, i, i + |Image(rs[0])|);
      }
    }
  }

  lemma KeptBelow(f: seq<Byte>, o: seq<Byte>, j: nat, i: nat, e: nat)
    requires i <= e <= j <= |f| == |o| && f[..j] == o[..j]
    ensures f[i..e] == o[i..e]
  {
    assert f[i..e] == f[..j][i..e] && o[i..e] == o[..j][i..e];
  }

  /** Whatever the buffer held before, it holds the frames of distinct rules in order exactly
      when there is at most one rule or at most LONG_MAX bytes remain after the first. */
  lemma FillCompleteIff(b: seq<Byte>, rs: seq<Rule>)
    requires TotalSize(rs) <= |b|
    requires forall i, j :: 0 <= i < j < |rs| ==> rs[i] != rs[j]
    ensures Holds(Fill(b, 0, |b|, rs), 0, rs) <==> StaysSigned(rs, |b|)
  {
    if StaysSigned(rs, |b|) {
      FillIsPut(b, 0, |b|, rs);
      PutRulesHolds(b, 0, rs);
    } else {
      var f := Fill(b, 0, |b|, rs);
      var k := FillOverwrites(b, 0, |b|, rs);
      if Holds(f, 0, rs) {
        HoldsInside(f, 0, rs);
        ReadFrame(f, 0, rs[0]);
        FrameFits(rs, k);
        ReadFrame(f, 0, rs[k]);
        assert false;
      }
    }
  }

  /** An input that fails: of the same two rules only the second is in the buffer. */
  lemma LargeBufferOverwritesRule(b: seq<Byte>)
    requires |b| == LARGE_BUFFER
    ensures At(Fill(b, 0, |b|, TWO_RULES), 0, Image(TWO_RULES[1])) && !Holds(Fill(b, 0, |b|, TWO_RULES), 0, TWO_RULES)
  {
    TwoRulesSizes();
    FillCompleteIff(b, TWO_RULES);
    var k := FillOverwrites(b, 0, |b|, TWO_RULES);
  }

  lemma {:induction false} FrameFits(rs: seq<Rule>, k: nat)
    requires k < |rs|
    ensures Stride(rs[k]) <= TotalSize(rs)
  {
    if k > 0 {
      FrameFits(rs[1..], k - 1);
    }
  }
}
