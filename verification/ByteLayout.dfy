/** Little-endian integers, wide strings and memory copies at the byte level. */
module ByteLayout {
  import opened FileGuard

  function Le16(x: Ushort): (b: seq<Byte>)
    ensures |b| == 2
  {
    [x % 0x100, x / 0x100]
  }

  function Le32(x: Ulong): (b: seq<Byte>)
    ensures |b| == 4
  {
    Le16(x % 0x1_0000) + Le16(x / 0x1_0000)
  }

  function Le64(x: Ulonglong): (b: seq<Byte>)
    ensures |b| == 8
  {
    Le32(x % 0x1_0000_0000) + Le32(x / 0x1_0000_0000)
  }

  /** The number that bytes stand for, lowest first. */
  function Value(b: seq<Byte>): nat {
    if b == [] then 0 else b[0] as int + 0x100 * Value(b[1..])
  }

  lemma ValuePair(x: seq<Byte>, y: seq<Byte>)
    requires |x| == 2
    ensures Value(x + y) == Value(x) + 0x1_0000 * Value(y)
    ensures Value(x) == x[0] as int + 0x100 * x[1] as int
  {
    assert (x + y)[1..] == x[1..] + y && (x[1..] + y)[1..] == y;
    assert Value(x[1..] + y) == x[1] as int + 0x100 * Value(y);
    assert x[1..][1..] == [] && Value(x[1..]) == x[1] as int;
  }

  lemma ValueQuad(x: seq<Byte>, y: seq<Byte>)
    requires |x| == 4
    ensures Value(x + y) == Value(x) + 0x1_0000_0000 * Value(y)
  {
    assert x + y == x[..2] + (x[2..] + y) && x == x[..2] + x[2..];
    ValuePair(x[..2], x[2..] + y);
    ValuePair(x[2..], y);
    ValuePair(x[..2], x[2..]);
  }

  /** The bytes of an integer stand for it. */
  lemma LeValues(x: Ushort, y: Ulong, z: Ulonglong)
    ensures Value(Le16(x)) == x && Value(Le32(y)) == y && Value(Le64(z)) == z
  {
    Le16Value(x);
    Le32Value(y);
    Le32Value(z % 0x1_0000_0000);
    Le32Value(z / 0x1_0000_0000);
    ValueQuad(Le32(z % 0x1_0000_0000), Le32(z / 0x1_0000_0000));
  }

  lemma Le16Value(x: Ushort)
    ensures Value(Le16(x)) == x == Le16(x)[0] as int + 0x100 * Le16(x)[1] as int
  {
    ValuePair(Le16(x), []);
  }

  lemma Le32Value(x: Ulong)
    ensures Value(Le32(x)) == x
  {
    Le16Value(x % 0x1_0000);
    Le16Value(x / 0x1_0000);
    ValuePair(Le16(x % 0x1_0000), Le16(x / 0x1_0000));
  }

  function ReadLe16(b: seq<Byte>, i: nat): Ushort
    requires i + 2 <= |b|
  {
    b[i] as int + 0x100 * b[i + 1] as int
  }

  function ReadLe32(b: seq<Byte>, i: nat): Ulong
    requires i + 4 <= |b|
  {
    ReadLe16(b, i) + 0x1_0000 * ReadLe16(b, i + 2)
  }

  function ReadLe64(b: seq<Byte>, i: nat): Ulonglong
    requires i + 8 <= |b|
  {
    ReadLe32(b, i) + 0x1_0000_0000 * ReadLe32(b, i + 4)
  }

  /** The bytes of a wide string, low byte of each character first. */
  function WideBytes(s: seq<Wchar>): (b: seq<Byte>)
    ensures |b| == 2 * |s|
  {
    var b := seq<Byte>(2 * |s|,
      (k: int) requires 0 <= k < 2 * |s| => if k % 2 == 0 then s[k / 2] % 0x100 else s[k / 2] / 0x100);
    b
  }

  lemma WidePair(s: seq<Wchar>, k: nat)
    requires k < |s|
    ensures WideBytes(s)[2 * k] as int + 0x100 * WideBytes(s)[2 * k + 1] as int == s[k]
  {
    assert (2 * k + 1) / 2 == k && (2 * k) % 2 == 0 && (2 * k + 1) % 2 == 1;
  }

  /** `n` wide characters read back from byte offset `i`. */
  function ReadWide(b: seq<Byte>, i: nat, n: nat): (s: seq<Wchar>)
    requires i + 2 * n <= |b|
    ensures |s| == n
  {
    var s := seq<Wchar>(n, (k: int) requires 0 <= k < n => ReadLe16(b, i + 2 * k));
    s
  }

  /** The bytes `img` sit at offset `i` of `b`. */
  predicate At(b: seq<Byte>, i: nat, img: seq<Byte>) {
    i + |img| <= |b| && b[i..i + |img|] == img
  }

  /** `b` with `img` copied over it at offset `i`. */
  function Overlay(b: seq<Byte>, i: nat, img: seq<Byte>): (r: seq<Byte>)
    requires i + |img| <= |b|
    ensures |r| == |b| && At(r, i, img)
    ensures r[..i] == b[..i] && r[i + |img|..] == b[i + |img|..]
  {
    b[..i] + img + b[i + |img|..]
  }

  lemma AtByte(b: seq<Byte>, i: nat, img: seq<Byte>, k: nat)
    requires At(b, i, img) && k < |img|
    ensures b[i + k] == img[k]
  {
    assert b[i..i + |img|][k] == img[k];
  }

  lemma AtSplit(b: seq<Byte>, i: nat, x: seq<Byte>, y: seq<Byte>)
    ensures At(b, i, x + y) <==> At(b, i, x) && At(b, i + |x|, y)
  {
    if i + |x| + |y| <= |b| {
      assert b[i..i + |x + y|] == b[i..i + |x|] + b[i + |x|..i + |x| + |y|];
      if At(b, i, x + y) {
        assert b[i..i + |x|] == (x + y)[..|x|] == x;
        assert b[i + |x|..i + |x| + |y|] == (x + y)[|x|..] == y;
      }
    }
  }

  lemma ReadLe16At(b: seq<Byte>, i: nat, x: Ushort)
    requires At(b, i, Le16(x))
    ensures ReadLe16(b, i) == x
  {
    AtByte(b, i, Le16(x), 0);
    AtByte(b, i, Le16(x), 1);
  }

  lemma ReadLe32At(b: seq<Byte>, i: nat, x: Ulong)
    requires At(b, i, Le32(x))
    ensures ReadLe32(b, i) == x
  {
    AtSplit(b, i, Le16(x % 0x1_0000), Le16(x / 0x1_0000));
    ReadLe16At(b, i, x % 0x1_0000);
    ReadLe16At(b, i + 2, x / 0x1_0000);
  }

  lemma ReadLe64At(b: seq<Byte>, i: nat, x: Ulonglong)
    requires At(b, i, Le64(x))
    ensures ReadLe64(b, i) == x
  {
    AtSplit(b, i, Le32(x % 0x1_0000_0000), Le32(x / 0x1_0000_0000));
    ReadLe32At(b, i, x % 0x1_0000_0000);
    ReadLe32At(b, i + 4, x / 0x1_0000_0000);
  }

  lemma ReadWideAt(b: seq<Byte>, i: nat, s: seq<Wchar>)
    requires At(b, i, WideBytes(s))
    ensures ReadWide(b, i, |s|) == s
  {
    forall k | 0 <= k < |s| ensures ReadLe16(b, i + 2 * k) == s[k] {
      AtByte(b, i, WideBytes(s), 2 * k);
      AtByte(b, i, WideBytes(s), 2 * k + 1);
      assert (2 * k + 1) / 2 == k;
    }
  }

  /** RtlCopyMemory into a buffer. */
  method CopyMemory(dst: array<Byte>, i: nat, src: seq<Byte>)
    requires i + |src| <= dst.Length
    modifies dst
    ensures dst[..] == Overlay(old(dst[..]), i, src)
  {
    forall k | 0 <= k < |src| {
      dst[i + k] := src[k];
    }
    assert dst[i..i + |src|] == src;
  }
}
