/** Bytes, little-endian words and in-place overwriting of a byte buffer. */
module Bytes {

  type byte = x: int | 0 <= x < 0x100

  const WORD_RANGE := 0x1_0000_0000

  type uint32 = x: int | 0 <= x < 0x1_0000_0000
  type int32 = x: int | -0x8000_0000 <= x < 0x8000_0000

  datatype Option<+T> = None | Some(value: T)

  function Min(a: int, b: int): int { if a < b then a else b }

  function Max(a: int, b: int): int { if a < b then b else a }

  /** Byte i of a buffer that reads as zero past its end. */
  function At(s: seq<byte>, i: nat): byte {
    if i < |s| then s[i] else 0
  }

  function Zeros(n: nat): (z: seq<byte>)
    ensures |z| == n && forall i :: 0 <= i < n ==> z[i] == 0
  {
    seq<byte>(n, _ => 0)
  }

  /** The k bytes of s from index `from` on, zero past the end of s. */
  function Window(s: seq<byte>, from: nat, k: nat): (w: seq<byte>)
    ensures |w| == k
    ensures forall i :: 0 <= i < k ==> w[i] == At(s, from + i)
  {
    seq<byte>(k, (i: nat) => At(s, from + i))
  }

  /** memcpy of src to index `at` of s. */
  function Blit(s: seq<byte>, at: nat, src: seq<byte>): (r: seq<byte>)
    requires at + |src| <= |s|
    ensures |r| == |s|
  {
    s[..at] + src + s[at + |src|..]
  }

  method Memcpy(dst: array<byte>, at: nat, src: seq<byte>)
    requires at + |src| <= dst.Length
    modifies dst
    ensures dst[..] == Blit(old(dst[..]), at, src)
  {
    forall i | 0 <= i < |src| { dst[at + i] := src[i]; }
    assert dst[at..at + |src|] == src;
  }

  // ---- little-endian words -------------------------------------------------------------------

  function Pow256(k: nat): (p: nat)
    ensures p >= 1
  {
    if k == 0 then 1 else 0x100 * Pow256(k - 1)
  }

  /** The low k bytes of n, least significant first. */
  function LeBytes(n: nat, k: nat): (b: seq<byte>)
    ensures |b| == k
  {
    if k == 0 then [] else [n % 0x100] + LeBytes(n / 0x100, k - 1)
  }

  function FromLe(b: seq<byte>): (n: nat)
    ensures n < Pow256(|b|)
  {
    if b == [] then 0
    else
      var low: int := b[0];
      low + 0x100 * FromLe(b[1..])
  }

  lemma {:induction false} LeRoundTrip(n: nat, k: nat)
    requires n < Pow256(k)
    ensures FromLe(LeBytes(n, k)) == n
  {
    if k > 0 {
      LeRoundTrip(n / 0x100, k - 1);
      assert LeBytes(n, k)[1..] == LeBytes(n / 0x100, k - 1);
    }
  }

  /** The byte order: byte i counts 256^i times, in words of any length. */
  lemma {:induction false} LittleEndian(b: seq<byte>, k: nat)
    requires k <= |b|
    ensures FromLe(b) == FromLe(b[..k]) + Pow256(k) * FromLe(b[k..])
  {
    if k == 0 {
      assert b[..0] == [] && b[0..] == b;
    } else {
      LittleEndian(b[1..], k - 1);
      assert b[1..][..k - 1] == b[..k][1..] && b[1..][k - 1..] == b[k..];
      var x, y, z := FromLe(b[1..][..k - 1]), Pow256(k - 1), FromLe(b[k..]);
      Regroup(x, y, z);
    }
  }

  lemma Regroup(x: nat, y: nat, z: nat)
    ensures 0x100 * (x + y * z) == 0x100 * x + 0x100 * y * z
  {}

  /** What two, four and eight bytes stand for, least significant first. */
  function Number2(b: seq<byte>): int
    requires |b| == 2
  {
    b[0] as int + 0x100 * b[1] as int
  }

  function Number4(b: seq<byte>): int
    requires |b| == 4
  {
    b[0] as int + 0x100 * b[1] as int + 0x1_0000 * b[2] as int + 0x100_0000 * b[3] as int
  }

  function Number8(b: seq<byte>): int
    requires |b| == 8
  {
    Number4(b[..4]) + 0x1_0000_0000 * Number4(b[4..])
  }

  lemma TwoBytes(b: seq<byte>)
    requires |b| == 2
    ensures FromLe(b) == Number2(b)
  {
    assert FromLe(b[1..][1..]) == 0;
    assert FromLe(b[1..]) == b[1];
  }

  lemma FourBytes(b: seq<byte>)
    requires |b| == 4
    ensures FromLe(b) == Number4(b)
  {
    LittleEndian(b, 2);
    TwoBytes(b[..2]);
    TwoBytes(b[2..]);
    Pow256Of4();
  }

  lemma EightBytes(b: seq<byte>)
    requires |b| == 8
    ensures FromLe(b) == Number8(b)
  {
    LittleEndian(b, 4);
    FourBytes(b[..4]);
    FourBytes(b[4..]);
    Pow256Of4();
  }

  /** A 32-bit word in memory. */
  function Le32(n: nat): (b: seq<byte>)
    ensures |b| == 4
  {
    LeBytes(n, 4)
  }

  function FromLe32(b: seq<byte>): uint32
    requires |b| == 4
  {
    Pow256Of4();
    FromLe(b)
  }

  lemma Pow256Of4()
    ensures Pow256(4) == WORD_RANGE
  {
    assert Pow256(1) == 0x100;
    assert Pow256(2) == 0x1_0000;
    assert Pow256(3) == 0x100_0000;
  }

  /** A word in memory has its least significant byte first. */
  lemma WordsAreLittleEndian(n: uint32)
    ensures n == Number4(Le32(n))
  {
    Pow256Of4();
    LeRoundTrip(n, 4);
    FourBytes(Le32(n));
  }

  /** And is read that way, whatever the bytes. */
  lemma BytesAreReadLittleEndian(b: seq<byte>)
    requires |b| == 4
    ensures FromLe32(b) == Number4(b)
  {
    FourBytes(b);
  }

  lemma Le32RoundTrip(n: uint32)
    ensures FromLe32(Le32(n)) == n
  {
    Pow256Of4();
    LeRoundTrip(n, 4);
  }

  /** Two's complement pattern of a signed word. */
  function Unsigned(x: int32): uint32 {
    if x < 0 then x + WORD_RANGE else x
  }

  function Signed(n: uint32): int32 {
    if n < 0x8000_0000 then n else n - WORD_RANGE
  }

  // ---- runs of memcpy ----------------------------------------------------------------------

  datatype Copy = Copy(at: nat, src: seq<byte>)

  predicate CopiesFit(cs: seq<Copy>, size: nat) {
    forall i :: 0 <= i < |cs| ==> cs[i].at + |cs[i].src| <= size
  }

  /** The buffer after the copies, in order. */
  function ApplyCopies(s: seq<byte>, cs: seq<Copy>): (r: seq<byte>)
    requires CopiesFit(cs, |s|)
    ensures |r| == |s|
  {
    if cs == [] then s
    else
      var last := cs[|cs| - 1];
      Blit(ApplyCopies(s, cs[..|cs| - 1]), last.at, last.src)
  }

  lemma ApplyOneMore(s: seq<byte>, cs: seq<Copy>, c: Copy)
    requires CopiesFit(cs, |s|) && c.at + |c.src| <= |s|
    ensures CopiesFit(cs + [c], |s|)
    ensures ApplyCopies(s, cs + [c]) == Blit(ApplyCopies(s, cs), c.at, c.src)
  {
    assert (cs + [c])[..|cs|] == cs;
  }

  lemma {:induction false} ApplyAppended(s: seq<byte>, a: seq<Copy>, b: seq<Copy>)
    requires CopiesFit(a + b, |s|)
    ensures CopiesFit(a, |s|) && CopiesFit(b, |s|)
    ensures ApplyCopies(s, a + b) == ApplyCopies(ApplyCopies(s, a), b)
  {
    hide ApplyCopies, Blit;
    FitApart(a, b, |s|);
    if b == [] {
      assert a + b == a;
      ApplyNone(ApplyCopies(s, a));
    } else {
      var init, c := b[..|b| - 1], b[|b| - 1];
      assert a + b == (a + init) + [c] && b == init + [c];
      FitApart(a + init, [c], |s|);
      FitApart(init, [c], |s|);
      ApplyAppended(s, a, init);
      assert [c][0] == c;
      ApplyOneMore(s, a + init, c);
      ApplyOneMore(ApplyCopies(s, a), init, c);
    }
  }

  lemma ApplyNone(s: seq<byte>)
    ensures ApplyCopies(s, []) == s
  {}

  lemma FitApart(a: seq<Copy>, b: seq<Copy>, size: nat)
    requires CopiesFit(a + b, size)
    ensures CopiesFit(a, size) && CopiesFit(b, size)
  {
    forall i | 0 <= i < |a| ensures a[i].at + |a[i].src| <= size { assert (a + b)[i] == a[i]; }
    forall i | 0 <= i < |b| ensures b[i].at + |b[i].src| <= size { assert (a + b)[|a| + i] == b[i]; }
  }

  lemma BlitFramed(pre: seq<byte>, s: seq<byte>, post: seq<byte>, at: nat, x: seq<byte>)
    requires at + |x| <= |s|
    ensures Blit(pre + s + post, |pre| + at, x) == pre + Blit(s, at, x) + post
  {
    var t := pre + s + post;
    assert t[..|pre| + at] == pre + s[..at];
    assert t[|pre| + at + |x|..] == s[at + |x|..] + post;
  }

  lemma BlitPrefix(s: seq<byte>, post: seq<byte>, at: nat, x: seq<byte>)
    requires at + |x| <= |s|
    ensures Blit(s + post, at, x) == Blit(s, at, x) + post
  {
    BlitFramed([], s, post, at, x);
    assert [] + s + post == s + post && [] + Blit(s, at, x) + post == Blit(s, at, x) + post;
  }
}
