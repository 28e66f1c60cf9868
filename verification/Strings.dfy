/** Fixed-size string images: what the literal path and the copying path leave
    in the 64 bytes of a string. */
module Strings {
  import opened Machine
  import opened Memory

  const MAXSTRINGLEN: nat := 64

  /** The string, its terminator, and zeros to the end. */
  function Image(str: seq<Byte>): (s: seq<Byte>)
    requires |str| < MAXSTRINGLEN
    ensures |s| == MAXSTRINGLEN
  {
    str + Zeros(MAXSTRINGLEN - |str|)
  }

  /** Word i has a zero byte. */
  predicate HasZero(b: seq<Byte>, i: nat)
    requires 4 * i + 4 <= |b|
  {
    b[4 * i] == 0 || b[4 * i + 1] == 0 || b[4 * i + 2] == 0 || b[4 * i + 3] == 0
  }

  /** The first word from i on that has a zero byte, or the last one. */
  function StopWord(b: seq<Byte>, i: nat): (k: nat)
    requires |b| == MAXSTRINGLEN && i < 16
    ensures i <= k < 16 && (k < 15 ==> HasZero(b, k)) && forall w | i <= w < k :: !HasZero(b, w)
    decreases 16 - i
  {
    if i == 15 || HasZero(b, i) then i else StopWord(b, i + 1)
  }

  /** Words up to the first with a zero byte, then zeros. */
  function Copied(b: seq<Byte>): (s: seq<Byte>)
    requires |b| == MAXSTRINGLEN
    ensures |s| == MAXSTRINGLEN
  {
    var n := 4 * StopWord(b, 0) + 4;
    b[..n] + Zeros(MAXSTRINGLEN - n)
  }

  /** The first n bytes of img, then what was there. */
  function Over(img: seq<Byte>, n: nat, was: seq<Byte>): (s: seq<Byte>)
    requires n <= |img| == |was|
    ensures |s| == |img|
  {
    img[..n] + was[n..]
  }

  /** The bytes before the first zero from i on. */
  function LengthFrom(b: seq<Byte>, i: nat): (n: nat)
    requires i <= |b|
    ensures i <= n <= |b| && (n < |b| ==> b[n] == 0) && forall j | i <= j < n :: b[j] != 0
    decreases |b| - i
  {
    if i == |b| || b[i] == 0 then i else LengthFrom(b, i + 1)
  }

  function Text(b: seq<Byte>): seq<Byte> {
    b[..LengthFrom(b, 0)]
  }

  /** Where the word of byte n ends. */
  function WordEnd(n: nat): nat {
    4 * (n / 4) + 4
  }

  /** What follows the terminator in its word is zero. */
  predicate ZeroFilled(b: seq<Byte>) {
    var n := LengthFrom(b, 0);
    forall j | n <= j < |b| && j < WordEnd(n) :: b[j] == 0
  }

  /** Cutting at the end of the word, or at the terminator. */
  lemma CutsAgree(b: seq<Byte>, n: nat, end: nat)
    requires n <= end <= |b|
    ensures b[..end] + Zeros(|b| - end) == b[..n] + Zeros(|b| - n) <==> forall j | n <= j < end :: b[j] == 0
  {
    var x, y := b[..end] + Zeros(|b| - end), b[..n] + Zeros(|b| - n);
    if x == y {
      forall j | n <= j < end ensures b[j] == 0 { assert x[j] == y[j]; }
    }
    if forall j | n <= j < end :: b[j] == 0 {
      assert forall j | 0 <= j < |b| :: x[j] == y[j];
    }
  }

  /** A copy made word by word is the image of the string that was copied
      exactly when the word of the terminator is zero-filled. */
  lemma CopiedIff(b: seq<Byte>)
    requires |b| == MAXSTRINGLEN && LengthFrom(b, 0) < MAXSTRINGLEN
    ensures Copied(b) == Image(Text(b)) <==> ZeroFilled(b)
  {
    CutsAtWord(b, LengthFrom(b, 0));
    CutsAgree(b, LengthFrom(b, 0), WordEnd(LengthFrom(b, 0)));
  }

  lemma CutsAtWord(b: seq<Byte>, n: nat)
    requires |b| == MAXSTRINGLEN && n == LengthFrom(b, 0) < MAXSTRINGLEN
    ensures n < WordEnd(n) <= |b| && Copied(b) == b[..WordEnd(n)] + Zeros(|b| - WordEnd(n))
  {
    StopIsLength(b);
  }

  /** The copy stops at the word of the terminator. */
  lemma StopIsLength(b: seq<Byte>)
    requires |b| == MAXSTRINGLEN && LengthFrom(b, 0) < MAXSTRINGLEN
    ensures 4 * StopWord(b, 0) + 4 == WordEnd(LengthFrom(b, 0)) && LengthFrom(b, 0) < WordEnd(LengthFrom(b, 0)) <= |b|
  {
    var n, k := LengthFrom(b, 0), StopWord(b, 0);
    assert HasZero(b, n / 4) by { assert b[4 * (n / 4) + n % 4] == 0; }
  }

  /** Without a terminator the copy runs to the end. */
  lemma NoStop(b: seq<Byte>)
    requires |b| == MAXSTRINGLEN && LengthFrom(b, 0) == MAXSTRINGLEN
    ensures StopWord(b, 0) == 15
  {
    var k := StopWord(b, 0);
    assert b[4 * k] != 0 && b[4 * k + 1] != 0 && b[4 * k + 2] != 0 && b[4 * k + 3] != 0;
  }

  /** Bytes that agree up to the terminator, or altogether, read the same. */
  lemma SameText(b: seq<Byte>, x: seq<Byte>, end: nat)
    requires |x| == |b| && end <= |b| && b[..end] == x[..end]
    requires LengthFrom(b, 0) < end || end == |b|
    ensures Text(x) == Text(b)
  {
    var n, k := LengthFrom(b, 0), LengthFrom(x, 0);
    assert forall j | 0 <= j < end :: b[j] == b[..end][j] == x[..end][j] == x[j];
    if n < end { assert b[n] == 0 && x[n] == 0; }
    assert b[..n] == x[..n];
  }

  /** The text of an image is the string, and images are zero-filled. */
  lemma ImageText(str: seq<Byte>)
    requires |str| < MAXSTRINGLEN && forall i | 0 <= i < |str| :: str[i] != 0
    ensures Text(Image(str)) == str && ZeroFilled(Image(str)) && Copied(Image(str)) == Image(str)
  {
    var b := Image(str);
    var n := LengthFrom(b, 0);
    assert b[|str|] == 0;
    assert n == |str|;
    assert b[..n] == str;
    CopiedIff(b);
  }
}
