/** The string and path helpers of the utility program: `substr`, which slices a string by
    characters (runes), and `getParentDirectory`, which cuts a slash-separated path at its last
    slash. Strings are sequences of Unicode characters; where the service's language counts
    bytes, the model counts the UTF-8 length explicitly. */
module Paths {

  /** Number of bytes of `c` in UTF-8. */
  function Utf8Length(c: char): nat
  {
    if c as int < 0x80 then 1 else if c as int < 0x800 then 2 else if c as int < 0x10000 then 3 else 4
  }

  /** Number of bytes of `s` in UTF-8. */
  function Utf8Size(s: string): nat
  {
    if s == [] then 0 else Utf8Size(s[..|s| - 1]) + Utf8Length(s[|s| - 1])
  }

  ghost predicate IsAscii(s: string)
  {
    forall i :: 0 <= i < |s| ==> s[i] as int < 0x80
  }

  /** On ASCII text bytes and characters coincide. */
  lemma {:induction false} AsciiSize(s: string)
    requires IsAscii(s)
    ensures Utf8Size(s) == |s|
  {
    if s != [] {
      AsciiSize(s[..|s| - 1]);
    }
  }

  /** Bounds of the service language's `int`, a 64-bit two's-complement integer. */
  const MinInt := -0x8000_0000_0000_0000
  const MaxInt := 0x7fff_ffff_ffff_ffff

  predicate IsInt(x: int)
  {
    MinInt <= x <= MaxInt
  }

  /** Addition of two `int`s, wrapping around on overflow. */
  function WrapAdd(a: int, b: int): (r: int)
    requires IsInt(a) && IsInt(b)
    ensures IsInt(r)
    ensures IsInt(a + b) ==> r == a + b
    ensures a + b > MaxInt ==> r == a + b - 0x1_0000_0000_0000_0000 && r < 0
    ensures a + b < MinInt ==> r == a + b + 0x1_0000_0000_0000_0000 && r >= 0
  {
    if a + b > MaxInt then a + b - 0x1_0000_0000_0000_0000
    else if a + b < MinInt then a + b + 0x1_0000_0000_0000_0000
    else a + b
  }

  /** The end index `substr` slices to: `pos + length` (wrapping around on overflow), lowered to
      the length of the text when it exceeds it. */
  function SliceEnd(n: int, pos: int, length: int): int
    requires IsInt(pos) && IsInt(length)
  {
    var l := WrapAdd(pos, length);
    if l > n then n else l
  }

  /** The characters of `s` from index `pos`, at most `length` of them. The slice panics unless
      0 <= pos <= end; SubstrSliceInRange shows that is exactly this precondition. */
  function Substr(s: string, pos: int, length: int): (r: string)
    requires 0 <= pos <= |s| && 0 <= length && pos + length <= MaxInt
    ensures |r| == if pos + length <= |s| then length else |s| - pos
    ensures forall i :: 0 <= i < |r| ==> r[i] == s[pos + i]
  {
    s[pos..SliceEnd(|s|, pos, length)]
  }

  /** The slice `substr` takes is in range exactly when `pos` lies within the text, `length` is
      not negative and `pos + length` does not overflow; otherwise (a negative position, a
      position past the end, a negative length, a sum that wraps around to a negative end) the
      slice panics. */
  lemma SubstrSliceInRange(n: int, pos: int, length: int)
    requires 0 <= n <= MaxInt && IsInt(pos) && IsInt(length)
    ensures (0 <= pos <= SliceEnd(n, pos, length) <= n) <==>
            (0 <= pos <= n && 0 <= length && pos + length <= MaxInt)
  {
    if 0 <= pos && 0 <= length && pos + length > MaxInt {
      assert WrapAdd(pos, length) < 0;
    }
  }

  /** A length so large that `pos + length` overflows wraps the end below `pos`: `substr("ab", 1,
      MaxInt)` panics instead of returning "b". */
  lemma HugeLengthWraps()
    ensures SliceEnd(2, 1, MaxInt) < 0
  {
    assert WrapAdd(1, MaxInt) == MinInt;
  }

  /** From position 0 the result is a prefix of the text, the whole text once `length` reaches
      its size; and a text is its first `k` characters followed by the rest. */
  lemma SubstrFromStart(s: string, length: int, k: int)
    requires 0 <= length <= MaxInt && 0 <= k <= |s| <= MaxInt
    ensures Substr(s, 0, length) == s[..|Substr(s, 0, length)|]
    ensures length >= |s| ==> Substr(s, 0, length) == s
    ensures Substr(s, 0, k) + Substr(s, k, |s| - k) == s
  {
    assert Substr(s, 0, k) == s[..k];
    assert Substr(s, k, |s| - k) == s[k..];
  }

  /** Index of the last occurrence of `c` in `s` counted in characters, or -1 when there is none. */
  function LastIndex(s: string, c: char): (k: int)
    ensures -1 <= k < |s|
    ensures k == -1 <==> c !in s
    ensures k >= 0 ==> s[k] == c && c !in s[k + 1..]
  {
    if s == [] then -1
    else if s[|s| - 1] == c then |s| - 1
    else
      var k := LastIndex(s[..|s| - 1], c);
      assert c in s <==> c in s[..|s| - 1];
      assert k >= 0 ==> s[k + 1..] == s[..|s| - 1][k + 1..] + [s[|s| - 1]];
      k
  }

  /** The library's last-index search: the offset of the last `c`, counted in BYTES of the
      UTF-8 text, or -1 when there is none. For an ASCII `c` the byte at that offset starts the
      character at LastIndex, so the offset is the byte size of what precedes it. */
  function LastIndexBytes(s: string, c: char): (b: int)
    ensures b == -1 <==> c !in s
  {
    var k := LastIndex(s, c);
    if k < 0 then -1 else Utf8Size(s[..k])
  }

  /** The parent directory as the program computes it: `substr(p, 0, LastIndex(p, "/"))`, which
      passes a byte offset where `substr` expects a character count. A path without a slash
      makes the offset -1 and the slice panics, hence the precondition; the byte length of a
      string is an `int`, hence the bound. */
  function GetParentDirectoryAsWritten(p: string): (r: string)
    requires '/' in p && Utf8Size(p) <= MaxInt
    ensures LastIndex(p, '/') <= |r| <= |p| && r == p[..|r|]
  {
    AtLeastAsManyBytes(p[..LastIndex(p, '/')]);
    Utf8SizePrefix(p, LastIndex(p, '/'));
    Substr(p, 0, LastIndexBytes(p, '/'))
  }

  /** A prefix takes no more bytes than the whole text. */
  lemma {:induction false} Utf8SizePrefix(s: string, k: nat)
    requires k <= |s|
    ensures Utf8Size(s[..k]) <= Utf8Size(s)
    decreases |s|
  {
    if k < |s| {
      assert s[..|s| - 1][..k] == s[..k];
      Utf8SizePrefix(s[..|s| - 1], k);
    } else {
      assert s[..k] == s;
    }
  }

  lemma {:induction false} AtLeastAsManyBytes(s: string)
    ensures Utf8Size(s) >= |s|
  {
    if s != [] {
      AtLeastAsManyBytes(s[..|s| - 1]);
    }
  }

  /** The parent directory: everything before the last slash. Followed by the slash and the last
      component (which holds no slash) it gives back the path, and it is strictly shorter. */
  function GetParentDirectory(p: string): (r: string)
    requires '/' in p && Utf8Size(p) <= MaxInt
    ensures |r| < |p|
    ensures r + "/" + p[|r| + 1..] == p
    ensures '/' !in p[|r| + 1..]
  {
    var k := LastIndex(p, '/');
    AtLeastAsManyBytes(p);
    var r := Substr(p, 0, k);
    assert r == p[..k];
    assert p == p[..k] + [p[k]] + p[k + 1..];
    r
  }

  /** On an ASCII path the program's cut agrees with the parent directory. */
  lemma ParentAsWrittenOnAscii(p: string)
    requires '/' in p && IsAscii(p) && |p| <= MaxInt
    ensures Utf8Size(p) <= MaxInt
    ensures GetParentDirectoryAsWritten(p) == GetParentDirectory(p)
  {
    var k := LastIndex(p, '/');
    AsciiSize(p);
    AsciiSize(p[..k]);
  }

  /** A path without a slash makes the program slice to end -1, which panics. */
  lemma NoSlashSlicesBeforeStart(p: string)
    requires '/' !in p
    ensures LastIndexBytes(p, '/') == -1 && SliceEnd(|p|, 0, -1) < 0
  {
  }

  /** A two-byte character before the last slash shifts the cut one character to the right:
      for "é/x" the program returns "é/" while the parent directory is "é". */
  lemma ParentAsWrittenKeepsSlash()
    ensures Utf8Size("é/x") == 4
    ensures GetParentDirectoryAsWritten("é/x") == "é/"
    ensures GetParentDirectory("é/x") == "é"
  {
    var p := "é/x";
    assert p[2] != '/' && p[1] == '/';
    assert LastIndex(p, '/') == 1;
    assert p[..1] == "é";
    assert Utf8Size("é") == Utf8Size([]) + Utf8Length('é') == 2;
    assert p[..2] == "é/" && p[..2][..1] == "é";
    assert Utf8Size(p) == Utf8Size("é/") + 1 == Utf8Size("é") + 2;
  }
}
