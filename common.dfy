/**
 * Values shared by every board model: optional results, byte-sized integers
 * and the C-string routines of the KMP common library (startsWith, endsWith,
 * isEqual, strNCopy, strReplace) together with the libc calls the board code
 * relies on (strstr, strlen, strcpy, strcat).
 *
 * A C string is modelled by the characters in front of its terminating NUL:
 * `CStr(buffer)` is the string a buffer holds.
 */
module Common {

  datatype Option<T> = None | Some(value: T)

  /** An `uint8_t`. */
  type Byte = b: int | 0 <= b < 0x100

  /** An `uint16_t`. */
  type Word = w: int | 0 <= w < 0x1_0000

  /**
   * What a form reader records about one field: whether the value passed the
   * field's rule, the text its value pointer points at (up to the end of the
   * request line) and the value's length.
   */
  datatype ValidationData = ValidationData(isValid: bool, value: string, length: nat)

  /** IP_LEN: an IPv4 address is four bytes. */
  const IpLen := 4

  /** Four address bytes, what the common library's `atoip` produces. */
  type Address = s: seq<Byte> | |s| == IpLen witness [0, 0, 0, 0]

  /** The loops of the DEF_DeviceSetting routines: the four bytes of `src` copied over `dst`, one by one. */
  method CopyAddress(dst: seq<Byte>, src: seq<Byte>) returns (r: seq<Byte>)
    requires |dst| == IpLen && |src| == IpLen
    ensures r == src
  {
    r := dst;
    for i := 0 to IpLen
      invariant |r| == IpLen && r[..i] == src[..i]
    {
      r := r[i := src[i]];
    }
    assert r == r[..IpLen];
  }

  const Nul: char := '\0'
  const Cr: char := '\r'
  const Lf: char := '\n'

  /** The C string held in a character buffer: everything before the first NUL. */
  function CStr(s: seq<char>): (r: string)
    ensures |r| <= |s| && r == s[..|r|]
    ensures Nul !in r
    ensures |r| < |s| ==> s[|r|] == Nul
  {
    if |s| == 0 || s[0] == Nul then [] else [s[0]] + CStr(s[1..])
  }

  /** The C string in a buffer ends at or before any NUL of the buffer. */
  lemma CStrStopsAt(s: seq<char>, k: nat)
    requires k < |s| && s[k] == Nul
    ensures |CStr(s)| <= k
  {
  }

  /** A buffer whose first `|str|` characters are `str` and whose next one is NUL holds `str`. */
  lemma {:induction false} CStrOfTerminated(s: seq<char>, str: string)
    requires Nul !in str && |str| < |s|
    requires s[..|str|] == str && s[|str|] == Nul
    ensures CStr(s) == str
    decreases |str|
  {
    if |str| > 0 {
      assert s[0] == str[0];
      assert s[1..][..|str| - 1] == str[1..];
      CStrOfTerminated(s[1..], str[1..]);
    }
  }

  /** KMPCommon `startsWith`: `prefix` is a prefix of `s`. */
  predicate StartsWith(s: string, prefix: string)
  {
    |prefix| <= |s| && s[..|prefix|] == prefix
  }

  /** KMPCommon `endsWith`: `suffix` is a suffix of `s`. */
  predicate EndsWith(s: string, suffix: string)
  {
    |suffix| <= |s| && s[|s| - |suffix|..] == suffix
  }

  /** `pat` occurs in `text` at position `i`. */
  predicate OccursAt(text: string, pat: string, i: nat)
  {
    i + |pat| <= |text| && text[i..i + |pat|] == pat
  }

  /**
   * libc `strstr`: the position of the first occurrence of `pat` in `text`,
   * or None when it does not occur.
   */
  function Find(text: string, pat: string, from: nat := 0): (r: Option<nat>)
    requires from <= |text|
    ensures r.Some? ==> from <= r.value && OccursAt(text, pat, r.value)
    ensures r.Some? ==> forall j :: from <= j < r.value ==> !OccursAt(text, pat, j)
    ensures r.None? ==> forall j :: from <= j <= |text| ==> !OccursAt(text, pat, j)
    decreases |text| - from
  {
    if OccursAt(text, pat, from) then Some(from)
    else if from == |text| then None
    else Find(text, pat, from + 1)
  }

  /** `s` with every `from` replaced by `to` (KMPCommon `strReplace`). */
  function Replace(s: string, from: char, to: char): (r: string)
    ensures |r| == |s|
    ensures forall i :: 0 <= i < |s| ==> r[i] == (if s[i] == from then to else s[i])
  {
    if |s| == 0 then [] else [if s[0] == from then to else s[0]] + Replace(s[1..], from, to)
  }

  /**
   * KMPCommon `strReplace` on a buffer: the `len` characters from `start` on
   * have every `from` replaced by `to`, in place.
   */
  method StrReplace(a: array<char>, start: nat, len: nat, from: char, to: char)
    requires start + len <= a.Length
    modifies a
    ensures a[..] == old(a[..start]) + Replace(old(a[start..start + len]), from, to) + old(a[start + len..])
    ensures forall j :: 0 <= j < a.Length ==> a[j] == (if start <= j < start + len && old(a[j]) == from then to else old(a[j]))
  {
    ghost var a0 := a[..];
    for i := start to start + len
      invariant forall j :: 0 <= j < a.Length && (j < start || i <= j) ==> a[j] == a0[j]
      invariant forall j :: start <= j < i ==> a[j] == (if a0[j] == from then to else a0[j])
    {
      if a[i] == from {
        a[i] := to;
      }
    }
    var mid := Replace(a0[start..start + len], from, to);
    var r := a0[..start] + mid + a0[start + len..];
    forall j | 0 <= j < a.Length
      ensures a[j] == r[j]
    {
      if start <= j < start + len {
        assert r[j] == mid[j - start];
      }
    }
    assert a[..] == r;
  }

  /** Writes a C string into a buffer in place of the old one (libc `strcpy`). */
  method StrCpy(dst: array<char>, src: string)
    requires Nul !in src && |src| < dst.Length
    modifies dst
    ensures dst[..|src|] == src && dst[|src|] == Nul
    ensures dst[|src| + 1..] == old(dst[|src| + 1..])
    ensures CStr(dst[..]) == src
  {
    var i := 0;
    while i < |src|
      invariant 0 <= i <= |src|
      invariant dst[..i] == src[..i]
      invariant dst[|src| + 1..] == old(dst[|src| + 1..])
    {
      dst[i] := src[i];
      i := i + 1;
    }
    dst[i] := Nul;
    CStrOfTerminated(dst[..], src);
  }

  /** The length of the C string a buffer holds (libc `strlen`). */
  method StrLen(a: array<char>) returns (n: nat)
    requires Nul in a[..]
    ensures n == |CStr(a[..])|
  {
    n := 0;
    while a[n] != Nul
      invariant n < a.Length
      invariant Nul !in a[..n]
      invariant Nul in a[n..]
      decreases a.Length - n
    {
      assert a[n..] == [a[n]] + a[n + 1..];
      n := n + 1;
    }
    assert a[..n + 1][..n] == a[..n];
    CStrOfTerminated(a[..], a[..n]);
  }

  /** Appends a C string to the one a buffer holds (libc `strcat`). */
  method StrCat(dst: array<char>, src: string)
    requires Nul in dst[..] && Nul !in src
    requires |CStr(dst[..])| + |src| < dst.Length
    modifies dst
    ensures CStr(dst[..]) == old(CStr(dst[..])) + src
  {
    var n := StrLen(dst);
    var i := 0;
    ghost var head := dst[..n];
    while i < |src|
      invariant 0 <= i <= |src|
      invariant dst[..n] == head
      invariant dst[n..n + i] == src[..i]
    {
      dst[n + i] := src[i];
      i := i + 1;
    }
    dst[n + i] := Nul;
    assert dst[..n + |src|] == head + src;
    CStrOfTerminated(dst[..], head + src);
  }

  /**
   * KMPCommon `strNCopy`: copies the first `n` characters of `src` and puts a
   * NUL after them, leaving the rest of the buffer as it was.
   */
  function StrNCopy(dst: seq<char>, src: seq<char>, n: nat): (r: seq<char>)
    requires n <= |src| && n < |dst|
    ensures |r| == |dst|
    ensures r[..n] == src[..n] && r[n] == Nul && r[n + 1..] == dst[n + 1..]
  {
    src[..n] + [Nul] + dst[n + 1..]
  }
}
