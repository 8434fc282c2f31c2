/**
 * The request side shared by the watchdog and the Internet relay web
 * applications: a CR LF line reader over what the Ethernet client has sent,
 * the request type and page of the first line, the search for a header
 * carrying credentials, and the lookup of `xxN=value` fields in an
 * `application/x-www-form-urlencoded` body. Both applications carry the same
 * code for all of it; only the table of page links differs, so the page
 * lookup takes the table as a parameter.
 *
 * The client is `pending`, what it has sent and the board has not read yet
 * (`available()` is `|pending| > 0`, `read()` takes its first character);
 * `_requestLine` is the array `line`.
 */
module HttpRequest {
  import opened Common

  /** MAX_REQUEST_LINE_LEN: `_requestLine` holds this many characters and a NUL. */
  const MaxRequestLineLen := 254
  /** The reader gives up once it holds this many characters and more input waits. */
  const LineCap := MaxRequestLineLen - 1
  const CrLf: string := [Cr, Lf]

  datatype RequestType = RtNone | RtGet | RtPost

  /** What the reader keeps of a character: everything but CR and LF. */
  function Kept(c: char): string
  {
    if c == Cr || c == Lf then [] else [c]
  }

  /** The characters of `s` other than CR and LF, in order. */
  function Strip(s: string): (r: string)
    ensures |r| <= |s|
    ensures Cr !in r && Lf !in r
  {
    if |s| == 0 then [] else Strip(s[..|s| - 1]) + Kept(s[|s| - 1])
  }

  lemma StripStep(s: string, k: nat)
    requires k < |s|
    ensures Strip(s[..k + 1]) == Strip(s[..k]) + Kept(s[k])
  {
    assert s[..k + 1][..k] == s[..k];
  }

  /** Stripping a longer prefix keeps at least as many characters. */
  lemma {:induction false} StripMonotone(s: string, a: nat, b: nat)
    requires a <= b <= |s|
    ensures |Strip(s[..a])| <= |Strip(s[..b])|
    decreases b - a
  {
    if a < b {
      StripStep(s, b - 1);
      StripMonotone(s, a, b - 1);
    }
  }

  /** A text without CR and LF is kept whole. */
  lemma {:induction false} StripPlain(s: string)
    requires Cr !in s && Lf !in s
    ensures Strip(s) == s
    decreases |s|
  {
    if |s| > 0 {
      var n := |s| - 1;
      assert s[..n] + [s[n]] == s;
      StripPlain(s[..n]);
    }
  }

  /** Where a line of `s` ends: just after its first CR LF, or at the end of `s`. */
  function LineEnd(s: string): (e: nat)
    ensures e <= |s| && (|s| > 0 ==> e > 0)
    ensures Find(s, CrLf).Some? ==> e == Find(s, CrLf).value + 2
    ensures Find(s, CrLf).None? ==> e == |s|
  {
    match Find(s, CrLf)
    case Some(j) => j + 2
    case None => |s|
  }

  /** How many characters of the first `j` of `s` are kept. */
  function KeptBefore(s: string, j: nat): nat
    requires j <= |s|
  {
    |Strip(s[..j])|
  }

  /** The first position `e` in `[k, m]` at which the prefix `s[..e]` keeps `n` characters. */
  function CutAt(s: string, n: nat, k: nat, m: nat): (e: nat)
    requires k <= m <= |s|
    requires |Strip(s[..k])| <= n <= |Strip(s[..m])|
    ensures k <= e <= m && |Strip(s[..e])| == n
    ensures forall j :: k <= j < e ==> KeptBefore(s, j) < n
    decreases m - k
  {
    if KeptBefore(s, k) == n then k
    else
      KeptStep(s, k);
      CutAt(s, n, k + 1, m)
  }

  /** One more character of the prefix keeps at most one more character. */
  lemma KeptStep(s: string, k: nat)
    requires k < |s|
    ensures KeptBefore(s, k) <= KeptBefore(s, k + 1) <= KeptBefore(s, k) + 1
  {
    StripStep(s, k);
  }

  /** CutAt finds the first position from `k` on at which `n` characters are kept. */
  lemma {:induction false} CutAtFirst(s: string, n: nat, k: nat, m: nat, i: nat)
    requires k <= i <= m <= |s|
    requires |Strip(s[..k])| <= n == |Strip(s[..i])| <= |Strip(s[..m])|
    requires forall j :: k <= j < i ==> KeptBefore(s, j) < n
    ensures CutAt(s, n, k, m) == i
    decreases i - k
  {
    if k < i {
      assert KeptBefore(s, k) < n;
      StripStep(s, k);
      CutAtFirst(s, n, k + 1, m, i);
    }
  }

  /** The outcome of one `ReadRequestLine`: its result, how much input it took, the buffer after it. */
  datatype LineRead = LineRead(ok: bool, consumed: nat, buf: seq<char>)

  /**
   * What `ReadRequestLine` does to the buffer `buf` given the pending input:
   * nothing pending gives false and an empty line; a line whose kept
   * characters reach LineCap while more input waits gives false with the
   * buffer full and unterminated; otherwise the line's kept characters,
   * NUL-terminated, and true, whether or not the line ended with CR LF.
   */
  function ReadLine(buf: seq<char>, input: string): (r: LineRead)
    requires |buf| == MaxRequestLineLen + 1
    ensures |r.buf| == |buf| && r.consumed <= |input|
    ensures r.ok <==> |input| > 0 && |Strip(input[..LineEnd(input) - 1])| < LineCap
    ensures r.ok ==> r.consumed == LineEnd(input) > 0
    ensures r.ok ==> var kept := Strip(input[..r.consumed]);
                     && |kept| <= LineCap && r.buf[..|kept|] == kept && r.buf[|kept|] == Nul
                     && CStr(r.buf) <= kept
                     && (Nul !in kept ==> CStr(r.buf) == kept)
    ensures !r.ok && |input| > 0 ==>
              && r.consumed < |input|
              && r.buf[..LineCap] == Strip(input[..r.consumed])
              && r.buf[LineCap..] == buf[LineCap..]
    ensures |input| == 0 ==> r.consumed == 0 && CStr(r.buf) == []
  {
    if |input| == 0 then
      LineRead(false, 0, buf[0 := Nul])
    else
      var e := LineEnd(input);
      if |Strip(input[..e - 1])| >= LineCap then OverlongLine(buf, input, e) else WholeLine(buf, input, e)
  }

  /** ReadLine on a line too long for the buffer: LineCap kept characters fill it, unterminated. */
  function OverlongLine(buf: seq<char>, input: string, e: nat): (r: LineRead)
    requires |buf| == MaxRequestLineLen + 1 && 0 < e <= |input|
    requires |Strip(input[..e - 1])| >= LineCap
    ensures |r.buf| == |buf| && !r.ok && r.consumed < |input|
    ensures r.buf[..LineCap] == Strip(input[..r.consumed]) && r.buf[LineCap..] == buf[LineCap..]
  {
    var k := CutAt(input, LineCap, 0, e - 1);
    LineRead(false, k, Strip(input[..k]) + buf[LineCap..])
  }

  /** ReadLine on a line that fits: its kept characters and a NUL, and the whole line consumed. */
  function WholeLine(buf: seq<char>, input: string, e: nat): (r: LineRead)
    requires |buf| == MaxRequestLineLen + 1 && 0 < e <= |input|
    requires |Strip(input[..e - 1])| < LineCap
    ensures |r.buf| == |buf| && r.ok && r.consumed == e
    ensures var kept := Strip(input[..e]);
            && |kept| <= LineCap && r.buf[..|kept|] == kept && r.buf[|kept|] == Nul
            && CStr(r.buf) <= kept
            && (Nul !in kept ==> CStr(r.buf) == kept)
  {
    var kept := Strip(input[..e]);
    StripStep(input, e - 1);
    var r := kept + [Nul] + buf[|kept| + 1..];
    CStrWithin(r, kept);
    LineRead(true, e, r)
  }

  /** ReadLine never writes the last character of the buffer. */
  lemma ReadLineKeepsLast(buf: seq<char>, input: string)
    requires |buf| == MaxRequestLineLen + 1
    ensures ReadLine(buf, input).buf[MaxRequestLineLen] == buf[MaxRequestLineLen]
  {
  }

  /** `ok`, `line` and `rest` are the result, buffer and remaining input of ReadLine. */
  ghost predicate ReadBy(buf: seq<char>, input: string, ok: bool, line: seq<char>, rest: string)
  {
    |buf| == MaxRequestLineLen + 1 &&
    var r := ReadLine(buf, input);
    ok == r.ok && line == r.buf && rest == input[r.consumed..]
  }

  /** A buffer holding `kept` and then a NUL holds a C string that is a prefix of `kept`. */
  lemma CStrWithin(r: seq<char>, kept: string)
    requires |kept| < |r| && r[..|kept|] == kept && r[|kept|] == Nul
    ensures CStr(r) <= kept
    ensures Nul !in kept ==> CStr(r) == kept
  {
    var n := |CStr(r)|;
    assert n <= |kept|;
    assert CStr(r) == kept[..n];
    if Nul !in kept {
      CStrOfTerminated(r, kept);
    }
  }

  /**
   * A line of at most LineCap - 1 plain characters followed by CR LF is read
   * whole, the CR LF is taken with it, and the buffer then holds exactly the line.
   */
  lemma ReadLineOfPlainLine(buf: seq<char>, l: string, rest: string)
    requires |buf| == MaxRequestLineLen + 1
    requires Cr !in l && Lf !in l && Nul !in l && |l| < LineCap
    ensures var r := ReadLine(buf, l + CrLf + rest);
            r.ok && r.consumed == |l| + 2 && CStr(r.buf) == l
  {
    var input := l + CrLf + rest;
    assert input[|l|] == Cr && input[|l| + 1] == Lf;
    forall k | 0 <= k && k + 2 <= |l| + 1 ensures !OccursAt(input, CrLf, k) {
      assert input[k] == l[k];
    }
    LineEndAt(input, |l|);
    assert input[..|l| + 1] == l + [Cr];
    StripStep(input, |l|);
    assert input[..|l|] == l;
    StripPlain(l);
    StripStep(input, |l| + 1);
  }

  class Connection {
    /** What the client has sent and the board has not read yet. */
    var pending: string
    /** `_requestLine`. */
    const line: array<char>

    ghost predicate Valid()
      reads this
    {
      line.Length == MaxRequestLineLen + 1
    }

    constructor(input: string)
      ensures Valid() && pending == input && fresh(line)
    {
      pending := input;
      line := new char[MaxRequestLineLen + 1](_ => Nul);
    }

    /** `ReadRequestLine`, as the function ReadLine describes it. */
    method ReadRequestLine() returns (ok: bool)
      requires Valid()
      modifies this, line
      ensures Valid()
      ensures ReadBy(old(line[..]), old(pending), ok, line[..], pending)
    {
      ghost var input := pending;
      ghost var buf0 := line[..];
      ghost var i: nat := 0;
      line[0] := Nul;
      var pos: nat := 0;
      var prev := Nul;
      var isRead := false;
      while |pending| > 0
        invariant Scanned(input, i, pos, prev, buf0, line[..])
        invariant pending == input[i..] && isRead == (i > 0)
        decreases |pending|
      {
        isRead := true;
        if pos == LineCap {
          ReadOverflow(input, i, pos, prev, buf0, line[..]);
          return false;
        }
        var done;
        pos, prev, done := TakeChar(input, i, pos, prev, buf0);
        i := i + 1;
        if done {
          return true;
        }
      }
      ghost var scanned := line[..];
      line[pos] := Nul;
      assert line[..] == scanned[pos := Nul];
      if !isRead {
        assert line[..] == buf0[0 := Nul];
        return false;
      }
      ReadEndOfInput(input, i, pos, prev, buf0, scanned);
      return true;
    }

    /**
     * One round of `ReadRequestLine`'s loop while the line has room: the next
     * character is taken and kept unless it is CR or LF; a CR LF ends the
     * line, which is then NUL-terminated.
     */
    method TakeChar(ghost input: string, ghost i: nat, pos: nat, prev: char, ghost buf0: seq<char>)
      returns (pos1: nat, c: char, done: bool)
      requires Valid() && Scanned(input, i, pos, prev, buf0, line[..])
      requires pending == input[i..] && |pending| > 0 && pos < LineCap
      modifies this, line
      ensures pending == input[i + 1..]
      ensures done ==> ReadBy(buf0, input, true, line[..], pending)
      ensures !done ==> Scanned(input, i + 1, pos1, c, buf0, line[..])
    {
      c := pending[0];
      ghost var line0 := line[..];
      if prev == Cr && c == Lf {
        ReadEndOfLine(input, i, pos, prev, buf0, line0);
      } else {
        ScanStep(input, i, pos, prev, buf0, line0);
      }
      pending := pending[1..];
      pos1 := pos;
      if c != Cr && c != Lf {
        line[pos] := c;
        assert line[..] == line0[pos := c];
        pos1 := pos + 1;
      }
      done := prev == Cr && c == Lf;
      if done {
        line[pos1] := Nul;
        assert line[..] == line0[pos := Nul];
      }
    }

    /** `ReadRequestToEnd`: whatever the client still has to send is read and dropped. */
    method ReadRequestToEnd()
      modifies this
      ensures pending == []
    {
      while |pending| > 0
        decreases |pending|
      {
        pending := pending[1..];
      }
    }

    /**
     * `GetPostParameterLine`: lines are read until an empty one, and then one
     * more, the form body; reading stops early when a line cannot be read.
     */
    method GetPostParameterLine()
      requires Valid()
      modifies this, line
      ensures Valid()
      ensures AfterHeaders(old(line[..]), old(pending)) == (line[..], pending)
    {
      while true
        invariant Valid()
        invariant AfterHeaders(old(line[..]), old(pending)) == AfterHeaders(line[..], pending)
        decreases |pending|
      {
        var ok := ReadRequestLine();
        if !ok {
          return;
        }
        if line[0] == Nul {
          ok := ReadRequestLine();
          return;
        }
      }
    }

    /**
     * `GetRequestTypeAndPage`: the first line is read, and it is accepted when
     * it names GET or POST and one of the application's pages.
     */
    method GetRequestTypeAndPage(links: seq<string>) returns (ok: bool, rt: RequestType, wp: Option<nat>)
      requires Valid()
      modifies this, line
      ensures Valid()
      ensures var r := ReadLine(old(line[..]), old(pending));
              line[..] == r.buf && pending == old(pending)[r.consumed..]
              && (ok <==> r.ok && rt != RtNone && wp.Some?)
              && (r.ok ==> rt == GetRequestType(CStr(r.buf)))
              && (r.ok && rt != RtNone ==> wp == PageOf(CStr(r.buf), links))
    {
      ok := ReadRequestLine();
      rt, wp := RtNone, None;
      if !ok {
        return;
      }
      var text := CStrOf(line);
      rt := GetRequestType(text);
      if rt == RtNone {
        return false, rt, wp;
      }
      wp := GetRequestPage(text, links);
      ok := wp.Some?;
    }

    /**
     * `CheckRequestIsAuthorized`: header lines are read until one starts with
     * "Authorization"; the request is authorised when that line holds "Basic "
     * and `accept` takes what follows it. `accept` stands for the comparison
     * with the Base64 encoding of the stored user and password.
     */
    method CheckRequestIsAuthorized(accept: string -> bool) returns (ok: bool)
      requires Valid()
      modifies this, line
      ensures Valid()
      ensures var a := Authorization(old(line[..]), old(pending), accept);
              ok == a.ok && line[..] == a.buf && pending == a.rest
    {
      while true
        invariant Valid()
        invariant Authorization(old(line[..]), old(pending), accept) == Authorization(line[..], pending, accept)
        decreases |pending|
      {
        ghost var buf, input := line[..], pending;
        var read := ReadRequestLine();
        AuthorizationStep(buf, input, accept);
        if !read {
          return false;
        }
        var text := CStrOf(line);
        if StartsWith(text, "Authorization") {
          var basic := Find(text, "Basic ");
          if basic.None? {
            return false;
          }
          return accept(text[basic.value + 6..]);
        }
      }
    }
  }

  /** `strlen` and a copy of the C string an array holds, as one step. */
  method CStrOf(a: array<char>) returns (s: string)
    requires Nul in a[..]
    ensures s == CStr(a[..])
  {
    var n := StrLen(a);
    s := a[..n];
  }

  /** The line buffer and the rest of the input after GetPostParameterLine. */
  function AfterHeaders(buf: seq<char>, input: string): (h: (seq<char>, string))
    requires |buf| == MaxRequestLineLen + 1
    ensures |h.0| == |buf|
    decreases |input|
  {
    var r := ReadLine(buf, input);
    if !r.ok then (r.buf, input[r.consumed..])
    else if r.buf[0] == Nul then
      var r2 := ReadLine(r.buf, input[r.consumed..]);
      (r2.buf, input[r.consumed..][r2.consumed..])
    else AfterHeaders(r.buf, input[r.consumed..])
  }

  /** Reading up to the form body leaves the last character of the buffer as it was. */
  lemma {:induction false} AfterHeadersKeepsLast(buf: seq<char>, input: string)
    requires |buf| == MaxRequestLineLen + 1
    ensures AfterHeaders(buf, input).0[MaxRequestLineLen] == buf[MaxRequestLineLen]
    decreases |input|
  {
    var r := ReadLine(buf, input);
    ReadLineKeepsLast(buf, input);
    if r.ok && r.buf[0] == Nul {
      ReadLineKeepsLast(r.buf, input[r.consumed..]);
    } else if r.ok {
      AfterHeadersKeepsLast(r.buf, input[r.consumed..]);
    }
  }

  /** A line the reader takes whole: not empty, no CR, LF or NUL, and shorter than LineCap. */
  predicate PlainLine(l: string)
  {
    0 < |l| < LineCap && Cr !in l && Lf !in l && Nul !in l
  }

  /** Header lines, each ended by CR LF. */
  function HeaderBlock(headers: seq<string>): string
  {
    if |headers| == 0 then [] else headers[0] + CrLf + HeaderBlock(headers[1..])
  }

  /**
   * The form body as it follows the empty line: either a line ended by CR LF
   * and more input, or a non-empty last line that ends the input.
   */
  predicate BodyThenRest(after: string, body: string, rest: string)
  {
    Cr !in body && Lf !in body && Nul !in body && |body| < LineCap &&
    (after == body + CrLf + rest || (after == body && rest == [] && |body| > 0))
  }

  /** The last line of the input, without CR LF, is read whole. */
  lemma ReadLineOfLastLine(buf: seq<char>, l: string)
    requires |buf| == MaxRequestLineLen + 1
    requires Cr !in l && Lf !in l && Nul !in l && 0 < |l| < LineCap
    ensures var r := ReadLine(buf, l);
            r.ok && r.consumed == |l| && CStr(r.buf) == l
  {
    forall k | 0 <= k && k + 2 <= |l| ensures !OccursAt(l, CrLf, k) {
      assert l[k] in l;
    }
    NoLineEnd(l);
    assert l[..|l|] == l;
    StripPlain(l);
    StripPlain(l[..|l| - 1]);
  }

  /** The body line is read from what follows the empty line. */
  lemma ReadBodyLine(buf: seq<char>, after: string, body: string, rest: string)
    requires |buf| == MaxRequestLineLen + 1 && BodyThenRest(after, body, rest)
    ensures var r := ReadLine(buf, after);
            r.ok && CStr(r.buf) == body && after[r.consumed..] == rest
  {
    if after == body + CrLf + rest {
      ReadLineOfPlainLine(buf, body, rest);
    } else {
      ReadLineOfLastLine(buf, body);
    }
  }

  /**
   * GetPostParameterLine finds the form body: on a request whose header lines
   * are plain and end with CR LF, followed by the empty line and the body,
   * the buffer holds exactly the body line and the input after it remains.
   */
  lemma {:induction false} AfterHeadersFindsBody(buf: seq<char>, headers: seq<string>, after: string, body: string, rest: string)
    requires |buf| == MaxRequestLineLen + 1
    requires forall k :: 0 <= k < |headers| ==> PlainLine(headers[k])
    requires BodyThenRest(after, body, rest)
    ensures var h := AfterHeaders(buf, HeaderBlock(headers) + CrLf + after);
            CStr(h.0) == body && h.1 == rest
    decreases |headers|
  {
    var input := HeaderBlock(headers) + CrLf + after;
    if |headers| == 0 {
      assert input == [] + CrLf + after;
      ReadLineOfPlainLine(buf, [], after);
      var r := ReadLine(buf, input);
      assert input[r.consumed..] == after;
      ReadBodyLine(r.buf, after, body, rest);
    } else {
      var l := headers[0];
      var more := HeaderBlock(headers[1..]) + CrLf + after;
      assert input == l + CrLf + more;
      ReadLineOfPlainLine(buf, l, more);
      var r := ReadLine(buf, input);
      assert input[r.consumed..] == more;
      assert r.buf[0] == l[0] != Nul;
      AfterHeadersFindsBody(r.buf, headers[1..], after, body, rest);
    }
  }

  /** Looking for the Authorization header leaves the last character of the buffer as it was. */
  lemma {:induction false} AuthorizationKeepsLast(buf: seq<char>, input: string, accept: string -> bool)
    requires |buf| == MaxRequestLineLen + 1
    ensures Authorization(buf, input, accept).buf[MaxRequestLineLen] == buf[MaxRequestLineLen]
    decreases |input|
  {
    var r := ReadLine(buf, input);
    ReadLineKeepsLast(buf, input);
    if r.ok && !StartsWith(CStr(r.buf), "Authorization") {
      AuthorizationKeepsLast(r.buf, input[r.consumed..], accept);
    }
  }

  /** What CheckRequestIsAuthorized concludes, with the buffer and input it leaves. */
  datatype AuthScan = AuthScan(ok: bool, credentials: Option<string>, buf: seq<char>, rest: string)

  function Authorization(buf: seq<char>, input: string, accept: string -> bool): (a: AuthScan)
    requires |buf| == MaxRequestLineLen + 1
    ensures |a.buf| == |buf| && |a.rest| <= |input| && a.rest == input[|input| - |a.rest|..]
    ensures a.ok ==> a.credentials.Some? && accept(a.credentials.value)
    decreases |input|
  {
    var r := ReadLine(buf, input);
    if !r.ok then AuthScan(false, None, r.buf, input[r.consumed..])
    else
      var text := CStr(r.buf);
      if StartsWith(text, "Authorization") then
        (match Find(text, "Basic ")
         case None => AuthScan(false, None, r.buf, input[r.consumed..])
         case Some(b) =>
           var cred := text[b + 6..];
           AuthScan(accept(cred), Some(cred), r.buf, input[r.consumed..]))
      else
        Authorization(r.buf, input[r.consumed..], accept)
  }

  /** One header line of Authorization: the scan stops at a line that cannot be read or starts with "Authorization". */
  lemma AuthorizationStep(buf: seq<char>, input: string, accept: string -> bool)
    requires |buf| == MaxRequestLineLen + 1
    ensures var r := ReadLine(buf, input);
            var text := CStr(r.buf);
            var a := Authorization(buf, input, accept);
            && (!r.ok ==> a == AuthScan(false, None, r.buf, input[r.consumed..]))
            && (r.ok && !StartsWith(text, "Authorization") ==> a == Authorization(r.buf, input[r.consumed..], accept))
            && (r.ok && StartsWith(text, "Authorization") && Find(text, "Basic ").None? ==>
                  a == AuthScan(false, None, r.buf, input[r.consumed..]))
            && (r.ok && StartsWith(text, "Authorization") && Find(text, "Basic ").Some? ==>
                  var cred := text[Find(text, "Basic ").value + 6..];
                  a == AuthScan(accept(cred), Some(cred), r.buf, input[r.consumed..]))
  {
  }

  /** `GetRequestType`: GET or POST by the line's first characters, otherwise none. */
  function GetRequestType(text: string): (rt: RequestType)
    ensures rt == RtGet <==> StartsWith(text, "GET")
    ensures rt == RtPost <==> !StartsWith(text, "GET") && StartsWith(text, "POST")
  {
    if StartsWith(text, "GET") then RtGet
    else if StartsWith(text, "POST") then RtPost
    else RtNone
  }

  /** A page link as it appears in a request line: between two spaces. */
  function Framed(link: string): string
  {
    [' '] + link + [' ']
  }

  /** `pat` occurs somewhere in `text`. */
  ghost predicate Contains(text: string, pat: string)
  {
    exists i :: OccursAt(text, pat, i)
  }

  /** The first page (in table order) whose link, framed by spaces, occurs in the line. */
  function PageOf(text: string, links: seq<string>, from: nat := 0): (wp: Option<nat>)
    requires from <= |links|
    ensures wp.Some? ==> from <= wp.value < |links| && Contains(text, Framed(links[wp.value]))
    ensures wp.Some? ==> forall j :: from <= j < wp.value ==> !Contains(text, Framed(links[j]))
    ensures wp.None? ==> forall j :: from <= j < |links| ==> !Contains(text, Framed(links[j]))
    decreases |links| - from
  {
    if from == |links| then None
    else if Find(text, Framed(links[from])).Some? then Some(from)
    else PageOf(text, links, from + 1)
  }

  /** `GetRequestPage`: the links are tried in order and the first one found wins. */
  method GetRequestPage(text: string, links: seq<string>) returns (wp: Option<nat>)
    ensures wp.Some? ==> wp.value < |links| && Contains(text, Framed(links[wp.value]))
    ensures wp.Some? ==> forall j :: 0 <= j < wp.value ==> !Contains(text, Framed(links[j]))
    ensures wp.None? ==> forall j :: 0 <= j < |links| ==> !Contains(text, Framed(links[j]))
  {
    wp := None;
    var i := 0;
    while i < |links|
      invariant i <= |links|
      invariant forall j :: 0 <= j < i ==> !Contains(text, Framed(links[j]))
    {
      var buff := Framed(links[i]);
      if Find(text, buff).Some? {
        wp := Some(i);
        return;
      }
      i := i + 1;
    }
  }

  /** Where a form field's value starts and how many characters it has. */
  datatype Param = Param(start: nat, len: nat)

  /** How many characters from `from` on precede the first '&' or the end of the text. */
  function ValueLen(text: string, from: nat): (n: nat)
    requires from <= |text|
    ensures from + n <= |text|
    ensures '&' !in text[from..from + n]
    ensures from + n == |text| || text[from + n] == '&'
    decreases |text| - from
  {
    if from == |text| || text[from] == '&' then 0 else 1 + ValueLen(text, from + 1)
  }

  /** The field name FindParameter looks for: a two-letter prefix, a suffix character and '='. */
  function FieldName(prefix: string, suffix: char): string
  {
    prefix + [suffix, '=']
  }

  /**
   * The value of field `name` in a form body: it starts just after the first
   * occurrence of the name and runs up to the next '&' or the end of the body.
   */
  function Parameter(text: string, name: string): (r: Option<Param>)
    ensures r.Some? ==> |name| <= r.value.start && r.value.start + r.value.len <= |text|
  {
    match Find(text, name)
    case None => None
    case Some(i) => Some(Param(i + |name|, ValueLen(text, i + |name|)))
  }

  /**
   * What Parameter finds: nothing exactly when the name does not occur, and
   * otherwise the value after the name's first occurrence, which holds no '&'
   * and ends at an '&' or at the end of the body.
   */
  lemma ParameterIsFirst(text: string, name: string)
    ensures var r := Parameter(text, name);
            && (r.None? <==> forall i :: !OccursAt(text, name, i))
            && (r.Some? ==> && OccursAt(text, name, r.value.start - |name|)
                            && (forall i :: 0 <= i < r.value.start - |name| ==> !OccursAt(text, name, i))
                            && '&' !in text[r.value.start..r.value.start + r.value.len]
                            && (r.value.start + r.value.len == |text| || text[r.value.start + r.value.len] == '&'))
  {
  }

  /** The text a value pointer points at, up to the end of the line. */
  function ValueText(text: string, p: Param): string
  {
    if p.start <= |text| then text[p.start..] else []
  }

  /**
   * The value pointer before any field has been found. The forms declare
   * their pointer and length without a value and `FindParameter` writes
   * them only on a match, so until then they are uninitialised; the model
   * points them at the end of the line with length 0.
   */
  function Unset(text: string): Param
  {
    Param(|text|, 0)
  }

  /** A value pointer into `text`. */
  predicate ParamIn(text: string, p: Param)
  {
    p.start + p.len <= |text|
  }

  /** What a form field records: its validity, the value pointer's text and the value length. */
  function Record(text: string, valid: bool, p: Param): ValidationData
  {
    ValidationData(valid, ValueText(text, p), p.len)
  }

  /** The value pointer after looking up `name`: the found value, or the previous pointer. */
  function Lookup(text: string, name: string, prev: Param): Param
  {
    match Parameter(text, name)
    case Some(p) => p
    case None => prev
  }

  /**
   * `FindParameter`: looks the field `prefix suffix =` up in the body; when it
   * is missing it returns false and leaves the caller's value pointer and
   * length (`val0`) as they were.
   */
  method FindParameter(text: string, prefix: string, suffix: char, val0: Param) returns (found: bool, val: Param)
    requires |prefix| == 2
    ensures found <==> Parameter(text, FieldName(prefix, suffix)).Some?
    ensures found ==> val == Parameter(text, FieldName(prefix, suffix)).value
    ensures !found ==> val == val0
  {
    var name := FieldName(prefix, suffix);
    var result := Find(text, name);
    if result.None? {
      return false, val0;
    }
    var start := result.value + 4;
    var k := start;
    var len := 0;
    while k < |text| && text[k] != '&'
      invariant start <= k <= |text| && len == k - start
      invariant ValueLen(text, start) == len + ValueLen(text, k)
      decreases |text| - k
    {
      k := k + 1;
      len := len + 1;
    }
    return true, Param(start, len);
  }

  /**
   * The state of ReadRequestLine's loop after it has taken `i` characters of
   * `input`: `pos` characters kept and stored in `line` over the buffer as it
   * was (with its first character cleared), `prev` the last character taken,
   * the cap not reached before, and no CR LF taken yet.
   */
  ghost predicate Scanned(input: string, i: nat, pos: nat, prev: char, buf0: seq<char>, line: seq<char>)
  {
    && |buf0| == MaxRequestLineLen + 1
    && i <= |input|
    && pos == |Strip(input[..i])| <= LineCap
    && line == Strip(input[..i]) + buf0[0 := Nul][pos..]
    && (i > 0 ==> prev == input[i - 1])
    && (i == 0 ==> prev == Nul)
    && (forall j :: 0 <= j < i ==> KeptBefore(input, j) < LineCap)
    && (forall j :: 0 <= j && j + 2 <= i ==> !OccursAt(input, CrLf, j))
  }

  /** Taking one more character that does not complete a CR LF keeps the loop's state. */
  lemma ScanStep(input: string, i: nat, pos: nat, prev: char, buf0: seq<char>, line: seq<char>)
    requires Scanned(input, i, pos, prev, buf0, line)
    requires i < |input| && pos < LineCap && !(prev == Cr && input[i] == Lf)
    ensures var c := input[i];
            if c != Cr && c != Lf then Scanned(input, i + 1, pos + 1, c, buf0, line[pos := c])
            else Scanned(input, i + 1, pos, c, buf0, line)
  {
    NoCrLfYet(input, i, prev);
    StripStep(input, i);
    var c := input[i];
    if c != Cr && c != Lf {
      ScanKept(Strip(input[..i]), c, pos, buf0[0 := Nul], line);
    }
  }

  /** No CR LF ends at `i` when the character before it is not a CR followed by an LF at `i`. */
  lemma NoCrLfYet(input: string, i: nat, prev: char)
    requires 0 < i < |input| ==> prev == input[i - 1]
    requires i < |input| && !(prev == Cr && input[i] == Lf)
    requires forall j :: 0 <= j && j + 2 <= i ==> !OccursAt(input, CrLf, j)
    ensures forall j :: 0 <= j && j + 2 <= i + 1 ==> !OccursAt(input, CrLf, j)
  {
    if i > 0 {
      assert input[i - 1..i + 1] == [prev, input[i]];
    }
  }

  /** A kept character `c` is stored at `pos`, just after the `pos` characters `kept` read so far. */
  lemma ScanKept(kept: string, c: char, pos: nat, cleared: seq<char>, line: seq<char>)
    requires pos == |kept| < |cleared| && line == kept + cleared[pos..]
    ensures line[pos := c] == kept + [c] + cleared[pos + 1..]
  {
    assert cleared[pos..] == [cleared[pos]] + cleared[pos + 1..];
  }

  /** The reader stops with LineCap characters and more input waiting: ReadLine's overflow case. */
  lemma ReadOverflow(input: string, i: nat, pos: nat, prev: char, buf0: seq<char>, line: seq<char>)
    requires Scanned(input, i, pos, prev, buf0, line)
    requires i < |input| && pos == LineCap
    ensures ReadBy(buf0, input, false, line, input[i..])
  {
    var e := LineEnd(input);
    match Find(input, CrLf) {
      case Some(j) =>
        assert j + 2 <= i ==> !OccursAt(input, CrLf, j);
      case None =>
    }
    assert i <= e - 1;
    OverlongRead(buf0, input, i);
    assert buf0[0 := Nul][LineCap..] == buf0[LineCap..];
  }

  /** A line whose first LineCap kept characters end at `i`, before its end, is cut there. */
  lemma OverlongRead(buf0: seq<char>, input: string, i: nat)
    requires |buf0| == MaxRequestLineLen + 1 && i < |input| && i <= LineEnd(input) - 1
    requires |Strip(input[..i])| == LineCap
    requires forall j :: 0 <= j < i ==> KeptBefore(input, j) < LineCap
    ensures ReadLine(buf0, input) == LineRead(false, i, Strip(input[..i]) + buf0[LineCap..])
  {
    var e := LineEnd(input);
    StripMonotone(input, i, e - 1);
    assert input[..0] == [] && Strip(input[..0]) == [];
    CutAtFirst(input, LineCap, 0, e - 1, i);
    ReadOverlongLine(buf0, input);
  }

  /** ReadLine takes its overlong case exactly when the line's kept characters before its LF reach LineCap. */
  lemma ReadOverlongLine(buf0: seq<char>, input: string)
    requires |buf0| == MaxRequestLineLen + 1 && |input| > 0
    requires |Strip(input[..LineEnd(input) - 1])| >= LineCap
    ensures ReadLine(buf0, input) == OverlongLine(buf0, input, LineEnd(input))
  {
  }

  /** The reader has just taken the LF of a CR LF: ReadLine's case of a complete line. */
  lemma ReadEndOfLine(input: string, i: nat, pos: nat, prev: char, buf0: seq<char>, line: seq<char>)
    requires Scanned(input, i, pos, prev, buf0, line)
    requires i < |input| && pos < LineCap && prev == Cr && input[i] == Lf
    ensures ReadBy(buf0, input, true, line[pos := Nul], input[i + 1..])
  {
    EndOfLine(input, i, pos, prev, buf0, line);
    WholeRead(buf0, input, i + 1);
  }

  /** What ReadEndOfLine needs of the loop's state: where the line ends and what the buffer then holds. */
  lemma EndOfLine(input: string, i: nat, pos: nat, prev: char, buf0: seq<char>, line: seq<char>)
    requires Scanned(input, i, pos, prev, buf0, line)
    requires i < |input| && pos < LineCap && prev == Cr && input[i] == Lf
    ensures LineEnd(input) == i + 1 && |Strip(input[..i])| < LineCap && |Strip(input[..i + 1])| == pos
    ensures line[pos := Nul] == Strip(input[..i + 1]) + [Nul] + buf0[pos + 1..]
  {
    LineEndAt(input, i - 1);
    StripStep(input, i);
    ScanKept(Strip(input[..i]), Nul, pos, buf0[0 := Nul], line);
    assert buf0[0 := Nul][pos + 1..] == buf0[pos + 1..];
  }

  /** A line that ends at `e` with fewer than LineCap kept characters before its LF is read whole. */
  lemma WholeRead(buf0: seq<char>, input: string, e: nat)
    requires |buf0| == MaxRequestLineLen + 1 && 0 < e == LineEnd(input) <= |input|
    requires |Strip(input[..e - 1])| < LineCap
    ensures var kept := Strip(input[..e]);
            ReadLine(buf0, input) == LineRead(true, e, kept + [Nul] + buf0[|kept| + 1..])
  {
    assert ReadLine(buf0, input) == WholeLine(buf0, input, e);
  }

  /** The input ran out without a CR LF: ReadLine's case of a last, unterminated line. */
  lemma ReadEndOfInput(input: string, i: nat, pos: nat, prev: char, buf0: seq<char>, line: seq<char>)
    requires Scanned(input, i, pos, prev, buf0, line) && 0 < i == |input|
    ensures ReadBy(buf0, input, true, line[pos := Nul], [])
  {
    EndOfInput(input, i, pos, prev, buf0, line);
    WholeRead(buf0, input, |input|);
  }

  /** What ReadEndOfInput needs of the loop's state: the line ends with the input, and the buffer then holds it. */
  lemma EndOfInput(input: string, i: nat, pos: nat, prev: char, buf0: seq<char>, line: seq<char>)
    requires Scanned(input, i, pos, prev, buf0, line) && 0 < i == |input|
    ensures |buf0| == MaxRequestLineLen + 1 && LineEnd(input) == |input|
    ensures |Strip(input[..|input| - 1])| < LineCap && pos == |Strip(input[..|input|])|
    ensures line[pos := Nul] == Strip(input[..|input|]) + [Nul] + buf0[pos + 1..]
  {
    NoLineEnd(input);
    assert KeptBefore(input, |input| - 1) < LineCap;
    ScanKept(Strip(input[..i]), Nul, pos, buf0[0 := Nul], line);
    assert buf0[0 := Nul][pos + 1..] == buf0[pos + 1..];
  }

  /** The first CR LF of `input` is at `j`: the line ends just after it. */
  lemma LineEndAt(input: string, j: nat)
    requires j + 2 <= |input| && input[j] == Cr && input[j + 1] == Lf
    requires forall k :: 0 <= k && k + 2 <= j + 1 ==> !OccursAt(input, CrLf, k)
    ensures LineEnd(input) == j + 2
  {
    assert input[j..j + 2] == CrLf;
    assert OccursAt(input, CrLf, j);
    match Find(input, CrLf) {
      case Some(k) =>
        assert k < j ==> !OccursAt(input, CrLf, k);
      case None =>
    }
  }

  /** Input without CR LF is one line, to its end. */
  lemma NoLineEnd(input: string)
    requires forall k :: 0 <= k && k + 2 <= |input| ==> !OccursAt(input, CrLf, k)
    ensures LineEnd(input) == |input|
  {
    match Find(input, CrLf) {
      case Some(k) =>
        assert OccursAt(input, CrLf, k);
      case None =>
    }
  }
}
