/**
 * The output side of the two embedded web applications (watchdog and
 * Internet relay): every page is written character by character into a
 * 128-byte buffer that is handed to the Ethernet client whenever it is full
 * and once more at the end of the page. Both applications carry the same
 * buffer code, so one model serves both.
 *
 * The client's writes are recorded in `sent`, one entry per call of
 * `_eth.write`; the ghost `added` is every character the page code asked to
 * send, so that the buffer's invariant can say that nothing is lost,
 * duplicated or reordered.
 */
module HtmlOutput {
  import opened Common

  /** SEND_BUFF_LEN. */
  const SendBuffLen := 128

  /** The chunks one after the other: what the client received, in order. */
  function Concat(chunks: seq<seq<char>>): seq<char>
  {
    if |chunks| == 0 then [] else Concat(chunks[..|chunks| - 1]) + chunks[|chunks| - 1]
  }

  /** Concatenation distributes over appending lists of chunks. */
  lemma {:induction false} ConcatAppend(a: seq<seq<char>>, b: seq<seq<char>>)
    ensures Concat(a + b) == Concat(a) + Concat(b)
    decreases |b|
  {
    if |b| > 0 {
      var n := |b| - 1;
      assert (a + b)[..|a + b| - 1] == a + b[..n];
      ConcatAppend(a, b[..n]);
    } else {
      assert a + b == a;
    }
  }

  /** The texts of the C strings `parts`, one after the other. */
  function Texts(parts: seq<seq<char>>): string
  {
    if |parts| == 0 then [] else Texts(parts[..|parts| - 1]) + CStr(parts[|parts| - 1])
  }

  class Writer {
    /** `_buff`. */
    const buff: array<char>
    /** `_pos`: how many bytes of `_buff` are waiting to be sent. */
    var pos: nat
    /** The writes handed to the Ethernet client so far, oldest first. */
    var sent: seq<seq<char>>
    /** Every character added so far. */
    ghost var added: seq<char>

    /**
     * What was sent, followed by what is buffered, is exactly what was added;
     * no write is empty or longer than the buffer.
     */
    ghost predicate Valid()
      reads this, buff
    {
      && buff.Length == SendBuffLen
      && pos <= SendBuffLen
      && Concat(sent) + buff[..pos] == added
      && forall k :: 0 <= k < |sent| ==> 0 < |sent[k]| <= SendBuffLen
    }

    constructor()
      ensures Valid() && fresh(buff)
      ensures pos == 0 && sent == [] && added == []
    {
      buff := new char[SendBuffLen];
      pos := 0;
      sent := [];
      added := [];
    }

    /** `flush`: one write of the buffered bytes when there are any; the buffer is then empty. */
    method Flush()
      requires Valid()
      modifies this
      ensures Valid() && pos == 0 && added == old(added)
      ensures old(pos) > 0 ==> sent == old(sent) + [old(buff[..pos])]
      ensures old(pos) == 0 ==> sent == old(sent)
    {
      if pos > 0 {
        ConcatAppend(sent, [buff[..pos]]);
        sent := sent + [buff[..pos]];
        pos := 0;
      }
    }

    /**
     * `addHtml(char)`: a full buffer is first sent as one 128-byte write; then
     * the character is buffered.
     */
    method AddChar(c: char)
      requires Valid()
      modifies this, buff
      ensures Valid() && added == old(added) + [c]
      ensures 1 <= pos <= SendBuffLen && buff[pos - 1] == c
      ensures old(pos) == SendBuffLen ==> sent == old(sent) + [old(buff[..])] && pos == 1
      ensures old(pos) < SendBuffLen ==> sent == old(sent) && pos == old(pos) + 1
    {
      if pos == SendBuffLen {
        assert buff[..pos] == buff[..];
        Flush();
      }
      buff[pos] := c;
      pos := pos + 1;
      added := added + [c];
    }

    /**
     * `addHtml(const char*)` and `addHtmlP(PGM_P)`: every character before the
     * terminating NUL is added in order; every write this causes is a full buffer.
     */
    method AddText(s: seq<char>)
      requires Valid() && Nul in s
      modifies this, buff
      ensures Valid() && added == old(added) + CStr(s)
      ensures old(sent) <= sent
      ensures forall k :: |old(sent)| <= k < |sent| ==> |sent[k]| == SendBuffLen
    {
      var i := 0;
      while s[i] != Nul
        invariant i < |s| && Nul !in s[..i] && Nul in s[i..]
        invariant Valid() && added == old(added) + s[..i]
        invariant old(sent) <= sent
        invariant forall k :: |old(sent)| <= k < |sent| ==> |sent[k]| == SendBuffLen
        decreases |s| - i
      {
        assert s[i..] == [s[i]] + s[i + 1..];
        AddChar(s[i]);
        assert s[..i + 1] == s[..i] + [s[i]];
        i := i + 1;
      }
      CStrOfTerminated(s, s[..i]);
    }

    /**
     * A page method (`index`, `notFound`, `unAuthorized`, `privateSettings`,
     * `privateUserAndIP`): its pieces of markup are added in order and the page
     * ends with `flush`, so that everything added has reached the client and
     * the buffer is empty. Every write but the last is a full buffer.
     */
    method SendPage(parts: seq<seq<char>>)
      requires Valid()
      requires forall k :: 0 <= k < |parts| ==> Nul in parts[k]
      modifies this, buff
      ensures Valid() && pos == 0
      ensures added == old(added) + Texts(parts)
      ensures Concat(sent) == added
      ensures old(sent) <= sent
      ensures forall k :: |old(sent)| <= k < |sent| - 1 ==> |sent[k]| == SendBuffLen
    {
      var k := 0;
      while k < |parts|
        invariant k <= |parts|
        invariant Valid() && added == old(added) + Texts(parts[..k])
        invariant old(sent) <= sent
        invariant forall j :: |old(sent)| <= j < |sent| ==> |sent[j]| == SendBuffLen
        decreases |parts| - k
      {
        AddText(parts[k]);
        assert parts[..k + 1][..k] == parts[..k];
        k := k + 1;
      }
      assert parts[..k] == parts;
      Flush();
    }
  }

  /**
   * MAX_IP_STR_LEN. The user/IP page copies a rejected value into a scratch
   * buffer `str` of MAX_IP_STR_LEN + 1 characters.
   */
  const MaxIpStrLen := 16

  /**
   * A rejected value whose characters and terminating NUL do not fit in `size`
   * characters: copying it runs past the end of the buffer.
   */
  predicate Overruns(vd: ValidationData, size: nat)
  {
    !vd.isValid && vd.length >= size
  }

  /**
   * `CheckValidData` as written: a field that passed its rule needs nothing.
   * For one that did not, its rejected value (`length` characters) is copied
   * into `buff` and NUL-terminated, and the text shown in the form is the
   * buffer's. The copy is not bounded by the buffer's size. When the value
   * does not fit (`overrun`), the buffer is filled with the value's first
   * characters and the rest of the copy lands outside it. That memory is not
   * part of the model, so the text shown is then unknown (None).
   */
  method CheckValidData(vd: ValidationData, buff: array<char>) returns (ok: bool, text: Option<string>, overrun: bool)
    requires vd.length <= |vd.value|
    modifies buff
    ensures ok == vd.isValid && overrun == Overruns(vd, buff.Length)
    ensures ok ==> buff[..] == old(buff[..]) && text == None
    ensures overrun ==> buff[..] == vd.value[..buff.Length] && text == None
    ensures !ok && !overrun ==>
              && buff[..vd.length] == vd.value[..vd.length] && buff[vd.length] == Nul
              && buff[vd.length + 1..] == old(buff[vd.length + 1..])
              && text == Some(CStr(buff[..]))
    ensures !ok && !overrun && Nul !in vd.value[..vd.length] ==> text == Some(vd.value[..vd.length])
  {
    if vd.isValid {
      return true, None, false;
    }
    var fits := vd.length < buff.Length;
    var n := if fits then vd.length else buff.Length;
    var i := 0;
    while i < n
      invariant i <= n
      invariant buff[..i] == vd.value[..i]
      invariant buff[n..] == old(buff[n..])
    {
      buff[i] := vd.value[i];
      i := i + 1;
    }
    if !fits {
      assert buff[..] == buff[..n];
      return false, None, true;
    }
    buff[vd.length] := Nul;
    assert buff[vd.length + 1..] == old(buff[vd.length..])[1..];
    if Nul !in vd.value[..vd.length] {
      CStrOfTerminated(buff[..], vd.value[..vd.length]);
    }
    ok, text, overrun := false, Some(CStr(buff[..])), false;
  }

  /**
   * `CheckValidData` with the copy bounded by the buffer: at most
   * `buff.Length - 1` characters of a rejected value are copied, so the NUL
   * always lands inside the buffer. A value that fits is shown whole, exactly
   * as the code as written shows it; a longer one is shown cut to the buffer.
   */
  method CheckValidDataBounded(vd: ValidationData, buff: array<char>) returns (ok: bool, text: Option<string>)
    requires vd.length <= |vd.value| && buff.Length > 0
    modifies buff
    ensures ok == vd.isValid
    ensures ok ==> buff[..] == old(buff[..]) && text == None
    ensures !ok ==> var n := if Overruns(vd, buff.Length) then buff.Length - 1 else vd.length;
              && buff[..n] == vd.value[..n] && buff[n] == Nul
              && buff[n + 1..] == old(buff[n + 1..])
              && text == Some(CStr(buff[..]))
              && (Nul !in vd.value[..n] ==> text == Some(vd.value[..n]))
  {
    if vd.isValid {
      return true, None;
    }
    var n := if vd.length < buff.Length then vd.length else buff.Length - 1;
    var i := 0;
    while i < n
      invariant i <= n
      invariant buff[..i] == vd.value[..i]
      invariant buff[n..] == old(buff[n..])
    {
      buff[i] := vd.value[i];
      i := i + 1;
    }
    buff[n] := Nul;
    assert buff[n + 1..] == old(buff[n..])[1..];
    if Nul !in vd.value[..n] {
      CStrOfTerminated(buff[..], vd.value[..n]);
    }
    ok, text := false, Some(CStr(buff[..]));
  }
}
