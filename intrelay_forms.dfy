/**
 * The Internet relay's two settings forms. As in the watchdog, each field of
 * the POST body is looked up with FindParameter, checked and recorded in a
 * ValidationData, and the value pointer and length are shared by all fields
 * of a form.
 *
 * What is new here is that the name fields (a relay's name, the device name)
 * are edited IN the request line: every '+' of the value, the form encoding
 * of a space, is turned into a space before the value is copied. The model
 * threads the line through the fields, and proves that the edits never move
 * a field (field names hold neither '+' nor ' '), so that every rule can be
 * stated on the body as it was received.
 */
module IntRelayForms {
  import opened Common
  import opened HttpRequest
  import opened IntRelayStructures
  import HtmlOutput

  /** DATA_ROW_COUNT: the settings form has two rows (status, name) of four relays. */
  const DataRowCount := 2
  /** VALID_DATA_LEN. */
  const ValidDataLen := RelayCount * DataRowCount
  /** VALID_USER_AND_IP_LEN (6): one field for each prefix of UserIpPrefixes. */
  const ValidUserAndIpLen := |UserIpPrefixes|

  /** The field-name prefixes of the settings form's rows: PREFF_CB and PREFF_RN. */
  const RowPrefixes: seq<string> := ["cb", "rn"]
  /**
   * The field-name prefixes of the user-and-address form (suffix '1'):
   * PREFF_DN, _US, _PS, then PREFF_RN for the address, _SN, _GW.
   */
  const UserIpPrefixes: seq<string> := ["DN", "US", "PS", "rn", "SN", "GW"]

  // ---------------------------------------------------------------- the in-place edit

  /**
   * `strReplace(paramVal, paramLen, '+', ' ')` on the line: inside the value
   * `p` every '+' becomes a space; nothing else changes.
   */
  function Unplus(line: string, p: Param): (r: string)
    requires ParamIn(line, p)
    ensures |r| == |line|
  {
    seq(|line|, i requires 0 <= i < |line| => if p.start <= i < p.start + p.len && line[i] == '+' then ' ' else line[i])
  }

  /** Inside the value every '+' has become a space, and nothing else has changed. */
  lemma UnplusAt(line: string, p: Param)
    requires ParamIn(line, p)
    ensures forall i :: 0 <= i < |line| ==>
              Unplus(line, p)[i] == (if p.start <= i < p.start + p.len && line[i] == '+' then ' ' else line[i])
  {
  }

  /** `cur` is `orig` with some of its '+' turned into spaces, and nothing else changed. */
  predicate Softened(orig: string, cur: string)
  {
    |cur| == |orig| && forall i :: 0 <= i < |orig| ==> cur[i] == orig[i] || (orig[i] == '+' && cur[i] == ' ')
  }

  /** A field name in which neither '+' nor ' ' occurs. */
  predicate PlainName(name: string)
  {
    '+' !in name && ' ' !in name
  }

  /** Editing a value keeps the line a softened copy of the body as received. */
  lemma UnplusSoftens(orig: string, cur: string, p: Param)
    requires Softened(orig, cur) && ParamIn(cur, p)
    ensures Softened(orig, Unplus(cur, p))
  {
    UnplusAt(cur, p);
  }

  /** After the edit, a value reads as the received value with every '+' a space. */
  lemma UnplusValue(orig: string, cur: string, p: Param)
    requires Softened(orig, cur) && ParamIn(cur, p)
    ensures Unplus(cur, p)[p.start..p.start + p.len] == Replace(orig[p.start..p.start + p.len], '+', ' ')
  {
    UnplusAt(cur, p);
    var u, v := Unplus(cur, p)[p.start..p.start + p.len], Replace(orig[p.start..p.start + p.len], '+', ' ');
    assert forall i :: 0 <= i < p.len ==> u[i] == v[i];
  }

  /** A buffer edited character by character as Unplus says is Unplus of the buffer. */
  lemma UnplusPointwise(buffer: string, edited: string, p: Param)
    requires ParamIn(buffer, p) && |edited| == |buffer|
    requires forall i :: 0 <= i < |buffer| ==>
               edited[i] == (if p.start <= i < p.start + p.len && buffer[i] == '+' then ' ' else buffer[i])
    ensures edited == Unplus(buffer, p)
  {
    UnplusAt(buffer, p);
  }

  /** Editing a value of the first `n` characters of a buffer edits those and leaves the rest. */
  lemma UnplusPrefix(buffer: string, n: nat, p: Param)
    requires n <= |buffer| && ParamIn(buffer[..n], p)
    ensures Unplus(buffer, p)[..n] == Unplus(buffer[..n], p) && Unplus(buffer, p)[n..] == buffer[n..]
  {
    UnplusAt(buffer, p);
    UnplusAt(buffer[..n], p);
    var u, v := Unplus(buffer, p), Unplus(buffer[..n], p);
    assert forall i :: 0 <= i < n ==> u[i] == v[i];
    assert forall i :: n <= i < |buffer| ==> u[i] == buffer[i];
  }

  /** A plain name occurs in a softened line exactly where it occurs in the body. */
  lemma OccursSoftened(orig: string, cur: string, name: string, i: nat)
    requires Softened(orig, cur) && PlainName(name)
    ensures OccursAt(cur, name, i) <==> OccursAt(orig, name, i)
  {
    if i + |name| <= |orig| {
      if OccursAt(cur, name, i) {
        forall j | 0 <= j < |name|
          ensures orig[i + j] == name[j]
        {
          assert cur[i + j] == cur[i..i + |name|][j];
        }
        assert orig[i..i + |name|] == name;
      }
      if OccursAt(orig, name, i) {
        forall j | 0 <= j < |name|
          ensures cur[i + j] == name[j]
        {
          assert orig[i + j] == orig[i..i + |name|][j];
        }
        assert cur[i..i + |name|] == name;
      }
    }
  }

  /** Two lines of one length with `name` at the same places and '&' at the same places. */
  ghost predicate SameFields(a: string, b: string, name: string)
  {
    && |a| == |b|
    && (forall i: nat :: OccursAt(a, name, i) <==> OccursAt(b, name, i))
    && (forall i :: 0 <= i < |a| ==> (a[i] == '&' <==> b[i] == '&'))
  }

  /** `strstr` finds `name` at the same place in two such lines. */
  lemma {:induction false} FindSame(a: string, b: string, name: string, from: nat)
    requires SameFields(a, b, name) && from <= |a|
    ensures Find(a, name, from) == Find(b, name, from)
    decreases |a| - from
  {
    if !OccursAt(a, name, from) && from < |a| {
      FindSame(a, b, name, from + 1);
    }
  }

  /** A value runs to the same '&' in two such lines. */
  lemma {:induction false} ValueLenSame(a: string, b: string, name: string, from: nat)
    requires SameFields(a, b, name) && from <= |a|
    ensures ValueLen(a, from) == ValueLen(b, from)
    decreases |a| - from
  {
    if from < |a| && a[from] != '&' {
      ValueLenSame(a, b, name, from + 1);
    }
  }

  /** `name` is looked up alike in two such lines. */
  lemma ParameterSame(a: string, b: string, name: string)
    requires SameFields(a, b, name)
    ensures Parameter(a, name) == Parameter(b, name)
  {
    FindSame(a, b, name, 0);
    if Find(a, name).Some? {
      ValueLenSame(a, b, name, Find(a, name).value + |name|);
    }
    ParameterOfParts(a, b, name);
  }

  /** Parameter depends only on where `name` is found and how long the value after it runs. */
  lemma ParameterOfParts(a: string, b: string, name: string)
    requires Find(a, name) == Find(b, name)
    requires Find(a, name).Some? ==> ValueLen(a, Find(a, name).value + |name|) == ValueLen(b, Find(a, name).value + |name|)
    ensures Parameter(a, name) == Parameter(b, name)
  {
  }

  /** The edits never move a field: a plain name is looked up in a softened line as in the body. */
  lemma ParameterSoftened(orig: string, cur: string, name: string)
    requires Softened(orig, cur) && PlainName(name)
    ensures Parameter(cur, name) == Parameter(orig, name)
  {
    forall i: nat
      ensures OccursAt(cur, name, i) <==> OccursAt(orig, name, i)
    {
      OccursSoftened(orig, cur, name, i);
    }
    ParameterSame(cur, orig, name);
  }

  /** A name made of a plain prefix, a digit and '=' is plain. */
  lemma FieldNamePlain(prefix: string, suffix: char)
    requires PlainName(prefix) && suffix != '+' && suffix != ' '
    ensures PlainName(FieldName(prefix, suffix))
  {
  }

  // ---------------------------------------------------------------- shared definitions

  /** The value of field `name` as it stands in `text`: its characters up to the next '&'. */
  function FieldValue(text: string, name: string): (v: string)
    ensures Parameter(text, name).Some? ==> |v| == Parameter(text, name).value.len
  {
    match Parameter(text, name)
    case None => []
    case Some(p) => text[p.start..p.start + p.len]
  }

  /**
   * A name buffer after a text field: when the field is valid, its value and
   * a NUL over the start of the old buffer (`strNCopy`); otherwise the old buffer.
   */
  function Copied(v: string, valid: bool, buffer: seq<char>): seq<char>
  {
    if valid && |v| < |buffer| then StrNCopy(buffer, v, |v|) else buffer
  }

  /** A copied value, read back as a C string, is the value. */
  lemma CopiedReads(v: string, buffer: seq<char>)
    requires Nul !in v && |v| < |buffer|
    ensures CStr(Copied(v, true, buffer)) == v
  {
    CStrOfTerminated(Copied(v, true, buffer), v);
  }

  /** Replacing '+' by a space puts no NUL into a value. */
  lemma ReplaceKeepsNul(v: string)
    requires Nul !in v
    ensures Nul !in Replace(v, '+', ' ')
  {
    var r := Replace(v, '+', ' ');
    forall i | 0 <= i < |r|
      ensures r[i] != Nul
    {
      assert v[i] in v;
    }
  }

  // ---------------------------------------------------------------- settings form

  /** The row of cell `k`: the cells are numbered row by row, four relays to a row, two rows. */
  function RowOf(k: nat): nat
  {
    if k < RelayCount then 0 else 1
  }

  /** The relay of cell `k`. */
  function HostOf(k: nat): nat
  {
    if k < RelayCount then k else k - RelayCount
  }

  /** The field of `row` for relay `col`: "cbN=" or "rnN=". */
  function RelayField(row: nat, col: nat): string
    requires row < DataRowCount && col < RelayCount
  {
    FieldName(RowPrefixes[row], OneToFour[col])
  }

  lemma RelayFieldPlain(row: nat, col: nat)
    requires row < DataRowCount && col < RelayCount
    ensures PlainName(RelayField(row, col))
  {
    assert OneToFour[col] in OneToFour;
    assert RowPrefixes[row] == "cb" || RowPrefixes[row] == "rn";
    FieldNamePlain(RowPrefixes[row], OneToFour[col]);
  }

  /** The settings being built: the line as edited so far, the relays, the records and the value pointer. */
  datatype RelayScan = RelayScan(line: string, relays: seq<RelayData>, vds: seq<ValidationData>, param: Param)

  /** The status cell of relay `col`: "cbN=" is looked up; Active is set when its value starts with '1'. */
  function StatusCell(s: RelayScan, col: nat): (r: RelayScan)
    requires col < RelayCount && RelaysShaped(s.relays) && ParamIn(s.line, s.param)
    ensures RelaysShaped(r.relays) && ParamIn(r.line, r.param) && r.line == s.line
    ensures |r.vds| == |s.vds| + 1 && r.vds[..|s.vds|] == s.vds
  {
    var name := RelayField(0, col);
    var p := Lookup(s.line, name, s.param);
    var v := ValueText(s.line, p);
    var active: Byte := if Parameter(s.line, name).Some? && |v| > 0 && v[0] == '1' then 1 else 0;
    RelayScan(s.line, s.relays[col := s.relays[col].(active := active)], s.vds + [Record(s.line, true, p)], p)
  }

  /**
   * The name cell of relay `col`: "rnN=" is looked up and checked, its value
   * edited in the line, and, when it passes, copied into the name buffer.
   */
  function NameCell(s: RelayScan, col: nat): (r: RelayScan)
    requires col < RelayCount && RelaysShaped(s.relays) && ParamIn(s.line, s.param)
    ensures RelaysShaped(r.relays) && ParamIn(r.line, r.param) && |r.line| == |s.line|
    ensures |r.vds| == |s.vds| + 1 && r.vds[..|s.vds|] == s.vds
  {
    var name := RelayField(1, col);
    var p := Lookup(s.line, name, s.param);
    var valid := Parameter(s.line, name).Some? && LengthRule(p.len, RelayNameLen);
    var line := Unplus(s.line, p);
    var relay := s.relays[col];
    var relay' := if valid then relay.(relayName := StrNCopy(relay.relayName, ValueText(line, p), p.len)) else relay;
    RelayScan(line, s.relays[col := relay'], s.vds + [Record(line, valid, p)], p)
  }

  /** One turn of GetPrivateSettingsData's loops: cell `k`, on the line as the earlier cells left it. */
  function RelayCell(s: RelayScan, k: nat): (r: RelayScan)
    requires k < ValidDataLen && RelaysShaped(s.relays) && ParamIn(s.line, s.param)
    ensures RelaysShaped(r.relays) && ParamIn(r.line, r.param) && |r.line| == |s.line|
    ensures |r.vds| == |s.vds| + 1 && r.vds[..|s.vds|] == s.vds
  {
    if RowOf(k) == 0 then StatusCell(s, HostOf(k)) else NameCell(s, HostOf(k))
  }

  /** The first `n` cells of the settings form over the body `orig`, starting from the relays `relays0`. */
  function RelaysUpTo(orig: string, relays0: seq<RelayData>, n: nat): (s: RelayScan)
    requires n <= ValidDataLen && RelaysShaped(relays0)
    ensures RelaysShaped(s.relays) && ParamIn(s.line, s.param) && |s.vds| == n && |s.line| == |orig|
    decreases n
  {
    if n == 0 then RelayScan(orig, relays0, [], Unset(orig))
    else RelayCell(RelaysUpTo(orig, relays0, n - 1), n - 1)
  }
  /** One more cell of the settings form. */
  lemma RelaysUpToNext(orig: string, relays0: seq<RelayData>, k: nat)
    requires k < ValidDataLen && RelaysShaped(relays0)
    ensures RelaysUpTo(orig, relays0, k + 1) == RelayCell(RelaysUpTo(orig, relays0, k), k)
  {
  }


  /** The status field of relay `col` is in the body and its value starts with '1'. */
  predicate ActiveField(text: string, col: nat)
    requires col < RelayCount
  {
    match Parameter(text, RelayField(0, col))
    case None => false
    case Some(p) => |ValueText(text, p)| > 0 && ValueText(text, p)[0] == '1'
  }

  /** The name field of relay `col` is in the body and has 3 to RELAY_NAME_LEN characters. */
  predicate NameValid(text: string, col: nat)
    requires col < RelayCount
  {
    match Parameter(text, RelayField(1, col))
    case None => false
    case Some(p) => LengthRule(p.len, RelayNameLen)
  }

  /** The name a relay's name field gives: its value with every '+' read as a space. */
  function NameValue(text: string, col: nat): string
    requires col < RelayCount
  {
    Replace(FieldValue(text, RelayField(1, col)), '+', ' ')
  }

  /** Cell `col` and cell `col'` of the same row leave each other's relays alone. */
  predicate OthersKept(s: RelayScan, r: RelayScan, col: nat)
    requires RelaysShaped(s.relays) && RelaysShaped(r.relays)
  {
    forall j :: 0 <= j < RelayCount && j != col ==> r.relays[j] == s.relays[j]
  }

  /**
   * The status cell, on a line the earlier cells have edited: its record is
   * valid, and Active is set exactly when the body's status field starts with '1'.
   */
  lemma StatusCellEffect(orig: string, s: RelayScan, col: nat)
    requires col < RelayCount && Softened(orig, s.line) && RelaysShaped(s.relays) && ParamIn(s.line, s.param)
    ensures var r := StatusCell(s, col);
            && r.vds[|s.vds|].isValid && r.relays[col].active == (if ActiveField(orig, col) then 1 else 0)
            && r.relays[col].relayName == s.relays[col].relayName && OthersKept(s, r, col)
  {
    RelayFieldPlain(0, col);
    ParameterSoftened(orig, s.line, RelayField(0, col));
  }

  /**
   * The name cell, on a line the earlier cells have edited: the line stays a
   * softened body, the record is valid exactly when the body's name field
   * passes, and the name buffer then holds the field's name.
   */
  lemma NameCellEffect(orig: string, s: RelayScan, col: nat)
    requires col < RelayCount && Softened(orig, s.line) && RelaysShaped(s.relays) && ParamIn(s.line, s.param)
    ensures var r := NameCell(s, col);
            && Softened(orig, r.line) && (r.vds[|s.vds|].isValid <==> NameValid(orig, col))
            && r.relays[col].relayName == Copied(NameValue(orig, col), r.vds[|s.vds|].isValid, s.relays[col].relayName)
            && r.relays[col].active == s.relays[col].active && OthersKept(s, r, col)
  {
    var name := RelayField(1, col);
    RelayFieldPlain(1, col);
    ParameterSoftened(orig, s.line, name);
    var p := Lookup(s.line, name, s.param);
    UnplusSoftens(orig, s.line, p);
    NameCellCopies(orig, s, col);
  }

  /** The name the name cell copies is the body's field value with '+' read as spaces. */
  lemma NameCellCopies(orig: string, s: RelayScan, col: nat)
    requires col < RelayCount && Softened(orig, s.line) && RelaysShaped(s.relays) && ParamIn(s.line, s.param)
    requires Parameter(s.line, RelayField(1, col)) == Parameter(orig, RelayField(1, col))
    ensures var r := NameCell(s, col);
            r.relays[col].relayName == Copied(NameValue(orig, col), r.vds[|s.vds|].isValid, s.relays[col].relayName)
  {
    NameCellName(s, col);
    if Parameter(orig, RelayField(1, col)).Some? {
      NameValueAt(orig, s.line, col);
    }
  }

  /** The name value, read on the line the earlier cells softened, is what the name cell copies from. */
  lemma NameValueAt(orig: string, line: string, col: nat)
    requires col < RelayCount && Softened(orig, line) && Parameter(orig, RelayField(1, col)).Some?
    ensures var p := Parameter(orig, RelayField(1, col)).value;
            && ParamIn(line, p) && |NameValue(orig, col)| == p.len
            && NameValue(orig, col) == ValueText(Unplus(line, p), p)[..p.len]
  {
    var name := RelayField(1, col);
    var p := Parameter(orig, name).value;
    assert ParamIn(orig, p);
    UnplusValue(orig, line, p);
    ValueHead(Unplus(line, p), p);
    assert FieldValue(orig, name) == orig[p.start..p.start + p.len];
  }

  /** What the name cell does to the relay's name, with the field's value pointer `p` spelled out. */
  lemma NameCellName(s: RelayScan, col: nat)
    requires col < RelayCount && RelaysShaped(s.relays) && ParamIn(s.line, s.param)
    ensures var r := NameCell(s, col);
            var name := RelayField(1, col);
            && (Parameter(s.line, name).None? ==> !r.vds[|s.vds|].isValid && r.relays[col].relayName == s.relays[col].relayName)
            && (Parameter(s.line, name).Some? ==>
                  var p := Parameter(s.line, name).value;
                  && r.vds[|s.vds|].isValid == LengthRule(p.len, RelayNameLen)
                  && r.relays[col].relayName
                     == if LengthRule(p.len, RelayNameLen)
                        then StrNCopy(s.relays[col].relayName, ValueText(Unplus(s.line, p), p), p.len)
                        else s.relays[col].relayName)
  {
  }

  /** The first `p.len` characters from the value pointer are the value. */
  lemma ValueHead(line: string, p: Param)
    requires ParamIn(line, p)
    ensures ValueText(line, p)[..p.len] == line[p.start..p.start + p.len]
  {
  }

  /** What the status cell of relay `col` gives, against the body `orig`. */
  predicate StatusMeans(orig: string, s: RelayScan, col: nat)
    requires col < RelayCount && col < |s.vds| && RelaysShaped(s.relays)
  {
    s.vds[col].isValid && s.relays[col].active == (if ActiveField(orig, col) then 1 else 0)
  }

  /** What the name cell of relay `col` gives, against the body `orig` and the names before the form. */
  predicate NameMeans(orig: string, relays0: seq<RelayData>, s: RelayScan, col: nat)
    requires col < RelayCount && RelayCount + col < |s.vds| && RelaysShaped(s.relays) && RelaysShaped(relays0)
  {
    var valid := s.vds[RelayCount + col].isValid;
    (valid <==> NameValid(orig, col)) && s.relays[col].relayName == Copied(NameValue(orig, col), valid, relays0[col].relayName)
  }

  /**
   * Relay `col` after the cells recorded in `s`: the cells done mean what
   * they should, and its name is untouched before its name cell.
   */
  predicate RelayMeans(orig: string, relays0: seq<RelayData>, s: RelayScan, col: nat)
    requires col < RelayCount && RelaysShaped(s.relays) && RelaysShaped(relays0)
  {
    && (col < |s.vds| ==> StatusMeans(orig, s, col))
    && (RelayCount + col < |s.vds| ==> NameMeans(orig, relays0, s, col))
    && (|s.vds| <= RelayCount + col ==> s.relays[col].relayName == relays0[col].relayName)
  }

  /** What the first `n` cells guarantee: the line is a softened body, and every relay means what it should. */
  predicate RelaysMean(orig: string, relays0: seq<RelayData>, s: RelayScan, n: nat)
  {
    && Softened(orig, s.line) && ParamIn(s.line, s.param) && RelaysShaped(s.relays) && RelaysShaped(relays0)
    && n <= ValidDataLen && |s.vds| == n && AllRelaysMean(orig, relays0, s)
  }

  /** Every relay means what it should after the cells recorded in `s`. */
  predicate AllRelaysMean(orig: string, relays0: seq<RelayData>, s: RelayScan)
    requires RelaysShaped(s.relays) && RelaysShaped(relays0)
  {
    forall col :: 0 <= col < RelayCount ==> RelayMeans(orig, relays0, s, col)
  }

  /** A status cell keeps what the cells before it guarantee and adds its own. */
  lemma StatusStep(orig: string, relays0: seq<RelayData>, s: RelayScan, m: nat)
    requires m < RelayCount && RelaysMean(orig, relays0, s, m)
    ensures RelaysMean(orig, relays0, StatusCell(s, m), m + 1)
  {
    var r := StatusCell(s, m);
    StatusCellEffect(orig, s, m);
    forall col | 0 <= col < RelayCount
      ensures RelayMeans(orig, relays0, r, col)
    {
      assert RelayMeans(orig, relays0, s, col);
      if col < m {
        assert r.vds[col] == r.vds[..m][col];
      }
    }
  }

  /** A name cell keeps what the cells before it guarantee and adds its own. */
  lemma NameStep(orig: string, relays0: seq<RelayData>, s: RelayScan, m: nat)
    requires RelayCount <= m < ValidDataLen && RelaysMean(orig, relays0, s, m)
    ensures RelaysMean(orig, relays0, NameCell(s, m - RelayCount), m + 1)
  {
    var r := NameCell(s, m - RelayCount);
    NameCellEffect(orig, s, m - RelayCount);
    forall col | 0 <= col < RelayCount
      ensures RelayMeans(orig, relays0, r, col)
    {
      assert RelayMeans(orig, relays0, s, col);
      assert r.vds[col] == r.vds[..m][col];
      if RelayCount + col < m {
        assert r.vds[RelayCount + col] == r.vds[..m][RelayCount + col];
      }
    }
  }

  /** Cell `m`, whichever row it is in, keeps what the cells before it guarantee and adds its own. */
  lemma RelayStep(orig: string, relays0: seq<RelayData>, s: RelayScan, m: nat)
    requires m < ValidDataLen && RelaysMean(orig, relays0, s, m)
    ensures RelaysMean(orig, relays0, RelayCell(s, m), m + 1)
  {
    if m < RelayCount {
      StatusStep(orig, relays0, s, m);
    } else {
      NameStep(orig, relays0, s, m);
    }
  }

  /** The first `n` cells mean what RelaysMean says. */
  lemma {:induction false} RelaysUpToMean(orig: string, relays0: seq<RelayData>, n: nat)
    requires n <= ValidDataLen && RelaysShaped(relays0)
    ensures RelaysMean(orig, relays0, RelaysUpTo(orig, relays0, n), n)
    decreases n
  {
    if n > 0 {
      RelaysUpToMean(orig, relays0, n - 1);
      RelaysUpToStep(orig, relays0, n);
    }
  }

  /** RelayStep, on the scan of the first `n - 1` cells. */
  lemma RelaysUpToStep(orig: string, relays0: seq<RelayData>, n: nat)
    requires 0 < n <= ValidDataLen && RelaysShaped(relays0)
    requires RelaysMean(orig, relays0, RelaysUpTo(orig, relays0, n - 1), n - 1)
    ensures RelaysMean(orig, relays0, RelaysUpTo(orig, relays0, n), n)
  {
    RelayStep(orig, relays0, RelaysUpTo(orig, relays0, n - 1), n - 1);
  }

  /** A valid name reads back, as a C string, as the field's value with '+' turned into spaces. */
  lemma NameReads(orig: string, col: nat, buffer: seq<char>)
    requires col < RelayCount && Nul !in orig && NameValid(orig, col) && |buffer| == RelayNameLen + 1
    ensures CStr(Copied(NameValue(orig, col), true, buffer)) == NameValue(orig, col)
  {
    var name := RelayField(1, col);
    assert FieldValue(orig, name) <= orig[Parameter(orig, name).value.start..];
    ReplaceKeepsNul(FieldValue(orig, name));
    CopiedReads(NameValue(orig, col), buffer);
  }

  /**
   * What the settings form leaves for relay `col`: the status record is
   * valid and Active is set exactly when the status field starts with '1';
   * the name record is valid exactly when the name field has 3 to 16
   * characters, and then the relay's name reads as the field's value with
   * '+' turned into spaces, otherwise the name buffer is left alone.
   */
  predicate RelayOutcome(orig: string, relays0: seq<RelayData>, s: RelayScan, col: nat)
    requires col < RelayCount && |s.vds| == ValidDataLen && RelaysShaped(s.relays) && RelaysShaped(relays0)
  {
    && s.vds[col].isValid
    && s.relays[col].active == (if ActiveField(orig, col) then 1 else 0)
    && (s.vds[RelayCount + col].isValid <==> NameValid(orig, col))
    && (if s.vds[RelayCount + col].isValid then CStr(s.relays[col].relayName) == NameValue(orig, col)
        else s.relays[col].relayName == relays0[col].relayName)
  }

  /** A relay that means what it should after all eight cells has the outcome RelayOutcome states. */
  lemma RelayOutcomeOf(orig: string, relays0: seq<RelayData>, s: RelayScan, col: nat)
    requires col < RelayCount && Nul !in orig && RelaysMean(orig, relays0, s, ValidDataLen)
    ensures RelayOutcome(orig, relays0, s, col)
  {
    assert RelayMeans(orig, relays0, s, col);
    if s.vds[RelayCount + col].isValid {
      NameReads(orig, col, relays0[col].relayName);
    }
  }

  /** The meaning of the settings form: every relay has the outcome RelayOutcome states. */
  lemma RelaySettingsMeaning(orig: string, relays0: seq<RelayData>)
    requires RelaysShaped(relays0) && Nul !in orig
    ensures forall col :: 0 <= col < RelayCount ==> RelayOutcome(orig, relays0, RelaysUpTo(orig, relays0, ValidDataLen), col)
  {
    var s := RelaysUpTo(orig, relays0, ValidDataLen);
    RelaysUpToMean(orig, relays0, ValidDataLen);
    forall col | 0 <= col < RelayCount
      ensures RelayOutcome(orig, relays0, s, col)
    {
      RelayOutcomeOf(orig, relays0, s, col);
    }
  }

  /**
   * The cells of the loops of `GetPrivateSettingsData`, on the line buffer:
   * the first `n` characters are the body, and the name cells edit them in place.
   */
  method ReadRelaySettings(line: array<char>, n: nat, relays0: seq<RelayData>)
    returns (relays: seq<RelayData>, vds: seq<ValidationData>)
    requires n <= line.Length && RelaysShaped(relays0)
    modifies line
    ensures var s := RelaysUpTo(old(line[..n]), relays0, ValidDataLen);
            relays == s.relays && vds == s.vds && line[..n] == s.line
    ensures line[n..] == old(line[n..])
  {
    ghost var orig := line[..n];
    relays, vds := relays0, [];
    var param := Param(n, 0);
    for row := 0 to DataRowCount
      invariant |vds| == RelayCount * row
      invariant RelayScan(line[..n], relays, vds, param) == RelaysUpTo(orig, relays0, |vds|)
      invariant line[n..] == old(line[n..])
    {
      relays, vds, param := ReadRow(line, n, relays, vds, param, row, orig, relays0);
    }
  }

  /** The inner loop of `GetPrivateSettingsData`: the cells of row `row`, relay by relay. */
  method ReadRow(line: array<char>, n: nat, relays1: seq<RelayData>, vds1: seq<ValidationData>, param1: Param,
                 row: nat, ghost orig: string, ghost relays0: seq<RelayData>)
    returns (relays: seq<RelayData>, vds: seq<ValidationData>, param: Param)
    requires n <= line.Length && row < DataRowCount && RelaysShaped(relays0)
    requires |vds1| == RelayCount * row
    requires RelayScan(line[..n], relays1, vds1, param1) == RelaysUpTo(orig, relays0, |vds1|)
    modifies line
    ensures |vds| == RelayCount * (row + 1)
    ensures RelayScan(line[..n], relays, vds, param) == RelaysUpTo(orig, relays0, |vds|)
    ensures line[n..] == old(line[n..])
  {
    relays, vds, param := relays1, vds1, param1;
    for col := 0 to RelayCount
      invariant |vds| == RelayCount * row + col
      invariant RelayScan(line[..n], relays, vds, param) == RelaysUpTo(orig, relays0, |vds|)
      invariant line[n..] == old(line[n..])
    {
      relays, vds, param := ReadNextCell(line, n, relays, vds, param, row, col, orig, relays0);
    }
  }

  /** Cell `col` of row `row`, on the line as the cells before it have left it. */
  method ReadNextCell(line: array<char>, n: nat, relays1: seq<RelayData>, vds1: seq<ValidationData>, param1: Param,
                      row: nat, col: nat, ghost orig: string, ghost relays0: seq<RelayData>)
    returns (relays: seq<RelayData>, vds: seq<ValidationData>, param: Param)
    requires n <= line.Length && row < DataRowCount && col < RelayCount && RelaysShaped(relays0)
    requires |vds1| == RelayCount * row + col
    requires RelayScan(line[..n], relays1, vds1, param1) == RelaysUpTo(orig, relays0, |vds1|)
    modifies line
    ensures |vds| == |vds1| + 1
    ensures RelayScan(line[..n], relays, vds, param) == RelaysUpTo(orig, relays0, |vds|)
    ensures line[n..] == old(line[n..])
  {
    RelaysUpToNext(orig, relays0, |vds1|);
    relays, vds, param := ReadCell(line, n, relays1, vds1, param1, row, col);
  }

  /** Cell `col` of row `row` on the line buffer: a status cell in row 0, a name cell in row 1. */
  method ReadCell(line: array<char>, n: nat, relays0: seq<RelayData>, vds0: seq<ValidationData>, param0: Param,
                  row: nat, col: nat)
    returns (relays: seq<RelayData>, vds: seq<ValidationData>, param: Param)
    requires n <= line.Length && row < DataRowCount && col < RelayCount && |vds0| == RelayCount * row + col
    requires RelaysShaped(relays0) && ParamIn(line[..n], param0)
    modifies line
    ensures |vds| == |vds0| + 1
    ensures RelayScan(line[..n], relays, vds, param) == RelayCell(RelayScan(old(line[..n]), relays0, vds0, param0), |vds0|)
    ensures line[n..] == old(line[n..])
  {
    assert RowOf(|vds0|) == row && HostOf(|vds0|) == col;
    var relay, vd;
    if row == 0 {
      relay, vd, param := ReadStatusCell(line, n, relays0, vds0, param0, col);
    } else {
      relay, vd, param := ReadNameCell(line, n, relays0, vds0, param0, col);
    }
    relays := relays0[col := relay];
    vds := vds0 + [vd];
  }

  /** The status cell of relay `col` on the line buffer. */
  method ReadStatusCell(line: array<char>, n: nat, relays0: seq<RelayData>, vds0: seq<ValidationData>, param0: Param,
                        col: nat)
    returns (relay: RelayData, vd: ValidationData, param: Param)
    requires n <= line.Length && col < RelayCount && RelaysShaped(relays0) && ParamIn(line[..n], param0)
    ensures StatusCell(RelayScan(line[..n], relays0, vds0, param0), col)
            == RelayScan(line[..n], relays0[col := relay], vds0 + [vd], param)
  {
    relay := relays0[col];
    var findParam;
    findParam, param := FindParameter(line[..n], RowPrefixes[0], OneToFour[col], param0);
    var value := ValueText(line[..n], param);
    relay := relay.(active := if findParam && |value| > 0 && value[0] == '1' then 1 else 0);
    vd := ValidationData(true, value, param.len);
  }

  /** The name cell of relay `col` on the line buffer, whose value it edits in place. */
  method ReadNameCell(line: array<char>, n: nat, relays0: seq<RelayData>, vds0: seq<ValidationData>, param0: Param,
                      col: nat)
    returns (relay: RelayData, vd: ValidationData, param: Param)
    requires n <= line.Length && col < RelayCount && RelaysShaped(relays0) && ParamIn(line[..n], param0)
    modifies line
    ensures NameCell(RelayScan(old(line[..n]), relays0, vds0, param0), col)
            == RelayScan(line[..n], relays0[col := relay], vds0 + [vd], param)
    ensures line[n..] == old(line[n..])
  {
    ghost var text0 := line[..n];
    relay := relays0[col];
    var findParam;
    findParam, param := FindParameter(line[..n], RowPrefixes[1], OneToFour[col], param0);
    var valid := findParam && 3 <= param.len <= RelayNameLen;
    ghost var buffer0 := line[..];
    StrReplace(line, param.start, param.len, '+', ' ');
    UnplusPointwise(buffer0, line[..], param);
    UnplusPrefix(buffer0, n, param);
    var value := ValueText(line[..n], param);
    vd := ValidationData(valid, value, param.len);
    if valid {
      relay := relay.(relayName := StrNCopy(relay.relayName, value, param.len));
    }
  }

  // ---------------------------------------------------------------- user and address form

  /** The field of column `col` of the user-and-address form: its prefix and '1'. */
  function UserIpName(col: nat): string
    requires col < ValidUserAndIpLen
  {
    FieldName(UserIpPrefixes[col], '1')
  }

  lemma UserIpNamePlain(col: nat)
    requires col < ValidUserAndIpLen
    ensures PlainName(UserIpName(col))
  {
    var pre := UserIpPrefixes[col];
    assert pre == "DN" || pre == "US" || pre == "PS" || pre == "rn" || pre == "SN" || pre == "GW";
    FieldNamePlain(pre, '1');
  }

  /** The device settings being built, with the line, the records and the value pointer. */
  datatype DeviceScan = DeviceScan(line: string, device: DeviceSetting, vds: seq<ValidationData>, param: Param)

  /** The address field that column `col` (3 to 5) sets: IP, SubnetMask or Gateway. */
  function AddressField(d: DeviceSetting, col: nat): seq<Byte>
  {
    if col == 3 then d.ip else if col == 4 then d.subnetMask else d.gateway
  }

  /**
   * Column 0: "DN1=" is looked up and must have 3 to 32 characters; its
   * value is edited in the line and, when it passes, copied into the device name.
   */
  function DeviceNameField(s: DeviceScan): (r: DeviceScan)
    requires DeviceShaped(s.device) && ParamIn(s.line, s.param)
    ensures DeviceShaped(r.device) && ParamIn(r.line, r.param) && |r.line| == |s.line|
    ensures |r.vds| == |s.vds| + 1 && r.vds[..|s.vds|] == s.vds
  {
    var name := UserIpName(0);
    var p := Lookup(s.line, name, s.param);
    var valid := Parameter(s.line, name).Some? && LengthRule(p.len, DeviceNameLen);
    var line := Unplus(s.line, p);
    var d := s.device;
    var d' := if valid then d.(deviceName := StrNCopy(d.deviceName, ValueText(line, p), p.len)) else d;
    DeviceScan(line, d', s.vds + [Record(line, valid, p)], p)
  }

  /** Columns 1 and 2: "US1=" or "PS1=" must have 3 to 8 characters and is then copied. */
  function CredentialField(s: DeviceScan, col: nat): (r: DeviceScan)
    requires 1 <= col <= 2 && DeviceShaped(s.device) && ParamIn(s.line, s.param)
    ensures DeviceShaped(r.device) && ParamIn(r.line, r.param) && r.line == s.line
    ensures |r.vds| == |s.vds| + 1 && r.vds[..|s.vds|] == s.vds
  {
    var name := UserIpName(col);
    var p := Lookup(s.line, name, s.param);
    var valid := Parameter(s.line, name).Some? && LengthRule(p.len, UserPasLen);
    var v := ValueText(s.line, p);
    var d := s.device;
    var d' := if !valid then d
              else if col == 1 then d.(user := StrNCopy(d.user, v, p.len))
              else d.(password := StrNCopy(d.password, v, p.len));
    DeviceScan(s.line, d', s.vds + [Record(s.line, valid, p)], p)
  }
  /**
   * A user name or password of more than MAX_IP_STR_LEN characters fails the
   * 3..8 rule, and its record is then too long for the buffer of
   * MAX_IP_STR_LEN + 1 characters the user/IP page copies rejected values
   * into: `CheckValidData` runs past that buffer.
   */
  lemma LongCredentialOverruns(s: DeviceScan, col: nat)
    requires 1 <= col <= 2 && DeviceShaped(s.device) && ParamIn(s.line, s.param)
    requires Parameter(s.line, UserIpName(col)).Some?
    requires Parameter(s.line, UserIpName(col)).value.len > HtmlOutput.MaxIpStrLen
    ensures HtmlOutput.Overruns(CredentialField(s, col).vds[|s.vds|], HtmlOutput.MaxIpStrLen + 1)
  {
  }

  /**
   * The body "US1=" followed by a user name of 17 or more characters (and no
   * '&') is one such input: its user field is found with the whole name.
   */
  lemma LongUserOverruns(s: DeviceScan, v: string)
    requires DeviceShaped(s.device) && ParamIn(s.line, s.param)
    requires s.line == "US1=" + v && '&' !in v && |v| > HtmlOutput.MaxIpStrLen
    ensures Parameter(s.line, UserIpName(1)) == Some(Param(4, |v|))
    ensures HtmlOutput.Overruns(CredentialField(s, 1).vds[|s.vds|], HtmlOutput.MaxIpStrLen + 1)
  {
    assert UserIpName(1) == "US1=";
    assert OccursAt(s.line, "US1=", 0);
    assert s.line[4..] == v;
    LongCredentialOverruns(s, 1);
  }


  /**
   * Columns 3 to 5: the value under "rn1=", "SN1=" or "GW1=" is converted by
   * `atoip` and stored whenever it converts; the record is valid when the
   * field was found and converted.
   */
  function AddressColumn(s: DeviceScan, col: nat, atoip: string -> Option<Address>): (r: DeviceScan)
    requires 3 <= col < ValidUserAndIpLen && DeviceShaped(s.device) && ParamIn(s.line, s.param)
    ensures DeviceShaped(r.device) && ParamIn(r.line, r.param) && r.line == s.line
    ensures |r.vds| == |s.vds| + 1 && r.vds[..|s.vds|] == s.vds
  {
    var name := UserIpName(col);
    var p := Lookup(s.line, name, s.param);
    var ip := atoip(ValueText(s.line, p));
    var d := s.device;
    var d' := if ip.None? then d
              else if col == 3 then d.(ip := ip.value)
              else if col == 4 then d.(subnetMask := ip.value)
              else d.(gateway := ip.value);
    DeviceScan(s.line, d', s.vds + [Record(s.line, Parameter(s.line, name).Some? && ip.Some?, p)], p)
  }

  /** One case of GetPrivateUserAndIpData's switch: column `col`, on the line as it stands. */
  function UserIpField(s: DeviceScan, col: nat, atoip: string -> Option<Address>): (r: DeviceScan)
    requires col < ValidUserAndIpLen && DeviceShaped(s.device) && ParamIn(s.line, s.param)
    ensures DeviceShaped(r.device) && ParamIn(r.line, r.param) && |r.line| == |s.line|
    ensures |r.vds| == |s.vds| + 1 && r.vds[..|s.vds|] == s.vds
  {
    if col == 0 then DeviceNameField(s)
    else if col <= 2 then CredentialField(s, col)
    else AddressColumn(s, col, atoip)
  }

  /** The first `n` columns of the form over the body `orig`, starting from `device0`. */
  function UserIpUpTo(orig: string, device0: DeviceSetting, n: nat, atoip: string -> Option<Address>): (s: DeviceScan)
    requires n <= ValidUserAndIpLen && DeviceShaped(device0)
    ensures DeviceShaped(s.device) && ParamIn(s.line, s.param) && |s.vds| == n && |s.line| == |orig|
    decreases n
  {
    if n == 0 then DeviceScan(orig, device0, [], Unset(orig))
    else UserIpField(UserIpUpTo(orig, device0, n - 1, atoip), n - 1, atoip)
  }

  /** The line after the device name's edit, which is the only one this form makes. */
  function DnEdited(orig: string): (line: string)
    ensures Softened(orig, line)
  {
    var p := Lookup(orig, UserIpName(0), Unset(orig));
    UnplusSoftens(orig, orig, p);
    Unplus(orig, p)
  }

  /** The address `atoip` makes of column `col`'s field, when the field is there. */
  function IpOf(line: string, col: nat, atoip: string -> Option<Address>): Option<seq<Byte>>
    requires col < ValidUserAndIpLen
  {
    match Parameter(line, UserIpName(col))
    case None => None
    case Some(p) => match atoip(ValueText(line, p))
      case None => None
      case Some(a) => Some(a)
  }

  /**
   * Whether column `col` passes, on the body `orig`: the device name has 3 to
   * 32 characters, the user and the password 3 to 8, and an address field is
   * there and converts.
   */
  predicate UserIpValid(orig: string, col: nat, atoip: string -> Option<Address>)
    requires col < ValidUserAndIpLen
  {
    match Parameter(orig, UserIpName(col))
    case None => false
    case Some(p) =>
      if col == 0 then LengthRule(p.len, DeviceNameLen)
      else if col <= 2 then LengthRule(p.len, UserPasLen)
      else IpOf(DnEdited(orig), col, atoip).Some?
  }

  /** The device name the form gives: the value of "DN1=" with '+' read as spaces. */
  function DeviceNameValue(orig: string): string
  {
    Replace(FieldValue(orig, UserIpName(0)), '+', ' ')
  }

  /** The setting column `col` (0 to 2) writes: DeviceName, User or Password. */
  function NameSetting(d: DeviceSetting, col: nat): seq<char>
  {
    if col == 0 then d.deviceName else if col == 1 then d.user else d.password
  }

  /** The text column `col` (0 to 2) copies when it passes, stated on the body `orig`. */
  function NameSource(orig: string, col: nat): string
    requires col <= 2
  {
    if col == 0 then DeviceNameValue(orig) else FieldValue(DnEdited(orig), UserIpName(col))
  }

  /**
   * Record `col` of `s` against the body `orig`: valid exactly when the
   * column passes; a text column's setting holds its text when valid and is
   * as in `device0` otherwise; a valid address field's address is stored.
   */
  predicate UserIpMeaning(orig: string, device0: DeviceSetting, s: DeviceScan, col: nat, atoip: string -> Option<Address>)
    requires col < ValidUserAndIpLen && col < |s.vds| && DeviceShaped(s.device)
  {
    && (s.vds[col].isValid <==> UserIpValid(orig, col, atoip))
    && (col <= 2 ==> NameSetting(s.device, col) == Copied(NameSource(orig, col), s.vds[col].isValid, NameSetting(device0, col)))
    && (col >= 3 && s.vds[col].isValid ==> IpOf(DnEdited(orig), col, atoip) == Some(AddressField(s.device, col)))
  }

  /** Every column recorded in `s` means what it should; a text setting not reached yet is as in `device0`. */
  predicate AllUserIpMean(orig: string, device0: DeviceSetting, s: DeviceScan, atoip: string -> Option<Address>)
    requires |s.vds| <= ValidUserAndIpLen && DeviceShaped(s.device)
  {
    && (forall col :: 0 <= col < |s.vds| ==> UserIpMeaning(orig, device0, s, col, atoip))
    && (forall col :: |s.vds| <= col <= 2 ==> NameSetting(s.device, col) == NameSetting(device0, col))
  }

  /** What the first `n` columns guarantee: the line and the records. */
  predicate UserIpMean(orig: string, device0: DeviceSetting, s: DeviceScan, n: nat, atoip: string -> Option<Address>)
  {
    && n <= ValidUserAndIpLen && |s.vds| == n && DeviceShaped(s.device) && DeviceShaped(device0) && ParamIn(s.line, s.param)
    && (if n == 0 then s.line == orig && s.param == Unset(orig) else s.line == DnEdited(orig))
    && AllUserIpMean(orig, device0, s, atoip)
  }

  /** Column `col` changes only the setting it is for. */
  predicate UserIpFrame(s: DeviceScan, r: DeviceScan, col: nat)
  {
    && (forall c :: 0 <= c <= 2 && c != col ==> NameSetting(r.device, c) == NameSetting(s.device, c))
    && (forall c :: 3 <= c < ValidUserAndIpLen && c != col ==> AddressField(r.device, c) == AddressField(s.device, c))
  }

  /** The records before column `m` are kept, and the others columns' settings too. */
  lemma UserIpKeeps(orig: string, device0: DeviceSetting, s: DeviceScan, r: DeviceScan, m: nat, atoip: string -> Option<Address>)
    requires m < ValidUserAndIpLen && |s.vds| == m && |r.vds| == m + 1 && r.vds[..m] == s.vds
    requires DeviceShaped(s.device) && DeviceShaped(r.device) && UserIpFrame(s, r, m)
    requires AllUserIpMean(orig, device0, s, atoip) && UserIpMeaning(orig, device0, r, m, atoip)
    ensures AllUserIpMean(orig, device0, r, atoip)
  {
    forall col | 0 <= col < m
      ensures UserIpMeaning(orig, device0, r, col, atoip)
    {
      assert UserIpMeaning(orig, device0, s, col, atoip);
      assert r.vds[col] == r.vds[..m][col];
    }
  }

  /** Column 0 edits the line into DnEdited and means what it should. */
  lemma DeviceNameStep(orig: string, device0: DeviceSetting, s: DeviceScan, atoip: string -> Option<Address>)
    requires UserIpMean(orig, device0, s, 0, atoip)
    ensures UserIpMean(orig, device0, DeviceNameField(s), 1, atoip)
  {
    var r := DeviceNameField(s);
    assert UserIpFrame(s, r, 0);
    assert NameSetting(s.device, 0) == NameSetting(device0, 0);
    DeviceNameMeaning(orig, device0, s, atoip);
    UserIpKeeps(orig, device0, s, r, 0, atoip);
  }

  /** The record of column 0 means what it should. */
  lemma DeviceNameMeaning(orig: string, device0: DeviceSetting, s: DeviceScan, atoip: string -> Option<Address>)
    requires |s.vds| == 0 && DeviceShaped(s.device) && s.line == orig && s.param == Unset(orig)
    requires NameSetting(s.device, 0) == NameSetting(device0, 0)
    ensures UserIpMeaning(orig, device0, DeviceNameField(s), 0, atoip)
  {
    var r := DeviceNameField(s);
    var name := UserIpName(0);
    var p := Lookup(orig, name, s.param);
    assert r.line == Unplus(orig, p);
    if r.vds[0].isValid {
      assert Parameter(orig, name) == Some(p);
      UnplusValue(orig, orig, p);
      var v := r.line[p.start..p.start + p.len];
      assert ValueText(r.line, p)[..p.len] == v;
      assert FieldValue(orig, name) == orig[p.start..p.start + p.len];
      assert v == DeviceNameValue(orig);
    }
  }

  /** Columns 1 and 2 copy the user or the password and mean what they should. */
  lemma CredentialStep(orig: string, device0: DeviceSetting, s: DeviceScan, m: nat, atoip: string -> Option<Address>)
    requires 1 <= m <= 2 && UserIpMean(orig, device0, s, m, atoip)
    ensures UserIpMean(orig, device0, CredentialField(s, m), m + 1, atoip)
  {
    var r := CredentialField(s, m);
    assert UserIpFrame(s, r, m);
    assert NameSetting(s.device, m) == NameSetting(device0, m);
    CredentialMeaning(orig, device0, s, m, atoip);
    UserIpKeeps(orig, device0, s, r, m, atoip);
  }

  /** The record of column 1 or 2 means what it should. */
  lemma CredentialMeaning(orig: string, device0: DeviceSetting, s: DeviceScan, m: nat, atoip: string -> Option<Address>)
    requires 1 <= m <= 2 && m == |s.vds| && DeviceShaped(s.device) && ParamIn(s.line, s.param)
    requires s.line == DnEdited(orig) && NameSetting(s.device, m) == NameSetting(device0, m)
    ensures UserIpMeaning(orig, device0, CredentialField(s, m), m, atoip)
  {
    var r := CredentialField(s, m);
    var name := UserIpName(m);
    UserIpNamePlain(m);
    ParameterSoftened(orig, s.line, name);
    if r.vds[m].isValid {
      var p := Parameter(s.line, name).value;
      assert ValueText(s.line, p)[..p.len] == FieldValue(s.line, name);
    }
  }

  /** Columns 3 to 5 store a converted address and mean what they should. */
  lemma AddressStep(orig: string, device0: DeviceSetting, s: DeviceScan, m: nat, atoip: string -> Option<Address>)
    requires 3 <= m < ValidUserAndIpLen && UserIpMean(orig, device0, s, m, atoip)
    ensures UserIpMean(orig, device0, AddressColumn(s, m, atoip), m + 1, atoip)
  {
    var r := AddressColumn(s, m, atoip);
    UserIpNamePlain(m);
    ParameterSoftened(orig, s.line, UserIpName(m));
    assert UserIpFrame(s, r, m);
    assert UserIpMeaning(orig, device0, r, m, atoip);
    UserIpKeeps(orig, device0, s, r, m, atoip);
  }

  /** Column `m`, whichever it is, keeps what the columns before it guarantee and adds its own. */
  lemma UserIpStep(orig: string, device0: DeviceSetting, s: DeviceScan, m: nat, atoip: string -> Option<Address>)
    requires m < ValidUserAndIpLen && UserIpMean(orig, device0, s, m, atoip)
    ensures UserIpMean(orig, device0, UserIpField(s, m, atoip), m + 1, atoip)
  {
    if m == 0 {
      DeviceNameStep(orig, device0, s, atoip);
    } else if m <= 2 {
      CredentialStep(orig, device0, s, m, atoip);
    } else {
      AddressStep(orig, device0, s, m, atoip);
    }
  }

  /** The first `n` columns mean what UserIpMean says. */
  lemma {:induction false} UserIpUpToMean(orig: string, device0: DeviceSetting, n: nat, atoip: string -> Option<Address>)
    requires n <= ValidUserAndIpLen && DeviceShaped(device0)
    ensures UserIpMean(orig, device0, UserIpUpTo(orig, device0, n, atoip), n, atoip)
    decreases n
  {
    if n > 0 {
      UserIpUpToMean(orig, device0, n - 1, atoip);
      UserIpUpToStep(orig, device0, n, atoip);
    }
  }

  /** UserIpStep, on the scan of the first `n - 1` columns. */
  lemma UserIpUpToStep(orig: string, device0: DeviceSetting, n: nat, atoip: string -> Option<Address>)
    requires 0 < n <= ValidUserAndIpLen && DeviceShaped(device0)
    requires UserIpMean(orig, device0, UserIpUpTo(orig, device0, n - 1, atoip), n - 1, atoip)
    ensures UserIpMean(orig, device0, UserIpUpTo(orig, device0, n, atoip), n, atoip)
  {
    UserIpStep(orig, device0, UserIpUpTo(orig, device0, n - 1, atoip), n - 1, atoip);
  }

  /** A text column's value, read back as a C string, is the text it copied. */
  lemma NameSourceReads(orig: string, col: nat, buffer: seq<char>)
    requires col <= 2 && Nul !in orig && |NameSource(orig, col)| < |buffer|
    ensures CStr(Copied(NameSource(orig, col), true, buffer)) == NameSource(orig, col)
  {
    if col == 0 {
      DeviceNameKeepsNul(orig);
    } else {
      CredentialKeepsNul(orig, col);
    }
    CopiedReads(NameSource(orig, col), buffer);
  }

  /** A device name taken from a body without NUL holds no NUL. */
  lemma DeviceNameKeepsNul(orig: string)
    requires Nul !in orig
    ensures Nul !in DeviceNameValue(orig)
  {
    var v := FieldValue(orig, UserIpName(0));
    if Parameter(orig, UserIpName(0)).Some? {
      assert v <= orig[Parameter(orig, UserIpName(0)).value.start..];
    }
    ReplaceKeepsNul(v);
  }

  /** A user or password taken from a body without NUL holds no NUL. */
  lemma CredentialKeepsNul(orig: string, col: nat)
    requires 1 <= col <= 2 && Nul !in orig
    ensures Nul !in FieldValue(DnEdited(orig), UserIpName(col))
  {
    var line := DnEdited(orig);
    var v := FieldValue(line, UserIpName(col));
    if Parameter(line, UserIpName(col)).Some? {
      var p := Parameter(line, UserIpName(col)).value;
      forall i | 0 <= i < |v|
        ensures v[i] != Nul
      {
        assert v[i] == line[p.start + i];
        assert orig[p.start + i] in orig;
      }
    }
  }

  /**
   * What the user-and-address form leaves: each record is valid exactly when
   * its column passes; a valid device name reads as the field's value with
   * '+' turned into spaces, a valid user or password as the field's value
   * (each left alone when invalid), and a valid address field's address is
   * stored.
   */
  predicate UserIpOutcome(orig: string, device0: DeviceSetting, s: DeviceScan, atoip: string -> Option<Address>)
    requires |s.vds| == ValidUserAndIpLen
  {
    && (forall col :: 0 <= col < ValidUserAndIpLen ==> (s.vds[col].isValid <==> UserIpValid(orig, col, atoip)))
    && (forall col :: 0 <= col <= 2 ==>
          if s.vds[col].isValid then CStr(NameSetting(s.device, col)) == NameSource(orig, col)
          else NameSetting(s.device, col) == NameSetting(device0, col))
    && (s.vds[3].isValid ==> IpOf(DnEdited(orig), 3, atoip) == Some(s.device.ip))
    && (s.vds[4].isValid ==> IpOf(DnEdited(orig), 4, atoip) == Some(s.device.subnetMask))
    && (s.vds[5].isValid ==> IpOf(DnEdited(orig), 5, atoip) == Some(s.device.gateway))
  }

  /** A text column that means what it should reads back as its text, or is left alone. */
  lemma NameSettingReads(orig: string, device0: DeviceSetting, s: DeviceScan, col: nat, atoip: string -> Option<Address>)
    requires col <= 2 && col < |s.vds| && Nul !in orig && DeviceShaped(s.device) && DeviceShaped(device0)
    requires UserIpMeaning(orig, device0, s, col, atoip)
    ensures if s.vds[col].isValid then CStr(NameSetting(s.device, col)) == NameSource(orig, col)
            else NameSetting(s.device, col) == NameSetting(device0, col)
  {
    if s.vds[col].isValid {
      var name := UserIpName(col);
      UserIpNamePlain(col);
      ParameterSoftened(orig, DnEdited(orig), name);
      assert |NameSource(orig, col)| == Parameter(orig, name).value.len;
      NameSourceReads(orig, col, NameSetting(device0, col));
    }
  }

  /** The meaning of the user-and-address form: the outcome UserIpOutcome states. */
  lemma UserIpSettingsMeaning(orig: string, device0: DeviceSetting, atoip: string -> Option<Address>)
    requires DeviceShaped(device0) && Nul !in orig
    ensures UserIpOutcome(orig, device0, UserIpUpTo(orig, device0, ValidUserAndIpLen, atoip), atoip)
  {
    UserIpUpToMean(orig, device0, ValidUserAndIpLen, atoip);
    UserIpOutcomeOf(orig, device0, UserIpUpTo(orig, device0, ValidUserAndIpLen, atoip), atoip);
  }

  /** Six columns that mean what they should have the outcome UserIpOutcome states. */
  lemma UserIpOutcomeOf(orig: string, device0: DeviceSetting, s: DeviceScan, atoip: string -> Option<Address>)
    requires Nul !in orig && UserIpMean(orig, device0, s, ValidUserAndIpLen, atoip)
    ensures UserIpOutcome(orig, device0, s, atoip)
  {
    UserIpRecordsValid(orig, device0, s, atoip);
    NamesRead(orig, device0, s, atoip);
    AddressesStored(orig, device0, s, atoip);
  }

  /** The records of six columns that mean what they should. */
  lemma UserIpRecordsValid(orig: string, device0: DeviceSetting, s: DeviceScan, atoip: string -> Option<Address>)
    requires |s.vds| == ValidUserAndIpLen && DeviceShaped(s.device) && AllUserIpMean(orig, device0, s, atoip)
    ensures forall col :: 0 <= col < ValidUserAndIpLen ==> (s.vds[col].isValid <==> UserIpValid(orig, col, atoip))
  {
    forall col | 0 <= col < ValidUserAndIpLen
      ensures s.vds[col].isValid <==> UserIpValid(orig, col, atoip)
    {
      assert UserIpMeaning(orig, device0, s, col, atoip);
    }
  }

  /** The text settings of six columns that mean what they should. */
  lemma NamesRead(orig: string, device0: DeviceSetting, s: DeviceScan, atoip: string -> Option<Address>)
    requires Nul !in orig && |s.vds| == ValidUserAndIpLen && DeviceShaped(s.device) && DeviceShaped(device0)
    requires AllUserIpMean(orig, device0, s, atoip)
    ensures forall col :: 0 <= col <= 2 ==>
              if s.vds[col].isValid then CStr(NameSetting(s.device, col)) == NameSource(orig, col)
              else NameSetting(s.device, col) == NameSetting(device0, col)
  {
    forall col | 0 <= col <= 2
      ensures if s.vds[col].isValid then CStr(NameSetting(s.device, col)) == NameSource(orig, col)
              else NameSetting(s.device, col) == NameSetting(device0, col)
    {
      assert UserIpMeaning(orig, device0, s, col, atoip);
      NameSettingReads(orig, device0, s, col, atoip);
    }
  }

  /** The address columns of six columns that mean what they should. */
  lemma AddressesStored(orig: string, device0: DeviceSetting, s: DeviceScan, atoip: string -> Option<Address>)
    requires |s.vds| == ValidUserAndIpLen && DeviceShaped(s.device) && AllUserIpMean(orig, device0, s, atoip)
    ensures s.vds[3].isValid ==> IpOf(DnEdited(orig), 3, atoip) == Some(s.device.ip)
    ensures s.vds[4].isValid ==> IpOf(DnEdited(orig), 4, atoip) == Some(s.device.subnetMask)
    ensures s.vds[5].isValid ==> IpOf(DnEdited(orig), 5, atoip) == Some(s.device.gateway)
  {
    assert UserIpMeaning(orig, device0, s, 3, atoip) && UserIpMeaning(orig, device0, s, 4, atoip);
    assert UserIpMeaning(orig, device0, s, 5, atoip);
  }

  /** The loop of `GetPrivateUserAndIpData` over the line buffer, whose first `n` characters are the body. */
  method ReadUserAndIp(line: array<char>, n: nat, device0: DeviceSetting, atoip: string -> Option<Address>)
    returns (device: DeviceSetting, vds: seq<ValidationData>)
    requires n <= line.Length && DeviceShaped(device0)
    modifies line
    ensures var s := UserIpUpTo(old(line[..n]), device0, ValidUserAndIpLen, atoip);
            device == s.device && vds == s.vds && line[..n] == s.line
    ensures line[n..] == old(line[n..])
  {
    ghost var orig := line[..n];
    device, vds := device0, [];
    var param := Param(n, 0);
    for col := 0 to ValidUserAndIpLen
      invariant DeviceScan(line[..n], device, vds, param) == UserIpUpTo(orig, device0, col, atoip)
      invariant line[n..] == old(line[n..])
    {
      var vd;
      if col == 0 {
        device, vd, param := ReadDeviceName(line, n, device, vds, param);
      } else {
        device, vd, param := ReadUserIpValue(line[..n], device, vds, param, col, atoip);
      }
      vds := vds + [vd];
    }
  }

  /** Case 0 of the switch on the line buffer: the device name, edited in place. */
  method ReadDeviceName(line: array<char>, n: nat, device0: DeviceSetting, vds0: seq<ValidationData>, param0: Param)
    returns (device: DeviceSetting, vd: ValidationData, param: Param)
    requires n <= line.Length && DeviceShaped(device0) && ParamIn(line[..n], param0)
    modifies line
    ensures DeviceNameField(DeviceScan(old(line[..n]), device0, vds0, param0))
            == DeviceScan(line[..n], device, vds0 + [vd], param)
    ensures line[n..] == old(line[n..])
  {
    device := device0;
    var findParam;
    findParam, param := FindParameter(line[..n], UserIpPrefixes[0], '1', param0);
    var valid := findParam && 3 <= param.len <= DeviceNameLen;
    ghost var buffer0 := line[..];
    StrReplace(line, param.start, param.len, '+', ' ');
    UnplusPointwise(buffer0, line[..], param);
    UnplusPrefix(buffer0, n, param);
    var value := ValueText(line[..n], param);
    vd := ValidationData(valid, value, param.len);
    if valid {
      device := device.(deviceName := StrNCopy(device.deviceName, value, param.len));
    }
  }

  /** Cases 1 to 5 of the switch: a credential or an address, read from the line without editing it. */
  method ReadUserIpValue(text: string, device0: DeviceSetting, vds0: seq<ValidationData>, param0: Param, col: nat,
                         atoip: string -> Option<Address>)
    returns (device: DeviceSetting, vd: ValidationData, param: Param)
    requires 1 <= col < ValidUserAndIpLen && DeviceShaped(device0) && ParamIn(text, param0)
    ensures UserIpField(DeviceScan(text, device0, vds0, param0), col, atoip) == DeviceScan(text, device, vds0 + [vd], param)
  {
    device := device0;
    var findParam;
    findParam, param := FindParameter(text, UserIpPrefixes[col], '1', param0);
    var value := ValueText(text, param);
    if col <= 2 {
      var valid := findParam && 3 <= param.len <= UserPasLen;
      vd := ValidationData(valid, value, param.len);
      if valid && col == 1 {
        device := device.(user := StrNCopy(device.user, value, param.len));
      } else if valid {
        device := device.(password := StrNCopy(device.password, value, param.len));
      }
    } else {
      var cnvResult := atoip(value);
      vd := ValidationData(findParam && cnvResult.Some?, value, param.len);
      if cnvResult.Some? {
        if col == 3 {
          device := device.(ip := cnvResult.value);
        } else if col == 4 {
          device := device.(subnetMask := cnvResult.value);
        } else {
          device := device.(gateway := cnvResult.value);
        }
      }
    }
  }
}
