/**
 * The request handling of the ProDino Internet relay. One HTTP request is
 * read from the client and checked (request line, page, Basic
 * authorisation), then answered with a page. The index page's form switches
 * one relay. The two settings forms fill the new relay list or the new device
 * settings, which are stored, and taken into use, only when every field of
 * the form is valid.
 *
 * The handler works on the application's globals, the connection with its
 * request-line buffer, and a `Board`: the relay outputs, the image of the
 * two settings blocks in EEPROM, the addresses-changed flag and the log of
 * the pages sent. `atoip` and the credentials comparison are
 * parameters.
 */
module IntRelayProcessing {
  import opened Common
  import opened HttpRequest
  import opened IntRelayStructures
  import opened IntRelayForms

  /** WEB_PAGE_LINK: the pages WP_INDEX, WP_SETTINGS and WP_USERANDIP, in the order they are tried. */
  const PageLinks: seq<string> := ["/", "/settings", "/userandip"]
  const WpIndex := 0
  const WpSettings := 1
  const WpUserAndIp := 2

  /** W_OFF and W_ON: the values the index page's buttons send. */
  const WordOff: string := "OFF"
  const WordOn: string := "ON"

  /** A page the board sends, with the arguments it is rendered from. */
  datatype Page =
    | IndexPage
    | UnauthorizedPage
    | SettingsPage(relays: seq<RelayData>, vds: Option<seq<ValidationData>>, showError: bool, showSuccess: bool)
    | UserAndIpPage(device: DeviceSetting, vds: Option<seq<ValidationData>>, showError: bool, showSuccess: bool)

  /** `p` is the page that answers WEB_PAGE_LINK entry `wp`. */
  predicate Answers(p: Page, wp: nat)
  {
    if wp == WpIndex then p.IndexPage? else if wp == WpSettings then p.SettingsPage? else p.UserAndIpPage?
  }

  // ---------------------------------------------------------------- admission

  /** How the first lines of a request are judged: dropped, refused, or admitted to a page. */
  datatype Gate = Dropped | Refused | Admitted(rt: RequestType, wp: nat)

  /**
   * The judgement of processRequest on the input `input`, with the request
   * buffer holding `buf`: the request line must be read and name GET or POST
   * and one of the pages, and then the Authorization header must carry
   * credentials `accept` takes.
   */
  function GateOf(buf: seq<char>, input: string, accept: string -> bool): (gate: Gate)
    requires |buf| == MaxRequestLineLen + 1
    ensures gate.Admitted? ==> gate.rt != RtNone && gate.wp < |PageLinks|
  {
    var r := ReadLine(buf, input);
    var text := CStr(r.buf);
    var rt := GetRequestType(text);
    var wp := PageOf(text, PageLinks);
    if !r.ok || rt == RtNone || wp.None? then Dropped
    else if !Authorization(r.buf, input[r.consumed..], accept).ok then Refused
    else Admitted(rt, wp.value)
  }

  /**
   * An admitted request has a request line that starts with GET or POST and
   * holds the page's link between spaces, no earlier link, and credentials
   * that were accepted.
   */
  lemma AdmittedMeans(buf: seq<char>, input: string, accept: string -> bool)
    requires |buf| == MaxRequestLineLen + 1 && GateOf(buf, input, accept).Admitted?
    ensures var r := ReadLine(buf, input);
            var gate := GateOf(buf, input, accept);
            var a := Authorization(r.buf, input[r.consumed..], accept);
            && r.ok
            && (StartsWith(CStr(r.buf), "GET") || StartsWith(CStr(r.buf), "POST"))
            && Contains(CStr(r.buf), Framed(PageLinks[gate.wp]))
            && (forall j :: 0 <= j < gate.wp ==> !Contains(CStr(r.buf), Framed(PageLinks[j])))
            && a.credentials.Some? && accept(a.credentials.value)
  {
  }

  // ---------------------------------------------------------------- the index form

  /** What relay `col`'s "rnN" field asks for: OFF (checked first), ON, or nothing. */
  function Asked(text: string, col: nat): Option<bool>
    requires col < RelayCount
  {
    match Parameter(text, RelayField(1, col))
    case None => None
    case Some(p) =>
      if StartsWith(text[p.start..], WordOff) then Some(false)
      else if StartsWith(text[p.start..], WordOn) then Some(true)
      else None
  }

  /** A relay and the state it is switched to. */
  datatype Switch = Switch(relay: nat, on: bool)

  /** The switch IndexPOST makes: the first relay from `col` on whose field asks for something. */
  function SwitchFrom(text: string, col: nat): (r: Option<Switch>)
    requires col <= RelayCount
    ensures r.Some? ==> col <= r.value.relay < RelayCount
    decreases RelayCount - col
  {
    if col == RelayCount then None
    else match Asked(text, col)
      case Some(on) => Some(Switch(col, on))
      case None => SwitchFrom(text, col + 1)
  }

  /** The relay outputs after a switch: only the switched relay changes. */
  function Switched(relays: seq<bool>, sw: Option<Switch>): seq<bool>
  {
    if sw.Some? && sw.value.relay < |relays| then relays[sw.value.relay := sw.value.on] else relays
  }

  /** SwitchFrom finds the first relay whose field asks for OFF or ON, and what it asks for. */
  lemma {:induction false} SwitchFromIsFirst(text: string, col: nat)
    requires col <= RelayCount && SwitchFrom(text, col).Some?
    ensures var sw := SwitchFrom(text, col).value;
            && Asked(text, sw.relay) == Some(sw.on)
            && forall j :: col <= j < sw.relay ==> Asked(text, j).None?
    decreases RelayCount - col
  {
    if Asked(text, col).None? {
      SwitchFromIsFirst(text, col + 1);
    }
  }

  /** No switch means that no relay's field asks for anything. */
  lemma {:induction false} NoSwitchAsksNothing(text: string, col: nat)
    requires col <= RelayCount && SwitchFrom(text, col).None?
    ensures forall j :: col <= j < RelayCount ==> Asked(text, j).None?
    decreases RelayCount - col
  {
    if col < RelayCount {
      NoSwitchAsksNothing(text, col + 1);
    }
  }

  /** The body an index-page button posts: "rnN=OFF" or "rnN=ON". */
  function ButtonBody(k: nat, on: bool): string
    requires k < RelayCount
  {
    RelayField(1, k) + (if on then WordOn else WordOff)
  }

  /** Pressing relay k's OFF or ON button switches relay k, and only it, to that state. */
  lemma ButtonSwitches(k: nat, on: bool, relays: seq<bool>)
    requires k < RelayCount && |relays| == RelayCount
    ensures SwitchFrom(ButtonBody(k, on), 0) == Some(Switch(k, on))
    ensures Switched(relays, SwitchFrom(ButtonBody(k, on), 0)) == relays[k := on]
  {
    var text := ButtonBody(k, on);
    forall j | 0 <= j < k ensures Asked(text, j).None? {
      ButtonOtherField(k, on, j);
    }
    ButtonOwnField(k, on);
    SwitchFromIsFirstUpTo(text, k);
  }

  /** In a button body, no other relay's field occurs. */
  lemma ButtonOtherField(k: nat, on: bool, j: nat)
    requires k < RelayCount && j < RelayCount && j != k
    ensures Parameter(ButtonBody(k, on), RelayField(1, j)).None?
    ensures Asked(ButtonBody(k, on), j).None?
  {
    var text := ButtonBody(k, on);
    var name := RelayField(1, j);
    forall i: nat ensures !OccursAt(text, name, i) {
      if i + |name| <= |text| {
        if i == 0 {
          assert text[i..i + |name|][2] == OneToFour[k] != OneToFour[j] == name[2];
        } else {
          assert text[i..i + |name|][0] == text[i] != 'r' == name[0];
        }
      }
    }
    ParameterIsFirst(text, name);
  }

  /** In a button body, the relay's own field is found at the start, and its value is the word. */
  lemma ButtonOwnField(k: nat, on: bool)
    requires k < RelayCount
    ensures Asked(ButtonBody(k, on), k) == Some(on)
  {
    var text := ButtonBody(k, on);
    var name := RelayField(1, k);
    assert OccursAt(text, name, 0);
    assert Find(text, name) == Some(0);
    assert text[4..] == (if on then WordOn else WordOff);
  }

  /** When the fields of relays before k ask for nothing, the switch is decided from k on. */
  lemma {:induction false} SwitchFromIsFirstUpTo(text: string, k: nat)
    requires k <= RelayCount
    requires forall j :: 0 <= j < k ==> Asked(text, j).None?
    ensures SwitchFrom(text, 0) == SwitchFrom(text, k)
    decreases k
  {
    if k > 0 {
      SwitchFromIsFirstUpTo(text, k - 1);
    }
  }

  // ---------------------------------------------------------------- saving

  /** Every record of a form is valid. */
  predicate AllValid(vds: seq<ValidationData>)
  {
    forall i :: 0 <= i < |vds| ==> vds[i].isValid
  }

  /** Every relay name in the settings body is valid (the status fields always are). */
  predicate NamesValid(orig: string)
  {
    forall col :: 0 <= col < RelayCount ==> NameValid(orig, col)
  }

  /** Every field of the user-and-address body is valid. */
  predicate UserIpAllValid(orig: string, atoip: string -> Option<Address>)
  {
    forall col :: 0 <= col < ValidUserAndIpLen ==> UserIpValid(orig, col, atoip)
  }

  /** The settings form has no invalid record exactly when every relay name in it is valid. */
  lemma SettingsSavedIff(orig: string, relays0: seq<RelayData>)
    requires RelaysShaped(relays0) && Nul !in orig
    ensures AllValid(RelaysUpTo(orig, relays0, ValidDataLen).vds) <==> NamesValid(orig)
  {
    var s := RelaysUpTo(orig, relays0, ValidDataLen);
    RelaySettingsMeaning(orig, relays0);
    if NamesValid(orig) {
      forall i | 0 <= i < |s.vds| ensures s.vds[i].isValid {
        if i < RelayCount {
          assert RelayOutcome(orig, relays0, s, i);
        } else {
          assert RelayOutcome(orig, relays0, s, i - RelayCount);
        }
      }
    }
    if AllValid(s.vds) {
      forall col | 0 <= col < RelayCount ensures NameValid(orig, col) {
        assert RelayOutcome(orig, relays0, s, col);
        assert s.vds[RelayCount + col].isValid;
      }
    }
  }

  /** The user-and-address form has no invalid record exactly when every field in it is valid. */
  lemma UserIpSavedIff(orig: string, device0: DeviceSetting, atoip: string -> Option<Address>)
    requires DeviceShaped(device0) && Nul !in orig
    ensures AllValid(UserIpUpTo(orig, device0, ValidUserAndIpLen, atoip).vds) <==> UserIpAllValid(orig, atoip)
  {
    UserIpSettingsMeaning(orig, device0, atoip);
  }

  /** The error check of the POST handlers: whether some record is invalid. */
  method HasError(vds: seq<ValidationData>) returns (isError: bool)
    ensures isError <==> !AllValid(vds)
  {
    isError := false;
    for i := 0 to |vds|
      invariant forall j :: 0 <= j < i ==> vds[j].isValid
    {
      if !vds[i].isValid {
        isError := true;
        break;
      }
    }
  }

  // ---------------------------------------------------------------- the request buffer

  /** The length of the C string in the request buffer, which ends at the latest at its last character. */
  method LineLength(line: array<char>) returns (n: nat)
    requires line.Length == MaxRequestLineLen + 1 && line[MaxRequestLineLen] == Nul
    ensures n == |CStr(line[..])| && n <= MaxRequestLineLen
    ensures line[..n] == CStr(line[..])
  {
    CStrStopsAt(line[..], MaxRequestLineLen);
    n := StrLen(line);
  }

  /**
   * The settings fields of the C string in the request buffer, read in place
   * (the names' '+' become spaces); what follows the string is left alone.
   */
  method ReadSettingsLine(line: array<char>, relays0: seq<RelayData>) returns (relays: seq<RelayData>, vds: seq<ValidationData>)
    requires line.Length == MaxRequestLineLen + 1 && line[MaxRequestLineLen] == Nul && RelaysShaped(relays0)
    modifies line
    ensures line[MaxRequestLineLen] == Nul
    ensures var orig := CStr(old(line[..]));
            var s := RelaysUpTo(orig, relays0, ValidDataLen);
            relays == s.relays && vds == s.vds && line[..] == s.line + old(line[..])[|orig|..]
  {
    ghost var before := line[..];
    var n := LineLength(line);
    relays, vds := ReadRelaySettings(line, n, relays0);
    assert line[n..] == before[n..];
    assert line[MaxRequestLineLen] == line[n..][MaxRequestLineLen - n];
    assert line[..] == line[..n] + line[n..];
  }

  /** The user-and-address fields of the C string in the request buffer, read in place. */
  method ReadUserAndIpLine(line: array<char>, device0: DeviceSetting, atoip: string -> Option<Address>)
    returns (device: DeviceSetting, vds: seq<ValidationData>)
    requires line.Length == MaxRequestLineLen + 1 && line[MaxRequestLineLen] == Nul && DeviceShaped(device0)
    modifies line
    ensures line[MaxRequestLineLen] == Nul
    ensures var orig := CStr(old(line[..]));
            var s := UserIpUpTo(orig, device0, ValidUserAndIpLen, atoip);
            device == s.device && vds == s.vds && line[..] == s.line + old(line[..])[|orig|..]
  {
    ghost var before := line[..];
    var n := LineLength(line);
    device, vds := ReadUserAndIp(line, n, device0, atoip);
    assert line[n..] == before[n..];
    assert line[MaxRequestLineLen] == line[n..][MaxRequestLineLen - n];
    assert line[..] == line[..n] + line[n..];
  }

  // ---------------------------------------------------------------- the board

  /** The request buffer can be read into: its size, and the NUL that always ends it. */
  ghost predicate Ready(conn: Connection)
    reads conn, conn.line
  {
    conn.Valid() && conn.line[MaxRequestLineLen] == Nul
  }

  /**
   * What the handler changes besides the globals and the connection: the
   * relay outputs, the image of the two settings blocks in EEPROM, the
   * addresses-changed flag and the log of the pages sent.
   */
  class Board {
    /** The relay outputs (SetRelayStatus), true when on. */
    var relays: seq<bool>
    /** The DeviceData block of the EEPROM image. */
    var eepromDevice: DeviceSetting
    /** The RelayDataList block of the EEPROM image. */
    var eepromRelays: seq<RelayData>
    /** `_addressesChanged`: set whenever the settings are reloaded from EEPROM. */
    var addressesChanged: bool
    /** The pages sent, in order. */
    var sent: seq<Page>

    ghost predicate Valid()
      reads this
    {
      |relays| == RelayCount && DeviceShaped(eepromDevice) && RelaysShaped(eepromRelays)
    }

    /** A board whose EEPROM holds the given settings, with every relay off and nothing sent. */
    constructor(device: DeviceSetting, relayList: seq<RelayData>)
      requires DeviceShaped(device) && RelaysShaped(relayList)
      ensures Valid() && eepromDevice == device && eepromRelays == relayList
      ensures relays == [false, false, false, false] && sent == [] && !addressesChanged
    {
      relays := [false, false, false, false];
      eepromDevice, eepromRelays := device, relayList;
      addressesChanged := false;
      sent := [];
    }
  }

  /** The settings in use are the ones stored in EEPROM. */
  ghost predicate Persisted(g: Globals, b: Board)
    reads g, b
  {
    g.deviceData == b.eepromDevice && g.relayDataList == b.eepromRelays
  }

  // ---------------------------------------------------------------- the handlers

  /**
   * `IsAuthorized`: the header lines are searched for accepted credentials;
   * when there are none the rest of the request is dropped and the
   * "401 Unauthorized" page is sent.
   */
  method IsAuthorized(b: Board, conn: Connection, accept: string -> bool) returns (ok: bool)
    requires Ready(conn)
    modifies b, conn, conn.line
    ensures Ready(conn)
    ensures var a := Authorization(old(conn.line[..]), old(conn.pending), accept);
            && ok == a.ok && conn.line[..] == a.buf
            && (ok ==> conn.pending == a.rest && b.sent == old(b.sent))
            && (!ok ==> conn.pending == [] && b.sent == old(b.sent) + [UnauthorizedPage])
    ensures b.relays == old(b.relays) && b.eepromDevice == old(b.eepromDevice) && b.eepromRelays == old(b.eepromRelays)
    ensures b.addressesChanged == old(b.addressesChanged)
  {
    AuthorizationKeepsLast(conn.line[..], conn.pending, accept);
    ok := conn.CheckRequestIsAuthorized(accept);
    if ok {
      return;
    }
    conn.ReadRequestToEnd();
    b.sent := b.sent + [UnauthorizedPage];
  }

  /**
   * The switch loop of `IndexPOST` over the form body `text`: the first
   * relay whose "rnN" value starts with OFF or ON is switched to that state.
   */
  method SwitchRelays(b: Board, text: string)
    requires b.Valid()
    modifies b
    ensures b.Valid()
    ensures b.relays == Switched(old(b.relays), SwitchFrom(text, 0))
    ensures b.sent == old(b.sent) && b.eepromDevice == old(b.eepromDevice) && b.eepromRelays == old(b.eepromRelays)
    ensures b.addressesChanged == old(b.addressesChanged)
  {
    var val := Unset(text);
    var col := 0;
    while col < RelayCount
      invariant col <= RelayCount
      invariant SwitchFrom(text, col) == SwitchFrom(text, 0)
      invariant b.relays == old(b.relays)
      invariant b.sent == old(b.sent) && b.eepromDevice == old(b.eepromDevice) && b.eepromRelays == old(b.eepromRelays)
      invariant b.addressesChanged == old(b.addressesChanged)
    {
      var switched;
      switched, val := SwitchRelay(b, text, col, val);
      if switched {
        return;
      }
      col := col + 1;
    }
  }

  /**
   * One round of IndexPOST's switch loop: relay `col` is switched when its
   * "rnN" value starts with OFF or ON, which ends the loop.
   */
  method SwitchRelay(b: Board, text: string, col: nat, val0: Param) returns (switched: bool, val: Param)
    requires b.Valid() && col < RelayCount
    modifies b
    ensures b.Valid()
    ensures switched <==> Asked(text, col).Some?
    ensures switched ==> b.relays == Switched(old(b.relays), SwitchFrom(text, col))
    ensures !switched ==> b.relays == old(b.relays) && SwitchFrom(text, col + 1) == SwitchFrom(text, col)
    ensures b.sent == old(b.sent) && b.eepromDevice == old(b.eepromDevice) && b.eepromRelays == old(b.eepromRelays)
    ensures b.addressesChanged == old(b.addressesChanged)
  {
    var found;
    found, val := FindParameter(text, RowPrefixes[1], OneToFour[col], val0);
    switched := false;
    if found {
      if StartsWith(text[val.start..], WordOff) {
        b.relays := b.relays[col := false];
        return true, val;
      }
      if StartsWith(text[val.start..], WordOn) {
        b.relays := b.relays[col := true];
        return true, val;
      }
    }
  }

  /**
   * `IndexPOST`: the form body is found and, when there is one, its switch
   * is made; the index page is sent.
   */
  method IndexPost(b: Board, conn: Connection)
    requires Ready(conn) && b.Valid()
    modifies b, conn, conn.line
    ensures Ready(conn) && b.Valid()
    ensures var h := AfterHeaders(old(conn.line[..]), old(conn.pending));
            && conn.line[..] == h.0 && conn.pending == h.1
            && b.relays == (if h.0[0] == Nul then old(b.relays) else Switched(old(b.relays), SwitchFrom(CStr(h.0), 0)))
    ensures b.sent == old(b.sent) + [IndexPage]
    ensures b.eepromDevice == old(b.eepromDevice) && b.eepromRelays == old(b.eepromRelays)
    ensures b.addressesChanged == old(b.addressesChanged)
  {
    AfterHeadersKeepsLast(conn.line[..], conn.pending);
    conn.GetPostParameterLine();
    if conn.line[0] != Nul {
      var n := LineLength(conn.line);
      SwitchRelays(b, conn.line[..n]);
    }
    b.sent := b.sent + [IndexPage];
  }

  /**
   * `GetPrivateSettingsData`: the form body is found; an empty one gives
   * false, otherwise its fields fill the relay list and records returned
   * (RelayDataNewList and ValidationForRelayDataNewList), and the '+' of the
   * names are turned into spaces in the buffer.
   */
  method GetPrivateSettingsData(conn: Connection, relays0: seq<RelayData>)
    returns (ok: bool, relays: seq<RelayData>, vds: seq<ValidationData>)
    requires Ready(conn) && RelaysShaped(relays0)
    modifies conn, conn.line
    ensures Ready(conn)
    ensures var h := AfterHeaders(old(conn.line[..]), old(conn.pending));
            var orig := CStr(h.0);
            var s := RelaysUpTo(orig, relays0, ValidDataLen);
            && conn.pending == h.1
            && (ok <==> h.0[0] != Nul)
            && (ok ==> relays == s.relays && vds == s.vds && conn.line[..] == s.line + h.0[|orig|..])
            && (!ok ==> conn.line[..] == h.0)
  {
    AfterHeadersKeepsLast(conn.line[..], conn.pending);
    conn.GetPostParameterLine();
    if conn.line[0] == Nul {
      return false, [], [];
    }
    relays, vds := ReadSettingsLine(conn.line, relays0);
    ok := true;
  }

  /**
   * `GetPrivateUserAndIpData`: like GetPrivateSettingsData, for the device
   * name, user, password and addresses of DeviceDataNew and ValidUserAndIP.
   */
  method GetPrivateUserAndIpData(conn: Connection, device0: DeviceSetting, atoip: string -> Option<Address>)
    returns (ok: bool, device: DeviceSetting, vds: seq<ValidationData>)
    requires Ready(conn) && DeviceShaped(device0)
    modifies conn, conn.line
    ensures Ready(conn)
    ensures var h := AfterHeaders(old(conn.line[..]), old(conn.pending));
            var orig := CStr(h.0);
            var s := UserIpUpTo(orig, device0, ValidUserAndIpLen, atoip);
            && conn.pending == h.1
            && (ok <==> h.0[0] != Nul)
            && (ok ==> device == s.device && vds == s.vds && conn.line[..] == s.line + h.0[|orig|..])
            && (!ok ==> conn.line[..] == h.0)
  {
    AfterHeadersKeepsLast(conn.line[..], conn.pending);
    conn.GetPostParameterLine();
    if conn.line[0] == Nul {
      return false, device0, [];
    }
    device, vds := ReadUserAndIpLine(conn.line, device0, atoip);
    ok := true;
  }

  /**
   * `PrivateSettingsPOST`: the form is read and the rest of the request
   * dropped. A form whose relay names are all valid is written to EEPROM
   * and reloaded, and the page shows success; otherwise nothing is stored
   * and the page shows the records with an error. Without a form body the
   * stored list is shown with an error.
   */
  method PrivateSettingsPost(g: Globals, b: Board, conn: Connection)
    requires g.Valid() && b.Valid() && Ready(conn)
    modifies g, b, conn, conn.line
    ensures g.Valid() && b.Valid() && Ready(conn) && conn.pending == []
    ensures var h := AfterHeaders(old(conn.line[..]), old(conn.pending));
            var orig := CStr(h.0);
            var s := RelaysUpTo(orig, old(g.relayDataNewList), ValidDataLen);
            var saved := h.0[0] != Nul && NamesValid(orig);
            && (h.0[0] == Nul ==> b.sent == old(b.sent) + [SettingsPage(old(g.relayDataList), None, true, false)])
            && (h.0[0] != Nul ==> (g.relayDataNewList == s.relays
                                  && b.sent == old(b.sent) + [SettingsPage(s.relays, Some(s.vds), !saved, saved)]))
            && (saved ==> b.eepromRelays == s.relays && g.relayDataList == s.relays
                          && g.deviceData == old(b.eepromDevice) && b.addressesChanged)
            && (!saved ==> b.eepromRelays == old(b.eepromRelays) && g.relayDataList == old(g.relayDataList)
                           && g.deviceData == old(g.deviceData) && b.addressesChanged == old(b.addressesChanged))
    ensures old(Persisted(g, b)) ==> Persisted(g, b)
    ensures b.relays == old(b.relays) && b.eepromDevice == old(b.eepromDevice)
    ensures g.deviceDataNew == old(g.deviceDataNew) && g.validUserAndIp == old(g.validUserAndIp)
  {
    ghost var h := AfterHeaders(conn.line[..], conn.pending);
    var gsResult, relays, vds := GetPrivateSettingsData(conn, g.relayDataNewList);
    conn.ReadRequestToEnd();
    if gsResult {
      SettingsSavedIff(CStr(h.0), old(g.relayDataNewList));
    }
    StoreSettings(g, b, gsResult, relays, vds);
  }

  /**
   * The second half of `PrivateSettingsPOST`, once the form is read: a form
   * body without invalid records is stored in EEPROM and reloaded; the page
   * is sent with the records, or with the list in use when there was no body.
   */
  method StoreSettings(g: Globals, b: Board, gsResult: bool, relays: seq<RelayData>, vds: seq<ValidationData>)
    requires g.Valid() && b.Valid() && (gsResult ==> RelaysShaped(relays))
    modifies g, b
    ensures g.Valid() && b.Valid()
    ensures var saved := gsResult && AllValid(vds);
            && (!gsResult ==> b.sent == old(b.sent) + [SettingsPage(old(g.relayDataList), None, true, false)]
                              && g.relayDataNewList == old(g.relayDataNewList))
            && (gsResult ==> g.relayDataNewList == relays
                             && b.sent == old(b.sent) + [SettingsPage(relays, Some(vds), !saved, saved)])
            && (saved ==> b.eepromRelays == relays && g.relayDataList == relays
                          && g.deviceData == old(b.eepromDevice) && b.addressesChanged)
            && (!saved ==> b.eepromRelays == old(b.eepromRelays) && g.relayDataList == old(g.relayDataList)
                           && g.deviceData == old(g.deviceData) && b.addressesChanged == old(b.addressesChanged))
    ensures old(Persisted(g, b)) ==> Persisted(g, b)
    ensures b.relays == old(b.relays) && b.eepromDevice == old(b.eepromDevice)
    ensures g.deviceDataNew == old(g.deviceDataNew) && g.validUserAndIp == old(g.validUserAndIp)
  {
    if !gsResult {
      b.sent := b.sent + [SettingsPage(g.relayDataList, None, true, false)];
      return;
    }
    g.relayDataNewList, g.validationForRelayDataNewList := relays, vds;
    var isError := HasError(vds);
    if !isError {
      b.eepromRelays := relays;
      g.deviceData, g.relayDataList := b.eepromDevice, b.eepromRelays;
      b.addressesChanged := true;
    }
    b.sent := b.sent + [SettingsPage(relays, Some(vds), isError, !isError)];
  }

  /**
   * `PrivateUserAndIpPOST`: like PrivateSettingsPOST, for the device
   * settings; they are stored only when every field is valid.
   */
  method PrivateUserAndIpPost(g: Globals, b: Board, conn: Connection, atoip: string -> Option<Address>)
    requires g.Valid() && b.Valid() && Ready(conn)
    modifies g, b, conn, conn.line
    ensures g.Valid() && b.Valid() && Ready(conn) && conn.pending == []
    ensures var h := AfterHeaders(old(conn.line[..]), old(conn.pending));
            var orig := CStr(h.0);
            var s := UserIpUpTo(orig, old(g.deviceDataNew), ValidUserAndIpLen, atoip);
            var saved := h.0[0] != Nul && UserIpAllValid(orig, atoip);
            && (h.0[0] == Nul ==> b.sent == old(b.sent) + [UserAndIpPage(old(g.deviceData), None, true, false)])
            && (h.0[0] != Nul ==> (g.deviceDataNew == s.device
                                  && b.sent == old(b.sent) + [UserAndIpPage(s.device, Some(s.vds), !saved, saved)]))
            && (saved ==> b.eepromDevice == s.device && g.deviceData == s.device
                          && g.relayDataList == old(b.eepromRelays) && b.addressesChanged)
            && (!saved ==> b.eepromDevice == old(b.eepromDevice) && g.deviceData == old(g.deviceData)
                           && g.relayDataList == old(g.relayDataList) && b.addressesChanged == old(b.addressesChanged))
    ensures old(Persisted(g, b)) ==> Persisted(g, b)
    ensures b.relays == old(b.relays) && b.eepromRelays == old(b.eepromRelays)
    ensures g.relayDataNewList == old(g.relayDataNewList)
    ensures g.validationForRelayDataNewList == old(g.validationForRelayDataNewList)
  {
    ghost var h := AfterHeaders(conn.line[..], conn.pending);
    var gsResult, device, vds := GetPrivateUserAndIpData(conn, g.deviceDataNew, atoip);
    conn.ReadRequestToEnd();
    if gsResult {
      UserIpSavedIff(CStr(h.0), old(g.deviceDataNew), atoip);
    }
    StoreUserAndIp(g, b, gsResult, device, vds);
  }

  /** The second half of `PrivateUserAndIpPOST`, like StoreSettings for the device settings. */
  method StoreUserAndIp(g: Globals, b: Board, gsResult: bool, device: DeviceSetting, vds: seq<ValidationData>)
    requires g.Valid() && b.Valid() && (gsResult ==> DeviceShaped(device))
    modifies g, b
    ensures g.Valid() && b.Valid()
    ensures var saved := gsResult && AllValid(vds);
            && (!gsResult ==> b.sent == old(b.sent) + [UserAndIpPage(old(g.deviceData), None, true, false)]
                              && g.deviceDataNew == old(g.deviceDataNew))
            && (gsResult ==> g.deviceDataNew == device
                             && b.sent == old(b.sent) + [UserAndIpPage(device, Some(vds), !saved, saved)])
            && (saved ==> b.eepromDevice == device && g.deviceData == device
                          && g.relayDataList == old(b.eepromRelays) && b.addressesChanged)
            && (!saved ==> b.eepromDevice == old(b.eepromDevice) && g.deviceData == old(g.deviceData)
                           && g.relayDataList == old(g.relayDataList) && b.addressesChanged == old(b.addressesChanged))
    ensures old(Persisted(g, b)) ==> Persisted(g, b)
    ensures b.relays == old(b.relays) && b.eepromRelays == old(b.eepromRelays)
    ensures g.relayDataNewList == old(g.relayDataNewList)
    ensures g.validationForRelayDataNewList == old(g.validationForRelayDataNewList)
  {
    if !gsResult {
      b.sent := b.sent + [UserAndIpPage(g.deviceData, None, true, false)];
      return;
    }
    g.deviceDataNew, g.validUserAndIp := device, vds;
    var isError := HasError(vds);
    if !isError {
      b.eepromDevice := device;
      g.deviceData, g.relayDataList := b.eepromDevice, b.eepromRelays;
      b.addressesChanged := true;
    }
    b.sent := b.sent + [UserAndIpPage(device, Some(vds), isError, !isError)];
  }

  /**
   * The answer of `processRequest` to an admitted request: the page its
   * link names, through its POST handler for a POST. Only a POST can switch
   * a relay or change the stored settings.
   */
  method AnswerRequest(g: Globals, b: Board, conn: Connection, rt: RequestType, wp: nat,
                       atoip: string -> Option<Address>)
    requires g.Valid() && b.Valid() && Ready(conn) && rt != RtNone && wp < |PageLinks|
    modifies g, b, conn, conn.line
    ensures g.Valid() && b.Valid() && Ready(conn)
    ensures |b.sent| == |old(b.sent)| + 1 && b.sent[..|old(b.sent)|] == old(b.sent)
    ensures Answers(b.sent[|old(b.sent)|], wp)
    ensures rt == RtGet && wp == WpSettings ==> b.sent[|old(b.sent)|] == SettingsPage(old(g.relayDataList), None, false, false)
    ensures rt == RtGet && wp == WpUserAndIp ==> b.sent[|old(b.sent)|] == UserAndIpPage(old(g.deviceData), None, false, false)
    ensures rt == RtGet ==> (b.relays == old(b.relays) && b.eepromDevice == old(b.eepromDevice)
                             && b.eepromRelays == old(b.eepromRelays)
                             && g.deviceData == old(g.deviceData) && g.relayDataList == old(g.relayDataList))
    ensures old(Persisted(g, b)) ==> Persisted(g, b)
  {
    if wp == WpIndex {
      AnswerIndex(g, b, conn, rt);
    } else if wp == WpSettings {
      AnswerSettings(g, b, conn, rt);
    } else {
      AnswerUserAndIp(g, b, conn, rt, atoip);
    }
  }

  /** The index page's branch of `processRequest`. */
  method AnswerIndex(g: Globals, b: Board, conn: Connection, rt: RequestType)
    requires g.Valid() && b.Valid() && Ready(conn) && rt != RtNone
    modifies b, conn, conn.line
    ensures g.Valid() && b.Valid() && Ready(conn)
    ensures |b.sent| == |old(b.sent)| + 1 && b.sent[..|old(b.sent)|] == old(b.sent)
    ensures Answers(b.sent[|old(b.sent)|], WpIndex)
    ensures rt == RtGet ==> (b.relays == old(b.relays) && b.eepromDevice == old(b.eepromDevice)
                             && b.eepromRelays == old(b.eepromRelays))
    ensures old(Persisted(g, b)) ==> Persisted(g, b)
  {
    if rt == RtGet {
      conn.ReadRequestToEnd();
      b.sent := b.sent + [IndexPage];
    }
    if rt == RtPost {
      IndexPost(b, conn);
    }
  }

  /** The settings page's branch of `processRequest`. */
  method AnswerSettings(g: Globals, b: Board, conn: Connection, rt: RequestType)
    requires g.Valid() && b.Valid() && Ready(conn) && rt != RtNone
    modifies g, b, conn, conn.line
    ensures g.Valid() && b.Valid() && Ready(conn)
    ensures |b.sent| == |old(b.sent)| + 1 && b.sent[..|old(b.sent)|] == old(b.sent)
    ensures Answers(b.sent[|old(b.sent)|], WpSettings)
    ensures rt == RtGet ==> b.sent[|old(b.sent)|] == SettingsPage(old(g.relayDataList), None, false, false)
    ensures rt == RtGet ==> (b.relays == old(b.relays) && b.eepromDevice == old(b.eepromDevice)
                             && b.eepromRelays == old(b.eepromRelays)
                             && g.deviceData == old(g.deviceData) && g.relayDataList == old(g.relayDataList))
    ensures old(Persisted(g, b)) ==> Persisted(g, b)
  {
    if rt == RtGet {
      conn.ReadRequestToEnd();
      b.sent := b.sent + [SettingsPage(g.relayDataList, None, false, false)];
    }
    if rt == RtPost {
      PrivateSettingsPost(g, b, conn);
    }
  }

  /** The user-and-IP page's branch of `processRequest`. */
  method AnswerUserAndIp(g: Globals, b: Board, conn: Connection, rt: RequestType,
                         atoip: string -> Option<Address>)
    requires g.Valid() && b.Valid() && Ready(conn) && rt != RtNone
    modifies g, b, conn, conn.line
    ensures g.Valid() && b.Valid() && Ready(conn)
    ensures |b.sent| == |old(b.sent)| + 1 && b.sent[..|old(b.sent)|] == old(b.sent)
    ensures Answers(b.sent[|old(b.sent)|], WpUserAndIp)
    ensures rt == RtGet ==> b.sent[|old(b.sent)|] == UserAndIpPage(old(g.deviceData), None, false, false)
    ensures rt == RtGet ==> (b.relays == old(b.relays) && b.eepromDevice == old(b.eepromDevice)
                             && b.eepromRelays == old(b.eepromRelays)
                             && g.deviceData == old(g.deviceData) && g.relayDataList == old(g.relayDataList))
    ensures old(Persisted(g, b)) ==> Persisted(g, b)
  {
    if rt == RtGet {
      conn.ReadRequestToEnd();
      b.sent := b.sent + [UserAndIpPage(g.deviceData, None, false, false)];
    }
    if rt == RtPost {
      PrivateUserAndIpPost(g, b, conn, atoip);
    }
  }

  /**
   * The first half of `processRequest`: the request line is read and the
   * request is dropped (its rest read and ignored) or refused (the
   * "401 Unauthorized" page sent), or admitted with its type and page.
   */
  method Admit(b: Board, conn: Connection, input: string, accept: string -> bool)
    returns (admitted: bool, rt: RequestType, wp: nat)
    requires b.Valid() && Ready(conn)
    modifies b, conn, conn.line
    ensures b.Valid() && Ready(conn)
    ensures var gate := GateOf(old(conn.line[..]), input, accept);
            && (admitted <==> gate.Admitted?)
            && (admitted ==> gate == Admitted(rt, wp))
            && (gate.Dropped? ==> b.sent == old(b.sent) && conn.pending == [])
            && (gate.Refused? ==> b.sent == old(b.sent) + [UnauthorizedPage] && conn.pending == [])
            && (admitted ==> b.sent == old(b.sent))
    ensures b.relays == old(b.relays) && b.eepromDevice == old(b.eepromDevice) && b.eepromRelays == old(b.eepromRelays)
  {
    ReadLineKeepsLast(conn.line[..], input);
    conn.pending := input;
    var ok, wpo;
    ok, rt, wpo := conn.GetRequestTypeAndPage(PageLinks);
    wp := 0;
    if !ok {
      conn.ReadRequestToEnd();
      return false, rt, wp;
    }
    wp := wpo.value;
    admitted := IsAuthorized(b, conn, accept);
  }

  /**
   * `processRequest`: a request whose line, type or page is not valid is
   * dropped and nothing is sent; one without accepted credentials gets the
   * "401 Unauthorized" page; an admitted one gets exactly one page, the one
   * its link names. Only an admitted POST can switch a relay or change the
   * stored settings, and the settings in use stay the stored ones.
   */
  method ProcessRequest(g: Globals, b: Board, conn: Connection, input: string, accept: string -> bool,
                        atoip: string -> Option<Address>)
    requires g.Valid() && b.Valid() && Ready(conn)
    modifies g, b, conn, conn.line
    ensures g.Valid() && b.Valid() && Ready(conn)
    ensures var gate := GateOf(old(conn.line[..]), input, accept);
            && (gate.Dropped? ==> b.sent == old(b.sent) && conn.pending == [])
            && (gate.Refused? ==> b.sent == old(b.sent) + [UnauthorizedPage] && conn.pending == [])
            && (gate.Admitted? ==> |b.sent| == |old(b.sent)| + 1 && Answers(b.sent[|old(b.sent)|], gate.wp))
            && (gate == Admitted(RtGet, WpSettings) ==>
                  b.sent[|old(b.sent)|] == SettingsPage(old(g.relayDataList), None, false, false))
            && (gate == Admitted(RtGet, WpUserAndIp) ==>
                  b.sent[|old(b.sent)|] == UserAndIpPage(old(g.deviceData), None, false, false))
            && (!(gate.Admitted? && gate.rt == RtPost) ==>
                  (b.relays == old(b.relays) && b.eepromDevice == old(b.eepromDevice) && b.eepromRelays == old(b.eepromRelays)
                   && g.deviceData == old(g.deviceData) && g.relayDataList == old(g.relayDataList)))
    ensures old(Persisted(g, b)) ==> Persisted(g, b)
  {
    var admitted, rt, wp := Admit(b, conn, input, accept);
    if admitted {
      AnswerRequest(g, b, conn, rt, wp, atoip);
    }
  }
}
