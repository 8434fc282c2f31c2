/**
 * The watchdog's two settings forms. The body of a POST is one line of
 * `name=value` fields joined by '&'; each field is looked up with
 * FindParameter, checked against its rule and recorded in a ValidationData
 * (validity, the text the value pointer points at, the value's length), and
 * its converted value is written into the new settings.
 *
 * Two details of the code are kept: the value pointer and length are shared
 * by all fields of a form, so a missing field records the previous field's
 * value; and a conversion is applied to that value whether or not the field
 * was found. The text-to-number and text-to-address conversions of the
 * common library (`atoUint8`, `atoip`) are parameters.
 */
module WatchdogForms {
  import opened Common
  import opened HttpRequest
  import opened WatchdogStructures

  /** DATA_ROW_COUNT: the settings form has six rows (one per DogSetting field) of four hosts. */
  const DataRowCount := 6
  /** VALID_DATA_LEN. */
  const ValidDataLen := DogCount * DataRowCount
  /** VALID_USER_AND_IP_LEN (5): one field for each prefix of UserIpPrefixes. */
  const ValidUserAndIpLen := |UserIpPrefixes|

  /** ONE_TO_FOUR: the field-name suffix of each host. */
  const OneToFour: string := "1234"
  /** The field-name prefixes of the settings form's rows: PREFF_CB, _IP, _TP, _HL, _RW, _WA. */
  const RowPrefixes: seq<string> := ["cb", "ip", "tp", "hl", "rw", "wa"]
  /** The field-name prefixes of the user-and-address form: PREFF_US, _PS, _IP, _SN, _GW (suffix '1'). */
  const UserIpPrefixes: seq<string> := ["US", "PS", "ip", "SN", "GW"]

  // ---------------------------------------------------------------- settings form

  /** The row of cell `k`: the cells are numbered row by row, four hosts to a row. */
  function RowOf(k: nat): nat
  {
    k / 4
  }

  /** The host of cell `k`. */
  function HostOf(k: nat): nat
  {
    k % 4
  }

  /** Cell `k` of the settings form is row `k / 4`, host `k % 4`, in the order the loops visit them. */
  function CellName(k: nat): string
    requires k < ValidDataLen
  {
    FieldName(RowPrefixes[RowOf(k)], OneToFour[HostOf(k)])
  }

  /** The timing field a row from 2 to 5 sets. */
  function Timing(d: DogSetting, row: nat): Byte
  {
    if row == 2 then d.testPeriod
    else if row == 3 then d.hostLostAfter
    else if row == 4 then d.restartWaitTime
    else d.waitAfterRestart
  }

  function WithTiming(d: DogSetting, row: nat, val: Byte): (r: DogSetting)
    ensures Timing(r, row) == val && r.active == d.active && r.ip == d.ip
    ensures forall other :: 2 <= other <= 5 && other != row && 2 <= row <= 5 ==> Timing(r, other) == Timing(d, other)
  {
    if row == 2 then d.(testPeriod := val)
    else if row == 3 then d.(hostLostAfter := val)
    else if row == 4 then d.(restartWaitTime := val)
    else d.(waitAfterRestart := val)
  }

  /** The rule of a timing row: positive, and HostLostAfter at most MAX_HOST_LOST_AFTER. */
  predicate TimingRule(row: nat, val: Byte)
  {
    val > 0 && (row == 3 ==> val <= MaxHostLostAfter)
  }

  /** The value `atoUint8` leaves in `val`: the converted number, or whatever `val` held. */
  function Uint8Value(conv: Option<Byte>, undefined: Byte): Byte
  {
    if conv.Some? then conv.value else undefined
  }

  /** Whether cell `k` passes, stated on the field as found in the body. */
  predicate CellValid(text: string, k: nat, atoip: string -> Option<Address>, atoUint8: string -> Option<Byte>)
    requires k < ValidDataLen
  {
    var row := RowOf(k);
    var found := Parameter(text, CellName(k));
    row == 0
    || (found.Some? &&
        var v := ValueText(text, found.value);
        if row == 1 then atoip(v).Some?
        else atoUint8(v).Some? && TimingRule(row, atoUint8(v).value))
  }

  /** The settings being built: the hosts, the validation records so far and the shared value pointer. */
  datatype SettingsScan = SettingsScan(dogs: seq<DogSetting>, vds: seq<ValidationData>, param: Param)

  predicate DogsShaped(dogs: seq<DogSetting>)
  {
    |dogs| == DogCount && forall i :: 0 <= i < DogCount ==> |dogs[i].ip| == IpLen
  }

  /** Only field `row` of `a` may differ from `b`. */
  predicate SameExcept(a: DogSetting, b: DogSetting, row: nat)
  {
    && (row != 0 ==> a.active == b.active)
    && (row != 1 ==> a.ip == b.ip)
    && forall other :: 2 <= other <= 5 && other != row ==> Timing(a, other) == Timing(b, other)
  }

  /** One turn of GetPrivateSettingsData's loops: cell `k`. */
  function SettingsCell(text: string, s: SettingsScan, k: nat, atoip: string -> Option<Address>,
                        atoUint8: string -> Option<Byte>, undefined: Byte): (r: SettingsScan)
    requires k < ValidDataLen && DogsShaped(s.dogs) && ParamIn(text, s.param)
    ensures DogsShaped(r.dogs) && ParamIn(text, r.param)
    ensures |r.vds| == |s.vds| + 1 && r.vds[..|s.vds|] == s.vds
    ensures r.vds[|s.vds|].isValid == CellValid(text, k, atoip, atoUint8)
  {
    var row, col := RowOf(k), HostOf(k);
    var found := Parameter(text, CellName(k));
    var p := Lookup(text, CellName(k), s.param);
    var v := ValueText(text, p);
    var dog := s.dogs[col];
    if row == 0 then
      var active: Byte := if found.Some? && |v| > 0 && v[0] == '1' then 1 else 0;
      SettingsScan(s.dogs[col := dog.(active := active)], s.vds + [Record(text, true, p)], p)
    else if row == 1 then
      var ip := atoip(v);
      var dog' := if ip.Some? then dog.(ip := ip.value) else dog;
      SettingsScan(s.dogs[col := dog'], s.vds + [Record(text, found.Some? && ip.Some?, p)], p)
    else
      var val := Uint8Value(atoUint8(v), undefined);
      var valid := found.Some? && atoUint8(v).Some? && TimingRule(row, val);
      SettingsScan(s.dogs[col := WithTiming(dog, row, val)], s.vds + [Record(text, valid, p)], p)
  }

  /**
   * Cell `m` turns `prev` into `r`: one more record, valid exactly when the
   * cell passes, in which case the host field holds the field's value; only
   * that field of that host may change.
   */
  predicate CellStep(text: string, prev: SettingsScan, r: SettingsScan, m: nat,
                     atoip: string -> Option<Address>, atoUint8: string -> Option<Byte>)
  {
    && m < ValidDataLen && DogsShaped(prev.dogs) && DogsShaped(r.dogs)
    && |r.vds| == |prev.vds| + 1 && r.vds[..|prev.vds|] == prev.vds
    && (r.vds[|prev.vds|].isValid <==> CellValid(text, m, atoip, atoUint8))
    && (r.vds[|prev.vds|].isValid ==> CellHolds(text, r.dogs, m, atoip, atoUint8))
    && (forall j :: 0 <= j < DogCount && j != HostOf(m) ==> r.dogs[j] == prev.dogs[j])
    && SameExcept(r.dogs[HostOf(m)], prev.dogs[HostOf(m)], RowOf(m))
  }

  /** SettingsCell is a step of the settings form as CellStep describes it. */
  lemma SettingsCellStep(text: string, s: SettingsScan, k: nat, atoip: string -> Option<Address>,
                         atoUint8: string -> Option<Byte>, undefined: Byte)
    requires k < ValidDataLen && DogsShaped(s.dogs) && ParamIn(text, s.param)
    ensures CellStep(text, s, SettingsCell(text, s, k, atoip, atoUint8, undefined), k, atoip, atoUint8)
  {
  }

  /** The first `n` cells of the settings form, starting from the hosts `dogs0`. */
  function SettingsUpTo(text: string, dogs0: seq<DogSetting>, n: nat, atoip: string -> Option<Address>,
                        atoUint8: string -> Option<Byte>, undefined: Byte): (s: SettingsScan)
    requires n <= ValidDataLen && DogsShaped(dogs0)
    ensures DogsShaped(s.dogs) && ParamIn(text, s.param) && |s.vds| == n
    decreases n
  {
    if n == 0 then SettingsScan(dogs0, [], Unset(text))
    else SettingsCell(text, SettingsUpTo(text, dogs0, n - 1, atoip, atoUint8, undefined), n - 1, atoip, atoUint8, undefined)
  }

  /**
   * What a valid cell guarantees about the settings: the field was in the
   * body and the host's field holds its converted value, which meets the
   * row's rule. A status cell sets Active exactly when its value starts with '1'.
   */
  predicate CellHolds(text: string, dogs: seq<DogSetting>, k: nat, atoip: string -> Option<Address>,
                      atoUint8: string -> Option<Byte>)
    requires k < ValidDataLen && DogsShaped(dogs)
  {
    var row, d := RowOf(k), dogs[HostOf(k)];
    var found := Parameter(text, CellName(k));
    if row == 0 then
      d.active == if found.Some? && |ValueText(text, found.value)| > 0 && ValueText(text, found.value)[0] == '1' then 1 else 0
    else
      found.Some? &&
      var v := ValueText(text, found.value);
      if row == 1 then atoip(v).Some? && atoip(v).value == d.ip
      else atoUint8(v) == Some(Timing(d, row)) && TimingRule(row, Timing(d, row))
  }

  /** Record `k` of `s` is valid exactly when cell `k` passes, and then the cell's field holds. */
  predicate CellMeaning(text: string, s: SettingsScan, k: nat, atoip: string -> Option<Address>,
                        atoUint8: string -> Option<Byte>)
  {
    k < ValidDataLen && k < |s.vds| && DogsShaped(s.dogs)
    && (s.vds[k].isValid <==> CellValid(text, k, atoip, atoUint8))
    && (s.vds[k].isValid ==> CellHolds(text, s.dogs, k, atoip, atoUint8))
  }

  /** CellMeaning holds for the first `n` records of `s`. */
  predicate CellsMean(text: string, s: SettingsScan, n: nat, atoip: string -> Option<Address>,
                      atoUint8: string -> Option<Byte>)
  {
    forall k :: 0 <= k < n ==> CellMeaning(text, s, k, atoip, atoUint8)
  }

  /**
   * The meaning of the settings form, cell by cell: a cell is valid exactly
   * when its own field passes its rule (whatever stale value a missing field
   * recorded), and a valid cell's host field holds the field's converted value.
   */
  lemma {:induction false} SettingsMeaning(text: string, dogs0: seq<DogSetting>, n: nat, atoip: string -> Option<Address>,
                                           atoUint8: string -> Option<Byte>, undefined: Byte)
    requires n <= ValidDataLen && DogsShaped(dogs0)
    ensures CellsMean(text, SettingsUpTo(text, dogs0, n, atoip, atoUint8, undefined), n, atoip, atoUint8)
    decreases n
  {
    if n > 0 {
      SettingsMeaning(text, dogs0, n - 1, atoip, atoUint8, undefined);
      SettingsStep(text, SettingsUpTo(text, dogs0, n - 1, atoip, atoUint8, undefined), n - 1, atoip, atoUint8, undefined);
    }
  }

  /** A cell's meaning survives the next cell, which changes only its own field. */
  lemma SettingsStep(text: string, prev: SettingsScan, m: nat, atoip: string -> Option<Address>,
                     atoUint8: string -> Option<Byte>, undefined: Byte)
    requires m < ValidDataLen && DogsShaped(prev.dogs) && ParamIn(text, prev.param) && |prev.vds| == m
    requires CellsMean(text, prev, m, atoip, atoUint8)
    ensures CellsMean(text, SettingsCell(text, prev, m, atoip, atoUint8, undefined), m + 1, atoip, atoUint8)
  {
    var r := SettingsCell(text, prev, m, atoip, atoUint8, undefined);
    SettingsCellStep(text, prev, m, atoip, atoUint8, undefined);
    forall k | 0 <= k < m
      ensures CellMeaning(text, r, k, atoip, atoUint8)
    {
      assert CellMeaning(text, prev, k, atoip, atoUint8);
      assert r.vds[k] == r.vds[..m][k] == prev.vds[k];
      if r.vds[k].isValid {
        CellHoldsKept(text, prev.dogs, r.dogs, k, m, atoip, atoUint8);
      }
    }
  }

  /** Cell `k` still holds after cell `m` changed only its own field. */
  lemma CellHoldsKept(text: string, a: seq<DogSetting>, b: seq<DogSetting>, k: nat, m: nat,
                      atoip: string -> Option<Address>, atoUint8: string -> Option<Byte>)
    requires k < m < ValidDataLen && DogsShaped(a) && DogsShaped(b)
    requires forall j :: 0 <= j < DogCount && j != HostOf(m) ==> b[j] == a[j]
    requires SameExcept(b[HostOf(m)], a[HostOf(m)], RowOf(m))
    requires CellHolds(text, a, k, atoip, atoUint8)
    ensures CellHolds(text, b, k, atoip, atoUint8)
  {
    if HostOf(k) == HostOf(m) {
      assert RowOf(k) != RowOf(m);
    }
  }

  /**
   * Settings the form accepts (every cell valid) are safe to supervise with:
   * every host's timing fields pass the rules, so in particular HostLostAfter
   * is below 255 and the restart rule applies.
   */
  lemma AcceptedSettingsAreSafe(text: string, dogs0: seq<DogSetting>, atoip: string -> Option<Address>,
                                atoUint8: string -> Option<Byte>, undefined: Byte)
    requires DogsShaped(dogs0)
    requires forall k :: 0 <= k < ValidDataLen ==> SettingsUpTo(text, dogs0, ValidDataLen, atoip, atoUint8, undefined).vds[k].isValid
    ensures forall col :: 0 <= col < DogCount ==> TimingAccepted(SettingsUpTo(text, dogs0, ValidDataLen, atoip, atoUint8, undefined).dogs[col])
  {
    var s := SettingsUpTo(text, dogs0, ValidDataLen, atoip, atoUint8, undefined);
    SettingsMeaning(text, dogs0, ValidDataLen, atoip, atoUint8, undefined);
    assert CellsMean(text, s, ValidDataLen, atoip, atoUint8);
    assert forall k :: 0 <= k < ValidDataLen ==> s.vds[k].isValid;
    forall col | 0 <= col < DogCount
      ensures TimingAccepted(s.dogs[col])
    {
      HostTimingAccepted(text, s, col, atoip, atoUint8);
    }
  }

  /** A host whose cells are all valid has timing fields that pass the rules. */
  lemma HostTimingAccepted(text: string, s: SettingsScan, col: nat,
                           atoip: string -> Option<Address>, atoUint8: string -> Option<Byte>)
    requires col < DogCount && DogsShaped(s.dogs) && |s.vds| == ValidDataLen
    requires CellsMean(text, s, ValidDataLen, atoip, atoUint8)
    requires forall k :: 0 <= k < ValidDataLen ==> s.vds[k].isValid
    ensures TimingAccepted(s.dogs[col])
  {
    TimingCellHolds(text, s, 2, col, atoip, atoUint8);
    TimingCellHolds(text, s, 3, col, atoip, atoUint8);
    TimingCellHolds(text, s, 4, col, atoip, atoUint8);
    TimingCellHolds(text, s, 5, col, atoip, atoUint8);
  }

  /** A valid timing cell's host field passes the row's rule. */
  lemma TimingCellHolds(text: string, s: SettingsScan, row: nat, col: nat,
                        atoip: string -> Option<Address>, atoUint8: string -> Option<Byte>)
    requires 2 <= row < DataRowCount && col < DogCount
    requires CellMeaning(text, s, 4 * row + col, atoip, atoUint8) && s.vds[4 * row + col].isValid
    ensures TimingRule(row, Timing(s.dogs[col], row))
  {
    assert RowOf(4 * row + col) == row && HostOf(4 * row + col) == col;
  }

  /**
   * The loops of `GetPrivateSettingsData` over the body `text`: row by row,
   * host by host, each field is looked up, recorded and converted.
   * `undefined` is what the uninitialised `val` holds when a conversion fails.
   */
  method ReadSettings(text: string, dogs0: seq<DogSetting>, atoip: string -> Option<Address>,
                      atoUint8: string -> Option<Byte>, undefined: Byte)
    returns (dogs: seq<DogSetting>, vds: seq<ValidationData>)
    requires DogsShaped(dogs0)
    ensures DogsShaped(dogs)
    ensures var s := SettingsUpTo(text, dogs0, ValidDataLen, atoip, atoUint8, undefined);
            dogs == s.dogs && vds == s.vds
  {
    dogs, vds := dogs0, [];
    var param := Unset(text);
    for row := 0 to DataRowCount
      invariant |vds| == 4 * row
      invariant SettingsScan(dogs, vds, param) == SettingsUpTo(text, dogs0, |vds|, atoip, atoUint8, undefined)
    {
      dogs, vds, param := ReadSettingsRow(text, dogs, vds, param, row, atoip, atoUint8, undefined, dogs0);
    }
  }

  /** The inner loop of `GetPrivateSettingsData`: the cells of row `row`, host by host. */
  method ReadSettingsRow(text: string, dogs1: seq<DogSetting>, vds1: seq<ValidationData>, param1: Param, row: nat,
                         atoip: string -> Option<Address>, atoUint8: string -> Option<Byte>, undefined: Byte,
                         ghost dogs0: seq<DogSetting>)
    returns (dogs: seq<DogSetting>, vds: seq<ValidationData>, param: Param)
    requires row < DataRowCount && DogsShaped(dogs0) && |vds1| == 4 * row
    requires SettingsScan(dogs1, vds1, param1) == SettingsUpTo(text, dogs0, |vds1|, atoip, atoUint8, undefined)
    ensures |vds| == 4 * (row + 1)
    ensures SettingsScan(dogs, vds, param) == SettingsUpTo(text, dogs0, |vds|, atoip, atoUint8, undefined)
  {
    dogs, vds, param := dogs1, vds1, param1;
    for col := 0 to DogCount
      invariant |vds| == 4 * row + col
      invariant SettingsScan(dogs, vds, param) == SettingsUpTo(text, dogs0, |vds|, atoip, atoUint8, undefined)
    {
      dogs, vds, param := ReadSettingsField(text, dogs, vds, param, row, col, atoip, atoUint8, undefined, dogs0);
    }
  }

  /** Cell `col` of row `row`, on the settings the cells before it have built. */
  method ReadSettingsField(text: string, dogs1: seq<DogSetting>, vds1: seq<ValidationData>, param1: Param, row: nat, col: nat,
                           atoip: string -> Option<Address>, atoUint8: string -> Option<Byte>, undefined: Byte,
                           ghost dogs0: seq<DogSetting>)
    returns (dogs: seq<DogSetting>, vds: seq<ValidationData>, param: Param)
    requires row < DataRowCount && col < DogCount && DogsShaped(dogs0) && |vds1| == 4 * row + col
    requires SettingsScan(dogs1, vds1, param1) == SettingsUpTo(text, dogs0, |vds1|, atoip, atoUint8, undefined)
    ensures |vds| == |vds1| + 1
    ensures SettingsScan(dogs, vds, param) == SettingsUpTo(text, dogs0, |vds|, atoip, atoUint8, undefined)
  {
    var dog, vd;
    dog, vd, param := ReadSettingsCell(text, dogs1, vds1, param1, row, col, atoip, atoUint8, undefined);
    dogs := dogs1[col := dog];
    vds := vds1 + [vd];
  }

  /** One turn of the inner loop: the field of `row` for host `col`. */
  method ReadSettingsCell(text: string, dogs0: seq<DogSetting>, vds0: seq<ValidationData>, param0: Param, row: nat, col: nat,
                          atoip: string -> Option<Address>, atoUint8: string -> Option<Byte>, undefined: Byte)
    returns (dog: DogSetting, vd: ValidationData, param: Param)
    requires row < DataRowCount && col < DogCount && DogsShaped(dogs0) && ParamIn(text, param0)
    ensures SettingsCell(text, SettingsScan(dogs0, vds0, param0), 4 * row + col, atoip, atoUint8, undefined)
            == SettingsScan(dogs0[col := dog], vds0 + [vd], param)
  {
    assert RowOf(4 * row + col) == row && HostOf(4 * row + col) == col;
    dog := dogs0[col];
    var numChar := OneToFour[col];
    var findParam;
    findParam, param := FindParameter(text, RowPrefixes[row], numChar, param0);
    var value := ValueText(text, param);
    var valid: bool;
    if row == 0 {
      dog := dog.(active := if findParam && |value| > 0 && value[0] == '1' then 1 else 0);
      valid := true;
    } else if row == 1 {
      var cnvResult := atoip(value);
      valid := findParam && cnvResult.Some?;
      if cnvResult.Some? {
        dog := dog.(ip := cnvResult.value);
      }
    } else {
      var cnvResult := atoUint8(value);
      var val := if cnvResult.Some? then cnvResult.value else undefined;
      valid := findParam && cnvResult.Some? && val > 0 && (row == 3 ==> val <= MaxHostLostAfter);
      dog := WithTiming(dog, row, val);
    }
    vd := ValidationData(valid, value, param.len);
  }

  // ---------------------------------------------------------------- user and address form

  /** The user-and-address settings being built, with their records and the shared value pointer. */
  datatype UserIpScan = UserIpScan(device: DeviceSetting, vds: seq<ValidationData>, param: Param)

  /** Whether field `col` of the user-and-address form passes, stated on the field as found. */
  predicate UserIpValid(text: string, col: nat, atoip: string -> Option<Address>)
    requires col < ValidUserAndIpLen
  {
    match Parameter(text, FieldName(UserIpPrefixes[col], '1'))
    case None => false
    case Some(p) => if col <= 1 then 3 <= p.len <= UserPasLen else atoip(ValueText(text, p)).Some?
  }

  /** One turn of GetPrivateUserAndIpData's loop: field `col`. */
  function UserIpField(text: string, s: UserIpScan, col: nat, atoip: string -> Option<Address>): (r: UserIpScan)
    requires col < ValidUserAndIpLen && DeviceShaped(s.device) && ParamIn(text, s.param)
    ensures DeviceShaped(r.device) && ParamIn(text, r.param)
    ensures |r.vds| == |s.vds| + 1 && r.vds[..|s.vds|] == s.vds
    ensures r.vds[|s.vds|].isValid == UserIpValid(text, col, atoip)
  {
    var name := FieldName(UserIpPrefixes[col], '1');
    var found := Parameter(text, name);
    var p := Lookup(text, name, s.param);
    var v := ValueText(text, p);
    var d := s.device;
    if col <= 1 then
      var valid := found.Some? && 3 <= p.len <= UserPasLen;
      var d' := if !valid then d
                else if col == 0 then d.(user := StrNCopy(d.user, v, p.len))
                else d.(password := StrNCopy(d.password, v, p.len));
      UserIpScan(d', s.vds + [Record(text, valid, p)], p)
    else
      var ip := atoip(v);
      var d' := if ip.None? then d
                else if col == 2 then d.(ip := ip.value)
                else if col == 3 then d.(subnetMask := ip.value)
                else d.(gateway := ip.value);
      UserIpScan(d', s.vds + [Record(text, found.Some? && ip.Some?, p)], p)
  }

  /**
   * What field `col` stores: a valid user or password is copied in with its
   * NUL (an invalid one leaves the buffer alone), and a valid address field's
   * address is stored.
   */
  lemma UserIpFieldStores(text: string, s: UserIpScan, col: nat, atoip: string -> Option<Address>)
    requires col < ValidUserAndIpLen && DeviceShaped(s.device) && ParamIn(text, s.param)
    ensures var r := UserIpField(text, s, col, atoip);
            && (col == 0 ==> r.device.user == Stored(text, 0, r.vds[|s.vds|].isValid, s.device.user))
            && (col == 1 ==> r.device.password == Stored(text, 1, r.vds[|s.vds|].isValid, s.device.password))
            && (2 <= col && r.vds[|s.vds|].isValid ==> IpOf(text, UserIpPrefixes[col], atoip) == Some(AddressField(r.device, col)))
  {
    var p := Lookup(text, FieldName(UserIpPrefixes[col], '1'), s.param);
    if col <= 1 && UserIpValid(text, col, atoip) {
      assert ValueText(text, p)[..p.len] == Credential(text, col);
    }
  }

  /** Field `col` changes only the setting it is for. */
  lemma UserIpFieldFrame(text: string, s: UserIpScan, col: nat, atoip: string -> Option<Address>)
    requires col < ValidUserAndIpLen && DeviceShaped(s.device) && ParamIn(text, s.param)
    ensures var r := UserIpField(text, s, col, atoip);
            && (col != 0 ==> r.device.user == s.device.user)
            && (col != 1 ==> r.device.password == s.device.password)
            && (forall c :: 2 <= c < ValidUserAndIpLen && c != col ==> AddressField(r.device, c) == AddressField(s.device, c))
  {
  }

  /** The first `n` fields of the user-and-address form, starting from `device0`. */
  function UserIpUpTo(text: string, device0: DeviceSetting, n: nat, atoip: string -> Option<Address>): (s: UserIpScan)
    requires n <= ValidUserAndIpLen && DeviceShaped(device0)
    ensures DeviceShaped(s.device) && ParamIn(text, s.param) && |s.vds| == n
    decreases n
  {
    if n == 0 then UserIpScan(device0, [], Unset(text))
    else UserIpField(text, UserIpUpTo(text, device0, n - 1, atoip), n - 1, atoip)
  }

  /** The address `atoip` makes of field `prefix`1 of the body, when the field is there. */
  function IpOf(text: string, prefix: string, atoip: string -> Option<Address>): Option<seq<Byte>>
  {
    match Parameter(text, FieldName(prefix, '1'))
    case None => None
    case Some(p) => match atoip(ValueText(text, p))
      case None => None
      case Some(a) => Some(a)
  }

  /** The address field that field `col` (2 to 4) of the form sets. */
  function AddressField(d: DeviceSetting, col: nat): seq<Byte>
  {
    if col == 2 then d.ip else if col == 3 then d.subnetMask else d.gateway
  }

  /** The user name (or password) a field of the body sets: its value, without the rest of the line. */
  function Credential(text: string, col: nat): string
    requires col < ValidUserAndIpLen
  {
    match Parameter(text, FieldName(UserIpPrefixes[col], '1'))
    case None => []
    case Some(p) => text[p.start..p.start + p.len]
  }

  /**
   * The user (or password) buffer after field `col`: when the field is valid,
   * its value and a NUL over the start of the old buffer; otherwise the old buffer.
   */
  function Stored(text: string, col: nat, valid: bool, buffer: seq<char>): seq<char>
    requires col < ValidUserAndIpLen
  {
    var c := Credential(text, col);
    if valid && |c| < |buffer| then StrNCopy(buffer, c, |c|) else buffer
  }

  /** What the first `n` fields of the form guarantee about `s`, starting from `device0`. */
  predicate UserIpHolds(text: string, s: UserIpScan, n: nat, device0: DeviceSetting, atoip: string -> Option<Address>)
  {
    && n <= ValidUserAndIpLen && |s.vds| == n
    && (forall col :: 0 <= col < n ==> (s.vds[col].isValid <==> UserIpValid(text, col, atoip)))
    && s.device.user == (if n > 0 then Stored(text, 0, s.vds[0].isValid, device0.user) else device0.user)
    && s.device.password == (if n > 1 then Stored(text, 1, s.vds[1].isValid, device0.password) else device0.password)
    && (forall col :: 2 <= col < n && s.vds[col].isValid ==> IpOf(text, UserIpPrefixes[col], atoip) == Some(AddressField(s.device, col)))
  }

  /** Field `m` keeps what the fields before it guarantee and adds its own. */
  lemma UserIpStep(text: string, prev: UserIpScan, m: nat, device0: DeviceSetting, atoip: string -> Option<Address>)
    requires m < ValidUserAndIpLen && DeviceShaped(prev.device) && ParamIn(text, prev.param)
    requires UserIpHolds(text, prev, m, device0, atoip)
    ensures UserIpHolds(text, UserIpField(text, prev, m, atoip), m + 1, device0, atoip)
  {
    var r := UserIpField(text, prev, m, atoip);
    UserIpFieldStores(text, prev, m, atoip);
    UserIpFieldFrame(text, prev, m, atoip);
    forall col | 0 <= col < m
      ensures r.vds[col] == prev.vds[col]
    {
      assert r.vds[col] == r.vds[..m][col];
    }
  }

  /** The first `n` fields of the form mean what UserIpHolds says. */
  lemma {:induction false} UserIpUpToHolds(text: string, device0: DeviceSetting, n: nat, atoip: string -> Option<Address>)
    requires n <= ValidUserAndIpLen && DeviceShaped(device0)
    ensures UserIpHolds(text, UserIpUpTo(text, device0, n, atoip), n, device0, atoip)
    decreases n
  {
    if n > 0 {
      UserIpUpToHolds(text, device0, n - 1, atoip);
      UserIpStep(text, UserIpUpTo(text, device0, n - 1, atoip), n - 1, device0, atoip);
    }
  }

  /**
   * The meaning of the user-and-address form: each record is valid exactly
   * when its own field passes; a valid user or password is stored as exactly
   * the field's value (an invalid one leaves the stored one alone), and a
   * valid address field's address is stored.
   */
  lemma UserIpMeaning(text: string, device0: DeviceSetting, atoip: string -> Option<Address>)
    requires DeviceShaped(device0) && Nul !in text
    ensures var s := UserIpUpTo(text, device0, ValidUserAndIpLen, atoip);
            && (forall col :: 0 <= col < ValidUserAndIpLen ==> (s.vds[col].isValid <==> UserIpValid(text, col, atoip)))
            && (if s.vds[0].isValid then CStr(s.device.user) == Credential(text, 0) else s.device.user == device0.user)
            && (if s.vds[1].isValid then CStr(s.device.password) == Credential(text, 1) else s.device.password == device0.password)
            && (s.vds[2].isValid ==> IpOf(text, "ip", atoip) == Some(s.device.ip))
            && (s.vds[3].isValid ==> IpOf(text, "SN", atoip) == Some(s.device.subnetMask))
            && (s.vds[4].isValid ==> IpOf(text, "GW", atoip) == Some(s.device.gateway))
  {
    var s := UserIpUpTo(text, device0, ValidUserAndIpLen, atoip);
    UserIpUpToHolds(text, device0, ValidUserAndIpLen, atoip);
    assert UserIpHolds(text, s, ValidUserAndIpLen, device0, atoip);
    if s.vds[0].isValid {
      CredentialFits(text, 0, atoip);
      StoredCredential(text, 0, device0.user);
    }
    if s.vds[1].isValid {
      CredentialFits(text, 1, atoip);
      StoredCredential(text, 1, device0.password);
    }
  }

  /** A valid user or password is at most USER_PAS_LEN characters long. */
  lemma CredentialFits(text: string, col: nat, atoip: string -> Option<Address>)
    requires col <= 1 && UserIpValid(text, col, atoip)
    ensures 3 <= |Credential(text, col)| <= UserPasLen
  {
  }

  /** A stored user or password, read back as a C string, is the field's value. */
  lemma StoredCredential(text: string, col: nat, buffer: seq<char>)
    requires col <= 1 && Nul !in text && |Credential(text, col)| < |buffer|
    ensures CStr(Stored(text, col, true, buffer)) == Credential(text, col)
  {
    var c := Credential(text, col);
    CStrOfTerminated(Stored(text, col, true, buffer), c);
  }

  /** The loop of `GetPrivateUserAndIpData` over the body `text`. */
  method ReadUserAndIp(text: string, device0: DeviceSetting, atoip: string -> Option<Address>)
    returns (device: DeviceSetting, vds: seq<ValidationData>)
    requires DeviceShaped(device0)
    ensures DeviceShaped(device)
    ensures var s := UserIpUpTo(text, device0, ValidUserAndIpLen, atoip);
            device == s.device && vds == s.vds
  {
    device, vds := device0, [];
    var param := Unset(text);
    for col := 0 to ValidUserAndIpLen
      invariant UserIpScan(device, vds, param) == UserIpUpTo(text, device0, col, atoip)
    {
      var vd;
      device, vd, param := ReadUserIpField(text, device, param, col, atoip);
      vds := vds + [vd];
    }
  }

  /** One case of GetPrivateUserAndIpData's switch: field `col` is looked up, recorded and stored. */
  method ReadUserIpField(text: string, device0: DeviceSetting, param0: Param, col: nat, atoip: string -> Option<Address>)
    returns (device: DeviceSetting, vd: ValidationData, param: Param)
    requires col < ValidUserAndIpLen && DeviceShaped(device0) && ParamIn(text, param0)
    ensures var r := UserIpField(text, UserIpScan(device0, [], param0), col, atoip);
            device == r.device && [vd] == r.vds && param == r.param
  {
    device := device0;
    var findParam;
    findParam, param := FindParameter(text, UserIpPrefixes[col], '1', param0);
    var value := ValueText(text, param);
    var valid: bool;
    if col <= 1 {
      valid := findParam && 3 <= param.len <= UserPasLen;
      if valid && col == 0 {
        device := device.(user := StrNCopy(device.user, value, param.len));
      } else if valid {
        device := device.(password := StrNCopy(device.password, value, param.len));
      }
    } else {
      var cnvResult := atoip(value);
      valid := findParam && cnvResult.Some?;
      if cnvResult.Some? {
        if col == 2 {
          device := device.(ip := cnvResult.value);
        } else if col == 3 {
          device := device.(subnetMask := cnvResult.value);
        } else {
          device := device.(gateway := cnvResult.value);
        }
      }
    }
    vd := ValidationData(valid, value, param.len);
  }

  // ---------------------------------------------------------------- the forms' globals

  /** `DogListSettings`, `ValidDataSettings`, `DeviceDataUserAndIP` and `ValidUserAndIP`. */
  class Forms {
    var dogListSettings: seq<DogSetting>
    var validDataSettings: seq<ValidationData>
    var deviceDataUserAndIp: DeviceSetting
    var validUserAndIp: seq<ValidationData>

    ghost predicate Valid()
      reads this
    {
      DogsShaped(dogListSettings) && DeviceShaped(deviceDataUserAndIp)
    }

    constructor(dogs: seq<DogSetting>, device: DeviceSetting)
      requires DogsShaped(dogs) && DeviceShaped(device)
      ensures Valid() && dogListSettings == dogs && deviceDataUserAndIp == device
      ensures validDataSettings == [] && validUserAndIp == []
    {
      dogListSettings, deviceDataUserAndIp := dogs, device;
      validDataSettings, validUserAndIp := [], [];
    }

    /**
     * `GetPrivateSettingsData`: the body line is found; an empty one gives
     * false and changes nothing, otherwise its fields fill the settings and
     * their records.
     */
    method GetPrivateSettingsData(conn: Connection, atoip: string -> Option<Address>,
                                  atoUint8: string -> Option<Byte>, undefined: Byte) returns (ok: bool)
      requires Valid() && conn.Valid()
      modifies this, conn, conn.line
      ensures Valid() && conn.Valid() && deviceDataUserAndIp == old(deviceDataUserAndIp) && validUserAndIp == old(validUserAndIp)
      ensures AfterHeaders(old(conn.line[..]), old(conn.pending)) == (conn.line[..], conn.pending)
      ensures ok <==> conn.line[0] != Nul
      ensures ok ==> var s := SettingsUpTo(CStr(conn.line[..]), old(dogListSettings), ValidDataLen, atoip, atoUint8, undefined);
                     dogListSettings == s.dogs && validDataSettings == s.vds
      ensures !ok ==> dogListSettings == old(dogListSettings) && validDataSettings == old(validDataSettings)
    {
      conn.GetPostParameterLine();
      if conn.line[0] == Nul {
        return false;
      }
      dogListSettings, validDataSettings := ReadSettings(CStr(conn.line[..]), dogListSettings, atoip, atoUint8, undefined);
      ok := true;
    }

    /**
     * `GetPrivateUserAndIpData`: like GetPrivateSettingsData, for the user,
     * password and addresses.
     */
    method GetPrivateUserAndIpData(conn: Connection, atoip: string -> Option<Address>) returns (ok: bool)
      requires Valid() && conn.Valid()
      modifies this, conn, conn.line
      ensures Valid() && conn.Valid() && dogListSettings == old(dogListSettings) && validDataSettings == old(validDataSettings)
      ensures AfterHeaders(old(conn.line[..]), old(conn.pending)) == (conn.line[..], conn.pending)
      ensures ok <==> conn.line[0] != Nul
      ensures ok ==> var s := UserIpUpTo(CStr(conn.line[..]), old(deviceDataUserAndIp), ValidUserAndIpLen, atoip);
                     deviceDataUserAndIp == s.device && validUserAndIp == s.vds
      ensures !ok ==> deviceDataUserAndIp == old(deviceDataUserAndIp) && validUserAndIp == old(validUserAndIp)
    {
      conn.GetPostParameterLine();
      if conn.line[0] == Nul {
        return false;
      }
      deviceDataUserAndIp, validUserAndIp := ReadUserAndIp(CStr(conn.line[..]), deviceDataUserAndIp, atoip);
      ok := true;
    }
  }
}
