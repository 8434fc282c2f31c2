/**
 * The data of the ProDino Internet relay: the device settings (address, mask,
 * gateway, device name, web user and password) and one RelayData (active
 * flag and display name) per relay, with their factory defaults.
 *
 * The globals of the application (the stored settings, the new settings a
 * form is building and the forms' validation records) are the fields of a
 * `Globals` object.
 */
module IntRelayStructures {
  import opened Common

  /** USER_PAS_LEN. */
  const UserPasLen := 8
  /** DEVICE_NAME_LEN. */
  const DeviceNameLen := 32
  /** RELAY_NAME_LEN. */
  const RelayNameLen := 16
  /** RELAY_COUNT. */
  const RelayCount := 4

  /** ONE_TO_FOUR: the character that numbers each relay, in names and form fields. */
  const OneToFour: string := "1234"

  // The factory defaults.
  const DefUser: string := "admin"
  const DefPassword: string := "admin"
  const DefRelayName: string := "Relay "
  const DefDeviceName: string := "KMP Device"
  const DefIpAddress: seq<Byte> := [192, 168, 0, 100]
  const DefSubnetMask: seq<Byte> := [255, 255, 255, 0]
  const DefGateway: seq<Byte> := [192, 168, 0, 1]

  /** `DeviceSetting`; the names are character buffers, NUL included. */
  datatype DeviceSetting = DeviceSetting(ip: seq<Byte>, subnetMask: seq<Byte>, gateway: seq<Byte>,
                                         deviceName: seq<char>, user: seq<char>, password: seq<char>)

  /** The buffers have their declared sizes. */
  predicate DeviceShaped(ds: DeviceSetting)
  {
    |ds.ip| == IpLen && |ds.subnetMask| == IpLen && |ds.gateway| == IpLen
    && |ds.deviceName| == DeviceNameLen + 1 && |ds.user| == UserPasLen + 1 && |ds.password| == UserPasLen + 1
  }

  /** `RelayData`: whether the relay is shown as active, and its display name. */
  datatype RelayData = RelayData(active: Byte, relayName: seq<char>)

  /** Four relays, each with a name buffer of RELAY_NAME_LEN characters and a NUL. */
  predicate RelaysShaped(relays: seq<RelayData>)
  {
    |relays| == RelayCount && forall i :: 0 <= i < RelayCount ==> |relays[i].relayName| == RelayNameLen + 1
  }

  /** The length rule of the forms' text fields: at least 3 characters and at most `max`. */
  predicate LengthRule(len: nat, max: nat)
  {
    3 <= len <= max
  }

  /** The name DEF_RelayData gives relay `relay`: "Relay 1" to "Relay 4". */
  function DefaultRelayName(relay: nat): string
    requires relay < RelayCount
  {
    DefRelayName + [OneToFour[relay]]
  }

  /**
   * `DEF_DeviceSetting`: name "KMP Device", user and password "admin" (each
   * copied with its NUL, `sizeof` bytes), address 192.168.0.100, mask
   * 255.255.255.0, gateway 192.168.0.1. The names pass the user-and-address
   * form's length rules.
   */
  method DefDeviceSetting(ds: DeviceSetting) returns (r: DeviceSetting)
    requires DeviceShaped(ds)
    ensures DeviceShaped(r)
    ensures CStr(r.deviceName) == DefDeviceName && CStr(r.user) == DefUser && CStr(r.password) == DefPassword
    ensures r.ip == DefIpAddress && r.subnetMask == DefSubnetMask && r.gateway == DefGateway
    ensures LengthRule(|CStr(r.deviceName)|, DeviceNameLen)
    ensures LengthRule(|CStr(r.user)|, UserPasLen) && LengthRule(|CStr(r.password)|, UserPasLen)
  {
    r := ds;
    r := r.(deviceName := StrNCopy(r.deviceName, DefDeviceName + [Nul], |DefDeviceName| + 1));
    r := r.(user := StrNCopy(r.user, DefUser + [Nul], |DefUser| + 1));
    r := r.(password := StrNCopy(r.password, DefPassword + [Nul], |DefPassword| + 1));
    CStrOfTerminated(r.deviceName, DefDeviceName);
    CStrOfTerminated(r.user, DefUser);
    CStrOfTerminated(r.password, DefPassword);
    var ip := CopyAddress(r.ip, DefIpAddress);
    var mask := CopyAddress(r.subnetMask, DefSubnetMask);
    var gateway := CopyAddress(r.gateway, DefGateway);
    r := r.(ip := ip, subnetMask := mask, gateway := gateway);
  }

  /**
   * `DEF_RelayData`: active, and the name "Relay " copied with its NUL
   * (`sizeof`, 7 bytes), whose NUL is then overwritten by the relay's digit;
   * `strNCopy` has put a second NUL after it, so the name reads "Relay N".
   * The rest of the name buffer is left as it was.
   */
  method DefRelayData(data: RelayData, relay: nat) returns (r: RelayData)
    requires relay < RelayCount && |data.relayName| == RelayNameLen + 1
    ensures r.active == 1 && |r.relayName| == RelayNameLen + 1
    ensures CStr(r.relayName) == DefaultRelayName(relay)
    ensures r.relayName[|DefRelayName| + 2..] == data.relayName[|DefRelayName| + 2..]
    ensures LengthRule(|CStr(r.relayName)|, RelayNameLen)
  {
    r := data.(active := 1);
    var len := |DefRelayName| + 1;
    r := r.(relayName := StrNCopy(r.relayName, DefRelayName + [Nul], len));
    r := r.(relayName := r.relayName[len - 1 := OneToFour[relay]]);
    assert r.relayName[..len] == DefaultRelayName(relay);
    CStrOfTerminated(r.relayName, DefaultRelayName(relay));
  }

  /** The Internet relay's global settings. */
  class Globals {
    /** `DeviceData`: the settings in use. */
    var deviceData: DeviceSetting
    /** `RelayDataList`: the relay settings in use. */
    var relayDataList: seq<RelayData>
    /** `RelayDataNewList`: the relay settings the settings form is building. */
    var relayDataNewList: seq<RelayData>
    /** `ValidationForRelayDataNewList`. */
    var validationForRelayDataNewList: seq<ValidationData>
    /** `DeviceDataNew`: the device settings the user-and-address form is building. */
    var deviceDataNew: DeviceSetting
    /** `ValidUserAndIP`. */
    var validUserAndIp: seq<ValidationData>

    ghost predicate Valid()
      reads this
    {
      DeviceShaped(deviceData) && DeviceShaped(deviceDataNew)
      && RelaysShaped(relayDataList) && RelaysShaped(relayDataNewList)
    }

    constructor(device: DeviceSetting, relays: seq<RelayData>)
      requires DeviceShaped(device) && RelaysShaped(relays)
      ensures Valid() && deviceData == device && deviceDataNew == device
      ensures relayDataList == relays && relayDataNewList == relays
      ensures validationForRelayDataNewList == [] && validUserAndIp == []
    {
      deviceData, deviceDataNew := device, device;
      relayDataList, relayDataNewList := relays, relays;
      validationForRelayDataNewList, validUserAndIp := [], [];
    }

    /** `DEF_RelayDataList`: every relay gets its defaults; nothing else changes. */
    method DefRelayDataList()
      requires Valid()
      modifies this
      ensures Valid()
      ensures forall i :: 0 <= i < RelayCount ==> relayDataList[i].active == 1
                                                  && CStr(relayDataList[i].relayName) == DefaultRelayName(i)
      ensures deviceData == old(deviceData) && deviceDataNew == old(deviceDataNew)
      ensures relayDataNewList == old(relayDataNewList)
      ensures validationForRelayDataNewList == old(validationForRelayDataNewList) && validUserAndIp == old(validUserAndIp)
    {
      for i := 0 to RelayCount
        invariant Valid()
        invariant forall j :: 0 <= j < i ==> relayDataList[j].active == 1
                                             && CStr(relayDataList[j].relayName) == DefaultRelayName(j)
        invariant deviceData == old(deviceData) && deviceDataNew == old(deviceDataNew)
        invariant relayDataNewList == old(relayDataNewList)
        invariant validationForRelayDataNewList == old(validationForRelayDataNewList) && validUserAndIp == old(validUserAndIp)
      {
        var d := DefRelayData(relayDataList[i], i);
        relayDataList := relayDataList[i := d];
      }
    }
  }
}
