/**
 * The data of the ProDino watchdog: the device settings (address, mask,
 * gateway, web user and password), one DogSetting per supervised host and
 * one ProcessInfo with the supervisor's progress per host, together with the
 * factory defaults.
 *
 * The global lists `DogList` and `ProcessList` and the stored `DeviceData`
 * are the fields of a `Globals` object, so that the routines that reset them
 * say exactly what they change.
 */
module WatchdogStructures {
  import opened Common

  /** USER_PAS_LEN: user and password buffers hold this many characters and a NUL. */
  const UserPasLen := 8
  /** DOG_COUNT, which is RELAY_COUNT: one supervised host per relay. */
  const DogCount := 4

  // The factory defaults.
  const DefUser: string := "admin"
  const DefPassword: string := "admin"
  const DefIpAddress: seq<Byte> := [192, 168, 0, 103]
  const DefSubnetMask: seq<Byte> := [255, 255, 255, 0]
  const DefGateway: seq<Byte> := [192, 168, 0, 1]
  const DefTestPeriod: Byte := 30
  const DefHostLostAfter: Byte := 3
  const DefRestartWaitTime: Byte := 10
  const DefWaitAfterRestart: Byte := 60

  /** MAX_HOST_LOST_AFTER: the largest HostLostAfter the settings form accepts. */
  const MaxHostLostAfter: Byte := 10

  datatype OperationType = OtPing | OtRestart

  /** `DeviceSetting`; `user` and `password` are the character buffers, NUL included. */
  datatype DeviceSetting = DeviceSetting(ip: seq<Byte>, subnetMask: seq<Byte>, gateway: seq<Byte>,
                                         user: seq<char>, password: seq<char>)

  /** The buffers have their declared sizes. */
  predicate DeviceShaped(ds: DeviceSetting)
  {
    |ds.ip| == IpLen && |ds.subnetMask| == IpLen && |ds.gateway| == IpLen
    && |ds.user| == UserPasLen + 1 && |ds.password| == UserPasLen + 1
  }

  /** `DogSetting`: one supervised host; the times are in seconds. */
  datatype DogSetting = DogSetting(active: Byte, ip: seq<Byte>, testPeriod: Byte, hostLostAfter: Byte,
                                   restartWaitTime: Byte, waitAfterRestart: Byte)

  /**
   * `ProcessInfo`: consecutive lost pings, restarts so far, the time (ms) of
   * the next operation and what that operation is.
   */
  datatype ProcessInfo = ProcessInfo(lostTimes: Byte, restarts: Byte, nextTimeToOperate: nat,
                                     nextOperation: OperationType)

  /** The timing fields pass the settings form's rules: all positive, HostLostAfter at most 10. */
  predicate TimingAccepted(d: DogSetting)
  {
    d.testPeriod > 0 && 0 < d.hostLostAfter <= MaxHostLostAfter
    && d.restartWaitTime > 0 && d.waitAfterRestart > 0
  }

  /** A DogSetting holding the factory defaults. */
  predicate DogDefaulted(d: DogSetting)
  {
    d.active == 0 && d.ip == [0, 0, 0, 0] && d.testPeriod == DefTestPeriod && d.hostLostAfter == DefHostLostAfter
    && d.restartWaitTime == DefRestartWaitTime && d.waitAfterRestart == DefWaitAfterRestart
  }

  /** The state SetLists_DEF is meant to give a ProcessInfo: no losses, no restarts, ping next. */
  predicate ProcessReset(p: ProcessInfo)
  {
    p.lostTimes == 0 && p.restarts == 0 && p.nextOperation == OtPing
  }

  /**
   * `DEF_DeviceSetting`: user and password "admin" (copied with their NUL,
   * `sizeof` bytes), address 192.168.0.103, mask 255.255.255.0, gateway
   * 192.168.0.1.
   */
  method DefDeviceSetting(ds: DeviceSetting) returns (r: DeviceSetting)
    requires DeviceShaped(ds)
    ensures DeviceShaped(r)
    ensures CStr(r.user) == DefUser && CStr(r.password) == DefPassword
    ensures r.ip == DefIpAddress && r.subnetMask == DefSubnetMask && r.gateway == DefGateway
  {
    r := ds;
    // strNCopy(ds.User, DEF_User, sizeof(DEF_User)): the five letters and their NUL.
    r := r.(user := StrNCopy(r.user, DefUser + [Nul], |DefUser| + 1));
    r := r.(password := StrNCopy(r.password, DefPassword + [Nul], |DefPassword| + 1));
    CStrOfTerminated(r.user, DefUser);
    CStrOfTerminated(r.password, DefPassword);
    var ip := CopyAddress(r.ip, DefIpAddress);
    var mask := CopyAddress(r.subnetMask, DefSubnetMask);
    var gateway := CopyAddress(r.gateway, DefGateway);
    r := r.(ip := ip, subnetMask := mask, gateway := gateway);
  }

  /**
   * `DEF_DogSetting`: not active, address 0.0.0.0, ping every 30 s, restart
   * after 3 lost pings, keep the relay on for 10 s and wait 60 s after a
   * restart.
   */
  method DefDogSetting(data: DogSetting) returns (r: DogSetting)
    requires |data.ip| == IpLen
    ensures r.active == 0 && r.ip == [0, 0, 0, 0]
    ensures r.testPeriod == 30 && r.hostLostAfter == 3 && r.restartWaitTime == 10 && r.waitAfterRestart == 60
    ensures DogDefaulted(r) && TimingAccepted(r)
  {
    r := data.(active := 0);
    for i := 0 to IpLen
      invariant |r.ip| == IpLen && r.active == 0
      invariant forall j :: 0 <= j < i ==> r.ip[j] == 0
    {
      r := r.(ip := r.ip[i := 0]);
    }
    r := r.(testPeriod := DefTestPeriod, hostLostAfter := DefHostLostAfter,
            restartWaitTime := DefRestartWaitTime, waitAfterRestart := DefWaitAfterRestart);
  }

  /** The watchdog's global settings and supervisor state. */
  class Globals {
    /** `DeviceData`. */
    var deviceData: DeviceSetting
    /** `DogList`. */
    var dogList: seq<DogSetting>
    /** `ProcessList`. */
    var processList: seq<ProcessInfo>

    ghost predicate Valid()
      reads this
    {
      DeviceShaped(deviceData) && |dogList| == DogCount && |processList| == DogCount
      && forall i :: 0 <= i < DogCount ==> |dogList[i].ip| == IpLen
    }

    constructor(device: DeviceSetting, dogs: seq<DogSetting>, processes: seq<ProcessInfo>)
      requires DeviceShaped(device) && |dogs| == DogCount && |processes| == DogCount
      requires forall i :: 0 <= i < DogCount ==> |dogs[i].ip| == IpLen
      ensures Valid() && deviceData == device && dogList == dogs && processList == processes
    {
      deviceData := device;
      dogList := dogs;
      processList := processes;
    }

    /**
     * `SetLists_DEF` as written: every DogList entry gets its defaults, but
     * the counters are cleared in `pd`, a local copy of the ProcessList entry,
     * so ProcessList itself is left as it was.
     */
    method SetListsDefAsWritten()
      requires Valid()
      modifies this
      ensures Valid() && deviceData == old(deviceData)
      ensures forall i :: 0 <= i < DogCount ==> DogDefaulted(dogList[i])
      ensures processList == old(processList)
    {
      for i := 0 to DogCount
        invariant Valid() && deviceData == old(deviceData) && processList == old(processList)
        invariant forall j :: 0 <= j < i ==> DogDefaulted(dogList[j])
      {
        var d := DefDogSetting(dogList[i]);
        dogList := dogList[i := d];
        var pd := processList[i];
        pd := pd.(lostTimes := 0, restarts := 0, nextOperation := OtPing);
      }
    }

    /** `SetLists_DEF` as intended: the DogList defaults, and every ProcessList entry reset. */
    method SetListsDef()
      requires Valid()
      modifies this
      ensures Valid() && deviceData == old(deviceData)
      ensures forall i :: 0 <= i < DogCount ==> DogDefaulted(dogList[i])
      ensures forall i :: 0 <= i < DogCount ==> ProcessReset(processList[i])
                                                 && processList[i].nextTimeToOperate == old(processList[i].nextTimeToOperate)
    {
      for i := 0 to DogCount
        invariant Valid() && deviceData == old(deviceData)
        invariant forall j :: 0 <= j < i ==> DogDefaulted(dogList[j])
        invariant forall j :: 0 <= j < i ==> ProcessReset(processList[j])
        invariant forall j :: 0 <= j < DogCount ==> processList[j].nextTimeToOperate == old(processList[j].nextTimeToOperate)
      {
        var d := DefDogSetting(dogList[i]);
        dogList := dogList[i := d];
        var pd := processList[i];
        pd := pd.(lostTimes := 0, restarts := 0, nextOperation := OtPing);
        processList := processList[i := pd];
      }
    }
  }

  /** Whether every ProcessList entry is in the state a reset should give it. */
  predicate AllReset(processes: seq<ProcessInfo>)
  {
    forall i :: 0 <= i < |processes| ==> ProcessReset(processes[i])
  }

  /**
   * The as-written reset keeps a host's history: when some ProcessList entry
   * is not in its reset state (host 0 has lost two pings and is due a
   * restart, say), it is still not after SetListsDefAsWritten.
   */
  method SetListsDefAsWrittenKeepsHistory(g: Globals)
    requires g.Valid() && !AllReset(g.processList)
    modifies g
    ensures !AllReset(g.processList)
  {
    g.SetListsDefAsWritten();
  }

  /** The corrected reset leaves every ProcessList entry in its reset state, whatever it held. */
  method SetListsDefResetsAll(g: Globals)
    requires g.Valid()
    modifies g
    ensures AllReset(g.processList)
  {
    g.SetListsDef();
  }
}
