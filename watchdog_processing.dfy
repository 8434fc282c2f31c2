/**
 * The watchdog's supervisor: every active host is pinged when it is due; a
 * host that stays silent for more than HostLostAfter consecutive pings has
 * its relay switched on (power cut) for RestartWaitTime seconds, then off,
 * and is pinged again WaitAfterRestart seconds later.
 *
 * The relays and the millisecond clock are the `Board`. The ICMP engine is
 * not composed here: the outcome of each ping and the time it took are
 * inputs (`PingOutcome`).
 */
module WatchdogProcessing {
  import opened Common
  import opened WatchdogStructures

  /** What PingIP reported and how many milliseconds the ping took. */
  datatype PingOutcome = PingOutcome(success: bool, elapsed: nat)

  /** The relays (true is ON) and `millis()`. */
  class Board {
    var relays: seq<bool>
    var clock: nat

    ghost predicate Valid()
      reads this
    {
      |relays| == DogCount
    }

    constructor(now: nat)
      ensures Valid() && clock == now && relays == [false, false, false, false]
    {
      relays := [false, false, false, false];
      clock := now;
    }

    /** `SetRelayStatus`. */
    method SetRelay(i: nat, on: bool)
      requires Valid() && i < DogCount
      modifies this
      ensures Valid() && relays == old(relays)[i := on] && clock == old(clock)
    {
      relays := relays[i := on];
    }

    /** `PingIP`: the ping takes its time and reports whether an echo reply came. */
    method PingIp(ip: seq<Byte>, outcome: PingOutcome) returns (ok: bool)
      requires Valid()
      modifies this
      ensures Valid() && relays == old(relays) && clock == old(clock) + outcome.elapsed
      ensures ok == outcome.success
    {
      clock := clock + outcome.elapsed;
      ok := outcome.success;
    }
  }

  /** `++` on a `uint8_t`: 255 wraps to 0. */
  function Inc(b: Byte): (r: Byte)
    ensures b < 255 ==> r == b + 1
    ensures b == 255 ==> r == 0
  {
    (b + 1) % 256
  }

  /** The time `seconds` after `now`, in milliseconds. */
  function DueAt(now: nat, seconds: Byte): nat
  {
    now + seconds * 1000
  }

  /** A host's new ProcessInfo and what happens to its relay (None: left alone). */
  datatype Effect = Effect(process: ProcessInfo, relay: Option<bool>)

  /**
   * `operationPing`, `now` being the time after the ping: a reply clears the
   * lost count; a loss is counted, and the loss that takes the count past
   * HostLostAfter starts a restart instead.
   */
  function AfterPing(ds: DogSetting, pr: ProcessInfo, success: bool, now: nat): (e: Effect)
    ensures e.relay != Some(false)
    ensures e.relay == Some(true) <==> !success && Inc(pr.lostTimes) > ds.hostLostAfter
    ensures e.process.restarts == if e.relay.Some? then Inc(pr.restarts) else pr.restarts
    ensures e.process.nextOperation == if e.relay.Some? then OtRestart else pr.nextOperation
    ensures e.process.nextTimeToOperate == DueAt(now, if e.relay.Some? then ds.restartWaitTime else ds.testPeriod)
    ensures e.process.lostTimes == if success || e.relay.Some? then 0 else Inc(pr.lostTimes)
  {
    var pinged := pr.(nextTimeToOperate := DueAt(now, ds.testPeriod));
    if success then
      Effect(pinged.(lostTimes := 0), None)
    else
      var lost := Inc(pr.lostTimes);
      if lost > ds.hostLostAfter then
        Effect(ProcessInfo(0, Inc(pr.restarts), DueAt(now, ds.restartWaitTime), OtRestart), Some(true))
      else
        Effect(pinged.(lostTimes := lost), None)
  }

  /** `operationRestart`: the relay goes off and the host is pinged again WaitAfterRestart seconds later. */
  function AfterRestart(ds: DogSetting, pr: ProcessInfo, now: nat): (e: Effect)
    ensures e.relay == Some(false)
    ensures e.process.lostTimes == pr.lostTimes && e.process.restarts == pr.restarts
    ensures e.process.nextOperation == OtPing && e.process.nextTimeToOperate == DueAt(now, ds.waitAfterRestart)
  {
    Effect(pr.(nextOperation := OtPing, nextTimeToOperate := DueAt(now, ds.waitAfterRestart)), Some(false))
  }

  /** The ProcessInfo after failed pings at the given times, oldest first. */
  function Failures(ds: DogSetting, pr: ProcessInfo, times: seq<nat>): ProcessInfo
    decreases |times|
  {
    if |times| == 0 then pr
    else AfterPing(ds, Failures(ds, pr, times[..|times| - 1]), false, times[|times| - 1]).process
  }

  /**
   * Up to HostLostAfter consecutive losses are only counted: the relay is
   * never touched, the restart count and the next operation stay, and the
   * host is pinged again TestPeriod seconds after the last loss.
   */
  lemma {:induction false} LossesAreCounted(ds: DogSetting, pr: ProcessInfo, times: seq<nat>)
    requires pr.lostTimes + |times| <= ds.hostLostAfter < 255
    ensures Failures(ds, pr, times).lostTimes == pr.lostTimes + |times|
    ensures Failures(ds, pr, times).restarts == pr.restarts
    ensures Failures(ds, pr, times).nextOperation == pr.nextOperation
    ensures |times| > 0 ==> Failures(ds, pr, times).nextTimeToOperate == DueAt(times[|times| - 1], ds.testPeriod)
    ensures forall k :: 0 <= k < |times| ==> AfterPing(ds, Failures(ds, pr, times[..k]), false, times[k]).relay.None?
    decreases |times|
  {
    if |times| > 0 {
      var n := |times| - 1;
      LossesAreCounted(ds, pr, times[..n]);
      forall k | 0 <= k < |times|
        ensures AfterPing(ds, Failures(ds, pr, times[..k]), false, times[k]).relay.None?
      {
        if k < n {
          assert times[..n][..k] == times[..k];
        } else {
          LossesAreCounted(ds, pr, times[..k]);
        }
      }
    }
  }

  /**
   * The restart rule: starting from no losses, HostLostAfter losses in a row
   * are tolerated and loss number HostLostAfter + 1 switches the relay on,
   * clears the count, counts a restart and schedules the restart's end
   * RestartWaitTime seconds later.
   */
  lemma RestartAfterTooManyLosses(ds: DogSetting, pr: ProcessInfo, times: seq<nat>, now: nat)
    requires pr.lostTimes == 0 && |times| == ds.hostLostAfter < 255
    ensures AfterPing(ds, Failures(ds, pr, times), false, now)
            == Effect(ProcessInfo(0, Inc(pr.restarts), DueAt(now, ds.restartWaitTime), OtRestart), Some(true))
  {
    LossesAreCounted(ds, pr, times);
  }

  /**
   * A whole outage: after HostLostAfter + 1 losses and the restart, the host
   * is back to pinging with no losses and one more restart, due
   * WaitAfterRestart seconds after the restart ended.
   */
  lemma OutageCycle(ds: DogSetting, pr: ProcessInfo, times: seq<nat>, lost: nat, restored: nat)
    requires pr.lostTimes == 0 && pr.nextOperation == OtPing && |times| == ds.hostLostAfter < 255
    ensures var down := AfterPing(ds, Failures(ds, pr, times), false, lost);
            var up := AfterRestart(ds, down.process, restored);
            down.relay == Some(true) && up.relay == Some(false)
            && up.process == ProcessInfo(0, Inc(pr.restarts), DueAt(restored, ds.waitAfterRestart), OtPing)
  {
    RestartAfterTooManyLosses(ds, pr, times, lost);
  }

  /** What the supervisor changes: the ProcessList, the relays and the clock. */
  datatype Watch = Watch(processes: seq<ProcessInfo>, relays: seq<bool>, clock: nat)

  predicate WatchShaped(w: Watch)
  {
    |w.processes| == DogCount && |w.relays| == DogCount
  }

  /** An operation's effect on host `i` at time `now`. */
  function Apply(w: Watch, i: nat, e: Effect, now: nat): Watch
    requires WatchShaped(w) && i < DogCount
  {
    Watch(w.processes[i := e.process], if e.relay.Some? then w.relays[i := e.relay.value] else w.relays, now)
  }

  /**
   * One turn of processOperaions' loop, for host `i`: nothing for an
   * inactive host or one not yet due; otherwise its next operation.
   */
  function Visit(dogs: seq<DogSetting>, w: Watch, i: nat, outcome: PingOutcome): (r: Watch)
    requires |dogs| == DogCount && WatchShaped(w) && i < DogCount
    ensures WatchShaped(r) && r.clock >= w.clock
    ensures forall j :: 0 <= j < DogCount && j != i ==> r.processes[j] == w.processes[j] && r.relays[j] == w.relays[j]
    ensures dogs[i].active == 0 || w.clock < w.processes[i].nextTimeToOperate ==> r == w
  {
    if dogs[i].active == 0 || w.clock < w.processes[i].nextTimeToOperate then w
    else match w.processes[i].nextOperation
      case OtPing =>
        var now := w.clock + outcome.elapsed;
        Apply(w, i, AfterPing(dogs[i], w.processes[i], outcome.success, now), now)
      case OtRestart =>
        Apply(w, i, AfterRestart(dogs[i], w.processes[i], w.clock), w.clock)
  }

  /** processOperaions' loop over the first `n` hosts. */
  function Pass(dogs: seq<DogSetting>, w: Watch, outcomes: seq<PingOutcome>, n: nat): (r: Watch)
    requires |dogs| == DogCount && WatchShaped(w) && |outcomes| == DogCount && n <= DogCount
    ensures WatchShaped(r)
    decreases n
  {
    if n == 0 then w
    else Visit(dogs, Pass(dogs, w, outcomes, n - 1), n - 1, outcomes[n - 1])
  }

  /**
   * Each host is operated on at most once per pass, in its own turn: before
   * it, its entry and relay are as they were; after it, later turns leave
   * them alone. An inactive host is never touched, and the clock never goes
   * back.
   */
  lemma {:induction false} PassTouchesEachHostOnce(dogs: seq<DogSetting>, w: Watch, outcomes: seq<PingOutcome>, n: nat, j: nat)
    requires |dogs| == DogCount && WatchShaped(w) && |outcomes| == DogCount && n <= DogCount && j < DogCount
    ensures Pass(dogs, w, outcomes, n).clock >= w.clock
    ensures j >= n ==> Pass(dogs, w, outcomes, n).processes[j] == w.processes[j]
                       && Pass(dogs, w, outcomes, n).relays[j] == w.relays[j]
    ensures j < n ==> Pass(dogs, w, outcomes, n).processes[j] == Pass(dogs, w, outcomes, j + 1).processes[j]
                      && Pass(dogs, w, outcomes, n).relays[j] == Pass(dogs, w, outcomes, j + 1).relays[j]
    ensures dogs[j].active == 0 ==> Pass(dogs, w, outcomes, n).processes[j] == w.processes[j]
                                    && Pass(dogs, w, outcomes, n).relays[j] == w.relays[j]
    decreases n
  {
    if n > 0 {
      PassTouchesEachHostOnce(dogs, w, outcomes, n - 1, j);
    }
  }

  /** `SetNextTimeToOperate`: host `i` is due `time` seconds from now. */
  method SetNextTimeToOperate(g: Globals, b: Board, i: nat, time: Byte)
    requires g.Valid() && b.Valid() && i < DogCount
    modifies g
    ensures g.Valid() && g.dogList == old(g.dogList) && g.deviceData == old(g.deviceData)
    ensures g.processList == old(g.processList)[i := old(g.processList[i]).(nextTimeToOperate := DueAt(b.clock, time))]
  {
    var t: nat := time;
    g.processList := g.processList[i := g.processList[i].(nextTimeToOperate := b.clock + t * 1000)];
  }

  /** `operationPing` for host `i`. */
  method OperationPing(g: Globals, b: Board, i: nat, outcome: PingOutcome)
    requires g.Valid() && b.Valid() && i < DogCount
    modifies g, b
    ensures g.Valid() && b.Valid() && g.dogList == old(g.dogList) && g.deviceData == old(g.deviceData)
    ensures var now := old(b.clock) + outcome.elapsed;
            Watch(g.processList, b.relays, b.clock)
            == Apply(Watch(old(g.processList), old(b.relays), now), i,
                     AfterPing(old(g.dogList[i]), old(g.processList[i]), outcome.success, now), now)
  {
    var ds := g.dogList[i];
    var pingResult := b.PingIp(ds.ip, outcome);
    SetNextTimeToOperate(g, b, i, ds.testPeriod);
    if pingResult {
      g.processList := g.processList[i := g.processList[i].(lostTimes := 0)];
      return;
    }
    var lost := Inc(g.processList[i].lostTimes);
    g.processList := g.processList[i := g.processList[i].(lostTimes := lost)];
    if lost > ds.hostLostAfter {
      g.processList := g.processList[i := g.processList[i].(lostTimes := 0)];
      b.SetRelay(i, true);
      g.processList := g.processList[i := g.processList[i].(restarts := Inc(g.processList[i].restarts))];
      g.processList := g.processList[i := g.processList[i].(nextOperation := OtRestart)];
      SetNextTimeToOperate(g, b, i, ds.restartWaitTime);
    }
  }

  /** `operationRestart` for host `i`. */
  method OperationRestart(g: Globals, b: Board, i: nat)
    requires g.Valid() && b.Valid() && i < DogCount
    modifies g, b
    ensures g.Valid() && b.Valid() && g.dogList == old(g.dogList) && g.deviceData == old(g.deviceData)
    ensures Watch(g.processList, b.relays, b.clock)
            == Apply(Watch(old(g.processList), old(b.relays), old(b.clock)), i,
                     AfterRestart(old(g.dogList[i]), old(g.processList[i]), old(b.clock)), old(b.clock))
  {
    b.SetRelay(i, false);
    g.processList := g.processList[i := g.processList[i].(nextOperation := OtPing)];
    SetNextTimeToOperate(g, b, i, g.dogList[i].waitAfterRestart);
  }

  /**
   * `processOperaions`: one pass over the hosts; `outcomes[i]` is what a
   * ping of host `i` in this pass would report.
   */
  method ProcessOperations(g: Globals, b: Board, outcomes: seq<PingOutcome>)
    requires g.Valid() && b.Valid() && |outcomes| == DogCount
    modifies g, b
    ensures g.Valid() && b.Valid() && g.dogList == old(g.dogList) && g.deviceData == old(g.deviceData)
    ensures Watch(g.processList, b.relays, b.clock)
            == Pass(g.dogList, Watch(old(g.processList), old(b.relays), old(b.clock)), outcomes, DogCount)
  {
    ghost var w0 := Watch(g.processList, b.relays, b.clock);
    for i := 0 to DogCount
      invariant g.Valid() && b.Valid() && g.dogList == old(g.dogList) && g.deviceData == old(g.deviceData)
      invariant Watch(g.processList, b.relays, b.clock) == Pass(g.dogList, w0, outcomes, i)
    {
      VisitHost(g, b, i, outcomes[i]);
    }
  }

  /** One turn of `processOperaions`' loop, for host `i`. */
  method VisitHost(g: Globals, b: Board, i: nat, outcome: PingOutcome)
    requires g.Valid() && b.Valid() && i < DogCount
    modifies g, b
    ensures g.Valid() && b.Valid() && g.dogList == old(g.dogList) && g.deviceData == old(g.deviceData)
    ensures Watch(g.processList, b.relays, b.clock)
            == Visit(g.dogList, Watch(old(g.processList), old(b.relays), old(b.clock)), i, outcome)
  {
    if g.dogList[i].active == 0 {
      return;
    }
    if b.clock < g.processList[i].nextTimeToOperate {
      return;
    }
    match g.processList[i].nextOperation {
      case OtPing =>
        OperationPing(g, b, i, outcome);
      case OtRestart =>
        OperationRestart(g, b, i);
    }
  }
}
