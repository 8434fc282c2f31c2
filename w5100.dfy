/**
 * The part of the WIZnet W5100 Ethernet controller that the ping engine
 * drives: per-socket status and TTL registers, the interrupt register, the
 * receive buffer of the socket in use, and the millisecond clock of the board.
 *
 * Everything the engine writes to the chip is recorded in `log`, so a
 * contract can say exactly which commands and register writes a call issued.
 * What the network does is a script: `irFeed` lists what successive reads of
 * the interrupt register return, and `env` lists, for each successive
 * `millis()` call, how much time has passed and which bytes arrived in the
 * receive buffer meanwhile.
 */
module W5100 {
  import opened Common

  // Socket status register (Sn_SR) values.
  const SockClosed: Byte := 0x00
  const SockFinWait: Byte := 0x18
  const SockCloseWait: Byte := 0x1C
  const SockIpRaw: Byte := 0x32

  // Socket interrupt register (Sn_IR) flags.
  const IrSendOk: Byte := 0x10
  const IrTimeout: Byte := 0x08

  // Socket mode register (Sn_MR) value for raw IP, and the IP protocol number of ICMP.
  const ModeIpRaw: Byte := 0x03
  const ProtoIcmp: Byte := 1

  /** Bit 4 (SEND_OK) of an interrupt register value. */
  predicate SendOkSet(ir: Byte) { (ir / 16) % 2 == 1 }

  /** Bit 3 (TIMEOUT) of an interrupt register value. */
  predicate TimeoutSet(ir: Byte) { (ir / 8) % 2 == 1 }

  datatype Command = Open | Close | Send | Recv

  /** A command or register write issued to the chip. */
  datatype Op =
    | Exec(socket: nat, cmd: Command)
    | WriteIR(socket: nat, ir: Byte)
    | WriteMode(socket: nat, mode: Byte)
    | WriteProto(socket: nat, proto: Byte)
    | WritePort(socket: nat, port: Word)
    | WriteDestIp(socket: nat, addr: seq<Byte>)
    | WriteTtl(socket: nat, ttl: Byte)
    | WriteDestPort(socket: nat, port: Word)
    | SendData(socket: nat, data: seq<Byte>)
    | WriteRxRead(socket: nat, ptr: nat)

  /** What happens between two readings of the clock. */
  datatype EnvStep = EnvStep(elapsed: nat, arrival: seq<Byte>)

  /** `n` bytes of the receive buffer from `from`; bytes not yet received read as 0. */
  function RxBytes(rx: seq<Byte>, from: nat, n: nat): (r: seq<Byte>)
    ensures |r| == n
    ensures forall i :: 0 <= i < n && from + i < |rx| ==> r[i] == rx[from + i]
  {
    seq(n, i requires 0 <= i < n => if from + i < |rx| then rx[from + i] else 0)
  }

  class Chip {
    /** Sn_SR of every socket; there are MAX_SOCK_NUM of them. */
    var status: seq<Byte>
    /** Sn_TTL of every socket. */
    var ttl: seq<Byte>
    /** Every command and register write so far, oldest first. */
    var log: seq<Op>
    /** Values that the next reads of Sn_IR return; once used up, Sn_IR shows TIMEOUT. */
    var irFeed: seq<Byte>
    /** The board's millisecond clock. */
    var clock: nat
    /** The rest of the network script; once used up, each reading of the clock advances it by 1 ms. */
    var env: seq<EnvStep>
    /** Everything the socket in use has received since it was opened. */
    var rx: seq<Byte>
    /** Sn_RX_RD: where the next read starts. */
    var rxRead: nat
    /** Sn_RX_RD as of the last RECV command: what the chip considers consumed. */
    var rxDone: nat

    ghost predicate Valid()
      reads this
    {
      |ttl| == |status|
    }

    constructor(sockets: nat, feed: seq<Byte>, script: seq<EnvStep>)
      ensures Valid()
      ensures |status| == sockets && forall i :: 0 <= i < sockets ==> status[i] == SockClosed
      ensures log == [] && irFeed == feed && env == script && clock == 0
      ensures rx == [] && rxRead == 0 && rxDone == 0
    {
      status := seq(sockets, _ => SockClosed);
      ttl := seq(sockets, _ => 0);
      log := [];
      irFeed := feed;
      clock := 0;
      env := script;
      rx := [];
      rxRead := 0;
      rxDone := 0;
    }

    /** Sn_RX_RSR: bytes received and not yet released by RECV. */
    function ReceivedSize(): nat
      reads this
    {
      if rxDone < |rx| then |rx| - rxDone else 0
    }

    /** `millis()`: advances the clock by the next script step, which may deliver bytes. */
    method Millis() returns (now: nat)
      requires Valid()
      modifies this
      ensures Valid()
      ensures |old(env)| > 0 ==> env == old(env)[1..] && clock == old(clock) + old(env)[0].elapsed
                                 && rx == old(rx) + old(env)[0].arrival
      ensures |old(env)| == 0 ==> env == [] && clock == old(clock) + 1 && rx == old(rx)
      ensures now == clock
      ensures status == old(status) && ttl == old(ttl) && log == old(log) && irFeed == old(irFeed)
      ensures rxRead == old(rxRead) && rxDone == old(rxDone)
    {
      if |env| > 0 {
        clock := clock + env[0].elapsed;
        rx := rx + env[0].arrival;
        env := env[1..];
      } else {
        clock := clock + 1;
      }
      now := clock;
    }

    /** A read of Sn_IR. */
    method ReadIR() returns (ir: Byte)
      requires Valid()
      modifies this
      ensures Valid()
      ensures |old(irFeed)| > 0 ==> ir == old(irFeed)[0] && irFeed == old(irFeed)[1..]
      ensures |old(irFeed)| == 0 ==> ir == IrTimeout && irFeed == []
      ensures status == old(status) && ttl == old(ttl) && log == old(log) && clock == old(clock)
      ensures env == old(env) && rx == old(rx) && rxRead == old(rxRead) && rxDone == old(rxDone)
    {
      if |irFeed| > 0 {
        ir := irFeed[0];
        irFeed := irFeed[1..];
      } else {
        ir := IrTimeout;
      }
    }

    /** `execCmdSn`: OPEN (raw IP mode) and CLOSE change the socket status; RECV releases what was read. */
    method ExecCmd(s: nat, cmd: Command)
      requires Valid() && s < |status|
      modifies this
      ensures Valid()
      ensures log == old(log) + [Exec(s, cmd)]
      ensures status == (match cmd
                         case Open => old(status)[s := SockIpRaw]
                         case Close => old(status)[s := SockClosed]
                         case _ => old(status))
      ensures cmd == Open ==> rx == [] && rxRead == 0 && rxDone == 0
      ensures cmd == Recv ==> rx == old(rx) && rxRead == old(rxRead) && rxDone == old(rxRead)
      ensures cmd != Open && cmd != Recv ==> rx == old(rx) && rxRead == old(rxRead) && rxDone == old(rxDone)
      ensures ttl == old(ttl) && irFeed == old(irFeed) && clock == old(clock) && env == old(env)
    {
      log := log + [Exec(s, cmd)];
      match cmd {
        case Open =>
          status := status[s := SockIpRaw];
          rx, rxRead, rxDone := [], 0, 0;
        case Close =>
          status := status[s := SockClosed];
        case Recv =>
          rxDone := rxRead;
        case Send =>
      }
    }

    /** A register write that only configures the chip; Sn_TTL is kept so that it can be read back. */
    method Write(op: Op)
      requires Valid() && !op.Exec? && op.socket < |status|
      modifies this
      ensures Valid()
      ensures log == old(log) + [op]
      ensures ttl == (if op.WriteTtl? then old(ttl)[op.socket := op.ttl] else old(ttl))
      ensures op.WriteRxRead? ==> rxRead == op.ptr
      ensures !op.WriteRxRead? ==> rxRead == old(rxRead)
      ensures status == old(status) && irFeed == old(irFeed) && clock == old(clock) && env == old(env)
      ensures rx == old(rx) && rxDone == old(rxDone)
    {
      log := log + [op];
      if op.WriteTtl? {
        ttl := ttl[op.socket := op.ttl];
      }
      if op.WriteRxRead? {
        rxRead := op.ptr;
      }
    }
  }
}
