/**
 * ICMPProtocol: the ping engine of the KMP DiNo Ethernet boards. `Ping`
 * takes a free W5100 socket, opens it in raw IP mode for ICMP, sends echo
 * requests until one is answered or the retries run out, and closes the
 * socket again. Each request is a 24-byte echo request (8-byte header and a
 * 16-byte payload) whose sequence number comes from a counter kept by the
 * engine.
 */
module IcmpProtocol {
  import opened Common
  import opened IcmpChecksum
  import opened W5100

  const IcmpEchoReq: Byte := 8
  const IcmpEchoRep: Byte := 0
  const IcmpCode: Byte := 0
  const IcmpHeaderSize := 8
  const PayloadDataSize := 16
  const IcmpPacketSize := IcmpHeaderSize + PayloadDataSize
  const PayloadContentStartChar: Byte := 32
  /** How long the engine waits for a reply, in milliseconds. */
  const PingTimeout := 1000
  const Ttl: Byte := 255
  /** Size of the header the W5100 puts in front of every raw IP packet it receives. */
  const RawHeaderSize := 6

  datatype IcmpStatus = Success | SendTimeout | NoResponse | BadResponse | NoFreeSocket

  datatype IcmpHeader = IcmpHeader(icmpType: Byte, code: Byte, id: Word, seqNo: Word)

  /** The outcome of a ping; fields the engine never set are None. */
  datatype EchoReply = EchoReply(ttl: Option<Byte>, status: IcmpStatus, addr: Option<seq<Byte>>,
                                 time: Option<nat>, seqNo: Option<Word>)

  /** The 16-bit value with high byte `high` and low byte `low`. */
  function WordFromBytes(high: Byte, low: Byte): (w: Word)
    ensures w / 256 == high && w % 256 == low
  {
    high * 256 + low
  }

  // ---------------------------------------------------------------------
  // The echo request
  // ---------------------------------------------------------------------

  /** The payload: 16 consecutive characters starting at the space character. */
  function Payload(): (p: seq<Byte>)
    ensures |p| == PayloadDataSize
  {
    seq(PayloadDataSize, i requires 0 <= i < PayloadDataSize => PayloadContentStartChar + i)
  }

  /** An echo request before its checksum is filled in: id and sequence number in network byte order. */
  function RequestLayout(hdr: IcmpHeader): (p: seq<Byte>)
    ensures |p| == IcmpPacketSize
  {
    [hdr.icmpType, hdr.code, 0, 0, hdr.id / 256, hdr.id % 256, hdr.seqNo / 256, hdr.seqNo % 256] + Payload()
  }

  /** The echo request the engine sends for a header. */
  function EchoRequestPacket(hdr: IcmpHeader): (p: seq<Byte>)
    ensures |p| == IcmpPacketSize
  {
    WithChecksum(RequestLayout(hdr))
  }

  /**
   * The request is an RFC 792 echo request: type 8, code 0, identifier and
   * sequence number in network byte order, the 16-byte payload, and a
   * checksum that verifies in network byte order.
   */
  lemma EchoRequestFormat(id: Word, sequence: Word)
    ensures var p := EchoRequestPacket(IcmpHeader(IcmpEchoReq, IcmpCode, id, sequence));
      && p[0] == IcmpEchoReq && p[1] == IcmpCode
      && BeWords(p)[2] == id && BeWords(p)[3] == sequence
      && p[IcmpHeaderSize..] == Payload()
      && OnesSum(BeWords(p)) == 0xFFFF
  {
    var hdr := IcmpHeader(IcmpEchoReq, IcmpCode, id, sequence);
    RequestFields(hdr);
    ChecksumVerifiesOnTheWire(RequestLayout(hdr));
  }

  /** Storing the checksum leaves the header fields and the payload of the layout in place. */
  lemma RequestFields(hdr: IcmpHeader)
    ensures var p := EchoRequestPacket(hdr);
      && p[0] == hdr.icmpType && p[1] == hdr.code
      && BeWords(p)[2] == hdr.id && BeWords(p)[3] == hdr.seqNo
      && p[IcmpHeaderSize..] == Payload()
  {
    var layout := RequestLayout(hdr);
    var p := WithChecksum(layout);
    assert BeWords(p)[2] == 256 * (layout[4] as int) + layout[5] as int;
    assert BeWords(p)[3] == 256 * (layout[6] as int) + layout[7] as int;
    assert p[IcmpHeaderSize..] == layout[IcmpHeaderSize..];
  }

  /**
   * `CalcChecksum`: adds the packet's words, except the checksum word, into a
   * 32-bit sum, folds the carries back in and stores the complement.
   */
  method CalcChecksum(p: array<Byte>)
    requires p.Length == IcmpPacketSize
    modifies p
    ensures p[..] == WithChecksum(old(p[..]))
  {
    var sum := AddWords(p);
    // Add the high 16 bits to the low 16 bits, then add the carry.
    sum := sum / WordBase + sum % WordBase;
    sum := sum + sum / WordBase;
    // `~sum` stored into a 16-bit slot keeps the low 16 bits of the complement.
    var checksum := 0xFFFF - sum % WordBase;
    FoldedChecksum(p[..], Sum(ChecksumInput(p[..])));
    ghost var before := p[..];
    p[2] := checksum % 256;
    p[3] := checksum / 256;
    assert p[..] == before[..2] + [checksum % 256, checksum / 256] + before[4..];
  }

  /**
   * The summing part of `CalcChecksum`: type and code, identifier, sequence
   * number and the payload, read as native (little-endian) 16-bit words.
   */
  method AddWords(p: array<Byte>) returns (sum: nat)
    requires p.Length == IcmpPacketSize
    ensures sum == Sum(ChecksumInput(p[..]))
  {
    ghost var ws := ChecksumInput(p[..]);
    // Type and code. The two `*(icmpPacket++)` arguments are unsequenced in C++; the model assumes
    // the second is evaluated first, so p[0] is the low byte, matching the native reads of
    // identifier and sequence number.
    sum := WordFromBytes(p[1], p[0]);
    sum := sum + WordFromBytes(p[5], p[4]);
    sum := sum + WordFromBytes(p[7], p[6]);
    assert sum == Sum(ws[..3]) by {
      InputWord(p[..], 0);
      InputWord(p[..], 1);
      InputWord(p[..], 2);
      assert ws[..0] == [];
      SumPrefixStep(ws, 0);
      SumPrefixStep(ws, 1);
      SumPrefixStep(ws, 2);
    }
    var i := 0;
    ghost var k := 0;
    while i < PayloadDataSize
      invariant 0 <= k <= PayloadDataSize / 2 && i == 2 * k
      invariant sum == Sum(ws[..3 + k])
    {
      PayloadWordSum(p[..], k);
      sum := sum + WordFromBytes(p[IcmpHeaderSize + i + 1], p[IcmpHeaderSize + i]);
      i, k := i + 2, k + 1;
    }
    assert ws[..11] == ws;
  }

  /** Payload word `k`, read as AddWords reads it, extends the checksum input's running sum by one word. */
  lemma PayloadWordSum(p: seq<Byte>, k: nat)
    requires |p| == IcmpPacketSize && k < PayloadDataSize / 2
    ensures Sum(ChecksumInput(p)[..3 + k + 1])
            == Sum(ChecksumInput(p)[..3 + k]) + WordFromBytes(p[IcmpHeaderSize + 2 * k + 1], p[IcmpHeaderSize + 2 * k])
  {
    InputWord(p, 3 + k);
    SumPrefixStep(ChecksumInput(p), 3 + k);
  }

  /** Word `j` of the checksum input: bytes 0 and 1 for the first, bytes 2j+2 and 2j+3 after it. */
  lemma InputWord(p: seq<Byte>, j: nat)
    requires |p| == IcmpPacketSize && j < IcmpPacketSize / 2 - 1
    ensures j == 0 ==> ChecksumInput(p)[j] == p[0] as int + 256 * (p[1] as int)
    ensures j > 0 ==> ChecksumInput(p)[j] == p[2 * j + 2] as int + 256 * (p[2 * j + 3] as int)
  {
    if j > 0 {
      assert ChecksumInput(p)[j] == LeWords(p)[j + 1];
    }
  }

  /** The complement of the folded 32-bit sum is the packet's checksum. */
  lemma FoldedChecksum(p: seq<Byte>, sum: nat)
    requires |p| == IcmpPacketSize && sum == Sum(ChecksumInput(p))
    ensures var s1 := sum / WordBase + sum % WordBase;
      0xFFFF - (s1 + s1 / WordBase) % WordBase == Checksum(p)
  {
    FoldIsOnesSum(ChecksumInput(p));
  }

  // ---------------------------------------------------------------------
  // Sockets
  // ---------------------------------------------------------------------

  /** A socket the engine may take: closed, or on its way to closing. */
  predicate IsFree(sr: Byte)
  {
    sr == SockClosed || sr == SockFinWait || sr == SockCloseWait
  }

  /** The lowest free socket, or the number of sockets when none is free. */
  function FirstFreeSocket(status: seq<Byte>, from: nat := 0): (s: nat)
    requires from <= |status|
    ensures from <= s <= |status|
    ensures s < |status| ==> IsFree(status[s])
    ensures forall i :: from <= i < s ==> !IsFree(status[i])
    decreases |status| - from
  {
    if from == |status| then from
    else if IsFree(status[from]) then from
    else FirstFreeSocket(status, from + 1)
  }

  /** `GetFreeSocket`: scans the status registers for the lowest free socket. */
  method GetFreeSocket(chip: Chip) returns (s: nat)
    ensures s <= |chip.status|
    ensures s < |chip.status| ==> IsFree(chip.status[s])
    ensures forall i :: 0 <= i < s ==> !IsFree(chip.status[i])
  {
    s := 0;
    while s < |chip.status|
      invariant s <= |chip.status|
      invariant forall i :: 0 <= i < s ==> !IsFree(chip.status[i])
    {
      if IsFree(chip.status[s]) {
        return;
      }
      s := s + 1;
    }
  }

  // ---------------------------------------------------------------------
  // Sending
  // ---------------------------------------------------------------------

  /** What the n-th read of Sn_IR returns. */
  function IrRead(feed: seq<Byte>, n: nat): Byte
  {
    if n < |feed| then feed[n] else IrTimeout
  }

  /**
   * The wait after SEND: round k reads Sn_IR twice, first for SEND_OK and
   * then for TIMEOUT. The result says whether the wait ended in a timeout and
   * how many reads it took.
   */
  function SendWait(feed: seq<Byte>): (r: (bool, nat))
    ensures r.1 >= 1
    decreases |feed|
  {
    if SendOkSet(IrRead(feed, 0)) then (false, 1)
    else if TimeoutSet(IrRead(feed, 1)) then (true, 2)
    else
      var w := SendWait(feed[2..]);
      (w.0, w.1 + 2)
  }

  /**
   * The send wait ends at the first SEND_OK seen in a SEND_OK check or the
   * first TIMEOUT seen in a TIMEOUT check, whichever comes first; it times
   * out exactly when the TIMEOUT is seen first.
   */
  lemma {:induction false} SendWaitOutcome(feed: seq<Byte>)
    ensures var (timedOut, n) := SendWait(feed);
      && (timedOut <==> n % 2 == 0)
      && (timedOut ==> TimeoutSet(IrRead(feed, n - 1)))
      && (!timedOut ==> SendOkSet(IrRead(feed, n - 1)))
      && (forall j :: 0 <= j < n - 1 && j % 2 == 0 ==> !SendOkSet(IrRead(feed, j)))
      && (forall j :: 0 <= j < n - 1 && j % 2 == 1 ==> !TimeoutSet(IrRead(feed, j)))
    decreases |feed|
  {
    if !SendOkSet(IrRead(feed, 0)) && !TimeoutSet(IrRead(feed, 1)) {
      var rest := feed[2..];
      SendWaitOutcome(rest);
      assert forall j :: j >= 2 ==> IrRead(feed, j) == IrRead(rest, j - 2);
    }
  }

  /** Writes that address, prepare and send one echo request. */
  function SendLog(s: nat, addr: seq<Byte>, packet: seq<Byte>): seq<Op>
  {
    [WriteDestIp(s, addr), WriteTtl(s, Ttl), WriteDestPort(s, 0), SendData(s, packet), Exec(s, Send)]
  }

  /** The interrupt flags cleared at the end of a send wait. */
  function SendAck(timedOut: bool): Byte
  {
    if timedOut then IrSendOk + IrTimeout else IrSendOk
  }

  /**
   * `sendEchoRequest`: builds the request, hands it to the chip and waits
   * until the chip reports it sent (SUCCESS) or reports a timeout (SEND_TIMEOUT).
   */
  method SendEchoRequest(chip: Chip, s: nat, addr: seq<Byte>, hdr: IcmpHeader) returns (st: IcmpStatus)
    requires chip.Valid() && s < |chip.status|
    modifies chip
    ensures chip.Valid()
    ensures st == Success || st == SendTimeout
    ensures var (timedOut, n) := SendWait(old(chip.irFeed));
      && (st == SendTimeout <==> timedOut)
      && chip.irFeed == old(chip.irFeed)[if n <= |old(chip.irFeed)| then n else |old(chip.irFeed)|..]
    ensures chip.log == old(chip.log) + SendLog(s, addr, EchoRequestPacket(hdr)) + [WriteIR(s, SendAck(st == SendTimeout))]
    ensures chip.ttl == old(chip.ttl)[s := Ttl]
    ensures chip.status == old(chip.status) && chip.clock == old(chip.clock) && chip.env == old(chip.env)
    ensures chip.rx == old(chip.rx) && chip.rxRead == old(chip.rxRead) && chip.rxDone == old(chip.rxDone)
  {
    LoadRequest(chip, s, addr, hdr);
    var timedOut := WaitForSend(chip, s);
    st := if timedOut then SendTimeout else Success;
  }

  /** The first half of `sendEchoRequest`: destination, TTL and the request go to the socket, then SEND. */
  method LoadRequest(chip: Chip, s: nat, addr: seq<Byte>, hdr: IcmpHeader)
    requires chip.Valid() && s < |chip.status|
    modifies chip
    ensures chip.Valid()
    ensures chip.log == old(chip.log) + SendLog(s, addr, EchoRequestPacket(hdr))
    ensures chip.ttl == old(chip.ttl)[s := Ttl] && chip.irFeed == old(chip.irFeed)
    ensures chip.status == old(chip.status) && chip.clock == old(chip.clock) && chip.env == old(chip.env)
    ensures chip.rx == old(chip.rx) && chip.rxRead == old(chip.rxRead) && chip.rxDone == old(chip.rxDone)
  {
    var packet := BuildEchoRequest(hdr);
    ghost var log0 := chip.log;
    chip.Write(WriteDestIp(s, addr));
    chip.Write(WriteTtl(s, Ttl));
    chip.Write(WriteDestPort(s, 0));
    chip.Write(SendData(s, packet[..]));
    chip.ExecCmd(s, Send);
    assert chip.log == log0 + SendLog(s, addr, EchoRequestPacket(hdr));
  }

  /** The packet buffer of `sendEchoRequest`, filled in and given its checksum. */
  method BuildEchoRequest(hdr: IcmpHeader) returns (packet: array<Byte>)
    ensures fresh(packet)
    ensures packet[..] == EchoRequestPacket(hdr)
  {
    packet := new Byte[IcmpPacketSize];
    packet[0], packet[1] := hdr.icmpType, hdr.code;
    // Bytes 2 and 3 are left as they are until the checksum is stored there.
    // htons on a little-endian board stores the high byte first.
    packet[4], packet[5] := hdr.id / 256, hdr.id % 256;
    packet[6], packet[7] := hdr.seqNo / 256, hdr.seqNo % 256;
    ghost var header := packet[..IcmpHeaderSize];
    var fillChar: Byte := PayloadContentStartChar;
    for i := 0 to PayloadDataSize
      invariant fillChar == PayloadContentStartChar + i
      invariant packet[..IcmpHeaderSize] == header
      invariant forall j :: IcmpHeaderSize <= j < IcmpHeaderSize + i ==> packet[j] == PayloadContentStartChar + (j - IcmpHeaderSize)
    {
      packet[IcmpHeaderSize + i] := fillChar;
      fillChar := fillChar + 1;
    }
    assert packet[4..] == RequestLayout(hdr)[4..];
    WithChecksumIgnoresSlot(packet[..], RequestLayout(hdr));
    CalcChecksum(packet);
  }

  /**
   * The wait loop of `sendEchoRequest`: polls Sn_IR until SEND_OK or
   * TIMEOUT shows, then clears the flags it saw.
   */
  method WaitForSend(chip: Chip, s: nat) returns (timedOut: bool)
    requires chip.Valid() && s < |chip.status|
    modifies chip
    ensures chip.Valid()
    ensures var (t, n) := SendWait(old(chip.irFeed));
      && timedOut == t
      && chip.irFeed == old(chip.irFeed)[if n <= |old(chip.irFeed)| then n else |old(chip.irFeed)|..]
    ensures chip.log == old(chip.log) + [WriteIR(s, SendAck(timedOut))]
    ensures chip.ttl == old(chip.ttl) && chip.status == old(chip.status) && chip.clock == old(chip.clock)
    ensures chip.env == old(chip.env) && chip.rx == old(chip.rx) && chip.rxRead == old(chip.rxRead)
    ensures chip.rxDone == old(chip.rxDone)
  {
    ghost var feed := chip.irFeed;
    ghost var used := 0;
    while true
      invariant chip.Valid() && chip.log == old(chip.log) && chip.ttl == old(chip.ttl)
      invariant chip.status == old(chip.status) && chip.clock == old(chip.clock) && chip.env == old(chip.env)
      invariant chip.rx == old(chip.rx) && chip.rxRead == old(chip.rxRead) && chip.rxDone == old(chip.rxDone)
      invariant used <= |feed| && chip.irFeed == feed[used..]
      invariant SendWait(feed) == (SendWait(chip.irFeed).0, SendWait(chip.irFeed).1 + used)
      decreases |chip.irFeed|
    {
      var done;
      done, timedOut := PollSend(chip);
      if done {
        break;
      }
      used := used + 2;
    }
    chip.Write(WriteIR(s, SendAck(timedOut)));
  }

  /**
   * One round of the send wait: Sn_IR is read for SEND_OK and, when that is
   * not set, read again for TIMEOUT. The wait is over when either is seen.
   */
  method PollSend(chip: Chip) returns (done: bool, timedOut: bool)
    requires chip.Valid()
    modifies chip
    ensures chip.Valid()
    ensures var (t, n) := SendWait(old(chip.irFeed));
      done ==> n <= 2 && timedOut == t && chip.irFeed == old(chip.irFeed)[if n <= |old(chip.irFeed)| then n else |old(chip.irFeed)|..]
    ensures !done ==> && |old(chip.irFeed)| >= 2 && chip.irFeed == old(chip.irFeed)[2..]
                      && SendWait(old(chip.irFeed)) == (SendWait(chip.irFeed).0, SendWait(chip.irFeed).1 + 2)
    ensures chip.log == old(chip.log) && chip.ttl == old(chip.ttl) && chip.status == old(chip.status)
    ensures chip.clock == old(chip.clock) && chip.env == old(chip.env)
    ensures chip.rx == old(chip.rx) && chip.rxRead == old(chip.rxRead) && chip.rxDone == old(chip.rxDone)
  {
    var ir := chip.ReadIR();
    if SendOkSet(ir) {
      return true, false;
    }
    ir := chip.ReadIR();
    if TimeoutSet(ir) {
      return true, true;
    }
    return false, false;
  }

  // ---------------------------------------------------------------------
  // Receiving
  // ---------------------------------------------------------------------

  /** What the engine reads of one received packet. */
  datatype ReplyHeader = ReplyHeader(addr: seq<Byte>, length: nat, icmpType: Byte, id: Word, seqNo: Word)

  /** The data length in the raw IP header in front of a received packet. */
  function DataLength(ip: seq<Byte>): nat
    requires |ip| == RawHeaderSize
  {
    WordFromBytes(ip[4], ip[5])
  }

  /**
   * How many ICMP header bytes the board reads: the data length is kept in a
   * `uint8_t`, so only its low byte counts, and it is clamped to the 8 bytes
   * of the header.
   */
  function HeaderBytesRead(ip: seq<Byte>): (n: nat)
    requires |ip| == RawHeaderSize
    ensures n <= IcmpHeaderSize && n <= DataLength(ip)
    ensures n == IcmpHeaderSize || n == DataLength(ip) % 256
  {
    var low := DataLength(ip) % 256;
    if low > IcmpHeaderSize then IcmpHeaderSize else low
  }

  /**
   * The packet that starts at `at` in the receive buffer: the sender's
   * address, then the ICMP header, of which only `HeaderBytesRead` bytes are
   * read; header bytes not read are 0.
   */
  function DecodeReply(rx: seq<Byte>, at: nat): (h: ReplyHeader)
    ensures |h.addr| == 4
  {
    var ip := RxBytes(rx, at, RawHeaderSize);
    var n := HeaderBytesRead(ip);
    var icmp := RxBytes(rx, at + RawHeaderSize, n) + seq(IcmpHeaderSize - n, _ => 0);
    ReplyHeader(ip[..4], DataLength(ip), icmp[0], WordFromBytes(icmp[4], icmp[5]), WordFromBytes(icmp[6], icmp[7]))
  }

  /** A reply to `req`: an echo reply carrying the request's identifier and sequence number. */
  predicate Answers(h: ReplyHeader, req: IcmpHeader)
  {
    h.icmpType == IcmpEchoRep && h.id == req.id && h.seqNo == req.seqNo
  }

  /**
   * Where the board moves the read pointer after a packet at `at`: past the
   * raw header and the bytes it read, with the data length truncated to a
   * byte (`uint8_t dataLen`). The packet's payload is not skipped.
   */
  function NextReadAsWritten(rx: seq<Byte>, at: nat): nat
  {
    at + RawHeaderSize + HeaderBytesRead(RxBytes(rx, at, RawHeaderSize))
  }

  /** Where the next packet starts: past the raw header and all the packet's data. */
  function NextRead(rx: seq<Byte>, at: nat): nat
  {
    at + RawHeaderSize + DecodeReply(rx, at).length
  }

  /** A packet as the W5100 stores it: sender address, 16-bit data length, data. */
  function RawPacket(addr: seq<Byte>, data: seq<Byte>): (r: seq<Byte>)
    requires |addr| == 4 && |data| < 0x1_0000
    ensures |r| == RawHeaderSize + |data|
  {
    addr + [|data| / 256, |data| % 256] + data
  }

  /**
   * As written, the read pointer never gets past a packet that carries more
   * than the 8 header bytes: it stops after the raw header, inside the
   * packet's data, where the next read takes payload bytes for a header.
   */
  lemma AsWrittenStopsInsidePacket(rx: seq<Byte>, at: nat)
    requires DecodeReply(rx, at).length > IcmpHeaderSize
    ensures at + RawHeaderSize <= NextReadAsWritten(rx, at) < NextRead(rx, at)
  {
  }

  /**
   * A reply of 256 bytes has a length whose low byte is 0: no header byte is
   * read, so even an answer to the request decodes as type 0 with identifier
   * and sequence 0, and is not recognised.
   */
  lemma LongReplyHeaderUnread(data: seq<Byte>)
    requires |data| == 256
    ensures var h := DecodeReply(RawPacket([192, 168, 0, 1], data), 0);
      h.length == 256 && h.icmpType == 0 && h.id == 0 && h.seqNo == 0
  {
    var rx := RawPacket([192, 168, 0, 1], data);
    assert RxBytes(rx, 0, RawHeaderSize) == rx[..RawHeaderSize] == [192, 168, 0, 1, 1, 0];
  }

  /** After a packet, the read pointer lands exactly on the packet that follows it. */
  lemma NextReadSkipsWholePacket(addr: seq<Byte>, data: seq<Byte>, rest: seq<Byte>)
    requires |addr| == 4 && |data| < 0x1_0000
    ensures var rx := RawPacket(addr, data) + rest;
      && DecodeReply(rx, 0).addr == addr
      && NextRead(rx, 0) == |RawPacket(addr, data)|
      && DecodeReply(rx, NextRead(rx, 0)) == DecodeReply(rest, 0)
  {
    var first := RawPacket(addr, data);
    var rx := first + rest;
    assert RxBytes(rx, 0, RawHeaderSize) == first[..RawHeaderSize];
    var at := |first|;
    assert forall k: nat, n: nat :: RxBytes(rx, at + k, n) == RxBytes(rest, k, n);
  }

  /**
   * As written, a reply that does not answer the request leaves its 16-byte
   * payload in the buffer, and the following reply is then read from the
   * middle of that payload: the answer is not recognised.
   */
  lemma AsWrittenMissesNextReply()
    ensures var addr := [192, 168, 0, 1];
      var stale := RequestLayout(IcmpHeader(IcmpEchoRep, IcmpCode, 0x0400, 1));
      var answer := RequestLayout(IcmpHeader(IcmpEchoRep, IcmpCode, 0x0400, 2));
      var rx := RawPacket(addr, stale) + RawPacket(addr, answer);
      && Answers(DecodeReply(rx, NextRead(rx, 0)), IcmpHeader(IcmpEchoReq, IcmpCode, 0x0400, 2))
      && !Answers(DecodeReply(rx, NextReadAsWritten(rx, 0)), IcmpHeader(IcmpEchoReq, IcmpCode, 0x0400, 2))
  {
    var addr: seq<Byte> := [192, 168, 0, 1];
    var stale := RequestLayout(IcmpHeader(IcmpEchoRep, IcmpCode, 0x0400, 1));
    var answer := RequestLayout(IcmpHeader(IcmpEchoRep, IcmpCode, 0x0400, 2));
    var rx := RawPacket(addr, stale) + RawPacket(addr, answer);
    NextReadSkipsWholePacket(addr, stale, RawPacket(addr, answer));
    NextReadSkipsWholePacket(addr, answer, []);
    assert NextReadAsWritten(rx, 0) == 14;
    assert DecodeReply(rx, 14).icmpType == rx[20] == 32 + 6;
  }

  /** Where the read pointer stands after the packets `seen` were read, one after the other, from `first`. */
  function EndOf(first: nat, seen: seq<ReplyHeader>): (end: nat)
    ensures end >= first
  {
    if |seen| == 0 then first
    else EndOf(first, seen[..|seen| - 1]) + RawHeaderSize + seen[|seen| - 1].length
  }

  /** The writes that release received packets: one pair per packet read. */
  function RecvLog(s: nat, first: nat, seen: seq<ReplyHeader>): seq<Op>
  {
    if |seen| == 0 then []
    else RecvLog(s, first, seen[..|seen| - 1]) + [WriteRxRead(s, EndOf(first, seen)), Exec(s, Recv)]
  }

  /**
   * Every packet of `seen` was decoded where the packets before it ended,
   * from the bytes of `rx` received by the time it was read: the first
   * `avail[k]` of them for packet k.
   */
  ghost predicate DecodedFrom(first: nat, seen: seq<ReplyHeader>, avail: seq<nat>, rx: seq<Byte>)
    decreases |seen|
  {
    && |avail| == |seen|
    && (|seen| > 0 ==>
          var n := |seen| - 1;
          && DecodedFrom(first, seen[..n], avail[..n], rx)
          && EndOf(first, seen[..n]) < avail[n] <= |rx|
          && seen[n] == DecodeReply(rx[..avail[n]], EndOf(first, seen[..n])))
  }

  lemma {:induction false} DecodedFromGrow(first: nat, seen: seq<ReplyHeader>, avail: seq<nat>, rx: seq<Byte>, arrival: seq<Byte>)
    requires DecodedFrom(first, seen, avail, rx)
    ensures DecodedFrom(first, seen, avail, rx + arrival)
    decreases |seen|
  {
    if |seen| > 0 {
      var n := |seen| - 1;
      DecodedFromGrow(first, seen[..n], avail[..n], rx, arrival);
      assert (rx + arrival)[..avail[n]] == rx[..avail[n]];
    }
  }

  lemma DecodedFromExtend(first: nat, seen: seq<ReplyHeader>, avail: seq<nat>, rx: seq<Byte>, h: ReplyHeader)
    requires DecodedFrom(first, seen, avail, rx)
    requires EndOf(first, seen) < |rx| && h == DecodeReply(rx, EndOf(first, seen))
    ensures DecodedFrom(first, seen + [h], avail + [|rx|], rx)
  {
    assert (seen + [h])[..|seen|] == seen;
    assert (avail + [|rx|])[..|seen|] == avail;
    assert rx[..|rx|] == rx;
  }

  lemma ReadOneMore(s: nat, first: nat, seen: seq<ReplyHeader>, h: ReplyHeader)
    ensures EndOf(first, seen + [h]) == EndOf(first, seen) + RawHeaderSize + h.length
    ensures RecvLog(s, first, seen + [h]) == RecvLog(s, first, seen) + [WriteRxRead(s, EndOf(first, seen + [h])), Exec(s, Recv)]
  {
    assert (seen + [h])[..|seen|] == seen;
  }

  /** The reply record after packets `seen` were read into `reply`. */
  function AfterReading(reply: EchoReply, seen: seq<ReplyHeader>): EchoReply
  {
    if |seen| == 0 then reply
    else reply.(addr := Some(seen[|seen| - 1].addr), seqNo := Some(seen[|seen| - 1].seqNo))
  }

  /**
   * The packets `seen` were read one after the other from `first`: the read
   * pointer stands after the last of them, each was released with a RECV,
   * and each was decoded from the bytes received by the time it was read.
   */
  ghost predicate ReadSoFar(rxRead: nat, log: seq<Op>, rx: seq<Byte>,
                            s: nat, first: nat, log0: seq<Op>, seen: seq<ReplyHeader>, avail: seq<nat>)
  {
    && rxRead == EndOf(first, seen)
    && log == log0 + RecvLog(s, first, seen)
    && DecodedFrom(first, seen, avail, rx)
  }

  /** Bytes arriving later do not change what was read. */
  lemma ReadSoFarGrow(rxRead: nat, log: seq<Op>, rx: seq<Byte>, arrival: seq<Byte>,
                      s: nat, first: nat, log0: seq<Op>, seen: seq<ReplyHeader>, avail: seq<nat>)
    requires ReadSoFar(rxRead, log, rx, s, first, log0, seen, avail)
    ensures ReadSoFar(rxRead, log, rx + arrival, s, first, log0, seen, avail)
  {
    DecodedFromGrow(first, seen, avail, rx, arrival);
  }

  /** One reading of the clock while waiting: bytes may arrive, and what was read stays read. */
  method Tick(chip: Chip, s: nat, ghost first: nat, ghost log0: seq<Op>,
              ghost seen: seq<ReplyHeader>, ghost avail: seq<nat>)
    returns (now: nat)
    requires chip.Valid() && chip.rxDone == chip.rxRead
    requires ReadSoFar(chip.rxRead, chip.log, chip.rx, s, first, log0, seen, avail)
    modifies chip
    ensures chip.Valid() && chip.rxDone == chip.rxRead
    ensures ReadSoFar(chip.rxRead, chip.log, chip.rx, s, first, log0, seen, avail)
    ensures now == chip.clock && chip.clock >= old(chip.clock) && old(chip.rx) <= chip.rx
    ensures |old(chip.env)| > 0 ==> |chip.env| < |old(chip.env)|
    ensures |old(chip.env)| == 0 ==> chip.env == [] && chip.clock == old(chip.clock) + 1
    ensures chip.status == old(chip.status) && chip.ttl == old(chip.ttl) && chip.irFeed == old(chip.irFeed)
  {
    ghost var arrival := if |chip.env| > 0 then chip.env[0].arrival else [];
    now := chip.Millis();
    ReadSoFarGrow(chip.rxRead, chip.log, old(chip.rx), arrival, s, first, log0, seen, avail);
  }

  /** Reads the packet at the read pointer and records it as the next one seen. */
  method ReadNext(chip: Chip, s: nat, ghost first: nat, ghost log0: seq<Op>,
                  ghost seen: seq<ReplyHeader>, ghost avail: seq<nat>)
    returns (h: ReplyHeader)
    requires chip.Valid() && s < |chip.status| && chip.rxRead < |chip.rx|
    requires ReadSoFar(chip.rxRead, chip.log, chip.rx, s, first, log0, seen, avail)
    modifies chip
    ensures chip.Valid() && chip.rxDone == chip.rxRead
    ensures h == DecodeReply(chip.rx, EndOf(first, seen))
    ensures ReadSoFar(chip.rxRead, chip.log, chip.rx, s, first, log0, seen + [h], avail + [|chip.rx|])
    ensures chip.status == old(chip.status) && chip.ttl == old(chip.ttl) && chip.irFeed == old(chip.irFeed)
    ensures chip.clock == old(chip.clock) && chip.env == old(chip.env) && chip.rx == old(chip.rx)
  {
    ghost var at := chip.rxRead;
    h := ReadReply(chip, s);
    ReadOneMore(s, first, seen, h);
    DecodedFromExtend(first, seen, avail, chip.rx, h);
    AppendAssoc(log0, RecvLog(s, first, seen), [WriteRxRead(s, NextRead(chip.rx, at)), Exec(s, Recv)]);
  }

  /** Reads a packet at the read pointer and releases it to the chip. */
  method ReadReply(chip: Chip, s: nat) returns (h: ReplyHeader)
    requires chip.Valid() && s < |chip.status|
    modifies chip
    ensures chip.Valid()
    ensures h == DecodeReply(old(chip.rx), old(chip.rxRead))
    ensures chip.log == old(chip.log) + [WriteRxRead(s, NextRead(old(chip.rx), old(chip.rxRead))), Exec(s, Recv)]
    ensures chip.rxRead == chip.rxDone == NextRead(old(chip.rx), old(chip.rxRead))
    ensures chip.status == old(chip.status) && chip.ttl == old(chip.ttl) && chip.irFeed == old(chip.irFeed)
    ensures chip.clock == old(chip.clock) && chip.env == old(chip.env) && chip.rx == old(chip.rx)
  {
    var at := chip.rxRead;
    var ip := RxBytes(chip.rx, at, RawHeaderSize);
    var length := WordFromBytes(ip[4], ip[5]);
    var dataLen := length % 256;
    var n := if dataLen > IcmpHeaderSize then IcmpHeaderSize else dataLen;
    var icmp := RxBytes(chip.rx, at + RawHeaderSize, n) + seq(IcmpHeaderSize - n, _ => 0);
    chip.Write(WriteRxRead(s, at + RawHeaderSize + length));
    chip.ExecCmd(s, Recv);
    h := ReplyHeader(ip[..4], length, icmp[0], WordFromBytes(icmp[4], icmp[5]), WordFromBytes(icmp[6], icmp[7]));
  }

  /**
   * The packets `seen` so far were read one after the other from `first`,
   * none of them answers `req`, and `r` carries the address and sequence
   * number of the last of them.
   */
  ghost predicate Unanswered(chip: Chip, s: nat, req: IcmpHeader, first: nat, log0: seq<Op>,
                             reply: EchoReply, r: EchoReply, seen: seq<ReplyHeader>, avail: seq<nat>)
    reads chip
  {
    && chip.Valid() && s < |chip.status| && chip.rxDone == chip.rxRead
    && ReadSoFar(chip.rxRead, chip.log, chip.rx, s, first, log0, seen, avail)
    && (forall k :: 0 <= k < |seen| ==> !Answers(seen[k], req))
    && r == AfterReading(reply, seen)
  }

  /** One look at the socket: the packet waiting there, if any, is read and matched against the request. */
  method Poll(chip: Chip, s: nat, req: IcmpHeader, ghost first: nat, ghost log0: seq<Op>, ghost reply: EchoReply,
              r0: EchoReply, ghost seen0: seq<ReplyHeader>, ghost avail0: seq<nat>)
    returns (r: EchoReply, ghost seen: seq<ReplyHeader>, ghost avail: seq<nat>, answered: bool)
    requires Unanswered(chip, s, req, first, log0, reply, r0, seen0, avail0)
    modifies chip
    ensures chip.clock == old(chip.clock) && chip.env == old(chip.env) && chip.rx == old(chip.rx)
    ensures chip.status == old(chip.status) && chip.ttl == old(chip.ttl) && chip.irFeed == old(chip.irFeed)
    ensures !answered ==> Unanswered(chip, s, req, first, log0, reply, r, seen, avail)
    ensures answered ==>
              && chip.Valid() && chip.rxDone == chip.rxRead
              && ReadSoFar(chip.rxRead, chip.log, chip.rx, s, first, log0, seen, avail)
              && |seen| > 0 && Answers(seen[|seen| - 1], req)
              && (forall k :: 0 <= k < |seen| - 1 ==> !Answers(seen[k], req))
              && r == AfterReading(reply, seen).(ttl := Some(chip.ttl[s]), status := Success)
  {
    r, seen, avail, answered := r0, seen0, avail0, false;
    if chip.ReceivedSize() > 0 {
      var h := ReadNext(chip, s, first, log0, seen, avail);
      ghost var size: nat := |chip.rx|;
      seen, avail := seen + [h], avail + [size];
      r := r.(addr := Some(h.addr), seqNo := Some(h.seqNo));
      if Answers(h, req) {
        r := r.(ttl := Some(chip.ttl[s]), status := Success);
        answered := true;
      }
    }
  }

  /**
   * `receiveEchoReply`: for PING_TIMEOUT milliseconds, reads every packet
   * that arrives and stops at the first one that answers the request.
   */
  method ReceiveEchoReply(chip: Chip, s: nat, req: IcmpHeader, reply: EchoReply)
    returns (r: EchoReply, ghost seen: seq<ReplyHeader>, ghost avail: seq<nat>,
             ghost deadline: nat)
    requires chip.Valid() && s < |chip.status| && chip.rxDone == chip.rxRead
    modifies chip
    ensures chip.Valid() && chip.rxDone == chip.rxRead
    ensures chip.status == old(chip.status) && chip.ttl == old(chip.ttl) && chip.irFeed == old(chip.irFeed)
    ensures r.status == Success || r.status == NoResponse
    ensures r.status == Success <==> |seen| > 0 && Answers(seen[|seen| - 1], req)
    ensures forall k :: 0 <= k < |seen| - 1 ==> !Answers(seen[k], req)
    ensures r.status == Success ==> r.ttl == Some(chip.ttl[s]) && r.seqNo == Some(req.seqNo)
    ensures r.status == NoResponse ==> r.ttl == reply.ttl && chip.clock >= deadline
    ensures r.addr == AfterReading(reply, seen).addr && r.seqNo == AfterReading(reply, seen).seqNo && r.time == reply.time
    ensures deadline >= old(chip.clock) + PingTimeout && chip.clock >= old(chip.clock)
    ensures old(chip.rx) <= chip.rx
    ensures ReadSoFar(chip.rxRead, chip.log, chip.rx, s, old(chip.rxRead), old(chip.log), seen, avail)
  {
    ghost var first, log0, rx0 := chip.rxRead, chip.log, chip.rx;
    var start := chip.Millis();
    var endTime := start + PingTimeout;
    deadline := endTime;
    r, seen, avail := reply, [], [];
    var now := chip.Millis();
    while now < endTime
      invariant Unanswered(chip, s, req, first, log0, reply, r, seen, avail)
      invariant now == chip.clock && chip.clock >= old(chip.clock)
      invariant deadline == endTime >= old(chip.clock) + PingTimeout
      invariant rx0 <= chip.rx
      invariant chip.status == old(chip.status) && chip.ttl == old(chip.ttl) && chip.irFeed == old(chip.irFeed)
      decreases |chip.env|, endTime - now
    {
      var answered;
      r, seen, avail, answered := Poll(chip, s, req, first, log0, reply, r, seen, avail);
      if answered {
        return;
      }
      now := Tick(chip, s, first, log0, seen, avail);
    }
    r := r.(status := NoResponse);
  }

  // ---------------------------------------------------------------------
  // Ping
  // ---------------------------------------------------------------------

  /** Close any earlier use of the socket, clear its flags and reopen it for raw ICMP. */
  function OpenLog(s: nat): seq<Op>
  {
    [Exec(s, Close), WriteIR(s, 0xFF), WriteMode(s, ModeIpRaw), WriteProto(s, ProtoIcmp), WritePort(s, 0), Exec(s, Open)]
  }

  function CloseLog(s: nat): seq<Op>
  {
    [Exec(s, Close), WriteIR(s, 0xFF)]
  }

  /** Read pointer writes of socket `s`, each followed by RECV. */
  predicate RecvPairs(ops: seq<Op>, s: nat)
    decreases |ops|
  {
    if |ops| < 2 then ops == []
    else
      && ops[|ops| - 2].WriteRxRead? && ops[|ops| - 2].socket == s && ops[|ops| - 1] == Exec(s, Recv)
      && RecvPairs(ops[..|ops| - 2], s)
  }

  /**
   * One attempt: the request is sent, the send wait ends, and only if the
   * request went out are packets received.
   */
  predicate AttemptLog(ops: seq<Op>, s: nat, addr: seq<Byte>, packet: seq<Byte>, st: IcmpStatus)
  {
    && |ops| >= 6 && ops[..5] == SendLog(s, addr, packet) && ops[5] == WriteIR(s, SendAck(st == SendTimeout))
    && (st == SendTimeout ==> |ops| == 6)
    && RecvPairs(ops[6..], s)
  }

  lemma {:induction false} RecvLogPairs(s: nat, first: nat, seen: seq<ReplyHeader>)
    ensures |RecvLog(s, first, seen)| == 2 * |seen|
    ensures RecvPairs(RecvLog(s, first, seen), s)
  {
    if |seen| > 0 {
      var before := RecvLog(s, first, seen[..|seen| - 1]);
      RecvLogPairs(s, first, seen[..|seen| - 1]);
      assert (before + [WriteRxRead(s, EndOf(first, seen)), Exec(s, Recv)])[..|before|] == before;
    }
  }

  function Flatten(blocks: seq<seq<Op>>): seq<Op>
  {
    if |blocks| == 0 then [] else Flatten(blocks[..|blocks| - 1]) + blocks[|blocks| - 1]
  }

  /** Closes any earlier use of the socket, clears its flags and reopens it in raw IP mode for ICMP. */
  method OpenSocket(chip: Chip, s: nat)
    requires chip.Valid() && s < |chip.status|
    modifies chip
    ensures chip.Valid() && chip.rxDone == chip.rxRead
    ensures chip.log == old(chip.log) + OpenLog(s)
    ensures chip.status == old(chip.status)[s := SockIpRaw]
    ensures chip.ttl == old(chip.ttl) && chip.irFeed == old(chip.irFeed)
    ensures chip.clock == old(chip.clock) && chip.env == old(chip.env)
  {
    chip.ExecCmd(s, Close);
    chip.Write(WriteIR(s, 0xFF));
    chip.Write(WriteMode(s, ModeIpRaw));
    chip.Write(WriteProto(s, ProtoIcmp));
    chip.Write(WritePort(s, 0));
    chip.ExecCmd(s, Open);
  }

  /** Closes the socket and clears its flags. */
  method CloseSocket(chip: Chip, s: nat)
    requires chip.Valid() && s < |chip.status|
    modifies chip
    ensures chip.Valid()
    ensures chip.log == old(chip.log) + CloseLog(s)
    ensures chip.status == old(chip.status)[s := SockClosed]
    ensures chip.ttl == old(chip.ttl) && chip.irFeed == old(chip.irFeed)
    ensures chip.clock == old(chip.clock) && chip.env == old(chip.env)
  {
    chip.ExecCmd(s, Close);
    chip.Write(WriteIR(s, 0xFF));
  }

  /**
   * One round of `Ping`'s retry loop: the request is sent and, only if it
   * went out, the engine waits for its reply.
   */
  method Attempt(chip: Chip, s: nat, addr: seq<Byte>, hdr: IcmpHeader, reply: EchoReply)
    returns (r: EchoReply, ghost block: seq<Op>)
    requires chip.Valid() && s < |chip.status| && chip.rxDone == chip.rxRead
    modifies chip
    ensures chip.Valid() && chip.rxDone == chip.rxRead
    ensures chip.status == old(chip.status) && chip.clock >= old(chip.clock)
    ensures chip.log == old(chip.log) + block
    ensures AttemptLog(block, s, addr, EchoRequestPacket(hdr), r.status)
    ensures r.status == Success || r.status == SendTimeout || r.status == NoResponse
    ensures r.status == Success ==> r.seqNo == Some(hdr.seqNo) && r.ttl == Some(Ttl)
    ensures r.time == reply.time
  {
    ghost var before := chip.log;
    var st := SendEchoRequest(chip, s, addr, hdr);
    r := reply.(status := st);
    ghost var head := SendLog(s, addr, EchoRequestPacket(hdr)) + [WriteIR(s, SendAck(st == SendTimeout))];
    assert head[..5] == SendLog(s, addr, EchoRequestPacket(hdr));
    AppendAssoc(before, SendLog(s, addr, EchoRequestPacket(hdr)), [WriteIR(s, SendAck(st == SendTimeout))]);
    block := head;
    if st == Success {
      ghost var received;
      r, received := AwaitReply(chip, s, hdr, r);
      AppendAssoc(before, head, received);
      block := head + received;
      assert block[..5] == head[..5] && block[6..] == received;
    }
  }

  /** The receiving half of a round: what `receiveEchoReply` writes to the chip is read pointer writes and RECVs. */
  method AwaitReply(chip: Chip, s: nat, hdr: IcmpHeader, reply: EchoReply) returns (r: EchoReply, ghost received: seq<Op>)
    requires chip.Valid() && s < |chip.status| && chip.rxDone == chip.rxRead && chip.ttl[s] == Ttl
    modifies chip
    ensures chip.Valid() && chip.rxDone == chip.rxRead
    ensures chip.status == old(chip.status) && chip.clock >= old(chip.clock)
    ensures chip.log == old(chip.log) + received && RecvPairs(received, s)
    ensures r.status == Success || r.status == NoResponse
    ensures r.status == Success ==> r.seqNo == Some(hdr.seqNo) && r.ttl == Some(Ttl)
    ensures r.time == reply.time
  {
    ghost var rxFrom := chip.rxRead;
    ghost var seen, avail, deadline;
    r, seen, avail, deadline := ReceiveEchoReply(chip, s, hdr, reply);
    received := RecvLog(s, rxFrom, seen);
    RecvLogPairs(s, rxFrom, seen);
  }

  lemma FlattenAppend(blocks: seq<seq<Op>>, block: seq<Op>)
    ensures Flatten(blocks + [block]) == Flatten(blocks) + block
  {
    assert (blocks + [block])[..|blocks|] == blocks;
  }

  /**
   * Round k of a ping wrote `blocks[k]` to the chip and ended with
   * `attempts[k]`, stated round by round from the last (AttemptLogsAt gives
   * any single round).
   */
  predicate AttemptLogs(blocks: seq<seq<Op>>, attempts: seq<IcmpStatus>, s: nat, addr: seq<Byte>, packet: seq<Byte>)
    decreases |blocks|
  {
    && |blocks| == |attempts|
    && (|blocks| > 0 ==>
          && AttemptLogs(blocks[..|blocks| - 1], attempts[..|blocks| - 1], s, addr, packet)
          && AttemptLog(blocks[|blocks| - 1], s, addr, packet, attempts[|blocks| - 1]))
  }

  /** Every single round of a ping is logged as AttemptLog says. */
  lemma {:induction false} AttemptLogsAt(blocks: seq<seq<Op>>, attempts: seq<IcmpStatus>, s: nat, addr: seq<Byte>, packet: seq<Byte>, k: nat)
    requires AttemptLogs(blocks, attempts, s, addr, packet) && k < |blocks|
    ensures AttemptLog(blocks[k], s, addr, packet, attempts[k])
    decreases |blocks|
  {
    if k < |blocks| - 1 {
      AttemptLogsAt(blocks[..|blocks| - 1], attempts[..|blocks| - 1], s, addr, packet, k);
    }
  }

  /** None of the rounds got an answer. */
  predicate AllFailed(attempts: seq<IcmpStatus>)
  {
    forall k :: 0 <= k < |attempts| ==> attempts[k] == SendTimeout || attempts[k] == NoResponse
  }

  /** One more round extends the log, the record of rounds and, if it failed, the failures. */
  lemma LogRound(blocks: seq<seq<Op>>, attempts: seq<IcmpStatus>, block: seq<Op>, st: IcmpStatus,
                 s: nat, addr: seq<Byte>, packet: seq<Byte>)
    requires AttemptLogs(blocks, attempts, s, addr, packet) && AttemptLog(block, s, addr, packet, st)
    ensures AttemptLogs(blocks + [block], attempts + [st], s, addr, packet)
    ensures Flatten(blocks + [block]) == Flatten(blocks) + block
    ensures AllFailed(attempts) && (st == SendTimeout || st == NoResponse) ==> AllFailed(attempts + [st])
    ensures (attempts + [st])[..|attempts|] == attempts
  {
    FlattenAppend(blocks, block);
    assert (blocks + [block])[..|blocks|] == blocks;
  }

  /** One round of the retry loop, recorded after the rounds before it. */
  method Round(chip: Chip, s: nat, addr: seq<Byte>, hdr: IcmpHeader, reply: EchoReply,
               ghost log0: seq<Op>, ghost blocks0: seq<seq<Op>>, ghost attempts0: seq<IcmpStatus>)
    returns (r: EchoReply, ghost blocks: seq<seq<Op>>, ghost attempts: seq<IcmpStatus>)
    requires chip.Valid() && s < |chip.status| && chip.rxDone == chip.rxRead
    requires chip.log == log0 + Flatten(blocks0)
    requires AttemptLogs(blocks0, attempts0, s, addr, EchoRequestPacket(hdr))
    modifies chip
    ensures chip.Valid() && chip.rxDone == chip.rxRead
    ensures chip.status == old(chip.status) && chip.clock >= old(chip.clock)
    ensures chip.log == log0 + Flatten(blocks)
    ensures AttemptLogs(blocks, attempts, s, addr, EchoRequestPacket(hdr))
    ensures attempts == attempts0 + [r.status] && attempts[..|attempts0|] == attempts0
    ensures AllFailed(attempts0) && r.status != Success ==> AllFailed(attempts)
    ensures r.status == Success ==> r.seqNo == Some(hdr.seqNo) && r.ttl == Some(Ttl)
    ensures r.time == reply.time
  {
    ghost var block;
    r, block := Attempt(chip, s, addr, hdr, reply);
    LogRound(blocks0, attempts0, block, r.status, s, addr, EchoRequestPacket(hdr));
    attempts, blocks := attempts0 + [r.status], blocks0 + [block];
    AppendAssoc(log0, Flatten(blocks0), block);
  }

  lemma AppendAssoc<T>(a: seq<T>, b: seq<T>, c: seq<T>)
    ensures (a + b) + c == a + (b + c)
  {
  }

  /**
   * The retry loop of `Ping`: up to `nRetries` rounds, stopping at the first
   * one that is answered.
   */
  method SendUntilAnswered(chip: Chip, s: nat, addr: seq<Byte>, hdr: IcmpHeader, nRetries: int, reply: EchoReply)
    returns (result: EchoReply, ghost attempts: seq<IcmpStatus>, ghost blocks: seq<seq<Op>>)
    requires chip.Valid() && s < |chip.status| && chip.rxDone == chip.rxRead && nRetries >= 1
    modifies chip
    ensures chip.Valid() && chip.status == old(chip.status) && chip.clock >= old(chip.clock)
    ensures 1 <= |attempts| <= nRetries
    ensures chip.log == old(chip.log) + Flatten(blocks)
    ensures AttemptLogs(blocks, attempts, s, addr, EchoRequestPacket(hdr))
    ensures AllFailed(attempts[..|attempts| - 1])
    ensures |attempts| < nRetries ==> attempts[|attempts| - 1] == Success
    ensures result.status == attempts[|attempts| - 1]
    ensures result.status == Success ==> result.seqNo == Some(hdr.seqNo) && result.ttl == Some(Ttl)
    ensures result.time == reply.time
  {
    ghost var packet := EchoRequestPacket(hdr);
    ghost var log0 := chip.log;
    result := reply;
    attempts, blocks := [], [];
    var i := 0;
    var answered := false;
    while i < nRetries && !answered
      invariant 0 <= i <= nRetries && |attempts| == i
      invariant chip.Valid() && chip.rxDone == chip.rxRead
      invariant chip.status == old(chip.status) && chip.clock >= old(chip.clock)
      invariant chip.log == log0 + Flatten(blocks)
      invariant AttemptLogs(blocks, attempts, s, addr, packet)
      invariant i > 0 ==> AllFailed(attempts[..i - 1]) && result.status == attempts[i - 1]
      invariant !answered ==> AllFailed(attempts)
      invariant answered ==> i > 0 && result.status == Success && result.seqNo == Some(hdr.seqNo) && result.ttl == Some(Ttl)
      invariant result.time == reply.time
    {
      result, blocks, attempts := Round(chip, s, addr, hdr, result, log0, blocks, attempts);
      answered := result.status == Success;
      i := i + 1;
    }
  }

  class Pinger {
    /** The sequence number of the last request sent. */
    var nextSeq: Word

    constructor()
      ensures nextSeq == 0
    {
      nextSeq := 0;
    }

    /**
     * `Ping`: sends echo requests to `addr` until one is answered, at most
     * `nRetries` times, on the lowest free socket, and reports the outcome.
     */
    method Ping(chip: Chip, addr: seq<Byte>, id: Word, nRetries: int)
      returns (result: EchoReply, ghost sock: nat, ghost attempts: seq<IcmpStatus>, ghost blocks: seq<seq<Op>>)
      requires chip.Valid() && nRetries >= 1
      modifies this, chip
      ensures chip.Valid() && |chip.status| == |old(chip.status)|
      ensures sock == FirstFreeSocket(old(chip.status))
      // No free socket: nothing is sent and the sequence number is not used up.
      ensures sock == |old(chip.status)| ==>
        && result == EchoReply(None, NoFreeSocket, None, None, None)
        && nextSeq == old(nextSeq) && chip.log == old(chip.log)
        && chip.clock == old(chip.clock) && chip.env == old(chip.env) && chip.irFeed == old(chip.irFeed)
      ensures sock < |old(chip.status)| ==>
        && nextSeq == (old(nextSeq) + 1) % 0x1_0000
        && 1 <= |attempts| <= nRetries
        && chip.log == old(chip.log) + OpenLog(sock) + Flatten(blocks) + CloseLog(sock)
        && AttemptLogs(blocks, attempts, sock, addr, EchoRequestPacket(IcmpHeader(IcmpEchoReq, IcmpCode, id, nextSeq)))
        && AllFailed(attempts[..|attempts| - 1])
        && (|attempts| < nRetries ==> attempts[|attempts| - 1] == Success)
        && result.status == attempts[|attempts| - 1]
        && (result.status == Success ==> result.seqNo == Some(nextSeq) && result.ttl == Some(Ttl))
        && result.time.Some? && result.time.value <= chip.clock - old(chip.clock)
        && chip.status == old(chip.status)[sock := SockClosed]
    {
      var socket := GetFreeSocket(chip);
      sock := socket;
      if socket == |chip.status| {
        result := EchoReply(None, NoFreeSocket, None, None, None);
        attempts, blocks := [], [];
        return;
      }
      nextSeq := (nextSeq + 1) % 0x1_0000;
      var hdr := IcmpHeader(IcmpEchoReq, IcmpCode, id, nextSeq);
      result, attempts, blocks := PingOn(chip, socket, addr, hdr, nRetries);
    }

    /**
     * The body of `ping` once a free socket is found: the socket is opened,
     * the request is sent until answered or out of rounds, the elapsed time
     * is recorded and the socket is closed.
     */
    method PingOn(chip: Chip, sock: nat, addr: seq<Byte>, hdr: IcmpHeader, nRetries: int)
      returns (result: EchoReply, ghost attempts: seq<IcmpStatus>, ghost blocks: seq<seq<Op>>)
      requires chip.Valid() && sock < |chip.status| && nRetries >= 1
      modifies chip
      ensures chip.Valid() && chip.status == old(chip.status)[sock := SockClosed]
      ensures 1 <= |attempts| <= nRetries
      ensures chip.log == old(chip.log) + OpenLog(sock) + Flatten(blocks) + CloseLog(sock)
      ensures AttemptLogs(blocks, attempts, sock, addr, EchoRequestPacket(hdr))
      ensures AllFailed(attempts[..|attempts| - 1])
      ensures |attempts| < nRetries ==> attempts[|attempts| - 1] == Success
      ensures result.status == attempts[|attempts| - 1]
      ensures result.status == Success ==> result.seqNo == Some(hdr.seqNo) && result.ttl == Some(Ttl)
      ensures result.time.Some? && chip.clock >= old(chip.clock) && result.time.value <= chip.clock - old(chip.clock)
    {
      OpenSocket(chip, sock);
      var startTime := chip.Millis();
      // Every round sets the status; the placeholder is never reported since nRetries >= 1.
      result := EchoReply(None, NoResponse, None, None, None);
      result, attempts, blocks := SendUntilAnswered(chip, sock, addr, hdr, nRetries, result);
      var endTime := chip.Millis();
      result := result.(time := Some(endTime - startTime));
      CloseSocket(chip, sock);
    }
  }
}
