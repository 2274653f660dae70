/** The plaintext frame codec and the matching of replies to requests. */
module Protocol {
  import opened Wrappers
  import opened Bytes
  import opened Errors

  const MAGIC: Bytes := [0x5A, 0xA5]
  const HEADER_LENGTH := 7
  const MAX_DATA_LENGTH := 0xFF
  const LENGTH_FIELD_OFFSET := 3
  const ENCRYPTION_OVERHEAD := 6

  datatype Command = READ | WRITE | WRITE_NO_REPLY | READ_ACK | WRITE_ACK | INIT | PING | PAIR {

    function Code(): Byte {
      match this
      case READ => 0x01
      case WRITE => 0x02
      case WRITE_NO_REPLY => 0x03
      case READ_ACK => 0x04
      case WRITE_ACK => 0x05
      case INIT => 0x5B
      case PING => 0x5C
      case PAIR => 0x5D
    }

    /** The command a request of this kind expects in its reply. */
    function Response(): Command {
      match this
      case READ => READ_ACK
      case WRITE => WRITE_ACK
      case _ => this
    }
  }

  datatype DeviceId = MCU | BLE | BMS | HOST | PHONE {

    function Code(): Byte {
      match this
      case MCU => 0x20
      case BLE => 0x21
      case BMS => 0x22
      case HOST => 0x3D
      case PHONE => 0x3E
    }
  }

  function CommandOf(b: Byte): (c: Option<Command>)
    ensures c.Some? ==> c.value.Code() == b
    ensures c.None? ==> forall k: Command :: k.Code() != b
  {
    match b
    case 0x01 => Some(READ)
    case 0x02 => Some(WRITE)
    case 0x03 => Some(WRITE_NO_REPLY)
    case 0x04 => Some(READ_ACK)
    case 0x05 => Some(WRITE_ACK)
    case 0x5B => Some(INIT)
    case 0x5C => Some(PING)
    case 0x5D => Some(PAIR)
    case _ => None
  }

  function DeviceOf(b: Byte): (d: Option<DeviceId>)
    ensures d.Some? ==> d.value.Code() == b
    ensures d.None? ==> forall k: DeviceId :: k.Code() != b
  {
    match b
    case 0x20 => Some(MCU)
    case 0x21 => Some(BLE)
    case 0x22 => Some(BMS)
    case 0x3D => Some(HOST)
    case 0x3E => Some(PHONE)
    case _ => None
  }

  datatype Packet = Packet(source: DeviceId, target: DeviceId, command: Command, index: nat, data: Bytes) {

    /** Serialize without encryption. The index is masked to its low byte. */
    function Pack(): Result<Bytes, Error> {
      if |data| > MAX_DATA_LENGTH then Failure(Protocol)
      else Success(MAGIC + [|data|, source.Code(), target.Code(), command.Code(), index % 256] + data)
    }

    /** Whether this packet answers `request`. The request's index is compared unmasked. */
    predicate MatchesRequest(request: Packet) {
      && source == request.target
      && target == request.source
      && command == request.command.Response()
      && (request.command.Code() < INIT.Code() ==> index == request.index)
    }

    /** A packet that fits one frame without losing anything. */
    predicate OnWire() {
      |data| <= MAX_DATA_LENGTH && index < 256
    }
  }

  function Unpack(raw: Bytes): Result<Packet, Error> {
    if |raw| < HEADER_LENGTH then Failure(Protocol)
    else if raw[..2] != MAGIC then Failure(Protocol)
    else if |raw| < HEADER_LENGTH + raw[2] then Failure(Protocol)
    else
      match (DeviceOf(raw[3]), DeviceOf(raw[4]), CommandOf(raw[5]))
      case (Some(source), Some(target), Some(command)) =>
        Success(Packet(source, target, command, raw[6], raw[HEADER_LENGTH..HEADER_LENGTH + raw[2]]))
      case _ => Failure(Protocol)
  }

  /** Length of the encrypted frame at the head of `raw`, or None while too few bytes have arrived. */
  function ExpectedFrameLength(raw: Bytes): Option<nat> {
    if |raw| < LENGTH_FIELD_OFFSET then None
    else Some(raw[2] + HEADER_LENGTH + ENCRYPTION_OVERHEAD)
  }

  // ----- the layout on the wire -----

  /** The bytes that stand for boards and commands. */
  lemma CodesAre()
    ensures MCU.Code() == 0x20 && BLE.Code() == 0x21 && BMS.Code() == 0x22 && HOST.Code() == 0x3D
    ensures PHONE.Code() == 0x3E
    ensures READ.Code() == 0x01 && WRITE.Code() == 0x02 && WRITE_NO_REPLY.Code() == 0x03
    ensures READ_ACK.Code() == 0x04 && WRITE_ACK.Code() == 0x05
    ensures INIT.Code() == 0x5B && PING.Code() == 0x5C && PAIR.Code() == 0x5D
  {
  }

  /** Preamble, length, source, target, command and low byte of the index, and then the data. */
  lemma PackLayout(p: Packet)
    ensures p.Pack() ==
              if |p.data| > 0xFF then Failure(Protocol)
              else Success([0x5A, 0xA5, |p.data|, p.source.Code(), p.target.Code(), p.command.Code(), p.index % 0x100]
                           + p.data)
  {
    if |p.data| <= 0xFF {
      var header := [|p.data|, p.source.Code(), p.target.Code(), p.command.Code(), p.index % 0x100];
      assert MAGIC + header + p.data == [0x5A, 0xA5] + header + p.data;
      assert [0x5A, 0xA5] + header == [0x5A, 0xA5, |p.data|, p.source.Code(), p.target.Code(), p.command.Code(),
                                       p.index % 0x100];
    }
  }

  /** A request for two bytes of register 0xB4 of the main controller, byte by byte. */
  lemma ReadOnTheWire()
    ensures var raw := Packet(HOST, MCU, READ, 0xB4, [2]).Pack();
            raw.Success? && raw.value == [0x5A, 0xA5, 0x01, 0x3D, 0x20, 0x01, 0xB4, 0x02]
  {
    var p := Packet(HOST, MCU, READ, 0xB4, [2]);
    PackLayout(p);
    CodesAre();
    assert p.Pack().value == [0x5A, 0xA5, 1, 0x3D, 0x20, 0x01, 0xB4] + [2];
  }

  /** What unpacks: known boards and a known command behind the preamble, and all the data. */
  lemma UnpackLayout(raw: Bytes)
    ensures Unpack(raw).Success? <==>
              && |raw| >= 7 && raw[0] == 0x5A && raw[1] == 0xA5 && |raw| - 7 >= raw[2]
              && raw[3] in {0x20, 0x21, 0x22, 0x3D, 0x3E} && raw[4] in {0x20, 0x21, 0x22, 0x3D, 0x3E}
              && raw[5] in {0x01, 0x02, 0x03, 0x04, 0x05, 0x5B, 0x5C, 0x5D}
    ensures Unpack(raw).Success? ==>
              var p := Unpack(raw).value;
              && p.source.Code() == raw[3] && p.target.Code() == raw[4] && p.command.Code() == raw[5]
              && p.index == raw[6] && p.data == raw[7..][..raw[2]]
    ensures Unpack(raw).Failure? ==> Unpack(raw).error == Protocol
  {
    assert |raw| >= 2 ==> (raw[..2] == MAGIC <==> raw[0] == 0x5A && raw[1] == 0xA5);
    CodesAre();
  }

  /** The third byte tells how long an encrypted frame is. */
  lemma FrameLengthIs(raw: Bytes)
    ensures ExpectedFrameLength(raw) == if |raw| < 3 then None else Some(raw[2] as nat + 13)
  {
  }

  // ----- the codec, both ways -----

  lemma CodesAreInjective()
    ensures forall c: Command :: CommandOf(c.Code()) == Some(c)
    ensures forall d: DeviceId :: DeviceOf(d.Code()) == Some(d)
  {
  }

  /** Packing then unpacking keeps everything but the high bits of the index. */
  lemma UnpackPack(p: Packet, tail: Bytes)
    ensures p.Pack().Success? <==> |p.data| <= MAX_DATA_LENGTH
    ensures p.Pack().Success? ==> Unpack(p.Pack().value + tail) == Success(p.(index := p.index % 256))
    ensures (p.Pack().Success? && Unpack(p.Pack().value) == Success(p)) <==> p.OnWire()
  {
    if p.Pack().Success? {
      var raw := p.Pack().value;
      CodesAreInjective();
      assert (raw + tail)[..2] == MAGIC && raw[..2] == MAGIC;
      assert (raw + tail)[HEADER_LENGTH..HEADER_LENGTH + |p.data|] == p.data;
      assert raw[HEADER_LENGTH..HEADER_LENGTH + |p.data|] == p.data;
      assert Unpack(raw) == Success(p.(index := p.index % 256));
    }
  }

  /** Whatever unpacks is a packing followed by bytes that were ignored. */
  lemma PackUnpack(raw: Bytes)
    requires Unpack(raw).Success?
    ensures Unpack(raw).value.OnWire()
    ensures HEADER_LENGTH + raw[2] <= |raw|
    ensures Unpack(raw).value.Pack() == Success(raw[..HEADER_LENGTH + raw[2]])
  {
    var p := Unpack(raw).value;
    assert raw[..HEADER_LENGTH + raw[2]] ==
           raw[..2] + [raw[2], raw[3], raw[4], raw[5], raw[6]] + raw[HEADER_LENGTH..HEADER_LENGTH + raw[2]];
  }

  /** `Unpack` accepts exactly the packings of single-frame packets, with any bytes behind them. */
  lemma UnpackAccepts(raw: Bytes, p: Packet)
    ensures Unpack(raw) == Success(p) <==> p.OnWire() && p.Pack().value <= raw
  {
    if Unpack(raw) == Success(p) {
      PackUnpack(raw);
    }
    if p.OnWire() && p.Pack().value <= raw {
      UnpackPack(p, raw[|p.Pack().value|..]);
      assert raw == p.Pack().value + raw[|p.Pack().value|..];
    }
  }

  // ----- matching -----

  /** None of the packets from `lo` to before `hi` answers `request`. */
  predicate NoneMatch(packets: seq<Packet>, lo: nat, hi: nat, request: Packet) {
    forall i :: lo <= i < hi && i < |packets| ==> !packets[i].MatchesRequest(request)
  }

  lemma NoneMatchGrows(packets: seq<Packet>, more: seq<Packet>, lo: nat, hi: nat, request: Packet)
    requires packets <= more && hi <= |packets| && NoneMatch(packets, lo, hi, request)
    ensures NoneMatch(more, lo, hi, request)
    ensures hi < |more| && !more[hi].MatchesRequest(request) ==> NoneMatch(more, lo, hi + 1, request)
  {
  }

  /** What answers what: the boards swap, reads and writes have replies of their own, only those go by index. */
  lemma MatchesIff(p: Packet, request: Packet)
    ensures p.MatchesRequest(request) <==>
              && p.source == request.target && p.target == request.source
              && match request.command
                 case READ => p.command == READ_ACK && p.index == request.index
                 case WRITE => p.command == WRITE_ACK && p.index == request.index
                 case WRITE_NO_REPLY => p.command == WRITE_NO_REPLY && p.index == request.index
                 case READ_ACK => p.command == READ_ACK && p.index == request.index
                 case WRITE_ACK => p.command == WRITE_ACK && p.index == request.index
                 case INIT => p.command == INIT
                 case PING => p.command == PING
                 case PAIR => p.command == PAIR
  {
  }

  /** A reply that answers two requests of the handshake answers one command between the same boards. */
  lemma HandshakeAnswerDeterminesRequest(reply: Packet, r1: Packet, r2: Packet)
    requires r1.command in {INIT, PING, PAIR} && r2.command in {INIT, PING, PAIR}
    requires reply.MatchesRequest(r1) && reply.MatchesRequest(r2)
    ensures r1.command == r2.command == reply.command && r1.target == r2.target && r1.source == r2.source
  {
  }

  /** A reply that answers two register reads pins down both of them up to the requested length. */
  lemma ReadAnswerDeterminesRead(reply: Packet, r1: Packet, r2: Packet)
    requires r1.command == READ && r2.command == READ
    requires reply.MatchesRequest(r1) && reply.MatchesRequest(r2)
    ensures r1.target == r2.target && r1.source == r2.source && r1.index == r2.index
  {
  }

  /**
   A request below the handshake commands can be answered by some unpacked packet exactly when
   its index fits a byte: packing masks the index, matching does not.
   */
  lemma AnswerableIff(request: Packet)
    ensures (exists raw :: Unpack(raw).Success? && Unpack(raw).value.MatchesRequest(request))
            <==> (request.command.Code() < INIT.Code() ==> request.index < 256)
  {
    if exists raw :: Unpack(raw).Success? && Unpack(raw).value.MatchesRequest(request) {
      var raw :| Unpack(raw).Success? && Unpack(raw).value.MatchesRequest(request);
      PackUnpack(raw);
    }
    if request.command.Code() < INIT.Code() ==> request.index < 256 {
      var index := if request.index < 256 then request.index else 0;
      var reply := Packet(request.target, request.source, request.command.Response(), index, []);
      UnpackPack(reply, []);
      assert Unpack(reply.Pack().value).value.MatchesRequest(request);
    }
  }
}
