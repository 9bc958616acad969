/**
 * Requests sent to an ECAM coffee machine (fixed byte encodings) and the
 * decoding of its responses: the response dispatcher, the positional monitor
 * state and the machine state code table.
 */
module Command {
  import opened Base
  import Packet

  /** First byte of a response that carries a monitor state (and of the V2 monitor request). */
  const StateTag: byte := 0x75

  datatype BrewRequest = Coffee
  {
    function Encode(): (r: seq<byte>)
      ensures |r| == 12 && r[..2] == [0x83, 0xf0]
    {
      match this
      case Coffee => [0x83, 0xf0, 0x02, 0x01, 0x01, 0x00, 0x67, 0x02, 0x02, 0x00, 0x00, 0x06]
    }
  }

  datatype MonitorRequestVersion = V0 | V1 | V2
  {
    /** The two-byte monitor request: a version-specific opcode, then `0f`. */
    function Encode(): (r: seq<byte>)
      ensures |r| == 2 && r[1] == 0x0f
    {
      match this
      case V0 => [0x60, 0x0f]
      case V1 => [0x70, 0x0f]
      case V2 => [0x75, 0x0f]
    }
  }

  datatype StateRequest = TurnOn
  {
    function Encode(): (r: seq<byte>)
      ensures |r| == 4 && r[..2] == [0x84, 0x0f]
    {
      match this
      case TurnOn => [0x84, 0x0f, 0x02, 0x01]
    }
  }

  datatype ParameterId = WaterHardness

  /** Parameter requests exist as values but have no encoding. */
  datatype ParameterRequest = ReadParameter(id: ParameterId, value: byte) | WriteParameter(id: ParameterId)

  datatype Request =
    | Brew(brew: BrewRequest)
    | Monitor(version: MonitorRequestVersion)
    | State(state: StateRequest)
    | Parameter(parameter: ParameterRequest)
    | Raw(bytes: seq<byte>)
  {
    /**
     * The payload of a request, delegated to the variant's own encoder; a raw
     * request is sent exactly as given. Parameter requests have no encoder.
     */
    function Encode(): (r: seq<byte>)
      requires !Parameter?
      ensures Raw? ==> r == bytes
      ensures Brew? ==> r == brew.Encode()
      ensures Monitor? ==> r == version.Encode()
      ensures State? ==> r == state.Encode()
    {
      match this
      case Brew(b) => b.Encode()
      case Monitor(v) => v.Encode()
      case State(s) => s.Encode()
      case Raw(bytes) => bytes
    }
  }

  /** The machine's function code, as reported in byte 5 of a monitor state. */
  datatype MachineState =
    | StandBy
    | TurningOn
    | ShuttingDown
    | Descaling
    | SteamPreparation
    | Recovery
    | Ready
    | Rinsing
    | MilkPreparation
    | HotWaterDelivery
    | MilkCleaning
    | Unknown(code: byte)
  {
    /** The code byte a state stands for; the inverse of `Decode`. */
    function Code(): byte
    {
      match this
      case StandBy => 0
      case TurningOn => 1
      case ShuttingDown => 2
      case Descaling => 4
      case SteamPreparation => 5
      case Recovery => 6
      case Ready => 7
      case Rinsing => 8
      case MilkPreparation => 10
      case HotWaterDelivery => 11
      case MilkCleaning => 12
      case Unknown(n) => n
    }

    /** `Unknown` only ever carries a code that has no named state. */
    predicate WellFormed()
    {
      Unknown? ==> !NamedCode(code)
    }

    /** Decodes a code byte; every byte decodes, unnamed ones to `Unknown` carrying the byte. */
    static function Decode(data: byte): (m: MachineState)
      ensures m.Code() == data
      ensures m.WellFormed()
      ensures m.Unknown? <==> !NamedCode(data)
    {
      match data
      case 0 => StandBy
      case 1 => TurningOn
      case 2 => ShuttingDown
      case 4 => Descaling
      case 5 => SteamPreparation
      case 6 => Recovery
      case 7 => Ready
      case 8 => Rinsing
      case 10 => MilkPreparation
      case 11 => HotWaterDelivery
      case 12 => MilkCleaning
      case n => Unknown(n)
    }
  }

  /** The codes that have a named machine state. */
  predicate NamedCode(b: byte)
  {
    b == 0 || b == 1 || b == 2 || b == 4 || b == 5 || b == 6 || b == 7 || b == 8
    || b == 10 || b == 11 || b == 12
  }

  /** Monitor state decoded from a state response (the bytes after its two-byte prefix). */
  datatype MonitorState = MonitorState(
    state: MachineState,
    progress: byte,
    percentage: byte,
    load0: byte,
    load1: byte,
    raw: seq<byte>)
  {
    /**
     * Positional decode: function code at byte 5, then progress, percentage
     * and the two load bytes; the raw bytes are kept whole.
     */
    static function Decode(data: seq<byte>): (m: MonitorState)
      requires |data| >= 10
      ensures m.raw == data
      ensures m.Fields() == data[5..10]
      ensures m.state.WellFormed()
    {
      MonitorState(MachineState.Decode(data[5]), data[6], data[7], data[8], data[9], data)
    }

    /** The five decoded fields written back as bytes, in wire order. */
    function Fields(): (r: seq<byte>)
      ensures |r| == 5
    {
      [state.Code(), progress, percentage, load0, load1]
    }
  }

  datatype Response = State(monitor: MonitorState) | Raw(bytes: seq<byte>)
  {
    /**
     * Dispatches on the first byte: `75` is a state response whose monitor
     * state starts two bytes in; anything else is kept raw.
     */
    static function Decode(data: seq<byte>): (r: Response)
      requires |data| >= 1
      requires data[0] == StateTag ==> |data| >= 12
      ensures r.State? <==> data[0] == StateTag
      ensures r.Raw? ==> r.bytes == data
      ensures r.State? ==> data == data[..2] + r.monitor.raw
                           && r.monitor.Fields() == data[7..12]
                           && r.monitor.state.WellFormed()
    {
      if data[0] == StateTag then Response.State(MonitorState.Decode(data[2..]))
      else Response.Raw(data)
    }
  }

  // ---------------------------------------------------------------------------
  // Properties
  // ---------------------------------------------------------------------------

  /** Writing a well-formed state as its code and decoding gives the state back. */
  lemma MachineStateCodeDecode(m: MachineState)
    requires m.WellFormed()
    ensures MachineState.Decode(m.Code()) == m
  {
    if m.Unknown? {
      assert !NamedCode(m.code);
    }
  }

  /** Distinct bytes decode to distinct states. */
  lemma MachineStateDecodeInjective(a: byte, b: byte)
    requires MachineState.Decode(a) == MachineState.Decode(b)
    ensures a == b
  {
  }

  /**
   * The raw bytes, the five fields and a well-formed machine state pin a
   * monitor state down: it can only be the decoding of its raw bytes.
   */
  lemma MonitorStateDetermined(data: seq<byte>, m: MonitorState)
    requires |data| >= 10
    requires m.raw == data && m.Fields() == data[5..10] && m.state.WellFormed()
    ensures m == MonitorState.Decode(data)
  {
    assert m.state.Code() == m.Fields()[0] == data[5];
    MachineStateCodeDecode(m.state);
  }

  /** The decoded monitor state depends on bytes 5 to 9 only, apart from the raw copy. */
  lemma MonitorStateDecodeFields(d1: seq<byte>, d2: seq<byte>)
    requires |d1| >= 10 && |d2| >= 10
    requires d1[5..10] == d2[5..10]
    ensures MonitorState.Decode(d1).(raw := d2) == MonitorState.Decode(d2)
  {
    assert d1[5] == d1[5..10][0] && d2[5] == d2[5..10][0];
  }

  /** The three monitor request versions have distinct encodings. */
  lemma MonitorEncodeInjective(v: MonitorRequestVersion, w: MonitorRequestVersion)
    requires v.Encode() == w.Encode()
    ensures v == w
  {
  }

  /** Distinct encodable, non-raw requests have distinct payloads. */
  lemma RequestEncodeInjective(a: Request, b: Request)
    requires !a.Parameter? && !a.Raw? && !b.Parameter? && !b.Raw?
    requires a.Encode() == b.Encode()
    ensures a == b
  {
    if a.Monitor? && b.Monitor? {
      MonitorEncodeInjective(a.version, b.version);
    }
  }

  /** Every encodable request other than a raw one fits in a frame. */
  lemma RequestFits(q: Request)
    requires !q.Parameter? && !q.Raw?
    ensures Packet.Fits(q.Encode())
  {
  }

  /** The V2 monitor request opens with the very byte that marks a state response. */
  lemma MonitorV2IsStateTag(data: seq<byte>)
    requires |data| >= 12 && data[0] == V2.Encode()[0]
    ensures Response.Decode(data).State?
  {
  }

  /** The coffee request frames to the packetize vector of the unit tests. */
  lemma CoffeeFrame()
    ensures Packet.Frame(Request.Brew(Coffee).Encode())
         == [0x0d, 0x0f, 0x83, 0xf0, 0x02, 0x01, 0x01, 0x00, 0x67, 0x02, 0x02, 0x00, 0x00, 0x06, 0x77, 0xff]
  {
    Packet.FrameVectorCoffee(Request.Brew(Coffee).Encode());
  }

  /** The turn-on request frames to the packetize vector of the unit tests. */
  lemma TurnOnFrame()
    ensures Packet.Frame(Request.State(TurnOn).Encode()) == [0x0d, 0x07, 0x84, 0x0f, 0x02, 0x01, 0x55, 0x12]
  {
    Packet.FrameVectorTurnOn(Request.State(TurnOn).Encode());
  }
}
