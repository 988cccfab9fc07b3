/**
 internal/protocol/play/play.go and the PacketID helper of internal/protocol/codec/frame.go: the
 packets that the transfer path reads and writes. Coordinates are IEEE 754 bit patterns.
 */
module Play {
  import opened Bytes
  import VarInt
  import Nbt

  const CLIENTBOUND_KEEP_ALIVE: int32 := 0x24
  const CLIENTBOUND_START_CONFIGURATION: int32 := 0x67
  const CLIENTBOUND_ACTION_BAR: int32 := 0x4a
  const SERVERBOUND_CONFIGURATION_ACKNOWLEDGED: int32 := 0x0b
  const SERVERBOUND_KEEP_ALIVE: int32 := 0x15
  const SERVERBOUND_POSITION: int32 := 0x17
  const SERVERBOUND_POSITION_LOOK: int32 := 0x18
  const SERVERBOUND_PLAYER_COMMAND: int32 := 0x22

  datatype Position = Position(x: uint64, y: uint64, z: uint64, yaw: uint32, pitch: uint32, onGround: bool)

  datatype Movement = Movement(position: Position, hasLook: bool)

  datatype PlayerCommand = PlayerCommand(entityID: int32, actionID: int32, data: int32)

  /** codec.PacketID: the leading VarInt and what follows it. */
  function PacketId(payload: bytes): (r: Option<(int32, bytes)>) {
    match VarInt.Consume(payload)
    case Ok((id, size)) => Some((id, payload[size..]))
    case Err(_) => None
  }

  lemma PacketIdOf(id: int32, body: bytes)
    ensures PacketId(VarInt.Encode(id) + body) == Some((id, body))
  {
    VarInt.RoundTrip(id, body);
    assert (VarInt.Encode(id) + body)[|VarInt.Encode(id)|..] == body;
  }

  // ---- Keepalives and bare packets ----

  function KeepAlivePayload(id: int64): (b: bytes) {
    VarInt.Encode(CLIENTBOUND_KEEP_ALIVE) + BigEndian(8, ToUint64(id))
  }

  function StartConfigurationPayload(): (b: bytes) {
    VarInt.Encode(CLIENTBOUND_START_CONFIGURATION)
  }

  predicate IsConfigurationAcknowledged(payload: bytes) {
    PacketId(payload) == Some((SERVERBOUND_CONFIGURATION_ACKNOWLEDGED, []))
  }

  function Read64(body: bytes): (v: uint64)
    requires |body| == 8
  {
    FromBigEndianBound(body);
    PowerValues();
    FromBigEndian(body)
  }

  function Read32(body: bytes): (v: uint32)
    requires |body| == 4
  {
    FromBigEndianBound(body);
    PowerValues();
    FromBigEndian(body)
  }

  function ParseKeepAlive(payload: bytes): (r: Option<int64>) {
    match PacketId(payload)
    case Some((id, body)) => if id != SERVERBOUND_KEEP_ALIVE || |body| != 8 then None else Some(ToInt64(Read64(body)))
    case None => None
  }

  // ---- Movement ----

  /** Neither NaN nor infinite: the exponent bits are not all ones. */
  lemma KeepAliveRoundTrip(id: int64)
    ensures ParseKeepAlive(VarInt.Encode(SERVERBOUND_KEEP_ALIVE) + BigEndian(8, ToUint64(id))) == Some(id)
  {
    PacketIdOf(SERVERBOUND_KEEP_ALIVE, BigEndian(8, ToUint64(id)));
    Read64Of(ToUint64(id));
    hide PacketId, BigEndian, VarInt.Encode;
  }

  predicate Finite64(bits: uint64) { bits / 0x10_0000_0000_0000 % 0x800 != 0x7ff }

  predicate Finite32(bits: uint32) { bits / 0x80_0000 % 0x100 != 0xff }

  predicate Finite(p: Position) {
    Finite64(p.x) && Finite64(p.y) && Finite64(p.z) && Finite32(p.yaw) && Finite32(p.pitch)
  }

  function Coordinates(p: Position): (b: bytes)
    ensures |b| == 24
  {
    BigEndian(8, p.x) + BigEndian(8, p.y) + BigEndian(8, p.z)
  }

  function PositionLookBody(p: Position): (b: bytes)
    ensures |b| == 33
  {
    Coordinates(p) + (BigEndian(4, p.yaw) + BigEndian(4, p.pitch) + [if p.onGround then 1 else 0])
  }

  function PositionLookPayload(p: Position): (b: bytes) {
    VarInt.Encode(SERVERBOUND_POSITION_LOOK) + PositionLookBody(p)
  }

  function MovementOf(body: bytes, hasLook: bool): (m: Movement)
    requires |body| == if hasLook then 33 else 25
  {
    Movement(Position(
      Read64(body[0..8]), Read64(body[8..16]), Read64(body[16..24]),
      if hasLook then Read32(body[24..28]) else 0,
      if hasLook then Read32(body[28..32]) else 0,
      body[|body| - 1] == 1), hasLook)
  }

  function DecodeMovement(payload: bytes): (r: Option<Movement>)
    ensures r.Some? ==> Finite(r.value.position)
  {
    match PacketId(payload)
    case None => None
    case Some((id, body)) =>
      if id != SERVERBOUND_POSITION && id != SERVERBOUND_POSITION_LOOK then None
      else if |body| != (if id == SERVERBOUND_POSITION_LOOK then 33 else 25) then None
      else
        var m := MovementOf(body, id == SERVERBOUND_POSITION_LOOK);
        if body[|body| - 1] > 1 || !Finite(m.position) then None else Some(m)
  }

  lemma Read64Of(v: uint64)
    ensures Read64(BigEndian(8, v)) == v
  {
    PowerValues();
    BigEndianRoundTrip(8, v);
  }

  lemma Read32Of(v: uint32)
    ensures Read32(BigEndian(4, v)) == v
  {
    PowerValues();
    BigEndianRoundTrip(4, v);
  }

  lemma PositionLookParts(p: Position)
    ensures var b := PositionLookBody(p);
            && b[0..8] == BigEndian(8, p.x) && b[8..16] == BigEndian(8, p.y) && b[16..24] == BigEndian(8, p.z)
            && b[24..28] == BigEndian(4, p.yaw) && b[28..32] == BigEndian(4, p.pitch)
            && b[32] == if p.onGround then 1 else 0
  {
    hide BigEndian;
  }

  lemma PositionLookReads(p: Position)
    ensures MovementOf(PositionLookBody(p), true) == Movement(p, true)
  {
    PositionLookParts(p);
    Read64Of(p.x);
    Read64Of(p.y);
    Read64Of(p.z);
    Read32Of(p.yaw);
    Read32Of(p.pitch);
    hide BigEndian, FromBigEndian, PositionLookBody;
  }

  /** A position payload is decoded to the same position if it is finite, and refused otherwise. */
  lemma PositionLookRoundTrip(p: Position)
    ensures DecodeMovement(PositionLookPayload(p)) == if Finite(p) then Some(Movement(p, true)) else None
  {
    PacketIdOf(SERVERBOUND_POSITION_LOOK, PositionLookBody(p));
    PositionLookReads(p);
    PositionLookParts(p);
    hide PacketId, MovementOf, BigEndian, PositionLookBody;
  }

  function PositionBody(p: Position): (b: bytes)
    ensures |b| == 25
  {
    Coordinates(p) + [if p.onGround then 1 else 0]
  }

  function PositionPayload(p: Position): (b: bytes) {
    VarInt.Encode(SERVERBOUND_POSITION) + PositionBody(p)
  }

  /** A position without look. */
  function Lookless(p: Position): (r: Position) { p.(yaw := 0, pitch := 0) }

  lemma PositionParts(p: Position)
    ensures var b := PositionBody(p);
            && b[0..8] == BigEndian(8, p.x) && b[8..16] == BigEndian(8, p.y) && b[16..24] == BigEndian(8, p.z)
            && b[24] == if p.onGround then 1 else 0
  {
    hide BigEndian;
  }

  lemma PositionReads(p: Position)
    ensures MovementOf(PositionBody(p), false) == Movement(Lookless(p), false)
  {
    PositionParts(p);
    Read64Of(p.x);
    Read64Of(p.y);
    Read64Of(p.z);
    hide BigEndian, FromBigEndian, PositionBody;
  }

  /** The same for positions without look. */
  lemma PositionRoundTrip(p: Position)
    ensures DecodeMovement(PositionPayload(p)) == if Finite(Lookless(p)) then Some(Movement(Lookless(p), false))
        else None
  {
    PacketIdOf(SERVERBOUND_POSITION, PositionBody(p));
    PositionReads(p);
    PositionParts(p);
    hide PacketId, MovementOf, BigEndian, PositionBody;
  }

  lemma Read64Back(b: bytes)
    requires |b| == 8
    ensures BigEndian(8, Read64(b)) == b
  {
    BigEndianSurjective(b);
  }

  lemma Read32Back(b: bytes)
    requires |b| == 4
    ensures BigEndian(4, Read32(b)) == b
  {
    BigEndianSurjective(b);
  }

  lemma CoordinatesBack(body: bytes, p: Position)
    requires |body| >= 24 && p.x == Read64(body[0..8]) && p.y == Read64(body[8..16]) && p.z == Read64(body[16..24])
    ensures Coordinates(p) == body[..24]
  {
    Read64Back(body[0..8]);
    Read64Back(body[8..16]);
    Read64Back(body[16..24]);
    hide BigEndian, FromBigEndian;
    assert body[..24] == body[0..8] + body[8..16] + body[16..24];
  }

  lemma LookBack(body: bytes, p: Position)
    requires |body| == 33 && p.yaw == Read32(body[24..28]) && p.pitch == Read32(body[28..32])
    requires p.onGround == (body[32] == 1) && body[32] <= 1
    ensures BigEndian(4, p.yaw) + BigEndian(4, p.pitch) + [if p.onGround then 1 else 0] == body[24..]
  {
    Read32Back(body[24..28]);
    Read32Back(body[28..32]);
    hide BigEndian, FromBigEndian;
    assert body[24..] == body[24..28] + body[28..32] + [body[32]];
  }

  /** What is accepted is the encoding of what it is decoded to, byte for byte: nothing of the body is ignored. */
  lemma DecodedMovementReencodes(payload: bytes)
    requires DecodeMovement(payload).Some?
    ensures PacketId(payload).Some?
    ensures var m := DecodeMovement(payload).value;
            var (id, body) := PacketId(payload).value;
            && Finite(m.position)
            && id == (if m.hasLook then SERVERBOUND_POSITION_LOOK else SERVERBOUND_POSITION)
            && body == (if m.hasLook then PositionLookBody(m.position) else PositionBody(m.position))
  {
    hide PacketId, BigEndian, FromBigEndian;
    var m := DecodeMovement(payload).value;
    var (_, body) := PacketId(payload).value;
    CoordinatesBack(body, m.position);
    if m.hasLook {
      LookBack(body, m.position);
      assert body == body[..24] + body[24..];
    } else {
      assert body == body[..24] + [body[24]];
    }
  }

  // ---- Player commands ----

  function EncodeVarInts(values: seq<int32>): (b: bytes) {
    if values == [] then [] else VarInt.Encode(values[0]) + EncodeVarInts(values[1..])
  }

  function PlayerCommandPayload(c: PlayerCommand): (b: bytes) {
    VarInt.Encode(SERVERBOUND_PLAYER_COMMAND) + EncodeVarInts([c.entityID, c.actionID, c.data])
  }

  /** The next n VarInts, and what follows them. */
  function ConsumeVarInts(n: nat, body: bytes): (r: Option<(seq<int32>, bytes)>)
    ensures r.Some? ==> |r.value.0| == n
  {
    if n == 0 then Some(([], body))
    else
      match VarInt.Consume(body)
      case Err(_) => None
      case Ok((value, used)) =>
        match ConsumeVarInts(n - 1, body[used..])
        case None => None
        case Some((values, rest)) => Some(([value] + values, rest))
  }

  predicate AcceptableCommand(c: PlayerCommand) {
    c.entityID >= 0 && 0 <= c.actionID <= 8 && c.data >= 0
  }

  function ParsePlayerCommand(payload: bytes): (r: Option<PlayerCommand>)
    ensures r.Some? ==> AcceptableCommand(r.value)
  {
    match PacketId(payload)
    case None => None
    case Some((id, body)) =>
      if id != SERVERBOUND_PLAYER_COMMAND then None
      else
        match ConsumeVarInts(3, body)
        case None => None
        case Some((values, rest)) =>
          var c := PlayerCommand(values[0], values[1], values[2]);
          if rest != [] || !AcceptableCommand(c) then None else Some(c)
  }

  lemma {:induction false} VarIntsRoundTrip(values: seq<int32>, rest: bytes)
    ensures ConsumeVarInts(|values|, EncodeVarInts(values) + rest) == Some((values, rest))
    decreases |values|
  {
    hide VarInt.Consume, VarInt.Encode;
    if values == [] {
      assert [] + rest == rest;
    } else {
      var first, more := VarInt.Encode(values[0]), EncodeVarInts(values[1..]) + rest;
      assert EncodeVarInts(values) + rest == first + more && (first + more)[|first|..] == more;
      VarInt.RoundTrip(values[0], more);
      VarIntsRoundTrip(values[1..], rest);
      assert [values[0]] + values[1..] == values;
    }
  }

  /** Entity, action and data, in this order. */
  lemma PlayerCommandParts(c: PlayerCommand)
    ensures PlayerCommandPayload(c) == VarInt.Encode(SERVERBOUND_PLAYER_COMMAND)
            + (VarInt.Encode(c.entityID) + (VarInt.Encode(c.actionID) + VarInt.Encode(c.data)))
  {
    hide VarInt.Encode;
    var values := [c.entityID, c.actionID, c.data];
    assert values[1..] == [c.actionID, c.data] && values[1..][1..] == [c.data] && [c.data][1..] == [];
    assert EncodeVarInts([c.data]) == VarInt.Encode(c.data) + [];
    assert EncodeVarInts([c.actionID, c.data]) == VarInt.Encode(c.actionID) + EncodeVarInts([c.data]);
  }

  /** A command payload is parsed to the same command if it is acceptable, and refused otherwise. */
  lemma PlayerCommandRoundTrip(c: PlayerCommand)
    ensures ParsePlayerCommand(PlayerCommandPayload(c)) == if AcceptableCommand(c) then Some(c) else None
  {
    var values := [c.entityID, c.actionID, c.data];
    PacketIdOf(SERVERBOUND_PLAYER_COMMAND, EncodeVarInts(values));
    VarIntsRoundTrip(values, []);
    assert EncodeVarInts(values) + [] == EncodeVarInts(values);
    hide PacketId, ConsumeVarInts, VarInt.Encode, EncodeVarInts;
  }

  /** ParsePlayerCommand's loop over its three values. */
  method ParsePlayerCommandLoop(payload: bytes) returns (r: Option<PlayerCommand>)
    ensures r == ParsePlayerCommand(payload)
  {
    hide PacketId, VarInt.Consume;
    var packet := PacketId(payload);
    if packet.None? || packet.value.0 != SERVERBOUND_PLAYER_COMMAND {
      return None;
    }
    var body := packet.value.1;
    var values: seq<int32> := [];
    assert ConsumeVarInts(3, body).Some? ==> [] + ConsumeVarInts(3, body).value.0 == ConsumeVarInts(3, body).value.0;
    for index := 0 to 3
      invariant |values| == index
      invariant ConsumeVarInts(3, packet.value.1)
             == match ConsumeVarInts(3 - index, body)
                case None => None
                case Some((more, rest)) => Some((values + more, rest))
    {
      var next := VarInt.ConsumeVarInt(body);
      if next.Err? {
        return None;
      }
      var (value, used) := next.value;
      if ConsumeVarInts(2 - index, body[used..]).Some? {
        var more := ConsumeVarInts(2 - index, body[used..]).value.0;
        assert values + ([value] + more) == (values + [value]) + more;
      }
      values := values + [value];
      body := body[used..];
    }
    assert values + [] == values;
    if |body| != 0 || values[0] < 0 || values[1] < 0 || values[1] > 8 || values[2] < 0 {
      return None;
    }
    return Some(PlayerCommand(values[0], values[1], values[2]));
  }

  // ---- The action bar ----

  const TEXT: bytes := [0x74, 0x65, 0x78, 0x74] // "text"

  function ActionBarPayload(text: bytes): (r: Result<bytes, Nbt.Error>) {
    match Nbt.Document([Nbt.Field(TEXT, Nbt.Text(text))], 0x1_0000)
    case Err(e) => Err(e)
    case Ok(component) => Ok(VarInt.Encode(CLIENTBOUND_ACTION_BAR) + component)
  }

  /** A payload is made for exactly the texts of up to 65525 bytes, and decodes to its text. */
  lemma ActionBarDecodes(text: bytes)
    ensures ActionBarPayload(text).Ok? <==> |text| <= 65525
    ensures ActionBarPayload(text).Ok? ==>
              var packet := PacketId(ActionBarPayload(text).value);
              && packet.Some? && packet.value.0 == CLIENTBOUND_ACTION_BAR
              && Nbt.Decode(packet.value.1) == Some(([Nbt.Field(TEXT, Nbt.Text(text))], []))
  {
    var fields := [Nbt.Field(TEXT, Nbt.Text(text))];
    ActionBarSize(text);
    hide Nbt.FieldsPayload, Nbt.Decode, PacketId;
    if ActionBarPayload(text).Ok? {
      var component := Nbt.Document(fields, 0x1_0000).value;
      Nbt.SmallDocumentsRoundTrip(fields, 0x1_0000, []);
      assert component + [] == component;
      PacketIdOf(CLIENTBOUND_ACTION_BAR, component);
    }
  }

  lemma ActionBarSize(text: bytes)
    ensures |Nbt.FieldsPayload([Nbt.Field(TEXT, Nbt.Text(text))])| == |text| + 10
  {
    var fields := [Nbt.Field(TEXT, Nbt.Text(text))];
    assert fields[1..] == [];
    assert |Nbt.FieldPayload(fields[0])| == 1 + (2 + 4) + (2 + |text|);
  }
}
