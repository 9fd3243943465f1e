// The game's wire format, src/game/packet.c: a 7-byte header (client id,
// sequence number, type) followed by a per-type payload, written and read
// through a pointer that advances by the size of each field. Multi-byte
// fields are stored in the host's native order, modelled as little-endian.

module Packet {

  type Byte = x: int | 0 <= x < 0x100
  type U16 = x: int | 0 <= x < 0x1_0000
  type U32 = x: int | 0 <= x < 0x1_0000_0000
  type I16 = x: int | -0x8000 <= x < 0x8000

  /** NAME_SIZE and CHAT_MAX. */
  const NameSize: nat := 16
  const ChatMax: nat := 64
  /** client id (2 bytes), sequence number (4 bytes) and type (1 byte). */
  const HeaderSize: nat := 7

  /** packet_type_t. */
  const TypeHello: Byte := 0
  const TypeGoodbye: Byte := 1
  const TypePlayer: Byte := 2
  const TypeProjectile: Byte := 3
  const TypeDamage: Byte := 4
  const TypeChat: Byte := 5

  datatype Position = Position(px: U32, py: U32)
  datatype Velocity = Velocity(dx: I16, dy: I16)
  datatype Player = Player(position: Position, velocity: Velocity, score: U32, orientation: Byte, health: Byte, isThrust: bool)
  datatype PlayerId = PlayerId(clientId: U16, nonce: U16, name: seq<Byte>)
  datatype Projectile = Projectile(pid: U16, position: Position, velocity: Velocity, orientation: Byte, health: Byte, kind: Byte)
  datatype Damage = Damage(playerId: U16, projectileId: U16, amount: Byte, flags: Byte)

  /** The union member a packet type selects; hello and goodbye share the
      player_id_t layout, and other types carry nothing. */
  datatype Body =
    | IdBody(id: PlayerId)
    | PlayerBody(player: Player)
    | ProjectileBody(projectile: Projectile)
    | DamageBody(damage: Damage)
    | ChatBody(chat: seq<Byte>)
    | NoBody

  datatype Packet = Packet(sequence: U32, ptype: Byte, body: Body)

  /** The outcome of packet_decode: its return value, *client_source and the packet. */
  datatype Decoded = Decoded(ok: bool, clientSource: U16, packet: Packet)

  predicate KnownType(t: Byte)
  {
    t <= TypeChat
  }

  /** The body matches the type, and fixed-size arrays have their size. */
  predicate WellFormed(p: Packet)
  {
    match p.body
    case IdBody(id) => (p.ptype == TypeHello || p.ptype == TypeGoodbye) && |id.name| == NameSize
    case PlayerBody(_) => p.ptype == TypePlayer
    case ProjectileBody(_) => p.ptype == TypeProjectile
    case DamageBody(_) => p.ptype == TypeDamage
    case ChatBody(chat) => p.ptype == TypeChat && |chat| == ChatMax
    case NoBody => !KnownType(p.ptype)
  }

  /** The number of payload bytes each type carries. */
  function PayloadSize(t: Byte): nat
  {
    if t == TypeHello || t == TypeGoodbye then 2 + 2 + NameSize
    else if t == TypePlayer then 4 + 4 + 2 + 2 + 4 + 1 + 1 + 1
    else if t == TypeProjectile then 2 + 4 + 4 + 2 + 2 + 1 + 1 + 1
    else if t == TypeDamage then 2 + 2 + 1 + 1
    else if t == TypeChat then ChatMax
    else 0
  }

  // ---- little-endian integers

  function Pow256(k: nat): nat
  {
    if k == 0 then 1 else 256 * Pow256(k - 1)
  }

  lemma Pow256Widths()
    ensures Pow256(2) == 0x1_0000 && Pow256(4) == 0x1_0000_0000
  {
    assert Pow256(1) == 256;
    assert Pow256(3) == 0x100_0000;
  }

  /** The k bytes of x, least significant first. */
  function Le(x: nat, k: nat): (bs: seq<Byte>)
    requires x < Pow256(k)
    ensures |bs| == k
  {
    if k == 0 then [] else [x % 256] + Le(x / 256, k - 1)
  }

  /** The value of little-endian bytes. */
  function FromLe(bs: seq<Byte>): (x: nat)
    ensures x < Pow256(|bs|)
  {
    if |bs| == 0 then 0 else bs[0] + 256 * FromLe(bs[1..])
  }

  lemma {:induction false} FromLeOfLe(x: nat, k: nat)
    requires x < Pow256(k)
    ensures FromLe(Le(x, k)) == x
  {
    if k > 0 {
      FromLeOfLe(x / 256, k - 1);
      assert Le(x, k)[1..] == Le(x / 256, k - 1);
    }
  }

  lemma {:induction false} LeOfFromLe(bs: seq<Byte>)
    ensures Le(FromLe(bs), |bs|) == bs
  {
    if |bs| > 0 {
      LeOfFromLe(bs[1..]);
      assert FromLe(bs) % 256 == bs[0] && FromLe(bs) / 256 == FromLe(bs[1..]);
    }
  }

  /** An int16 as the bits of a uint16 (two's complement), and back. */
  function I16Bits(x: I16): U16
  {
    if x < 0 then x + 0x1_0000 else x
  }

  function I16OfBits(u: U16): I16
  {
    if u >= 0x8000 then u - 0x1_0000 else u
  }

  lemma I16RoundTrip(x: I16)
    ensures I16OfBits(I16Bits(x)) == x
  {
  }

  function BoolByte(b: bool): Byte
  {
    if b then 1 else 0
  }

  // ---- the byte layout

  function EncodePosition(pos: Position): seq<Byte>
  {
    Le(pos.px, 4) + Le(pos.py, 4)
  }

  function EncodeVelocity(v: Velocity): seq<Byte>
  {
    Le(I16Bits(v.dx), 2) + Le(I16Bits(v.dy), 2)
  }

  /** The payload bytes of each union member, in the order packet_encode writes them. */
  function EncodeBody(b: Body): seq<Byte>
  {
    match b
    case IdBody(id) => Le(id.clientId, 2) + Le(id.nonce, 2) + id.name
    case PlayerBody(pl) =>
      EncodePosition(pl.position) + EncodeVelocity(pl.velocity) + Le(pl.score, 4)
      + [pl.orientation, pl.health, BoolByte(pl.isThrust)]
    case ProjectileBody(pr) =>
      Le(pr.pid, 2) + EncodePosition(pr.position) + EncodeVelocity(pr.velocity)
      + [pr.orientation, pr.health, pr.kind]
    case DamageBody(d) => Le(d.playerId, 2) + Le(d.projectileId, 2) + [d.amount, d.flags]
    case ChatBody(chat) => chat
    case NoBody => []
  }

  /** packet_encode's output: header, then payload. */
  function EncodeBytes(p: Packet, clientId: U16): seq<Byte>
  {
    Le(clientId, 2) + Le(p.sequence, 4) + [p.ptype] + EncodeBody(p.body)
  }

  /** The field of k bytes at offset i. */
  function Field(bs: seq<Byte>, i: nat, k: nat): nat
    requires i + k <= |bs|
  {
    FromLe(bs[i..i + k])
  }

  function DecodePosition(bs: seq<Byte>, i: nat): Position
    requires i + 8 <= |bs|
  {
    Position(Field(bs, i, 4), Field(bs, i + 4, 4))
  }

  function DecodeVelocity(bs: seq<Byte>, i: nat): Velocity
    requires i + 4 <= |bs|
  {
    Velocity(I16OfBits(Field(bs, i, 2)), I16OfBits(Field(bs, i + 2, 2)))
  }

  function DecodeId(bs: seq<Byte>, i: nat): PlayerId
    requires i + 4 + NameSize <= |bs|
  {
    PlayerId(Field(bs, i, 2), Field(bs, i + 2, 2), bs[i + 4..i + 4 + NameSize])
  }

  function DecodePlayer(bs: seq<Byte>, i: nat): Player
    requires i + 19 <= |bs|
  {
    Player(DecodePosition(bs, i), DecodeVelocity(bs, i + 8), Field(bs, i + 12, 4),
           bs[i + 16], bs[i + 17], bs[i + 18] != 0)
  }

  function DecodeProjectile(bs: seq<Byte>, i: nat): Projectile
    requires i + 17 <= |bs|
  {
    Projectile(Field(bs, i, 2), DecodePosition(bs, i + 2), DecodeVelocity(bs, i + 10),
               bs[i + 14], bs[i + 15], bs[i + 16])
  }

  function DecodeDamage(bs: seq<Byte>, i: nat): Damage
    requires i + 6 <= |bs|
  {
    Damage(Field(bs, i, 2), Field(bs, i + 2, 2), bs[i + 4], bs[i + 5])
  }

  /** The union member packet_decode fills from the payload at offset 7. */
  function DecodeBody(bs: seq<Byte>, t: Byte): Body
    requires |bs| >= HeaderSize + PayloadSize(t)
  {
    var i := HeaderSize;
    if t == TypeHello || t == TypeGoodbye then IdBody(DecodeId(bs, i))
    else if t == TypePlayer then PlayerBody(DecodePlayer(bs, i))
    else if t == TypeProjectile then ProjectileBody(DecodeProjectile(bs, i))
    else if t == TypeDamage then DamageBody(DecodeDamage(bs, i))
    else if t == TypeChat then ChatBody(bs[i..i + ChatMax])
    else NoBody
  }

  /** What packet_decode reads from a buffer: the header always, the payload
      of a known type, and false for any other type. */
  function DecodeBytes(bs: seq<Byte>): (d: Decoded)
    requires |bs| >= HeaderSize && |bs| >= HeaderSize + PayloadSize(bs[6])
    ensures d.ok <==> KnownType(bs[6])
    ensures d.packet.ptype == bs[6]
  {
    Decoded(KnownType(bs[6]), Field(bs, 0, 2), Packet(Field(bs, 2, 4), bs[6], DecodeBody(bs, bs[6])))
  }

  lemma EncodedSize(p: Packet, clientId: U16)
    requires WellFormed(p)
    ensures |EncodeBytes(p, clientId)| == HeaderSize + PayloadSize(p.ptype)
  {
  }

  /** A field reads back from the bytes that encode it. */
  lemma FieldAt(e: seq<Byte>, i: nat, x: nat, k: nat)
    requires x < Pow256(k) && i + k <= |e| && e[i..i + k] == Le(x, k)
    ensures Field(e, i, k) == x
  {
    FromLeOfLe(x, k);
  }

  /** A field written at offset |a| reads back. */
  lemma FieldOfConcat(a: seq<Byte>, x: nat, k: nat, b: seq<Byte>)
    requires x < Pow256(k)
    ensures Field(a + Le(x, k) + b, |a|, k) == x
  {
    assert (a + Le(x, k) + b)[|a|..|a| + k] == Le(x, k);
    FromLeOfLe(x, k);
  }

  lemma PositionAt(e: seq<Byte>, i: nat, pos: Position)
    requires i + 8 <= |e| && e[i..i + 8] == EncodePosition(pos)
    ensures DecodePosition(e, i) == pos
  {
    assert e[i..i + 4] == e[i..i + 8][..4];
    assert e[i + 4..i + 8] == e[i..i + 8][4..];
    FieldAt(e, i, pos.px, 4);
    FieldAt(e, i + 4, pos.py, 4);
  }

  lemma VelocityAt(e: seq<Byte>, i: nat, v: Velocity)
    requires i + 4 <= |e| && e[i..i + 4] == EncodeVelocity(v)
    ensures DecodeVelocity(e, i) == v
  {
    assert e[i..i + 2] == e[i..i + 4][..2];
    assert e[i + 2..i + 4] == e[i..i + 4][2..];
    FieldAt(e, i, I16Bits(v.dx), 2);
    FieldAt(e, i + 2, I16Bits(v.dy), 2);
  }

  lemma HeaderRoundTrip(p: Packet, clientId: U16)
    requires WellFormed(p)
    ensures var e := EncodeBytes(p, clientId);
      |e| >= HeaderSize && e[6] == p.ptype && Field(e, 0, 2) == clientId && Field(e, 2, 4) == p.sequence
  {
    var e := EncodeBytes(p, clientId);
    var rest := [p.ptype] + EncodeBody(p.body);
    assert e == [] + Le(clientId, 2) + (Le(p.sequence, 4) + rest);
    FieldOfConcat([], clientId, 2, Le(p.sequence, 4) + rest);
    assert e == Le(clientId, 2) + Le(p.sequence, 4) + rest;
    FieldOfConcat(Le(clientId, 2), p.sequence, 4, rest);
  }

  /** Each payload decodes back from behind any 7-byte header. */
  lemma IdRoundTrip(h: seq<Byte>, t: Byte, id: PlayerId)
    requires |h| == HeaderSize && (t == TypeHello || t == TypeGoodbye) && |id.name| == NameSize
    ensures |h + EncodeBody(IdBody(id))| == HeaderSize + PayloadSize(t)
    ensures DecodeBody(h + EncodeBody(IdBody(id)), t) == IdBody(id)
  {
    var e := h + EncodeBody(IdBody(id));
    var i := HeaderSize;
    assert e[i..i + 2] == Le(id.clientId, 2);
    assert e[i + 2..i + 4] == Le(id.nonce, 2);
    assert e[i + 4..i + 4 + NameSize] == id.name;
    FieldAt(e, i, id.clientId, 2);
    FieldAt(e, i + 2, id.nonce, 2);
  }

  lemma PlayerRoundTrip(h: seq<Byte>, pl: Player)
    requires |h| == HeaderSize
    ensures |h + EncodeBody(PlayerBody(pl))| == HeaderSize + PayloadSize(TypePlayer)
    ensures DecodeBody(h + EncodeBody(PlayerBody(pl)), TypePlayer) == PlayerBody(pl)
  {
    var e := h + EncodeBody(PlayerBody(pl));
    var i := HeaderSize;
    assert e[i..i + 8] == EncodePosition(pl.position);
    assert e[i + 8..i + 12] == EncodeVelocity(pl.velocity);
    assert e[i + 12..i + 16] == Le(pl.score, 4);
    assert e[i + 16..] == [pl.orientation, pl.health, BoolByte(pl.isThrust)];
    PositionAt(e, i, pl.position);
    VelocityAt(e, i + 8, pl.velocity);
    FieldAt(e, i + 12, pl.score, 4);
  }

  lemma ProjectileRoundTrip(h: seq<Byte>, pr: Projectile)
    requires |h| == HeaderSize
    ensures |h + EncodeBody(ProjectileBody(pr))| == HeaderSize + PayloadSize(TypeProjectile)
    ensures DecodeBody(h + EncodeBody(ProjectileBody(pr)), TypeProjectile) == ProjectileBody(pr)
  {
    var e := h + EncodeBody(ProjectileBody(pr));
    var i := HeaderSize;
    assert e[i..i + 2] == Le(pr.pid, 2);
    assert e[i + 2..i + 10] == EncodePosition(pr.position);
    assert e[i + 10..i + 14] == EncodeVelocity(pr.velocity);
    assert e[i + 14..] == [pr.orientation, pr.health, pr.kind];
    FieldAt(e, i, pr.pid, 2);
    PositionAt(e, i + 2, pr.position);
    VelocityAt(e, i + 10, pr.velocity);
  }

  lemma DamageRoundTrip(h: seq<Byte>, d: Damage)
    requires |h| == HeaderSize
    ensures |h + EncodeBody(DamageBody(d))| == HeaderSize + PayloadSize(TypeDamage)
    ensures DecodeBody(h + EncodeBody(DamageBody(d)), TypeDamage) == DamageBody(d)
  {
    var e := h + EncodeBody(DamageBody(d));
    var i := HeaderSize;
    assert e[i..i + 2] == Le(d.playerId, 2);
    assert e[i + 2..i + 4] == Le(d.projectileId, 2);
    assert e[i + 4..] == [d.amount, d.flags];
    FieldAt(e, i, d.playerId, 2);
    FieldAt(e, i + 2, d.projectileId, 2);
  }

  lemma BodyRoundTrip(p: Packet, clientId: U16)
    requires WellFormed(p)
    ensures var e := EncodeBytes(p, clientId);
      |e| == HeaderSize + PayloadSize(p.ptype) && DecodeBody(e, p.ptype) == p.body
  {
    var h := Le(clientId, 2) + Le(p.sequence, 4) + [p.ptype];
    assert EncodeBytes(p, clientId) == h + EncodeBody(p.body);
    match p.body
    case IdBody(id) => IdRoundTrip(h, p.ptype, id);
    case PlayerBody(pl) => PlayerRoundTrip(h, pl);
    case ProjectileBody(pr) => ProjectileRoundTrip(h, pr);
    case DamageBody(d) => DamageRoundTrip(h, d);
    case ChatBody(chat) =>
      assert (h + chat)[HeaderSize..HeaderSize + ChatMax] == chat;
    case NoBody =>
  }

  /** decode(encode(p, cid)) gives back cid and the packet, and reports
      success exactly for the known types. */
  lemma DecodeEncode(p: Packet, clientId: U16)
    requires WellFormed(p)
    ensures var e := EncodeBytes(p, clientId);
      |e| >= HeaderSize + PayloadSize(e[6]) && DecodeBytes(e) == Decoded(KnownType(p.ptype), clientId, p)
  {
    HeaderRoundTrip(p, clientId);
    BodyRoundTrip(p, clientId);
  }

  /** An unknown type is encoded as the 7-byte header alone. */
  lemma UnknownTypeIsHeaderOnly(p: Packet, clientId: U16)
    requires WellFormed(p) && !KnownType(p.ptype)
    ensures |EncodeBytes(p, clientId)| == HeaderSize
  {
  }

  // ---- the write and read pointers

  /** s with the bytes stored from offset p. */
  function Written(s: seq<Byte>, p: nat, bytes: seq<Byte>): (r: seq<Byte>)
    requires p + |bytes| <= |s|
    ensures |r| == |s|
  {
    s[..p] + bytes + s[p + |bytes|..]
  }

  /** Two stores at consecutive offsets are one store of both. */
  lemma WrittenTwice(s: seq<Byte>, p: nat, a: seq<Byte>, b: seq<Byte>)
    requires p + |a| + |b| <= |s|
    ensures Written(Written(s, p, a), p + |a|, b) == Written(s, p, a + b)
  {
    var w := Written(s, p, a);
    assert w[..p + |a|] == s[..p] + a;
    assert w[p + |a| + |b|..] == s[p + |a| + |b|..];
  }

  /** Storing one more byte after a prefix stores the longer prefix. */
  lemma WrittenStep(s: seq<Byte>, p: nat, bytes: seq<Byte>, i: nat)
    requires i < |bytes| && p + |bytes| <= |s|
    ensures Written(s, p, bytes[..i])[p + i := bytes[i]] == Written(s, p, bytes[..i + 1])
  {
    assert bytes[..i + 1] == bytes[..i] + [bytes[i]];
  }

  /** The encode macro: store the bytes at the write pointer and advance it. */
  method Put(buffer: array<Byte>, p: nat, bytes: seq<Byte>) returns (q: nat)
    requires p + |bytes| <= buffer.Length
    modifies buffer
    ensures q == p + |bytes|
    ensures buffer[..] == Written(old(buffer[..]), p, bytes)
  {
    var i := 0;
    while i < |bytes|
      invariant 0 <= i <= |bytes|
      invariant buffer[..] == Written(old(buffer[..]), p, bytes[..i])
    {
      WrittenStep(old(buffer[..]), p, bytes, i);
      buffer[p + i] := bytes[i];
      i := i + 1;
    }
    assert bytes[..i] == bytes;
    q := p + |bytes|;
  }

  method PutPlayerId(buffer: array<Byte>, p: nat, id: PlayerId) returns (q: nat)
    requires p + |EncodeBody(IdBody(id))| <= buffer.Length
    modifies buffer
    ensures q == p + |EncodeBody(IdBody(id))|
    ensures buffer[..] == Written(old(buffer[..]), p, EncodeBody(IdBody(id)))
  {
    ghost var s := buffer[..];
    q := Put(buffer, p, Le(id.clientId, 2));
    q := Put(buffer, q, Le(id.nonce, 2));
    WrittenTwice(s, p, Le(id.clientId, 2), Le(id.nonce, 2));
    q := Put(buffer, q, id.name);
    WrittenTwice(s, p, Le(id.clientId, 2) + Le(id.nonce, 2), id.name);
  }

  method PutPosition(buffer: array<Byte>, p: nat, pos: Position) returns (q: nat)
    requires p + 8 <= buffer.Length
    modifies buffer
    ensures q == p + 8
    ensures buffer[..] == Written(old(buffer[..]), p, EncodePosition(pos))
  {
    ghost var s := buffer[..];
    q := Put(buffer, p, Le(pos.px, 4));
    q := Put(buffer, q, Le(pos.py, 4));
    WrittenTwice(s, p, Le(pos.px, 4), Le(pos.py, 4));
  }

  method PutVelocity(buffer: array<Byte>, p: nat, v: Velocity) returns (q: nat)
    requires p + 4 <= buffer.Length
    modifies buffer
    ensures q == p + 4
    ensures buffer[..] == Written(old(buffer[..]), p, EncodeVelocity(v))
  {
    ghost var s := buffer[..];
    q := Put(buffer, p, Le(I16Bits(v.dx), 2));
    q := Put(buffer, q, Le(I16Bits(v.dy), 2));
    WrittenTwice(s, p, Le(I16Bits(v.dx), 2), Le(I16Bits(v.dy), 2));
  }

  method PutPlayer(buffer: array<Byte>, p: nat, pl: Player) returns (q: nat)
    requires p + PayloadSize(TypePlayer) <= buffer.Length
    modifies buffer
    ensures q == p + PayloadSize(TypePlayer)
    ensures buffer[..] == Written(old(buffer[..]), p, EncodeBody(PlayerBody(pl)))
  {
    ghost var s := buffer[..];
    q := PutPosition(buffer, p, pl.position);
    q := PutVelocity(buffer, q, pl.velocity);
    WrittenTwice(s, p, EncodePosition(pl.position), EncodeVelocity(pl.velocity));
    ghost var acc := EncodePosition(pl.position) + EncodeVelocity(pl.velocity);
    q := Put(buffer, q, Le(pl.score, 4));
    WrittenTwice(s, p, acc, Le(pl.score, 4));
    acc := acc + Le(pl.score, 4);
    assert |acc| == 16 && q == p + 16;
    q := PutTrailer(buffer, q, pl.orientation, pl.health, BoolByte(pl.isThrust));
    WrittenTwice(s, p, acc, [pl.orientation, pl.health, BoolByte(pl.isThrust)]);
  }

  method PutProjectile(buffer: array<Byte>, p: nat, pr: Projectile) returns (q: nat)
    requires p + PayloadSize(TypeProjectile) <= buffer.Length
    modifies buffer
    ensures q == p + PayloadSize(TypeProjectile)
    ensures buffer[..] == Written(old(buffer[..]), p, EncodeBody(ProjectileBody(pr)))
  {
    ghost var s := buffer[..];
    q := Put(buffer, p, Le(pr.pid, 2));
    q := PutPosition(buffer, q, pr.position);
    WrittenTwice(s, p, Le(pr.pid, 2), EncodePosition(pr.position));
    ghost var acc := Le(pr.pid, 2) + EncodePosition(pr.position);
    q := PutVelocity(buffer, q, pr.velocity);
    WrittenTwice(s, p, acc, EncodeVelocity(pr.velocity));
    acc := acc + EncodeVelocity(pr.velocity);
    assert |acc| == 14 && q == p + 14;
    q := PutTrailer(buffer, q, pr.orientation, pr.health, pr.kind);
    WrittenTwice(s, p, acc, [pr.orientation, pr.health, pr.kind]);
  }

  /** Three one-byte fields in a row. */
  method PutTrailer(buffer: array<Byte>, p: nat, a: Byte, b: Byte, c: Byte) returns (q: nat)
    requires p + 3 <= buffer.Length
    modifies buffer
    ensures q == p + 3
    ensures buffer[..] == Written(old(buffer[..]), p, [a, b, c])
  {
    ghost var s := buffer[..];
    q := Put(buffer, p, [a]);
    q := Put(buffer, q, [b]);
    WrittenTwice(s, p, [a], [b]);
    q := Put(buffer, q, [c]);
    WrittenTwice(s, p, [a, b], [c]);
  }

  method PutDamage(buffer: array<Byte>, p: nat, d: Damage) returns (q: nat)
    requires p + PayloadSize(TypeDamage) <= buffer.Length
    modifies buffer
    ensures q == p + PayloadSize(TypeDamage)
    ensures buffer[..] == Written(old(buffer[..]), p, EncodeBody(DamageBody(d)))
  {
    ghost var s := buffer[..];
    ghost var acc := Le(d.playerId, 2);
    q := Put(buffer, p, Le(d.playerId, 2));
    q := Put(buffer, q, Le(d.projectileId, 2));
    WrittenTwice(s, p, acc, Le(d.projectileId, 2));
    acc := acc + Le(d.projectileId, 2);
    q := Put(buffer, q, [d.amount]);
    WrittenTwice(s, p, acc, [d.amount]);
    acc := acc + [d.amount];
    q := Put(buffer, q, [d.flags]);
    WrittenTwice(s, p, acc, [d.flags]);
    acc := acc + [d.flags];
    assert acc == EncodeBody(DamageBody(d));
  }

  /** The header: client id, sequence number and type. */
  method PutHeader(buffer: array<Byte>, packet: Packet, clientId: U16) returns (q: nat)
    requires HeaderSize <= buffer.Length
    modifies buffer
    ensures q == HeaderSize
    ensures buffer[..] == Written(old(buffer[..]), 0, Le(clientId, 2) + Le(packet.sequence, 4) + [packet.ptype])
  {
    ghost var s := buffer[..];
    q := Put(buffer, 0, Le(clientId, 2));
    q := Put(buffer, q, Le(packet.sequence, 4));
    WrittenTwice(s, 0, Le(clientId, 2), Le(packet.sequence, 4));
    q := Put(buffer, q, [packet.ptype]);
    WrittenTwice(s, 0, Le(clientId, 2) + Le(packet.sequence, 4), [packet.ptype]);
  }

  /** The payload the packet's type selects. */
  method PutBody(buffer: array<Byte>, p: nat, packet: Packet) returns (q: nat)
    requires WellFormed(packet)
    requires p + PayloadSize(packet.ptype) <= buffer.Length
    modifies buffer
    ensures |EncodeBody(packet.body)| == PayloadSize(packet.ptype)
    ensures q == p + PayloadSize(packet.ptype)
    ensures buffer[..] == Written(old(buffer[..]), p, EncodeBody(packet.body))
  {
    match packet.body {
      case IdBody(id) =>
        q := PutPlayerId(buffer, p, id);
      case PlayerBody(pl) =>
        q := PutPlayer(buffer, p, pl);
      case ProjectileBody(pr) =>
        q := PutProjectile(buffer, p, pr);
      case DamageBody(d) =>
        q := PutDamage(buffer, p, d);
      case ChatBody(chat) =>
        q := Put(buffer, p, chat);
      case NoBody =>
        q := p;
        assert buffer[..] == Written(buffer[..], p, []);
    }
  }

  /** packet_encode: writes the header and the payload of the packet's type
      and returns the number of bytes written; the rest of the buffer is untouched. */
  method Encode(packet: Packet, clientId: U16, buffer: array<Byte>) returns (n: nat)
    requires WellFormed(packet)
    requires HeaderSize + PayloadSize(packet.ptype) <= buffer.Length
    modifies buffer
    ensures n == HeaderSize + PayloadSize(packet.ptype)
    ensures buffer[..n] == EncodeBytes(packet, clientId)
    ensures buffer[n..] == old(buffer[n..])
  {
    ghost var s := buffer[..];
    ghost var header := Le(clientId, 2) + Le(packet.sequence, 4) + [packet.ptype];
    var p := PutHeader(buffer, packet, clientId);
    n := PutBody(buffer, p, packet);
    WrittenTwice(s, 0, header, EncodeBody(packet.body));
    WrittenFromStart(s, header + EncodeBody(packet.body));
  }

  /** A store at offset 0 leaves its bytes first and the rest as it was. */
  lemma WrittenFromStart(s: seq<Byte>, bytes: seq<Byte>)
    requires |bytes| <= |s|
    ensures Written(s, 0, bytes)[..|bytes|] == bytes
    ensures Written(s, 0, bytes)[|bytes|..] == s[|bytes|..]
  {
  }

  /** The readers packet_decode applies at the read pointer, one per union member. */
  method GetPlayerId(buffer: array<Byte>, p: nat) returns (id: PlayerId)
    requires p + 4 + NameSize <= buffer.Length
    ensures id == DecodeId(buffer[..], p)
  {
    var cid := FromLe(buffer[p..p + 2]);
    var nonce := FromLe(buffer[p + 2..p + 4]);
    id := PlayerId(cid, nonce, buffer[p + 4..p + 4 + NameSize]);
  }

  method GetPosition(buffer: array<Byte>, p: nat) returns (pos: Position)
    requires p + 8 <= buffer.Length
    ensures pos == DecodePosition(buffer[..], p)
  {
    var px := FromLe(buffer[p..p + 4]);
    var py := FromLe(buffer[p + 4..p + 8]);
    Pow256Widths();
    pos := Position(px, py);
  }

  method GetVelocity(buffer: array<Byte>, p: nat) returns (v: Velocity)
    requires p + 4 <= buffer.Length
    ensures v == DecodeVelocity(buffer[..], p)
  {
    var dx := FromLe(buffer[p..p + 2]);
    var dy := FromLe(buffer[p + 2..p + 4]);
    v := Velocity(I16OfBits(dx), I16OfBits(dy));
  }

  method GetPlayer(buffer: array<Byte>, p: nat) returns (pl: Player)
    requires p + 19 <= buffer.Length
    ensures pl == DecodePlayer(buffer[..], p)
  {
    var pos := GetPosition(buffer, p);
    var v := GetVelocity(buffer, p + 8);
    var score := FromLe(buffer[p + 12..p + 16]);
    pl := Player(pos, v, score, buffer[p + 16], buffer[p + 17], buffer[p + 18] != 0);
  }

  method GetProjectile(buffer: array<Byte>, p: nat) returns (pr: Projectile)
    requires p + 17 <= buffer.Length
    ensures pr == DecodeProjectile(buffer[..], p)
  {
    var pid := FromLe(buffer[p..p + 2]);
    var pos := GetPosition(buffer, p + 2);
    var v := GetVelocity(buffer, p + 10);
    pr := Projectile(pid, pos, v, buffer[p + 14], buffer[p + 15], buffer[p + 16]);
  }

  method GetDamage(buffer: array<Byte>, p: nat) returns (d: Damage)
    requires p + 6 <= buffer.Length
    ensures d == DecodeDamage(buffer[..], p)
  {
    var playerId := FromLe(buffer[p..p + 2]);
    var projectileId := FromLe(buffer[p + 2..p + 4]);
    d := Damage(playerId, projectileId, buffer[p + 4], buffer[p + 5]);
  }

  /** packet_decode: reads the header, then the payload the type selects,
      advancing a read pointer; false for an unknown type. The buffer must
      hold every byte that is read. */
  method Decode(buffer: array<Byte>) returns (d: Decoded)
    requires buffer.Length >= HeaderSize && buffer.Length >= HeaderSize + PayloadSize(buffer[6])
    ensures d == DecodeBytes(buffer[..])
  {
    var p := 0;
    var clientSource := FromLe(buffer[p..p + 2]);
    p := p + 2;
    var sequence := FromLe(buffer[p..p + 4]);
    p := p + 4;
    var ptype := buffer[p];
    p := p + 1;
    var body: Body;
    var ok := true;
    if ptype == TypeHello || ptype == TypeGoodbye {
      var id := GetPlayerId(buffer, p);
      body := IdBody(id);
    } else if ptype == TypePlayer {
      var pl := GetPlayer(buffer, p);
      body := PlayerBody(pl);
    } else if ptype == TypeProjectile {
      var pr := GetProjectile(buffer, p);
      body := ProjectileBody(pr);
    } else if ptype == TypeDamage {
      var dm := GetDamage(buffer, p);
      body := DamageBody(dm);
    } else if ptype == TypeChat {
      body := ChatBody(buffer[p..p + ChatMax]);
    } else {
      body := NoBody;
      ok := false;
    }
    d := Decoded(ok, clientSource, Packet(sequence, ptype, body));
  }
}
