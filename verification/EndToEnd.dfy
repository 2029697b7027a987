/** A movement packet from `Set` on one side to `Get` on the other. */
module EndToEnd {
  import opened Serialize
  import opened Geometry
  import opened Packets
  import opened Framing
  import Rotation

  /** `MovementPacket::Get` */
  function GetPosition(p: Packet): Vector3
    requires p.body.Position? || p.body.Movement?
  {
    UnpackPosition(p.body.position)
  }

  function GetDirection(p: Packet): Vector3
    requires p.body.Position? || p.body.Movement?
  {
    Rotation.Decode(p.body.rotation)
  }

  function GetMovement(p: Packet): Vector3
    requires p.body.Movement?
  {
    UnpackPosition(p.body.movementDir)
  }

  predicate Within(a: Vector3, b: Vector3, eps: real) {
    Abs(a.x - b.x) < eps && Abs(a.y - b.y) < eps && Abs(a.z - b.z) < eps
  }

  predicate InRange(v: Vector3) {
    Abs(v.x) < 4096.0 && Abs(v.y) < 4096.0 && Abs(v.z) < 4096.0
  }

  lemma PositionError(v: Vector3)
    requires AllFitLong(v)
    ensures Within(v, UnpackPosition(PackPosition(v)), 1.0 / 256.0) <==> InRange(v)
  {
    PositionAxesIndependent(v);
    QuantizedWithin(v);
  }

  lemma QuantizedWithin(v: Vector3)
    ensures Within(v, Vector3(Quantize(v.x), Quantize(v.y), Quantize(v.z)), 1.0 / 256.0) <==> InRange(v)
  {
    AxisError(v.x);
    AxisError(v.y);
    AxisError(v.z);
  }

  /** What the receiver reads from the packet that the sender set. */
  lemma SetThenGet(p: Packet, position: Vector3, direction: Vector3, movement: Vector3)
    requires p.body.Movement? && Settable(position, direction, movement)
    ensures var q := WithMovement(p, position, direction, movement);
            && q.header == p.header && q.body.serverTick == p.body.serverTick
            && (Within(position, GetPosition(q), 1.0 / 256.0) <==> InRange(position))
            && (Within(movement, GetMovement(q), 1.0 / 256.0) <==> InRange(movement))
            && Rotation.NearAngles(direction, GetDirection(q), 360.0 / 1024.0)
  {
    PositionError(position);
    PositionError(movement);
    Rotation.RotationError(direction);
  }

  /** Set, frame, send amid other traffic, receive, get: the one packet in the
      receiver's queue has the header and tick of the sender's, its rotation is
      less than one step off on the circle, and its position and movement are
      within 1/256 on every axis exactly when they were in range. */
  lemma MovementEndToEnd(
    p: Packet, position: Vector3, direction: Vector3, movement: Vector3,
    before: seq<Packet>, after: seq<Packet>, ps: seq<Packet>, t: seq<byte>, stale: seq<byte>,
    mem: seq<byte>, total: nat, free: Stock, r: Outcome)
    requires p.body.Movement? && Settable(position, direction, movement)
    requires ps == before + [WithMovement(p, position, direction, movement)] + after && AllWellFormed(ps)
    requires mem == Frames(ps) + t + stale && total + |stale| == |mem| && |stale| >= SLACK && Incomplete(t)
    requires Enough(ps, free) && r == Drain(mem, 0, total, free)
    ensures r.status == Drained && |r.packets| == |before| + 1 + |after|
    ensures var q := r.packets[|before|];
            && q.body.Movement? && q.header == p.header && q.body.serverTick == p.body.serverTick
            && (Within(position, GetPosition(q), 1.0 / 256.0) <==> InRange(position))
            && (Within(movement, GetMovement(q), 1.0 / 256.0) <==> InRange(movement))
            && Rotation.NearAngles(direction, GetDirection(q), 360.0 / 1024.0)
  {
    ReceiveFrames(mem, total, ps, Frames(ps), t, stale, free, r);
    assert r.packets[|before|] == WithMovement(p, position, direction, movement);
    SetThenGet(p, position, direction, movement);
  }
}
