/** One driver write on its way to a device, and what can become of it there. */
module Journeys {
  import opened Wrappers
  import opened Bytes
  import opened Device
  import opened Pdu
  import opened Server
  import opened Client
  import opened EndToEnd
  import opened Driver

  /** What becomes of one write on the way: delivered both ways; not sent, or not
      whole; sent but dropped before dispatch; or dispatched with only part of the reply back in time. */
  datatype Journey = Delivered | NotSent(cut: nat) | NotServed | ReplyCut(arrived: nat)

  /** The device, the client's connection, and the requests the device has carried out. */
  datatype World = World(tables: Tables, wire: Wire, dispatched: seq<Request>) {
    predicate Ready() { tables.Valid() && wire.connected && wire.inbox == [] }
  }

  // ---- One write ----

  function Done(a: Result<Answer, CallError>): Result<(), DriverError>
  {
    match a case Ok(_) => Ok(()) case Err(e) => Err(Failed(e))
  }

  function Arriving(j: Journey, replies: seq<byte>): (arriving: seq<byte>)
    ensures arriving <= replies
    ensures |arriving| == if j.ReplyCut? && j.arrived < |replies| then j.arrived else |replies|
  {
    match j
    case ReplyCut(n) => if n < |replies| then replies[..n] else replies
    case _ => replies
  }

  function SendOne(world: World, req: Request, j: Journey): (World, Result<(), DriverError>)
    requires world.tables.Valid() && req.Legal()
  {
    var (t, w) := (world.tables, world.wire);
    match j
    case NotSent(cut) =>
      var (a, w') := Call(w, req, Net(Some(cut), []));
      (world.(wire := w'), Done(a))
    case NotServed =>
      var (a, w') := Call(w, req, Net(None, []));
      (world.(wire := w'), Done(a))
    case _ =>
      var (t', replies) := Serve(t, RequestFrame(NextId(w.txID), w.unitId, RequestPdu(req)), AllAnswered(), 0);
      var (a, w') := Call(w, req, Net(None, Arriving(j, replies)));
      (World(t', w', world.dispatched + [req]), Done(a))
  }

  lemma DeliveredIsRemoteCall(world: World, req: Request)
    requires world.tables.Valid() && world.wire.connected && req.Legal()
    ensures var (t', a, w') := RemoteCall(world.tables, world.wire, req);
            SendOne(world, req, Delivered) == (World(t', w', world.dispatched + [req]), Done(a))
  {
    hide Call, Serve, RequestFrame, RequestPdu, Done;
  }

  /** Driver.Write in a world. */
  function WriteOnce(opt: Options, world: World, spec: string, literal: string, j: Journey): (World, Result<(), DriverError>)
    requires world.tables.Valid()
  {
    match EncodedWrite(opt, spec, literal)
    case Err(e) => (world, Err(Invalid(e)))
    case Ok(p) =>
      var req := WriteRequest(p);
      if req.Legal() then SendOne(world, req, j)
      else (world, Err(Failed(Encoding(OverLimit(req.Count())))))
  }

  lemma TablesStayValid(opt: Options, world: World, spec: string, literal: string, j: Journey)
    requires world.tables.Valid()
    ensures WriteOnce(opt, world, spec, literal, j).0.tables.Valid()
  {
    hide Call, EncodedWrite, WriteRequest, RequestFrame, RequestPdu, Arriving, Tables.Valid;
  }
}
