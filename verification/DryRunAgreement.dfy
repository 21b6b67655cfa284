/** How a write stream, its dry run and the device fit together. */
module DryRunAgreement {
  import opened Wrappers
  import opened Bytes
  import opened Text
  import opened Address
  import opened Device
  import opened Pdu
  import opened Dispatch
  import opened Mbap
  import opened Server
  import opened Client
  import opened EndToEnd
  import opened Driver
  import opened DriverRoundTrip
  import opened Journeys
  import opened CliApp

  // ---- One write ----

  predicate Carried(opt: Options, spec: string, literal: string)
  {
    var p := EncodedWrite(opt, spec, literal);
    p.Ok? && WriteRequest(p.value).Legal() && WriteRequest(p.value).Fits()
  }

  function RequestFor(opt: Options, spec: string, literal: string): Request
    requires EncodedWrite(opt, spec, literal).Ok?
  {
    WriteRequest(EncodedWrite(opt, spec, literal).value)
  }

  lemma SilenceIsFailure(w: Wire, req: Request, cut: nat)
    requires req.Legal() && w.inbox == []
    ensures Call(w, req, Net(Some(cut), [])).0.Err? && Call(w, req, Net(None, [])).0.Err?
  {
    hide RequestFrame, CheckResponse;
  }

  lemma CutReplyIsFailure(t: Tables, w: Wire, req: Request, n: nat)
    requires t.Valid() && req.Legal() && w.connected && w.inbox == []
    ensures var replies := Serve(t, RequestFrame(NextId(w.txID), w.unitId, RequestPdu(req)), AllAnswered(), 0).1;
            n < |replies| ==> Call(w, req, Net(None, replies[..n])).0.Err?
  {
    hide RequestFrame, RequestPdu, HeaderBytes, Serve, Receive, CheckResponse, AnswerPdu;
    ServeOneRequest(t, req, NextId(w.txID), w.unitId);
    var f := ReplyFrame(Header(NextId(w.txID), PROTOCOL_ID, 0, w.unitId), AnswerPdu(req, Apply(t, req).1));
    if n < |f.Bytes()| {
      ReceivePartOfFrame(f, n, w.unitId, RequestPdu(req)[0]);
      assert w.inbox + f.Bytes()[..n] == f.Bytes()[..n];
    }
  }

  lemma DeliveredSucceedsExactly(world: World, req: Request, j: Journey)
    requires world.Ready() && req.Legal() && j == Delivered
    ensures SendOne(world, req, j).1.Ok? <==> req.Fits()
    ensures req.Fits() ==> SendOne(world, req, j).0.Ready()
  {
    hide Serve, RequestFrame, Apply, Receive, CheckResponse, Conclude, RequestPdu, ChangesOnlyItsRange;
    RemoteCallRefinesDevice(world.tables, world.wire, req);
    RemoteCallSucceedsExactlyInRange(world.tables, world.wire, req);
  }

  lemma OkWasDelivered(world: World, req: Request, j: Journey)
    requires world.Ready() && req.Legal() && SendOne(world, req, j).1.Ok?
    ensures SendOne(world, req, j) == SendOne(world, req, Delivered)
  {
    hide Serve, RequestFrame, RequestPdu, Call;
    SilenceIsFailure(world.wire, req, if j.NotSent? then j.cut else 0);
    if j.ReplyCut? {
      CutReplyIsFailure(world.tables, world.wire, req, j.arrived);
    }
  }

  lemma SentAtMostOnce(world: World, req: Request, j: Journey)
    requires world.tables.Valid() && req.Legal()
    ensures var after := SendOne(world, req, j).0;
            if j.NotSent? || j.NotServed? then after.dispatched == world.dispatched && after.tables == world.tables
            else after.dispatched == world.dispatched + [req] && after.tables == Apply(world.tables, req).0
  {
    hide RequestFrame, RequestPdu, Call, Serve, Apply;
    ServeOneRequest(world.tables, req, NextId(world.wire.txID), world.wire.unitId);
  }

  /** A write from a ready world. If it reports success its literal encodes, its size and range are
      legal, it was carried out once and the world is ready again; when nothing goes wrong on the
      way, those conditions are also enough; and it is never carried out twice. */
  lemma WriteInWorld(opt: Options, world: World, spec: string, literal: string, j: Journey)
    requires world.Ready()
    ensures var (after, r) := WriteOnce(opt, world, spec, literal, j);
            && (r.Ok? ==> Carried(opt, spec, literal) && after.Ready()
                          && after.dispatched == world.dispatched + [RequestFor(opt, spec, literal)]
                          && after.tables == Apply(world.tables, RequestFor(opt, spec, literal)).0)
            && (j == Delivered && Carried(opt, spec, literal) ==> r.Ok?)
            && ((after.dispatched == world.dispatched && after.tables == world.tables)
                || (EncodedWrite(opt, spec, literal).Ok?
                    && after.dispatched == world.dispatched + [RequestFor(opt, spec, literal)]
                    && after.tables == Apply(world.tables, RequestFor(opt, spec, literal)).0))
  {
    hide EncodedWrite, SendOne, Apply, WriteRequest;
    var p := EncodedWrite(opt, spec, literal);
    if p.Ok? && WriteRequest(p.value).Legal() {
      var req := WriteRequest(p.value);
      SentAtMostOnce(world, req, j);
      SentAtMostOnce(world, req, Delivered);
      DeliveredSucceedsExactly(world, req, Delivered);
      if SendOne(world, req, j).1.Ok? {
        OkWasDelivered(world, req, j);
      }
    }
  }

  /** What a write that does not succeed tells, by what became of it. */
  lemma WriteTells(opt: Options, world: World, spec: string, literal: string, j: Journey)
    requires world.Ready()
    ensures var p := EncodedWrite(opt, spec, literal);
            var (after, r) := WriteOnce(opt, world, spec, literal, j);
            if p.Err? then after == world && r == Err(Invalid(p.error))
            else
              var req := WriteRequest(p.value);
              var id := NextId(world.wire.txID);
              if !req.Legal() then after == world && r == Err(Failed(Encoding(OverLimit(req.Count()))))
              else match j
                   case NotSent(_) => r == Err(Failed(Transport(WriteFailed)))
                   case NotServed => r == Err(Failed(Transport(NoHeader)))
                   case ReplyCut(_) => true
                   case Delivered =>
                     !req.Fits() ==>
                       after.tables == world.tables
                       && r == Err(Failed(Transport(Exception(RequestPdu(req)[0], 2, world.wire.unitId, id))))
  {
    hide EncodedWrite, SendOne, WriteRequest, RequestPdu, FunctionCode;
    var p := EncodedWrite(opt, spec, literal);
    if p.Ok? && WriteRequest(p.value).Legal() {
      SendTells(world, WriteRequest(p.value), j);
    }
  }

  lemma SendTells(world: World, req: Request, j: Journey)
    requires world.Ready() && req.Legal()
    ensures var (after, r) := SendOne(world, req, j);
            match j
            case NotSent(_) => r == Err(Failed(Transport(WriteFailed)))
            case NotServed => r == Err(Failed(Transport(NoHeader)))
            case ReplyCut(_) => true
            case Delivered =>
              !req.Fits() ==>
                after.tables == world.tables
                && r == Err(Failed(Transport(Exception(RequestPdu(req)[0], 2, world.wire.unitId, NextId(world.wire.txID)))))
  {
    hide RequestFrame, CheckResponse, RequestPdu, RemoteCall, Serve, NextId, ChangesOnlyItsRange;
    RequestCode(req);
    if j.Delivered? {
      DeliveredIsRemoteCall(world, req);
      RemoteCallSucceedsExactlyInRange(world.tables, world.wire, req);
    }
  }

  // ---- The whole stream ----

  predicate AllEncode(opt: Options, spec: string, lits: seq<string>)
  {
    forall k | 0 <= k < |lits| :: EncodedWrite(opt, spec, lits[k]).Ok?
  }

  function RequestsOf(opt: Options, spec: string, lits: seq<string>): (reqs: seq<Request>)
    requires AllEncode(opt, spec, lits)
    ensures |reqs| == |lits|
  {
    seq(|lits|, k requires 0 <= k < |lits| => RequestFor(opt, spec, lits[k]))
  }

  /** The device after a list of requests. */
  function ApplyAll(t: Tables, reqs: seq<Request>): Tables
    requires t.Valid()
    decreases |reqs|
  {
    if reqs == [] then t else ApplyAll(Apply(t, reqs[0]).0, reqs[1..])
  }

  lemma RequestsOfCons(opt: Options, spec: string, lits: seq<string>, k: nat)
    requires 0 < |lits| && k <= |lits| - 1 && EncodedWrite(opt, spec, lits[0]).Ok? && AllEncode(opt, spec, lits[1..][..k])
    ensures AllEncode(opt, spec, lits[..k + 1])
    ensures RequestsOf(opt, spec, lits[..k + 1]) == [RequestFor(opt, spec, lits[0])] + RequestsOf(opt, spec, lits[1..][..k])
  {
    hide EncodedWrite, RequestFor;
    var taken := lits[..k + 1];
    forall j | 0 <= j < |taken| ensures EncodedWrite(opt, spec, taken[j]).Ok? {
      if j > 0 {
        assert taken[j] == lits[1..][..k][j - 1];
      }
    }
  }

  /** However a stream ends, the device has carried out the requests of a prefix of its literals, in
      order and each once, and nothing else; the whole list if it ends with success. */
  lemma {:induction false} StreamDispatchesPrefix(opt: Options, spec: string, lits: seq<string>, env: Setting, i: nat, world: World)
      returns (k: nat)
    requires world.Ready()
    ensures var (code, after) := StreamFrom(opt, spec, lits, env, i, world);
            && k <= |lits| && AllEncode(opt, spec, lits[..k])
            && after.dispatched == world.dispatched + RequestsOf(opt, spec, lits[..k])
            && after.tables == ApplyAll(world.tables, RequestsOf(opt, spec, lits[..k]))
            && (code == ExitOK ==> k == |lits| && !env.scanFails && forall j | 0 <= j < |lits| :: Carried(opt, spec, lits[j]))
    decreases |lits|
  {
    hide EncodedWrite, WriteOnce, RequestFor, Apply, Carried;
    if lits == [] {
      k := 0;
      return;
    }
    var (after, r) := WriteOnce(opt, world, spec, lits[0], env.journey(i));
    WriteInWorld(opt, world, spec, lits[0], env.journey(i));
    if after.dispatched == world.dispatched && after.tables == world.tables {
      k := 0;
      return;
    }
    if r.Err? || !env.printed(i) {
      RequestsOfCons(opt, spec, lits, 0);
      k := 1;
      return;
    }
    var k' := StreamDispatchesPrefix(opt, spec, lits[1..], env, i + 1, after);
    RequestsOfCons(opt, spec, lits, k');
    k := k' + 1;
    assert forall j | 1 <= j < |lits| :: lits[j] == lits[1..][j - 1];
  }

  /** The exit code of a stream that stops early: that of its first failed write, or of an acknowledgement
      or an input that could not be handled. */
  lemma {:induction false} StreamStops(opt: Options, spec: string, lits: seq<string>, env: Setting, i: nat, world: World)
      returns (k: nat, before: World)
    requires world.tables.Valid()
    ensures before.tables.Valid() && k <= |lits|
    ensures var (code, after) := StreamFrom(opt, spec, lits, env, i, world);
            if k == |lits| then code == (if env.scanFails then ExitIO else ExitOK) && after == before
            else var (w, r) := WriteOnce(opt, before, spec, lits[k], env.journey(i + k));
                 && after == w
                 && if r.Err? then code == ExitFor(r.error) else !env.printed(i + k) && code == ExitIO
    ensures StreamFrom(opt, spec, lits[..k], env.(scanFails := false), i, world) == (ExitOK, before)
    decreases |lits|
  {
    hide WriteOnce;
    if lits == [] {
      return 0, world;
    }
    TablesStayValid(opt, world, spec, lits[0], env.journey(i));
    var (w, r) := WriteOnce(opt, world, spec, lits[0], env.journey(i));
    if r.Err? || !env.printed(i) {
      return 0, world;
    }
    var k';
    k', before := StreamStops(opt, spec, lits[1..], env, i + 1, w);
    k := k' + 1;
    assert lits[..k][1..] == lits[1..][..k'];
  }

  /** Over the lines of the input: however the stream ends, what the device carried out, in order, are the
      writes of a prefix of the lines, each once; of all of them if it ends with success. */
  lemma LinesDispatchedInOrder(opt: Options, spec: string, lines: seq<string>, env: Setting, start: World) returns (k: nat)
    requires start.Ready()
    ensures var (code, after) := StreamFrom(opt, spec, Literals(lines), env, 0, start);
            && k <= Writes(lines) && |after.dispatched| == |start.dispatched| + k
            && after.dispatched[..|start.dispatched|] == start.dispatched
            && (code == ExitOK ==> k == Writes(lines))
    ensures var after := StreamFrom(opt, spec, Literals(lines), env, 0, start).1;
            forall n | 0 <= n < |lines| && IsWrite(lines[n]) && Writes(lines[..n]) < k ::
              EncodedWrite(opt, spec, TrimSpace(lines[n])).Ok?
              && after.dispatched[|start.dispatched| + Writes(lines[..n])] == RequestFor(opt, spec, TrimSpace(lines[n]))
  {
    hide EncodedWrite, StreamFrom, RequestFor, Literals, TrimSpace, ApplyAll, Carried, IsWrite;
    var lits := Literals(lines);
    k := StreamDispatchesPrefix(opt, spec, lits, env, 0, start);
    CountOfLines(lines);
    var after := StreamFrom(opt, spec, lits, env, 0, start).1;
    var reqs := RequestsOf(opt, spec, lits[..k]);
    forall n | 0 <= n < |lines| && IsWrite(lines[n]) && Writes(lines[..n]) < k
      ensures EncodedWrite(opt, spec, TrimSpace(lines[n])).Ok?
      ensures after.dispatched[|start.dispatched| + Writes(lines[..n])] == RequestFor(opt, spec, TrimSpace(lines[n]))
    {
      LineIsLiteral(lines, n);
      var at := Writes(lines[..n]);
      assert lits[..k][at] == TrimSpace(lines[n]);
      assert after.dispatched[|start.dispatched| + at] == reqs[at];
    }
  }

  lemma CountOfLines(lines: seq<string>)
    ensures |Literals(lines)| == Writes(lines)
  {
    if lines == [] {
      NoLines(lines);
    } else {
      LineIsLiteral(lines, 0);
    }
  }

  // ---- Agreement with the dry run ----

  /** The request a printed plan describes: its address re-read literally, its values as they are. */
  function PlanRequest(plan: WritePlan): Option<Request>
  {
    match ParseSpec(plan.address, true)
    case Err(_) => None
    case Ok(sp) => Some(WriteRequest(Payload(sp, plan.coils, plan.regs)))
  }

  lemma ParsedCountFits(s: string, raw: bool)
    ensures ParseSpec(s, raw).Ok? ==> ParseSpec(s, raw).value.count <= MAX_INT
  {
    hide Split, ParseTable, TrimSpace, DigitsValue;
  }

  lemma PlanDescribesRequest(opt: Options, spec: string, literal: string)
    requires EncodedWrite(opt, spec, literal).Ok?
    ensures Plan(opt, spec, literal).Ok?
    ensures PlanRequest(Plan(opt, spec, literal).value) == Some(RequestFor(opt, spec, literal))
  {
    hide ParseSpec, BoolList, RegisterList, WriteRequest;
    ParsedCountFits(spec, opt.rawAddress);
    RawRoundTrip(ParseSpec(spec, opt.rawAddress).value);
  }

  /** The dry run succeeds exactly when every literal encodes, and then reports one plan each. */
  lemma {:induction false} DryRunReportsAll(opt: Options, spec: string, lits: seq<string>, printed: nat -> bool, i: nat)
    requires forall n :: printed(n)
    ensures var (ok, plans) := DryRunFrom(opt, spec, lits, printed, i);
            && (ok <==> AllEncode(opt, spec, lits))
            && (ok ==> |plans| == |lits| && forall k | 0 <= k < |lits| ::
                  PlanRequest(plans[k]) == Some(RequestFor(opt, spec, lits[k])))
    decreases |lits|
  {
    hide EncodedWrite, PlanRequest, RequestFor;
    if lits != [] {
      DryRunReportsAll(opt, spec, lits[1..], printed, i + 1);
      if EncodedWrite(opt, spec, lits[0]).Ok? {
        PlanDescribesRequest(opt, spec, lits[0]);
      }
      assert AllEncode(opt, spec, lits) <==> EncodedWrite(opt, spec, lits[0]).Ok? && AllEncode(opt, spec, lits[1..]);
    }
  }

  /** If the stream succeeds, so does its dry run, and what the plans describe is exactly what was
      dispatched, in order; the device ends as the plans applied one after another leave it. */
  lemma DryRunAgreesWithStream(opt: Options, spec: string, lines: seq<string>, env: Setting, start: World, printed: nat -> bool)
    requires start.Ready() && forall n :: printed(n)
    requires StreamFrom(opt, spec, Literals(lines), env, 0, start).0 == ExitOK
    ensures var after := StreamFrom(opt, spec, Literals(lines), env, 0, start).1;
            var (code, plans) := DryRun(opt, spec, lines, printed, env.scanFails);
            && code == ExitOK && |plans| == |Literals(lines)|
            && |after.dispatched| == |start.dispatched| + |plans|
            && (forall k | 0 <= k < |plans| :: PlanRequest(plans[k]) == Some(after.dispatched[|start.dispatched| + k]))
            && after.tables == ApplyAll(start.tables, after.dispatched[|start.dispatched|..])
  {
    hide EncodedWrite, PlanRequest, RequestFor, StreamFrom, Carried, ApplyAll;
    var lits := Literals(lines);
    var k := StreamDispatchesPrefix(opt, spec, lits, env, 0, start);
    assert lits[..k] == lits;
    DryRunReportsAll(opt, spec, lits, printed, 0);
    var after := StreamFrom(opt, spec, lits, env, 0, start).1;
    assert after.dispatched[|start.dispatched|..] == RequestsOf(opt, spec, lits);
  }

  /** Over the lines: each write of a successful stream has its plan, at its place among the writes. */
  lemma LinesPlannedInOrder(opt: Options, spec: string, lines: seq<string>, env: Setting, start: World, printed: nat -> bool)
    requires start.Ready() && forall n :: printed(n)
    requires StreamFrom(opt, spec, Literals(lines), env, 0, start).0 == ExitOK
    ensures var (code, plans) := DryRun(opt, spec, lines, printed, env.scanFails);
            && code == ExitOK && |plans| == Writes(lines)
            && forall n | 0 <= n < |lines| && IsWrite(lines[n]) ::
                 && Writes(lines[..n]) < |plans| && EncodedWrite(opt, spec, TrimSpace(lines[n])).Ok?
                 && PlanRequest(plans[Writes(lines[..n])]) == Some(RequestFor(opt, spec, TrimSpace(lines[n])))
  {
    hide EncodedWrite, StreamFrom, RequestFor, Literals, TrimSpace, PlanRequest, IsWrite, DryRun, ApplyAll;
    DryRunAgreesWithStream(opt, spec, lines, env, start, printed);
    var k := LinesDispatchedInOrder(opt, spec, lines, env, start);
    CountOfLines(lines);
    forall n | 0 <= n < |lines| && IsWrite(lines[n]) ensures Writes(lines[..n]) < Writes(lines) {
      LineIsLiteral(lines, n);
    }
  }

  /** The dry run goes on after a bad line: its plans are those of the literals that have one and can be
      printed, in order, and it succeeds exactly when that is all of them. */
  lemma {:induction false} DryRunGoesOn(opt: Options, spec: string, lits: seq<string>, lit: string, printed: nat -> bool, i: nat)
    ensures var (ok, plans) := DryRunFrom(opt, spec, lits, printed, i);
            var plan := Plan(opt, spec, lit);
            DryRunFrom(opt, spec, lits + [lit], printed, i) ==
            if plan.Ok? && printed(i + |lits|) then (ok, plans + [plan.value]) else (false, plans)
    decreases |lits|
  {
    hide Plan;
    var all := lits + [lit];
    if lits == [] {
      assert all[1..] == [] && all[0] == lit;
      assert DryRunFrom(opt, spec, [], printed, i + 1) == (true, []);
      var plan := Plan(opt, spec, lit);
      if plan.Ok? {
        assert [plan.value] + [] == [] + [plan.value];
      }
    } else {
      assert all[1..] == lits[1..] + [lit];
      DryRunGoesOn(opt, spec, lits[1..], lit, printed, i + 1);
      var more := DryRunFrom(opt, spec, lits[1..], printed, i + 1).1;
      var first, last := Plan(opt, spec, lits[0]), Plan(opt, spec, lit);
      if first.Ok? && last.Ok? {
        assert [first.value] + (more + [last.value]) == [first.value] + more + [last.value];
      }
    }
  }

  lemma {:induction false} DryRunOkExactly(opt: Options, spec: string, lits: seq<string>, printed: nat -> bool, i: nat)
    ensures DryRunFrom(opt, spec, lits, printed, i).0 <==>
            (forall k | 0 <= k < |lits| :: Plan(opt, spec, lits[k]).Ok?) && forall n | i <= n < i + |lits| :: printed(n)
    decreases |lits|
  {
    hide Plan;
    if lits != [] {
      DryRunOkExactly(opt, spec, lits[1..], printed, i + 1);
      assert forall k | 0 < k < |lits| :: lits[k] == lits[1..][k - 1];
      assert forall k | 0 <= k < |lits| - 1 :: lits[1..][k] == lits[k + 1];
    }
  }

  /** The dry run's exit code: an input that could not be read to its end comes first, then any line without
      a plan or with one that could not be printed. */
  lemma DryRunExit(opt: Options, spec: string, lines: seq<string>, printed: nat -> bool, scanFails: bool)
    ensures var code := DryRun(opt, spec, lines, printed, scanFails).0;
            var lits := Literals(lines);
            code == if scanFails then ExitIO
                    else if (forall k | 0 <= k < |lits| :: Plan(opt, spec, lits[k]).Ok?) && forall n | 0 <= n < |lits| :: printed(n)
                    then ExitOK else ExitUsage
  {
    hide Plan, Literals;
    DryRunOkExactly(opt, spec, Literals(lines), printed, 0);
  }

  /** A plan says where, what and as which type. */
  lemma PlanSays(opt: Options, spec: string, literal: string)
    ensures Plan(opt, spec, literal).Ok? <==> EncodedWrite(opt, spec, literal).Ok?
    ensures Plan(opt, spec, literal).Ok? ==>
              var p, plan := EncodedWrite(opt, spec, literal).value, Plan(opt, spec, literal).value;
              && plan.driver == "modbus" && plan.literal == literal && plan.address == p.spec.Print()
              && plan.coils == p.coils && plan.regs == p.regs
              && plan.typeName == if p.spec.table == Coil then "" else
                                  match opt.dataType
                                  case Uint16 => "uint16"
                                  case Int16 => "int16"
                                  case Uint32 => "uint32"
                                  case Int32 => "int32"
                                  case Float32 => "float32"
  {
    hide EncodedWrite;
  }

  lemma {:induction false} DeliveredStreamSucceeds(opt: Options, spec: string, lits: seq<string>, env: Setting, i: nat, world: World)
    requires world.Ready() && !env.scanFails && (forall n :: env.journey(n) == Delivered) && forall n :: env.printed(n)
    requires forall j | 0 <= j < |lits| :: Carried(opt, spec, lits[j])
    ensures StreamFrom(opt, spec, lits, env, i, world).0 == ExitOK
    decreases |lits|
  {
    hide WriteOnce, Carried, RequestFor, EncodedWrite;
    if lits != [] {
      WriteInWorld(opt, world, spec, lits[0], env.journey(i));
      DeliveredStreamSucceeds(opt, spec, lits[1..], env, i + 1, WriteOnce(opt, world, spec, lits[0], env.journey(i)).0);
    }
  }

  /** The converse needs more than a good dry run. When nothing goes wrong on the way, the stream
      succeeds if and only if its dry run does and every planned request is within the size limit
      of its function and the end of its table, neither of which the dry run looks at. */
  lemma StreamSucceedsExactly(opt: Options, spec: string, lines: seq<string>, env: Setting, start: World)
    requires start.Ready() && !env.scanFails && (forall n :: env.journey(n) == Delivered) && forall n :: env.printed(n)
    ensures StreamFrom(opt, spec, Literals(lines), env, 0, start).0 == ExitOK <==>
            && DryRun(opt, spec, lines, env.printed, false).0 == ExitOK
            && forall k | 0 <= k < |Literals(lines)| ::
                 && EncodedWrite(opt, spec, Literals(lines)[k]).Ok?
                 && RequestFor(opt, spec, Literals(lines)[k]).Legal()
                 && RequestFor(opt, spec, Literals(lines)[k]).Fits()
  {
    hide EncodedWrite, StreamFrom, WriteRequest;
    var lits := Literals(lines);
    DryRunReportsAll(opt, spec, lits, env.printed, 0);
    if StreamFrom(opt, spec, lits, env, 0, start).0 == ExitOK {
      var k := StreamDispatchesPrefix(opt, spec, lits, env, 0, start);
    }
    if forall k | 0 <= k < |lits| :: Carried(opt, spec, lits[k]) {
      DeliveredStreamSucceeds(opt, spec, lits, env, 0, start);
    }
  }

  // ---- Dry runs that pass for streams that fail ----

  lemma {:induction false} JoinedEnds(vs: seq<nat>)
    requires vs != []
    ensures Joined(vs) != [] && IsDigit(Joined(vs)[0]) && IsDigit(Joined(vs)[|Joined(vs)| - 1])
  {
    hide Decimal;
    if |vs| > 1 {
      JoinedEnds(vs[1..]);
    }
  }

  lemma JoinedIsLiteral(vs: seq<nat>)
    requires vs != []
    ensures Literals([Joined(vs)]) == [Joined(vs)]
  {
    hide Joined;
    JoinedEnds(vs);
    NothingToTrim(Joined(vs));
    assert [Joined(vs)][1..] == [];
  }

  lemma PrintedRequest(opt: Options, vs: seq<nat>, address: uint16, size: nat)
    requires opt.rawAddress && (opt.dataType.Uint16? || opt.dataType.Uint32?) && ReadsDecimals(opt.numerals)
    requires vs != [] && forall v | v in vs :: opt.dataType.Holds(v)
    requires size == |vs| * opt.dataType.RegisterCount()
    ensures var spec := Spec(HoldingRegister, address, 0).Print();
            && EncodedWrite(opt, spec, Joined(vs)).Ok?
            && var req := RequestFor(opt, spec, Joined(vs));
               req.Legal() && req.Fits() <==> size <= MAX_WRITE_REGISTERS && address + size <= TABLE_SIZE
  {
    hide Split, ParseSpec, Spec.Print, Joined, Denotes, EncodedWrite, Blocks;
    RawRoundTrip(Spec(HoldingRegister, address, 0));
    JoinedDenotes(opt, vs);
    EncodedBlocks(opt, Spec(HoldingRegister, address, 0).Print(), Joined(vs), vs, Spec(HoldingRegister, address, 0));
    BlocksLength(opt, vs);
  }

  /** One line holding any list of unsigned values, at any raw address, all printed. The dry run accepts
      it; the stream succeeds, with nothing going wrong on the way, exactly when the list is within
      the size limit of one write and the end of the table. */
  lemma PrintedLineExactly(opt: Options, vs: seq<nat>, address: uint16, size: nat, env: Setting, start: World)
    requires opt.rawAddress && (opt.dataType.Uint16? || opt.dataType.Uint32?) && ReadsDecimals(opt.numerals)
    requires vs != [] && forall v | v in vs :: opt.dataType.Holds(v)
    requires size == |vs| * opt.dataType.RegisterCount()
    requires start.Ready() && !env.scanFails && (forall n :: env.journey(n) == Delivered) && forall n :: env.printed(n)
    ensures var spec := Spec(HoldingRegister, address, 0).Print();
            && DryRun(opt, spec, [Joined(vs)], env.printed, false).0 == ExitOK
            && (StreamFrom(opt, spec, Literals([Joined(vs)]), env, 0, start).0 == ExitOK
                <==> size <= MAX_WRITE_REGISTERS && address + size <= TABLE_SIZE)
  {
    hide StreamFrom, EncodedWrite, RequestFor, Joined, Literals, Spec.Print, ReadsDecimals;
    var spec := Spec(HoldingRegister, address, 0).Print();
    PrintedRequest(opt, vs, address, size);
    JoinedIsLiteral(vs);
    DryRunReportsAll(opt, spec, [Joined(vs)], env.printed, 0);
    StreamSucceedsExactly(opt, spec, [Joined(vs)], env, start);
  }

  /** The smallest such failure: "1,2" at the last holding register. */
  lemma DryRunMissesTableEnd(opt: Options, env: Setting, start: World)
    requires opt.rawAddress && opt.dataType.Uint16? && ReadsDecimals(opt.numerals)
    requires start.Ready() && !env.scanFails && (forall n :: env.journey(n) == Delivered) && forall n :: env.printed(n)
    ensures DryRun(opt, "holding:65535", ["1,2"], env.printed, false).0 == ExitOK
    ensures StreamFrom(opt, "holding:65535", Literals(["1,2"]), env, 0, start).0 != ExitOK
  {
    hide StreamFrom, Literals, ReadsDecimals, DryRun;
    PrintedLineExactly(opt, [1, 2], 65535, 2, env, start);
    OneTwo();
    LastHolding();
  }

  lemma OneTwo()
    ensures Joined([1, 2]) == "1,2"
  {
    assert [1, 2][1..] == [2];
    assert Decimal(1) == "1" && Decimal(2) == "2";
  }

  lemma LastHolding()
    ensures Spec(HoldingRegister, 65535, 0).Print() == "holding:65535"
  {
    assert Decimal(6) == "6";
    assert Decimal(65) == "65";
    assert Decimal(655) == "655";
    assert Decimal(6553) == "6553";
    assert Decimal(65535) == "65535";
  }
}
