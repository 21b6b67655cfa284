/** Matching replies to requests over whole sessions of one client: what the transaction id
    protects against, what it does not, and the exact condition under which it works. */
module ReplyMatching {
  import opened Wrappers
  import opened Bytes
  import opened Device
  import opened Pdu
  import opened Dispatch
  import opened Mbap
  import opened Server
  import opened Client
  import opened EndToEnd

  /** A reply frame as a conforming server sends it. */
  function ReplyWith(id: uint16, unitId: byte, pdu: seq<byte>): Frame
    requires 1 <= |pdu| <= MAX_PDU
  {
    Frame(Header(id, PROTOCOL_ID, |pdu| + 1, unitId), pdu)
  }

  // ---- Sessions in which every reply arrives in time ----

  datatype Turn = Turn(request: seq<byte>, reply: seq<byte>)

  predicate WellSized(turns: seq<Turn>)
  {
    forall t | t in turns :: |t.request| > 0 && 1 <= |t.reply| <= MAX_PDU
  }

  /** Each call in order, the whole reply to it arriving before its deadline. */
  function Session(w: Wire, turns: seq<Turn>): (seq<Result<seq<byte>, DoError>>, Wire)
    requires WellSized(turns)
    decreases |turns|
  {
    if turns == [] then ([], w) else
    var reply := ReplyWith(NextId(w.txID), w.unitId, turns[0].reply);
    var (r, w') := Exchange(w, turns[0].request, Net(None, reply.Bytes()));
    var (rs, end) := Session(w', turns[1..]);
    ([r] + rs, end)
  }

  /** The id of the k-th call from here, the counter and the id both wrapping. */
  function IdAfter(txID: nat, k: nat): uint16 { (txID + k + 1) % 0x1_0000 }

  lemma LowHalf(x: nat)
    ensures x % UINT32 % 0x1_0000 == x % 0x1_0000
  {
    var r := x % UINT32;
    assert x == 0x1_0000 * (0x1_0000 * (x / UINT32) + r / 0x1_0000) + r % 0x1_0000;
    Remainder(x, 0x1_0000 * (x / UINT32) + r / 0x1_0000, r % 0x1_0000);
  }

  lemma Remainder(x: nat, q: nat, r: nat)
    requires x == 0x1_0000 * q + r && r < 0x1_0000
    ensures x % 0x1_0000 == r
  {
  }

  lemma CounterSteps(m: nat)
    ensures (m % UINT32 + 1) % UINT32 == (m + 1) % UINT32
  {
    if m % UINT32 + 1 == UINT32 {
      assert m + 1 == UINT32 * (m / UINT32 + 1);
    }
  }

  lemma IdSteps(txID: nat, k: nat)
    ensures NextId((txID + k) % UINT32) == IdAfter(txID, k)
  {
    CounterSteps(txID + k);
    LowHalf(txID + k + 1);
  }

  /** Every call of such a session, across any number of id wraps, starts with nothing unread and
      returns the reply to its own request. */
  lemma {:induction false} EveryReplyMatches(w: Wire, turns: seq<Turn>, n: nat, start: nat)
    requires WellSized(turns) && w.connected && w.inbox == [] && w.txID == (start + n) % UINT32
    ensures var (rs, end) := Session(w, turns);
            && |rs| == |turns| && end.connected && end.inbox == [] && end.txID == (start + n + |turns|) % UINT32
            && forall k | 0 <= k < |turns| ::
                 rs[k] == CheckResponse(turns[k].reply, IdAfter(start, n + k), w.unitId, turns[k].request[0])
    decreases |turns|
  {
    hide HeaderBytes, Receive, CheckResponse, RequestFrame, NextId, IdAfter;
    if turns != [] {
      var id := NextId(w.txID);
      IdSteps(start, n);
      var reply := ReplyWith(id, w.unitId, turns[0].reply);
      ReceiveWholeFrame(reply, [], id, w.unitId, turns[0].request[0]);
      assert w.inbox + reply.Bytes() == reply.Bytes() + [];
      var (r, w') := Exchange(w, turns[0].request, Net(None, reply.Bytes()));
      CounterSteps(start + n);
      EveryReplyMatches(w', turns[1..], n + 1, start);
      var rs := Session(w', turns[1..]).0;
      forall k | 0 <= k < |turns|
        ensures ([r] + rs)[k] == CheckResponse(turns[k].reply, IdAfter(start, n + k), w.unitId, turns[k].request[0])
      {
        if k > 0 {
          assert rs[k - 1] == CheckResponse(turns[1..][k - 1].reply, IdAfter(start, n + 1 + (k - 1)), w.unitId, turns[1..][k - 1].request[0]);
        }
      }
    }
  }

  // ---- Late replies ----

  /** Calls that all reach their deadline before any byte arrives. */
  function SilentCalls(w: Wire, requests: seq<seq<byte>>): Wire
    requires forall p | p in requests :: |p| > 0
    decreases |requests|
  {
    if requests == [] then w else SilentCalls(Exchange(w, requests[0], Net(None, [])).1, requests[1..])
  }

  /** The requests as written, each with its own id. */
  function Written(m: nat, unitId: byte, requests: seq<seq<byte>>): seq<byte>
    decreases |requests|
  {
    if requests == [] then [] else
    RequestFrame(NextId(m % UINT32), unitId, requests[0]) + Written(m + 1, unitId, requests[1..])
  }

  lemma {:induction false} SilentCallsOnlyCount(w: Wire, requests: seq<seq<byte>>, m: nat)
    requires forall p | p in requests :: |p| > 0
    requires w.connected && w.inbox == [] && w.txID == m % UINT32
    ensures var w' := SilentCalls(w, requests);
            w' == w.(txID := (m + |requests|) % UINT32, outbox := w.outbox + Written(m, w.unitId, requests))
    decreases |requests|
  {
    hide RequestFrame, CheckResponse, NextId;
    if requests == [] {
      assert w.outbox + [] == w.outbox;
    } else {
      CounterSteps(m);
      var w' := Exchange(w, requests[0], Net(None, [])).1;
      SilentCallsOnlyCount(w', requests[1..], m + 1);
      assert w'.outbox + Written(m + 1, w.unitId, requests[1..]) == w.outbox + Written(m, w.unitId, requests);
    }
  }

  /** Calls time out one after another with nothing received; then the reply to the first of them
      arrives, whole, in front of anything else. The next call refuses it if and only if the number
      of calls since is not a multiple of 65536; if it is, the stale reply is taken for its own. */
  lemma LateReplyRefusedExactlyWithinWrap(w: Wire, requests: seq<seq<byte>>, stale: seq<byte>, next: seq<byte>, tail: seq<byte>)
    requires w.connected && w.inbox == [] && w.txID < UINT32
    requires requests != [] && (forall p | p in requests :: |p| > 0) && |next| > 0
    requires 1 <= |stale| <= MAX_PDU
    ensures var late := ReplyWith(NextId(w.txID), w.unitId, stale);
            var w' := SilentCalls(w, requests);
            var (r, w'') := Exchange(w', next, Net(None, late.Bytes() + tail));
            if |requests| % 0x1_0000 != 0
            then r == Err(Mismatch(NextId(w'.txID), NextId(w.txID))) && w''.inbox == stale + tail
            else r == CheckResponse(stale, NextId(w'.txID), w.unitId, next[0]) && w''.inbox == tail
  {
    hide HeaderBytes, Receive, CheckResponse, RequestFrame, NextId, SilentCalls, UINT32;
    SilentCallsOnlyCount(w, requests, w.txID);
    IdsCollide(w.txID, |requests|);
    var late := ReplyWith(NextId(w.txID), w.unitId, stale);
    var w' := SilentCalls(w, requests);
    assert w'.inbox + (late.Bytes() + tail) == late.Bytes() + tail;
    ReceiveWholeFrame(late, tail, NextId(w'.txID), w.unitId, next[0]);
  }

  lemma IdsCollide(txID: nat, d: nat)
    requires txID < UINT32
    ensures txID % UINT32 == txID
    ensures NextId(txID) == NextId((txID + d) % UINT32) <==> d % 0x1_0000 == 0
  {
    hide NextId;
    IdSteps(txID, 0);
    IdSteps(txID, d);
    var a := txID + 1;
    var c := a % 0x1_0000 + d % 0x1_0000;
    assert txID + d + 1 == c + 0x1_0000 * (a / 0x1_0000 + d / 0x1_0000);
    if c < 0x1_0000 {
      Remainder(txID + d + 1, a / 0x1_0000 + d / 0x1_0000, c);
    } else {
      Remainder(txID + d + 1, a / 0x1_0000 + d / 0x1_0000 + 1, c - 0x1_0000);
    }
  }

  // ---- The exact condition on the bytes ----

  /** With these bytes in front of the reply to request `id`, unread or still on the way, the client
      returns that reply, whatever it is, and ends with nothing unread. */
  ghost predicate ReadsOwnReply(ahead: seq<byte>, id: uint16)
  {
    forall unitId: byte, want: byte, pdu: seq<byte> | 1 <= |pdu| <= MAX_PDU ::
      Receive(ahead + ReplyWith(id, unitId, pdu).Bytes(), id, unitId, want) == (CheckResponse(pdu, id, unitId, want), [])
  }

  lemma OkAccountsForEveryByte(inbox: seq<byte>, id: uint16, unitId: byte, want: byte)
    ensures var (r, rest) := Receive(inbox, id, unitId, want);
            r.Ok? ==> |inbox| == MBAP_LEN + |r.value| + |rest|
  {
    hide Hi, Lo, U16At, AsException;
  }

  lemma NothingAhead(id: uint16, unitId: byte, want: byte, pdu: seq<byte>)
    requires 1 <= |pdu| <= MAX_PDU
    ensures Receive(ReplyWith(id, unitId, pdu).Bytes(), id, unitId, want) == (CheckResponse(pdu, id, unitId, want), [])
  {
    hide HeaderBytes, CheckResponse, Receive;
    var f := ReplyWith(id, unitId, pdu);
    assert f.Bytes() == f.Bytes() + [];
    ReceiveWholeFrame(f, [], id, unitId, want);
  }

  /** A reply that is not an exception is returned, with nothing left over, exactly when nothing
      stands in front of it. */
  lemma OwnReplyExactlyWhenNothingAhead(ahead: seq<byte>, id: uint16, unitId: byte, pdu: seq<byte>)
    requires 1 <= |pdu| <= MAX_PDU && AsException(pdu).None?
    ensures Receive(ahead + ReplyWith(id, unitId, pdu).Bytes(), id, unitId, pdu[0]) == (Ok(pdu), []) <==> ahead == []
  {
    hide HeaderBytes, Receive;
    var own := ReplyWith(id, unitId, pdu).Bytes();
    OkAccountsForEveryByte(ahead + own, id, unitId, pdu[0]);
    NothingAhead(id, unitId, pdu[0], pdu);
    assert [] + own == own;
  }

  /** For every id there is: any byte in front, unread or in flight, spoils some reply. */
  lemma ReadsOwnReplyExactlyWhenNothingAhead(ahead: seq<byte>, id: uint16)
    ensures ReadsOwnReply(ahead, id) <==> ahead == []
  {
    hide HeaderBytes, CheckResponse, Receive;
    if ahead == [] {
      forall unitId: byte, want: byte, pdu: seq<byte> | 1 <= |pdu| <= MAX_PDU
        ensures Receive(ahead + ReplyWith(id, unitId, pdu).Bytes(), id, unitId, want) == (CheckResponse(pdu, id, unitId, want), [])
      {
        assert ahead + ReplyWith(id, unitId, pdu).Bytes() == ReplyWith(id, unitId, pdu).Bytes();
        NothingAhead(id, unitId, want, pdu);
      }
    } else {
      OwnReplyExactlyWhenNothingAhead(ahead, id, 1, [FC_READ_HOLDING]);
      PlainReply(id);
    }
  }

  lemma PlainReply(id: uint16)
    ensures AsException([FC_READ_HOLDING]).None?
    ensures CheckResponse([FC_READ_HOLDING], id, 1, FC_READ_HOLDING) == Ok([FC_READ_HOLDING])
  {
  }

  // ---- What goes wrong otherwise ----

  /** Five registers whose bytes look like a reply to transaction 0x030A. */
  const FORGED: seq<uint16> := [0x0000, 0x0005, 0x0103, 0x02AA, 0xBB00]

  lemma ForgedBytes()
    ensures RegisterBytes(FORGED) == [0x00, 0x00, 0x00, 0x05, 0x01, 0x03, 0x02, 0xAA, 0xBB, 0x00]
  {
    var b := RegisterBytes(FORGED);
    assert b[0] == 0 && b[1] == 0 && b[2] == 0 && b[3] == 5 && b[4] == 1 && b[5] == 3;
    assert b[6] == 2 && b[7] == 0xAA && b[8] == 0xBB && b[9] == 0;
  }

  /** The PDU of the reply that carries the five registers. */
  const STALE_PDU: seq<byte> := [3, 10, 0x00, 0x00, 0x00, 0x05, 0x01, 0x03, 0x02, 0xAA, 0xBB, 0x00]

  lemma ReplyToFirstRead(t: Tables)
    requires t.Valid() && t.holding[0..5] == FORGED
    ensures |STALE_PDU| == 12
    ensures Serve(t, RequestFrame(776, 1, RequestPdu(ReadHoldingRegisters(0, 5))), AllAnswered(), 0)
            == (t, ReplyWith(776, 1, STALE_PDU).Bytes())
  {
    hide Serve, HeaderBytes, RequestFrame, RegisterBytes, RequestPdu;
    var first := ReadHoldingRegisters(0, 5);
    assert Apply(t, first) == (t, Registers(FORGED));
    ServeOneRequest(t, first, 776, 1);
    ForgedBytes();
    assert AnswerPdu(first, Registers(FORGED)) == STALE_PDU;
  }

  lemma StalePduReadsAsFrame()
    ensures STALE_PDU == Frame(Header(778, PROTOCOL_ID, 5, 1), [0x03, 0x02, 0xAA, 0xBB]).Bytes() + [0x00]
  {
    assert WordBytes(778) == [3, 10];
    assert WordBytes(0) == [0, 0];
    assert WordBytes(5) == [0, 5];
  }

  lemma ForgedResponse(id: uint16)
    ensures Conclude(ReadHoldingRegisters(100, 1), CheckResponse([0x03, 0x02, 0xAA, 0xBB], id, 1, FC_READ_HOLDING))
            == Ok(Registers([0xAABB]))
  {
    var pdu: seq<byte> := [0x03, 0x02, 0xAA, 0xBB];
    SmallCodesAreClear(3);
    assert pdu[2..] == [0xAA, 0xBB];
    assert RegistersOf(pdu[2..], 1) == [0xAABB];
  }

  /** A concrete failure of the code. Call 776 reads the five registers and times out; its reply
      comes in during call 777, which reports the mismatch but leaves the reply's PDU unread; call
      778 takes that PDU for a header and a reply, and returns 0xAABB as register 100, whatever
      the device holds there. */
  lemma StaleBytesForgeASuccess(t: Tables)
    requires t.Valid() && t.holding[0..5] == FORGED
    ensures var w := Wire(true, 775, 1, [], []);
            var first, second := ReadHoldingRegisters(0, 5), ReadHoldingRegisters(100, 1);
            var (r1, w1) := Call(w, first, Net(None, []));
            var (t1, late) := Serve(t, RequestFrame(776, 1, RequestPdu(first)), AllAnswered(), 0);
            var (r2, w2) := Call(w1, second, Net(None, late));
            var (r3, w3) := Call(w2, second, Net(None, []));
            && t1 == t
            && r1 == Err(Transport(NoHeader))
            && r2 == Err(Transport(Mismatch(777, 776)))
            && r3 == Ok(Registers([0xAABB]))
  {
    hide Serve, HeaderBytes, RequestFrame, Receive, Conclude, CheckResponse, RequestPdu, STALE_PDU;
    var first, second := ReadHoldingRegisters(0, 5), ReadHoldingRegisters(100, 1);
    ReplyToFirstRead(t);
    var late := ReplyWith(776, 1, STALE_PDU);
    IdSteps(775, 0);
    IdSteps(775, 1);
    IdSteps(775, 2);
    RequestCode(first);
    RequestCode(second);
    var none: seq<byte> := [];
    assert none + none == none;
    SilentExchange(first, 776);
    SilentExchange(second, 777);
    assert late.Bytes() + [] == [] + late.Bytes();
    ReceiveWholeFrame(late, [], 777, 1, FC_READ_HOLDING);
    ConcludeError(second, Mismatch(777, 776));
    assert STALE_PDU + [] == STALE_PDU;
    StalePduReadsAsFrame();
    ReceiveWholeFrame(Frame(Header(778, PROTOCOL_ID, 5, 1), [0x03, 0x02, 0xAA, 0xBB]), [0x00], 778, 1, FC_READ_HOLDING);
    ForgedResponse(778);
  }

  lemma ConcludeError(req: Request, e: DoError)
    requires req.Legal()
    ensures Conclude(req, Err(e)) == Err(Transport(e))
  {
  }

  lemma SilentExchange(req: Request, id: uint16)
    requires req.Legal()
    ensures Receive([], id, 1, FC_READ_HOLDING) == (Err(NoHeader), [])
    ensures Conclude(req, Err(NoHeader)) == Err(Transport(NoHeader))
  {
  }
}
