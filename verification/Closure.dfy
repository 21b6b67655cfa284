/** What the server's replies look like, whatever bytes a client sends. */
module Closure {
  import opened Wrappers
  import opened Bytes
  import opened Device
  import opened Pdu
  import opened Dispatch
  import opened Network
  import opened Mbap
  import opened Server

  /** The connection seen as frames: replies in order until a fate other than Answer, and what got
      out of a reply whose write failed. */
  function ServeFrames(t: Tables, frames: seq<Frame>, fates: nat -> Fate, i: nat): (r: (Tables, seq<Frame>, seq<byte>))
    requires t.Valid()
    decreases |frames|
  {
    if frames == [] || fates(i) == Drop then (t, [], []) else
    var (after, resp) := Reply(t, frames[0].pdu);
    var reply := ReplyFrame(frames[0].header, resp);
    if fates(i).WriteFails? then (after, [], Part(reply.Bytes(), fates(i).cut)) else
    var (final, more, cut) := ServeFrames(after, frames[1..], fates, i + 1);
    (final, [reply] + more, cut)
  }

  lemma {:induction false} ServeIsFrameByFrame(t: Tables, stream: seq<byte>, fates: nat -> Fate, i: nat)
    requires t.Valid()
    ensures var (after, replies, cut) := ServeFrames(t, Frames(stream), fates, i);
            Serve(t, stream, fates, i) == (after, Stream(replies) + cut)
    decreases |stream|
  {
    hide Reply, Part, HeaderBytes, NextFrame, ReplyFrame, Frame.Bytes, Stream;
    var (_, replies, tail) := ServeFrames(t, Frames(stream), fates, i);
    NoReplies(tail);
    if NextFrame(stream).Some? && fates(i) == Answer {
      var f := NextFrame(stream).value;
      var rest := stream[|f.Bytes()|..];
      var (after, resp) := Reply(t, f.pdu);
      ServeIsFrameByFrame(after, rest, fates, i + 1);
      assert Frames(stream)[1..] == Frames(rest);
      OneMoreReply(ReplyFrame(f.header, resp), ServeFrames(after, Frames(rest), fates, i + 1).1, tail);
    }
  }

  lemma NoReplies(tail: seq<byte>)
    ensures Stream([]) + tail == tail
  {
  }

  lemma OneMoreReply(reply: Frame, more: seq<Frame>, tail: seq<byte>)
    ensures Stream([reply] + more) + tail == reply.Bytes() + (Stream(more) + tail)
  {
    hide HeaderBytes;
    assert ([reply] + more)[1..] == more;
  }

  /** A reply belongs to its request and is a frame this client accepts. */
  ghost predicate Belongs(reply: Frame, request: Frame)
  {
    && reply.WellFormed() && |reply.pdu| <= 252 && |request.pdu| > 0
    && reply.header.transactionId == request.header.transactionId
    && reply.header.unitId == request.header.unitId
    && DecodeMBAP(reply.Bytes()) == Ok(reply.header)
    && (reply.pdu[0] == request.pdu[0] || reply.pdu[0] == WithBit(request.pdu[0], EXCEPTION_BIT))
  }

  /** A proper part of a reply that belongs to the request. */
  ghost predicate PartBelongs(part: seq<byte>, request: Frame)
  {
    exists reply: Frame :: Belongs(reply, request) && part < reply.Bytes()
  }

  lemma ReplyBelongs(t: Tables, f: Frame)
    requires t.Valid() && f.WellFormed()
    ensures Belongs(ReplyFrame(f.header, Reply(t, f.pdu).1), f)
  {
    hide Reply;
    AllOrNothing(t, f.pdu);
    var reply := ReplyFrame(f.header, Reply(t, f.pdu).1);
    HeaderRoundTrip(reply.header, reply.pdu);
  }

  /** One reply a request, in order, and every one of them got out. */
  ghost predicate InOrder(replies: seq<Frame>, requests: seq<Frame>, fates: nat -> Fate, i: nat)
  {
    && |replies| <= |requests|
    && forall k | 0 <= k < |replies| :: Belongs(replies[k], requests[k]) && fates(i + k) == Answer
  }

  lemma OneMoreInOrder(reply: Frame, more: seq<Frame>, requests: seq<Frame>, fates: nat -> Fate, i: nat)
    requires requests != [] && Belongs(reply, requests[0]) && fates(i) == Answer
    requires InOrder(more, requests[1..], fates, i + 1)
    ensures InOrder([reply] + more, requests, fates, i)
  {
    hide Belongs;
    var replies := [reply] + more;
    forall k | 0 <= k < |replies| ensures Belongs(replies[k], requests[k]) && fates(i + k) == Answer {
      if k > 0 {
        assert replies[k] == more[k - 1] && requests[k] == requests[1..][k - 1] && fates(i + 1 + (k - 1)) == Answer;
      }
    }
  }

  lemma {:induction false} RepliesInOrder(t: Tables, frames: seq<Frame>, fates: nat -> Fate, i: nat)
    requires t.Valid() && forall f | f in frames :: f.WellFormed()
    ensures var (_, replies, cut) := ServeFrames(t, frames, fates, i);
            && InOrder(replies, frames, fates, i)
            && (|replies| < |frames| ==> fates(i + |replies|) != Answer)
            && (cut == [] || (|replies| < |frames| && fates(i + |replies|).WriteFails? && PartBelongs(cut, frames[|replies|])))
    decreases |frames|
  {
    hide Reply, Belongs, HeaderBytes, PartBelongs, Part, ReplyFrame, Frame.Bytes;
    if frames != [] && fates(i) != Drop {
      var (after, resp) := Reply(t, frames[0].pdu);
      ReplyBelongs(t, frames[0]);
      if fates(i) == Answer {
        RepliesInOrder(after, frames[1..], fates, i + 1);
        OneMoreInOrder(ReplyFrame(frames[0].header, resp), ServeFrames(after, frames[1..], fates, i + 1).1, frames, fates, i);
      } else {
        PartOfReply(ReplyFrame(frames[0].header, resp), frames[0], fates(i).cut);
      }
    }
  }

  lemma PartOfReply(reply: Frame, request: Frame, cut: nat)
    requires Belongs(reply, request)
    ensures PartBelongs(Part(reply.Bytes(), cut), request)
  {
    hide Part, HeaderBytes;
  }

  /** For every byte stream: the bytes sent back are exactly one acceptable reply frame for each
      well-framed request, in order, up to the first one that is dropped or fails to go out; at most
      a part of that last one follows. */
  lemma ServerClosure(t: Tables, stream: seq<byte>, fates: nat -> Fate)
    requires t.Valid()
    ensures var out := Serve(t, stream, fates, 0).1;
            var replies, requests := Frames(out), Frames(stream);
            && InOrder(replies, requests, fates, 0)
            && (|replies| < |requests| ==> fates(|replies|) != Answer)
            && (Unread(out) == []
                || (|replies| < |requests| && fates(|replies|).WriteFails? && PartBelongs(Unread(out), requests[|replies|])))
  {
    hide Belongs, PartBelongs, Reply, Hi, Lo, U16At, HeaderBytes, Frames, Unread, Stream, NextFrame, Serve, ServeFrames;
    var (_, replies, cut) := ServeFrames(t, Frames(stream), fates, 0);
    ServeIsFrameByFrame(t, stream, fates, 0);
    FramesCoverStream(stream);
    RepliesInOrder(t, Frames(stream), fates, 0);
    RepliesWellFormed(replies, Frames(stream), fates);
    NothingIsNoFrame();
    if cut != [] {
      PartIsNotWhole(cut, Frames(stream)[|replies|]);
    }
    FramingIsSelfDelimiting(replies, cut);
  }

  lemma PartIsNotWhole(part: seq<byte>, request: Frame)
    requires PartBelongs(part, request)
    ensures NextFrame(part).None?
  {
    var reply: Frame :| Belongs(reply, request) && part < reply.Bytes();
    PartIsNoFrame(reply, part);
  }

  lemma RepliesWellFormed(replies: seq<Frame>, requests: seq<Frame>, fates: nat -> Fate)
    requires InOrder(replies, requests, fates, 0)
    ensures forall f | f in replies :: f.WellFormed()
  {
  }
}
