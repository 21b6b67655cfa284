/** One end of a TCP connection: the bytes that have arrived and not been read, and the bytes
    written so far. Sockets, deadlines and keep-alive are represented only by their effect. */
module Network {
  import opened Wrappers
  import opened Bytes

  class Conn {
    var inbox: seq<byte>
    var outbox: seq<byte>

    constructor ()
      ensures inbox == [] && outbox == []
    {
      inbox, outbox := [], [];
    }

    /** io.ReadFull: n bytes, or an error after consuming whatever there was. */
    method ReadFull(n: nat) returns (r: Option<seq<byte>>)
      modifies this`inbox
      ensures r == TakeFull(old(inbox), n).0 && inbox == TakeFull(old(inbox), n).1
    {
      if |inbox| < n {
        inbox := [];
        return None;
      }
      r := Some(inbox[..n]);
      inbox := inbox[n..];
    }

    /** `cut` is None when the write succeeds, and otherwise picks how much of it got out. */
    method Write(bytes: seq<byte>, cut: Option<nat>) returns (ok: bool)
      requires bytes != []
      modifies this`outbox
      ensures ok == cut.None?
      ensures outbox == old(outbox) + if ok then bytes else Part(bytes, cut.value)
    {
      outbox := outbox + if cut.None? then bytes else Part(bytes, cut.value);
      ok := cut.None?;
    }
  }

  /** A proper part of some bytes, from the front: any length may be picked. */
  function Part(bytes: seq<byte>, cut: nat): (part: seq<byte>)
    requires bytes != []
    ensures part < bytes
  {
    bytes[..cut % |bytes|]
  }

  function TakeFull(inbox: seq<byte>, n: nat): (Option<seq<byte>>, seq<byte>)
  {
    if |inbox| < n then (None, []) else (Some(inbox[..n]), inbox[n..])
  }
}
