/** The two ends of a QUIC stream as the HTTP/3 layer sees them. The network in between is the
    environment: it decides when bytes arrive and how much may be sent.
 */
module Transport {
  import opened Bits

  /** The receiving end: bytes that have arrived in order and were not read, and whether the end of the
      stream has arrived behind them. */
  class RecvEnd {
    var avail: seq<byte>
    var finArrived: bool
    var finRead: bool
    ghost var consumed: seq<byte>

    ghost predicate Valid()
      reads this
    {
      finRead ==> finArrived && avail == []
    }

    /** There is nothing to read until more of the stream arrives. */
    predicate Dry()
      reads this
    {
      avail == [] && !finArrived
    }

    /** Exactly c has been read. */
    twostate predicate Read(c: seq<byte>)
      reads this
    {
      && Valid() && finArrived == old(finArrived)
      && old(avail) == c + avail && consumed == old(consumed) + c
    }

    constructor ()
      ensures Valid() && avail == [] && consumed == [] && !finArrived && !finRead
    {
      avail, finArrived, finRead, consumed := [], false, false, [];
    }

    /** The environment: more of the stream arrives. */
    method Arrive(data: seq<byte>, fin: bool)
      requires Valid() && !finArrived
      modifies this
      ensures Valid() && avail == old(avail) + data && finArrived == fin
      ensures consumed == old(consumed) && finRead == old(finRead)
    {
      avail := avail + data;
      finArrived := fin;
    }

    /** Read up to n bytes. The end of the stream comes with the last byte, or with an empty read after
        it, and is reported once; None stands for the `NoMoreData` error after that. */
    method Recv(n: nat) returns (r: Option<(seq<byte>, bool)>)
      requires Valid()
      modifies this
      ensures Valid() && finArrived == old(finArrived)
      ensures r.None? <==> old(finRead)
      ensures r.None? ==> avail == old(avail) && consumed == old(consumed) && finRead
      ensures r.Some? ==>
                && r.value.0 == old(avail)[..Min(n, |old(avail)|)]
                && avail == old(avail)[Min(n, |old(avail)|)..]
                && consumed == old(consumed) + r.value.0
                && r.value.1 == finRead == (finArrived && avail == [])
    {
      if finRead {
        return None;
      }
      var k := Min(n, |avail|);
      var data := avail[..k];
      avail := avail[k..];
      consumed := consumed + data;
      finRead := finArrived && avail == [];
      r := Some((data, finRead));
    }
  }

  datatype SendError = InvalidInput | FinalSize | InvalidStreamId

  datatype SendResult<+T> = Sent(value: T) | Refused(error: SendError)

  /** The sending end: how many bytes flow control and the send buffer let through now, and everything
      that was accepted. A stream that the transport has removed is gone for good. */
  class SendEnd {
    var avail: nat
    ghost var sent: seq<byte>
    var closed: bool
    var gone: bool
    ghost var fins: nat

    /** Sending only adds, and nothing after the end. */
    twostate predicate Extended()
      reads this
    {
      old(sent) <= sent && (old(closed) ==> closed && sent == old(sent)) && gone == old(gone)
    }

    /** The room for more bytes, if the stream exists. */
    function Space(): Option<nat>
      reads this
    {
      if gone then None else Some(avail)
    }

    constructor ()
      ensures avail == 0 && sent == [] && !closed && !gone && fins == 0
    {
      avail, sent, closed, gone, fins := 0, [], false, false, 0;
    }

    /** The environment: the available space changes. */
    method Allow(n: nat)
      modifies this`avail
      ensures avail == n
    {
      avail := n;
    }

    /** The environment: the stream is removed. */
    method Remove()
      modifies this`gone
      ensures gone
    {
      gone := true;
    }

    method Accept(data: seq<byte>, atomic: bool) returns (r: SendResult<nat>)
      modifies this
      ensures closed == old(closed) && gone == old(gone) && fins == old(fins)
      ensures r.Refused? <==> gone || data == [] || closed
      ensures r.Refused? ==> r.error == Refusal(data) && avail == old(avail) && sent == old(sent)
      ensures r.Sent? ==> r.value == if |data| <= old(avail) then |data| else if atomic then 0 else old(avail)
      ensures r.Sent? ==> avail == old(avail) - r.value && sent == old(sent) + data[..r.value]
    {
      if gone || data == [] || closed {
        return Refused(Refusal(data));
      }
      var n := if |data| <= avail then |data| else if atomic then 0 else avail;
      avail := avail - n;
      sent := sent + data[..n];
      r := Sent(n);
    }

    function Refusal(data: seq<byte>): SendError
      reads this
    {
      if gone then InvalidStreamId else if data == [] then InvalidInput else FinalSize
    }

    /** Any prefix of the data is accepted, as far as there is space. */
    method Send(data: seq<byte>) returns (r: SendResult<nat>)
      modifies this
      ensures closed == old(closed) && gone == old(gone) && fins == old(fins)
      ensures r.Refused? <==> gone || data == [] || closed
      ensures r.Refused? ==> r.error == Refusal(data) && avail == old(avail) && sent == old(sent)
      ensures r.Sent? ==> r.value == Min(|data|, old(avail))
      ensures r.Sent? ==> avail == old(avail) - r.value && sent == old(sent) + data[..r.value]
    {
      r := Accept(data, false);
    }

    /** All of the data or nothing. */
    method SendAtomic(data: seq<byte>) returns (r: SendResult<bool>)
      modifies this
      ensures closed == old(closed) && gone == old(gone) && fins == old(fins)
      ensures r.Refused? <==> gone || data == [] || closed
      ensures r.Refused? ==> r.error == Refusal(data)
      ensures r.Sent? ==> r.value == (|data| <= old(avail))
      ensures r == Sent(true) ==> avail == old(avail) - |data| && sent == old(sent) + data
      ensures r != Sent(true) ==> avail == old(avail) && sent == old(sent)
    {
      var n := Accept(data, true);
      if n.Refused? {
        return Refused(n.error);
      }
      assert data[..|data|] == data && sent == old(sent) + data[..n.value];
      r := Sent(n.value == |data|);
    }

    method Close() returns (r: SendResult<()>)
      modifies this
      ensures gone == old(gone) && avail == old(avail) && sent == old(sent)
      ensures r == if gone then Refused(InvalidStreamId) else Sent(())
      ensures closed == (old(closed) || !gone) && fins == old(fins) + (if gone then 0 else 1)
    {
      if gone {
        return Refused(InvalidStreamId);
      }
      closed := true;
      fins := fins + 1;
      r := Sent(());
    }
  }
}
