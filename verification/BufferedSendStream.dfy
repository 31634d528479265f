/** A send stream with a buffer in front of it: what the transport does not take now waits its turn. Every
    byte reaches the transport once and in order, whatever prefixes the transport accepts.
 */
module BufferedSendStreams {
  import opened Bits
  import opened Transport

  class BufferedStream {
    // None until the transport stream exists.
    var buf: Option<seq<byte>>

    /** What has been accepted and not yet been passed on. */
    function Pending(): seq<byte>
      reads this
    {
      if buf.Some? then buf.value else []
    }

    /** Nothing is lost, repeated or reordered, and x is the only thing added. */
    twostate predicate Queued(tr: SendEnd, x: seq<byte>)
      reads this, tr
    {
      && tr.sent + Pending() == old(tr.sent + Pending()) + x
      && tr.Extended()
      && tr.closed == old(tr.closed) && tr.fins == old(tr.fins) && buf.Some? == old(buf.Some?)
    }

    constructor ()
      ensures buf == Some([])
    {
      buf := Some([]);
    }

    constructor Uninitialized()
      ensures buf == None
    {
      buf := None;
    }

    method Init()
      requires buf == None
      modifies this
      ensures buf == Some([])
    {
      buf := Some([]);
    }

    /** Append what an encoder writes. */
    method EncodeWith(x: seq<byte>)
      requires buf.Some?
      modifies this
      ensures buf == Some(old(Pending()) + x)
    {
      buf := Some(buf.value + x);
    }

    method Buffer(x: seq<byte>)
      requires buf.Some?
      modifies this
      ensures buf == Some(old(Pending()) + x)
    {
      buf := Some(buf.value + x);
    }

    predicate HasBufferedData()
      reads this
    {
      Pending() != []
    }

    /** The room that is left behind what is buffered; less than none if that does not fit. */
    function Free(tr: SendEnd): int
      reads this, tr
    {
      tr.avail - |Pending()|
    }

    /** Pass on what the transport takes. */
    method SendBuffer(tr: SendEnd) returns (r: SendResult<nat>)
      modifies this, tr
      ensures Queued(tr, [])
      ensures r.Refused? <==> old(HasBufferedData()) && (tr.closed || tr.gone)
      ensures r.Refused? ==>
                && r.error == (if tr.gone then InvalidStreamId else FinalSize)
                && Pending() == old(Pending()) && tr.sent == old(tr.sent) && tr.avail == old(tr.avail)
      ensures r.Sent? ==>
                && r.value == Min(|old(Pending())|, old(tr.avail)) && tr.avail == old(tr.avail) - r.value
                && Pending() == old(Pending())[r.value..] && tr.sent == old(tr.sent) + old(Pending())[..r.value]
      ensures !old(HasBufferedData()) ==> Pending() == [] && tr.sent == old(tr.sent)
      ensures Free(tr) == old(Free(tr)) && (r.Sent? ==> (Pending() == [] <==> old(Free(tr)) >= 0))
    {
      if buf.None? || buf.value == [] {
        assert tr.sent + [] == tr.sent;
        return Sent(0);
      }
      r := tr.Send(buf.value);
      if r.Refused? || r.value == 0 {
        return;
      }
      ghost var all := buf.value;
      assert all[..r.value] + all[r.value..] == all;
      ConcatAssoc(old(tr.sent), all[..r.value], all[r.value..]);
      buf := Some(if r.value == |buf.value| then [] else buf.value[r.value..]);
    }

    /** Flush; an atomic send is only possible if nothing is left. */
    method PrepareAtomicSend(tr: SendEnd) returns (r: SendResult<bool>)
      modifies this, tr
      ensures Queued(tr, [])
      ensures r.Refused? <==> old(HasBufferedData()) && (tr.closed || tr.gone)
      ensures r.Refused? ==> r.error == (if tr.gone then InvalidStreamId else FinalSize)
      ensures r.Sent? ==> r.value == (buf == Some([])) == (buf.Some? && old(Free(tr)) >= 0)
      ensures Free(tr) == old(Free(tr))
    {
      var sent := SendBuffer(tr);
      if sent.Refused? {
        return Refused(sent.error);
      }
      r := Sent(buf.Some? && buf.value == []);
    }

    /** All of x goes to the transport, behind what was buffered, or none of it. */
    method SendAtomic(tr: SendEnd, x: seq<byte>) returns (r: SendResult<bool>)
      modifies this, tr
      ensures Queued(tr, if r == Sent(true) then x else [])
      ensures r == if buf.None? then Sent(false) else Atomic(old(Pending()), x, tr.gone, tr.closed, old(tr.avail))
      ensures Free(tr) == old(Free(tr)) - (if r == Sent(true) then |x| else 0)
      ensures r == Sent(true) ==> buf == Some([])
    {
      r := PrepareAtomicSend(tr);
      if r == Sent(true) {
        assert tr.sent + [] == tr.sent;
        r := tr.SendAtomic(x);
        assert tr.sent + [] == tr.sent;
      }
    }

    /** The same, with the buffer as scratch space for what an encoder writes. */
    method SendAtomicWith(tr: SendEnd, x: seq<byte>) returns (r: SendResult<bool>)
      modifies this, tr
      ensures Queued(tr, if r == Sent(true) then x else [])
      ensures r == if buf.None? then Sent(false) else Atomic(old(Pending()), x, tr.gone, tr.closed, old(tr.avail))
      ensures Free(tr) == old(Free(tr)) - (if r == Sent(true) then |x| else 0)
      ensures r == Sent(true) ==> buf == Some([])
    {
      r := PrepareAtomicSend(tr);
      if r == Sent(true) {
        assert tr.sent + [] == tr.sent;
        buf := Some(buf.value + x);
        assert buf.value == x;
        r := tr.SendAtomic(buf.value);
        buf := Some([]);
        assert tr.sent + [] == tr.sent;
      }
    }
  }

  /** The answer to an atomic send of x behind what is pending, with this much room. */
  function Atomic(pending: seq<byte>, x: seq<byte>, gone: bool, closed: bool, room: nat): (r: SendResult<bool>) {
    if gone then Refused(InvalidStreamId)
    else if closed && (pending != [] || x != []) then Refused(FinalSize)
    else if |pending| > room then Sent(false)
    else if x == [] then Refused(InvalidInput)
    else Sent(|pending| + |x| <= room)
  }
}
