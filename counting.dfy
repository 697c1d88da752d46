/**
 `CountingRequestBody` decorates another request body: it reports the
 wrapped body's media type and length, and when asked to write itself out
 it routes the wrapped body's bytes through a fresh `CountingSink`, which
 forwards every chunk to the destination and then tells the progress
 listener how many bytes have gone through.
 */
module Counting {
  import opened Io
  import opened Progress

  /** A media type such as `image/png`, kept opaque. */
  datatype MediaType = MediaType(text: string)

  /** What the wrapped body's `contentLength()` does: return a length or throw. */
  datatype LengthQuery = Returns(length: int) | Throws(error: IOError)

  /**
   The wrapped (delegate) request body: its media type (possibly absent),
   its length query, and the bytes its `writeTo` produces.
   */
  datatype RequestBody = RequestBody(contentType: Option<MediaType>, contentLength: LengthQuery, payload: seq<Byte>)

  class CountingRequestBody {
    const listener: ProgressListener
    const delegate: RequestBody
    /** The sink installed by the latest `WriteTo`, if any. */
    var countingSink: CountingSink?

    constructor(delegate: RequestBody, listener: ProgressListener)
      ensures this.delegate == delegate && this.listener == listener
      ensures countingSink == null
    {
      this.delegate := delegate;
      this.listener := listener;
      countingSink := null;
    }

    /** The wrapped body's media type, unchanged. */
    function ContentType(): (m: Option<MediaType>)
      ensures m == delegate.contentType
    {
      delegate.contentType
    }

    /**
     The wrapped body's length; never fails: a throwing length query
     degrades to -1, the marker for "unknown".
     */
    function ContentLength(): (r: int)
      ensures delegate.contentLength.Throws? ==> r == -1
      ensures delegate.contentLength.Returns? ==> r == delegate.contentLength.length
    {
      match delegate.contentLength
      case Returns(length) => length
      case Throws(_) => -1
    }

    /**
     Writes the wrapped body to `sink` through a fresh counting sink.
     `emitted` is the sequence of chunks the buffered layer hands to the
     counting sink while the wrapped body writes into it and when it is
     flushed: whatever its boundaries, its bytes are the wrapped payload in
     order. The write-out fails only when the sink refuses a call, and then
     exactly once: on a refused write the remaining chunks are not forwarded
     and the error propagates without a flush. `accepted` is the number of
     chunks that went through; `spill` is the part of the refused chunk that
     the sink took before it failed.
     */
    method WriteTo(sink: Destination, emitted: seq<seq<Byte>>) returns (r: Outcome, ghost accepted: nat, ghost spill: seq<Byte>)
      requires Concat(emitted) == delegate.payload
      modifies this, sink, listener
      ensures countingSink != null && fresh(countingSink)
      ensures countingSink.owner == this && countingSink.delegate == sink
      ensures accepted <= |emitted|
      ensures countingSink.bytesWritten == |Concat(emitted[..accepted])|
      ensures sink.received == old(sink.received) + Concat(emitted[..accepted]) + spill
      ensures accepted < |emitted| ==> spill <= emitted[accepted]
      ensures accepted == |emitted| ==> spill == []
      ensures listener.updates == old(listener.updates) + Updates(ContentLength(), 0, emitted[..accepted])
      ensures sink.refusals == old(sink.refusals) + (if r.Fail? then 1 else 0)
      ensures accepted < |emitted| ==> r.Fail?
      ensures r.Fail? ==> sink.flushedLength == old(sink.flushedLength)
      ensures r.Pass? ==> sink.received == old(sink.received) + delegate.payload
      ensures r.Pass? ==> countingSink.bytesWritten == |delegate.payload|
      ensures r.Pass? ==> sink.flushedLength == |sink.received|
    {
      ghost var length := ContentLength();
      ghost var received0, flushed0, updates0, refusals0 := sink.received, sink.flushedLength, listener.updates, sink.refusals;
      var counting := new CountingSink(this, sink);
      countingSink := counting;
      spill := [];
      var i := 0;
      while i < |emitted|
        invariant 0 <= i <= |emitted|
        invariant countingSink == counting
        invariant counting.bytesWritten == |Concat(emitted[..i])|
        invariant sink.received == received0 + Concat(emitted[..i])
        invariant sink.flushedLength == flushed0
        invariant sink.refusals == refusals0
        invariant listener.updates == updates0 + Updates(length, 0, emitted[..i])
      {
        ghost var done := emitted[..i];
        assert emitted[..i + 1] == done + [emitted[i]];
        ConcatSnoc(done, emitted[i]);
        UpdatesSnoc(length, 0, done, emitted[i]);
        ghost var before := sink.received;
        r := counting.Write(emitted[i]);
        if r.Fail? {
          accepted := i;
          spill := sink.received[|before|..];
          assert sink.received == before + spill;
          return;
        }
        i := i + 1;
      }
      accepted := i;
      assert emitted[..i] == emitted;
      r := counting.Flush();
    }
  }

  /**
   A pass-through sink around the destination: it forwards each chunk first
   and only once that succeeds adds the chunk's length to its counter and
   reports `(counter, contentLength(), counter == contentLength())`.
   */
  class CountingSink {
    /** The enclosing body, whose listener and `contentLength()` the sink uses. */
    const owner: CountingRequestBody
    const delegate: Destination
    var bytesWritten: int

    constructor(owner: CountingRequestBody, delegate: Destination)
      ensures this.owner == owner && this.delegate == delegate
      ensures bytesWritten == 0
    {
      this.owner := owner;
      this.delegate := delegate;
      bytesWritten := 0;
    }

    method Write(chunk: seq<Byte>) returns (r: Outcome)
      modifies this, delegate, owner.listener
      ensures r.Pass? ==> delegate.received == old(delegate.received) + chunk
      ensures r.Pass? ==> bytesWritten == old(bytesWritten) + |chunk|
      ensures r.Pass? ==> owner.listener.updates == old(owner.listener.updates)
                          + [ProgressUpdate(bytesWritten, owner.ContentLength(), bytesWritten == owner.ContentLength())]
      ensures r.Fail? ==> old(delegate.received) <= delegate.received
                          && delegate.received[|old(delegate.received)|..] <= chunk
      ensures r.Fail? ==> bytesWritten == old(bytesWritten)
      ensures r.Fail? ==> owner.listener.updates == old(owner.listener.updates)
      ensures delegate.flushedLength == old(delegate.flushedLength)
      ensures delegate.refusals == old(delegate.refusals) + (if r.Fail? then 1 else 0)
    {
      r := delegate.Write(chunk);
      if r.Fail? {
        return;
      }
      bytesWritten := bytesWritten + |chunk|;
      owner.listener.Update(bytesWritten, owner.ContentLength(), bytesWritten == owner.ContentLength());
    }

    /** Flushing passes straight through to the destination. */
    method Flush() returns (r: Outcome)
      modifies delegate
      ensures delegate.received == old(delegate.received)
      ensures r.Pass? ==> delegate.flushedLength == |delegate.received|
      ensures r.Fail? ==> delegate.flushedLength == old(delegate.flushedLength)
      ensures delegate.refusals == old(delegate.refusals) + (if r.Fail? then 1 else 0)
    {
      r := delegate.Flush();
    }
  }

  /**
   The HTTP client writing the same body out twice (a retried request): each
   attempt installs its own counting sink, so the second attempt's updates
   count from zero again rather than continuing from the first.
   */
  method WriteOutTwice(body: CountingRequestBody, first: Destination, second: Destination, emitted: seq<seq<Byte>>)
    returns (r1: Outcome, r2: Outcome)
    requires Concat(emitted) == body.delegate.payload
    modifies body, first, second, body.listener
    ensures exists a1, a2 :: 0 <= a1 <= |emitted| && 0 <= a2 <= |emitted|
              && (r1.Pass? ==> a1 == |emitted|) && (r2.Pass? ==> a2 == |emitted|)
              && body.listener.updates == old(body.listener.updates)
                 + Updates(body.ContentLength(), 0, emitted[..a1])
                 + Updates(body.ContentLength(), 0, emitted[..a2])
    ensures r2.Pass? ==> body.countingSink != null && body.countingSink.bytesWritten == |body.delegate.payload|
    // only when the retry goes to a sink of its own are the first attempt's bytes not in it
    ensures first != second && r2.Pass? ==> second.received == old(second.received) + body.delegate.payload
  {
    ghost var a1, a2, s1, s2;
    r1, a1, s1 := body.WriteTo(first, emitted);
    r2, a2, s2 := body.WriteTo(second, emitted);
  }

  /**
   When the wrapped body's length query throws, every update of a write-out
   reports the length as -1 and never reports `done`.
   */
  lemma ThrowingLengthNeverDone(body: CountingRequestBody, emitted: seq<seq<Byte>>)
    requires body.delegate.contentLength.Throws?
    ensures forall i :: 0 <= i < |emitted| ==>
              Updates(body.ContentLength(), 0, emitted)[i].contentLength == -1
              && !Updates(body.ContentLength(), 0, emitted)[i].done
  {
    NeverDoneWhenLengthNegative(-1, 0, emitted);
    forall i | 0 <= i < |emitted|
      ensures Updates(-1, 0, emitted)[i].contentLength == -1
    {
      UpdatesAt(-1, 0, emitted, i);
    }
  }
}
