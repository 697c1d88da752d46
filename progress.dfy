/**
 What a progress listener is told while a request body is written out.
 `Updates` is the specification of the listener's view of one write-out:
 after each chunk the counting sink forwards, one update carrying the new
 byte count, the declared content length, and whether the two are equal.
 */
module Progress {
  import opened Io

  /** The arguments of one `ProgressListener.update` call. */
  datatype ProgressUpdate = ProgressUpdate(bytesRead: int, contentLength: int, done: bool)

  /**
   A listener that records every update it receives, in order (the sample
   listeners print these arguments; the model keeps them instead).
   */
  class ProgressListener {
    var updates: seq<ProgressUpdate>

    constructor()
      ensures updates == []
    {
      updates := [];
    }

    method Update(bytesRead: int, contentLength: int, done: bool)
      modifies this
      ensures updates == old(updates) + [ProgressUpdate(bytesRead, contentLength, done)]
    {
      updates := updates + [ProgressUpdate(bytesRead, contentLength, done)];
    }
  }

  /**
   The updates reported when `chunks` are forwarded one after another through
   a counting sink whose counter starts at `counter`, for a body whose
   `contentLength()` is `contentLength`.
   */
  function Updates(contentLength: int, counter: int, chunks: seq<seq<Byte>>): (us: seq<ProgressUpdate>)
    ensures |us| == |chunks|
    decreases |chunks|
  {
    if chunks == [] then []
    else
      var next := counter + |chunks[0]|;
      [ProgressUpdate(next, contentLength, next == contentLength)] + Updates(contentLength, next, chunks[1..])
  }

  /**
   Closed form: the i-th update carries the counter plus every byte of the
   first i + 1 chunks, the content length unchanged, and `done` exactly when
   that count equals the content length.
   */
  lemma {:induction false} UpdatesAt(contentLength: int, counter: int, chunks: seq<seq<Byte>>, i: nat)
    requires i < |chunks|
    ensures Updates(contentLength, counter, chunks)[i].bytesRead == counter + |Concat(chunks[..i + 1])|
    ensures Updates(contentLength, counter, chunks)[i].contentLength == contentLength
    ensures Updates(contentLength, counter, chunks)[i].done
            == (counter + |Concat(chunks[..i + 1])| == contentLength)
    decreases i
  {
    assert chunks[..i + 1][0] == chunks[0];
    assert chunks[..i + 1][1..] == chunks[1..][..i];
    if i > 0 {
      UpdatesAt(contentLength, counter + |chunks[0]|, chunks[1..], i - 1);
    }
  }

  /** Forwarding `a` and then `b` reports the updates of `a`, then those of `b` counted on from `a`. */
  lemma {:induction false} UpdatesAppend(contentLength: int, counter: int, a: seq<seq<Byte>>, b: seq<seq<Byte>>)
    ensures Updates(contentLength, counter, a + b)
            == Updates(contentLength, counter, a) + Updates(contentLength, counter + |Concat(a)|, b)
    decreases |a|
  {
    if a == [] {
      assert a + b == b;
    } else {
      assert (a + b)[0] == a[0];
      assert (a + b)[1..] == a[1..] + b;
      UpdatesAppend(contentLength, counter + |a[0]|, a[1..], b);
    }
  }

  /** One more forwarded chunk adds exactly one update, for the counter grown by that chunk. */
  lemma UpdatesSnoc(contentLength: int, counter: int, a: seq<seq<Byte>>, chunk: seq<Byte>)
    ensures Updates(contentLength, counter, a + [chunk])
            == Updates(contentLength, counter, a)
               + [ProgressUpdate(counter + |Concat(a)| + |chunk|, contentLength,
                                 counter + |Concat(a)| + |chunk| == contentLength)]
  {
    UpdatesAppend(contentLength, counter, a, [chunk]);
  }

  /** A chunking in which no write is empty (the buffered sink never forwards zero bytes). */
  ghost predicate NonEmptyChunks(chunks: seq<seq<Byte>>)
  {
    forall k :: 0 <= k < |chunks| ==> |chunks[k]| > 0
  }

  /** With non-empty chunks the reported count rises strictly above its start and from update to update. */
  lemma {:induction false} UpdatesIncreasing(contentLength: int, counter: int, chunks: seq<seq<Byte>>)
    requires NonEmptyChunks(chunks)
    ensures forall i :: 0 <= i < |chunks| ==> counter < Updates(contentLength, counter, chunks)[i].bytesRead
    ensures forall i, j :: 0 <= i < j < |chunks| ==>
              Updates(contentLength, counter, chunks)[i].bytesRead
              < Updates(contentLength, counter, chunks)[j].bytesRead
    decreases |chunks|
  {
    if chunks != [] {
      var next := counter + |chunks[0]|;
      UpdatesIncreasing(contentLength, next, chunks[1..]);
      var us := Updates(contentLength, counter, chunks);
      var rest := Updates(contentLength, next, chunks[1..]);
      assert us[0].bytesRead == next;
      assert forall k :: 1 <= k < |chunks| ==> us[k] == rest[k - 1];
    }
  }

  /** A negative content length (-1 means unknown) never yields `done`: the counter is never negative. */
  lemma {:induction false} NeverDoneWhenLengthNegative(contentLength: int, counter: int, chunks: seq<seq<Byte>>)
    requires contentLength < 0 <= counter
    ensures forall i :: 0 <= i < |chunks| ==> !Updates(contentLength, counter, chunks)[i].done
    decreases |chunks|
  {
    if chunks != [] {
      var next := counter + |chunks[0]|;
      NeverDoneWhenLengthNegative(contentLength, next, chunks[1..]);
      var us := Updates(contentLength, counter, chunks);
      assert forall k :: 1 <= k < |chunks| ==> us[k] == Updates(contentLength, next, chunks[1..])[k - 1];
    }
  }

  /** With non-empty chunks at most one update reports `done`. */
  lemma DoneAtMostOnce(contentLength: int, counter: int, chunks: seq<seq<Byte>>, i: nat, j: nat)
    requires NonEmptyChunks(chunks)
    requires i < |chunks| && j < |chunks|
    requires Updates(contentLength, counter, chunks)[i].done
    requires Updates(contentLength, counter, chunks)[j].done
    ensures i == j
  {
    UpdatesAt(contentLength, counter, chunks, i);
    UpdatesAt(contentLength, counter, chunks, j);
    UpdatesIncreasing(contentLength, counter, chunks);
  }

  /** The last update reports every forwarded byte. */
  lemma LastUpdateCountsAll(contentLength: int, counter: int, chunks: seq<seq<Byte>>)
    requires chunks != []
    ensures Updates(contentLength, counter, chunks)[|chunks| - 1].bytesRead == counter + |Concat(chunks)|
  {
    UpdatesAt(contentLength, counter, chunks, |chunks| - 1);
    assert chunks[..|chunks|] == chunks;
  }

  /**
   When the forwarded bytes add up to exactly the content length, the last
   update is the one and only update that reports `done`.
   */
  lemma DoneExactlyAtEnd(contentLength: int, chunks: seq<seq<Byte>>)
    requires chunks != [] && NonEmptyChunks(chunks)
    requires |Concat(chunks)| == contentLength
    ensures Updates(contentLength, 0, chunks)[|chunks| - 1] == ProgressUpdate(contentLength, contentLength, true)
    ensures forall i :: 0 <= i < |chunks| - 1 ==> !Updates(contentLength, 0, chunks)[i].done
  {
    var last := |chunks| - 1;
    UpdatesAt(contentLength, 0, chunks, last);
    assert chunks[..last + 1] == chunks;
    UpdatesIncreasing(contentLength, 0, chunks);
    forall i | 0 <= i < last
      ensures !Updates(contentLength, 0, chunks)[i].done
    {
      UpdatesAt(contentLength, 0, chunks, i);
    }
  }

  /** A body of declared length 4 written as chunks of 1, 1 and 2 bytes. */
  lemma KnownLengthScenario()
    ensures Updates(4, 0, [[0], [0], [0, 0]])
            == [ProgressUpdate(1, 4, false), ProgressUpdate(2, 4, false), ProgressUpdate(4, 4, true)]
  {
  }

  /** A body of unknown length (-1) written as one chunk of 10 bytes. */
  lemma UnknownLengthScenario()
    ensures Updates(-1, 0, [seq(10, _ => 0)]) == [ProgressUpdate(10, -1, false)]
  {
  }
}
