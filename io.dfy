/**
 The byte-level vocabulary shared by the upload model: bytes, I/O outcomes,
 the concatenation of written chunks, and the destination sink that the HTTP
 client hands to a request body when it serializes it.
 */
module Io {

  type Byte = bv8

  datatype Option<+T> = None | Some(value: T)

  /** An `IOException`; its message is the only thing the model keeps of it. */
  datatype IOError = IOError(message: string)

  /** The result of a call that either returns normally or throws an `IOException`. */
  datatype Outcome = Pass | Fail(error: IOError)

  /** The bytes of a sequence of chunks, in order. */
  function Concat(chunks: seq<seq<Byte>>): (bytes: seq<Byte>)
  {
    if chunks == [] then [] else chunks[0] + Concat(chunks[1..])
  }

  lemma {:induction false} ConcatAppend(a: seq<seq<Byte>>, b: seq<seq<Byte>>)
    ensures Concat(a + b) == Concat(a) + Concat(b)
  {
    if a == [] {
      assert a + b == b;
    } else {
      assert (a + b)[1..] == a[1..] + b;
      ConcatAppend(a[1..], b);
    }
  }

  /** Writing one more chunk appends exactly that chunk's bytes. */
  lemma ConcatSnoc(a: seq<seq<Byte>>, chunk: seq<Byte>)
    ensures Concat(a + [chunk]) == Concat(a) + chunk
  {
    ConcatAppend(a, [chunk]);
    assert Concat([chunk]) == chunk + Concat([]);
  }

  /**
   The sink the HTTP client passes to `writeTo`: it accepts chunks in order
   and pushes them towards the network on `flush`. Either call may fail at
   any time (a dropped connection, a cancelled call), so the choice between
   success and failure is left open. A failing write may already have taken
   part of its chunk (or all of it) before it throws.
   */
  class Destination {
    /** Every byte this sink has accepted, in order. */
    var received: seq<Byte>
    /** How many of `received` the last successful flush pushed out. */
    var flushedLength: nat
    /** How many calls this sink has failed so far. */
    ghost var refusals: nat

    constructor()
      ensures received == [] && flushedLength == 0 && refusals == 0
    {
      received := [];
      flushedLength := 0;
      refusals := 0;
    }

    method Write(chunk: seq<Byte>) returns (r: Outcome)
      modifies this
      ensures r.Pass? ==> received == old(received) + chunk
      ensures r.Fail? ==> old(received) <= received && received[|old(received)|..] <= chunk
      ensures refusals == old(refusals) + (if r.Fail? then 1 else 0)
      ensures flushedLength == old(flushedLength)
    {
      var accepted: bool :| true;
      if accepted {
        received := received + chunk;
        r := Pass;
      } else {
        var taken: nat :| taken <= |chunk|;
        received := received + chunk[..taken];
        refusals := refusals + 1;
        r := Fail(IOError("write failed"));
      }
    }

    method Flush() returns (r: Outcome)
      modifies this
      ensures received == old(received)
      ensures r.Pass? ==> flushedLength == |received|
      ensures r.Fail? ==> flushedLength == old(flushedLength)
      ensures refusals == old(refusals) + (if r.Fail? then 1 else 0)
    {
      var accepted: bool :| true;
      if accepted {
        flushedLength := |received|;
        r := Pass;
      } else {
        refusals := refusals + 1;
        r := Fail(IOError("flush failed"));
      }
    }
  }
}
