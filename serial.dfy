/**
 * The write path of the serial-port connection: `write` appends to a
 * pending-data buffer, and each drain of the port sends the next chunk of
 * at most 64 characters. The port is abstracted as the log of the chunks
 * handed to `port.write` and the number of drains requested.
 */
module Serial {
  import opened Wrappers
  import Strings

  /** CONF_CHUNK_SIZE. */
  const CHUNK_SIZE: nat := 64

  /** The chunk one drain sends from pending data `d`. */
  function NextChunk(d: string): (c: string)
    ensures |c| <= CHUNK_SIZE && Strings.IsPrefix(c, d)
    ensures |d| > 0 ==> |c| > 0
  {
    if |d| <= CHUNK_SIZE then d else d[..CHUNK_SIZE]
  }

  /** What is left pending after that drain. */
  function Rest(d: string): (r: string)
    ensures |r| < |d| || d == ""
  {
    if |d| <= CHUNK_SIZE then "" else d[CHUNK_SIZE..]
  }

  /** One drain loses and reorders nothing: the chunk followed by the rest is the pending data. */
  lemma ChunkThenRest(d: string)
    ensures NextChunk(d) + Rest(d) == d
    ensures Rest(d) == "" <==> |d| <= CHUNK_SIZE
  {
  }

  /** The chunks a sequence of drains sends for pending data `d`, until nothing is left. */
  function Chunks(d: string): (r: seq<string>)
    decreases |d|
  {
    if d == "" then [] else [NextChunk(d)] + Chunks(Rest(d))
  }

  function Concat(parts: seq<string>): string
  {
    if |parts| == 0 then "" else parts[0] + Concat(parts[1..])
  }

  lemma {:induction false} ConcatAppend(parts: seq<string>, last: string)
    ensures Concat(parts + [last]) == Concat(parts) + last
  {
    if |parts| > 0 {
      assert (parts + [last])[1..] == parts[1..] + [last];
      ConcatAppend(parts[1..], last);
    }
  }

  /** Draining `d` completely sends non-empty chunks of at most 64 characters whose concatenation is `d`. */
  lemma {:induction false} ChunksCover(d: string)
    ensures Concat(Chunks(d)) == d
    ensures forall k :: 0 <= k < |Chunks(d)| ==> 0 < |Chunks(d)[k]| <= CHUNK_SIZE
    ensures |Chunks(d)| == (|d| + CHUNK_SIZE - 1) / CHUNK_SIZE
    decreases |d|
  {
    if d != "" {
      ChunksCover(Rest(d));
      ChunkThenRest(d);
    }
  }

  /** The pending data as the source tests it: `if (this.data)` fails for undefined and for "". */
  function Pending(data: Option<string>): string
  {
    if data.Some? then data.value else ""
  }

  class SerialInterface {
    /** Whether `this.port` is set. */
    var hasPort: bool
    var data: Option<string>
    /** The chunks handed to `port.write`, in order. */
    var written: seq<string>
    /** How many times `port.drain(sendNextChunkCallback)` was called. */
    var drains: nat

    /** Everything ever passed to `write`, in order. */
    ghost var input: string

    /** Nothing is lost or reordered: the chunks sent so far followed by the pending data are the input. */
    ghost predicate Conserved()
      reads this
    {
      Concat(written) + Pending(data) == input
    }

    constructor(hasPort: bool)
      ensures this.hasPort == hasPort && data.None? && written == [] && drains == 0
      ensures Conserved()
    {
      this.hasPort := hasPort;
      data := None;
      written := [];
      drains := 0;
      input := "";
    }

    /**
     * `write`: with data pending it only appends; otherwise it stores `d` and
     * requests one drain. `thrown` is set when there is no port to request
     * the drain from, after `d` has been stored, as the source's
     * `this.port.drain` then throws.
     */
    method Write(d: string) returns (thrown: bool)
      requires Conserved()
      modifies this
      ensures Conserved() && input == old(input) + d
      ensures hasPort == old(hasPort) && written == old(written)
      ensures old(Pending(data)) != "" ==> !thrown && data == Some(old(Pending(data)) + d) && drains == old(drains)
      ensures old(Pending(data)) == "" ==>
        (data == Some(d) && thrown == !hasPort &&
         drains == if hasPort then old(drains) + 1 else old(drains))
    {
      input := input + d;
      thrown := false;
      if Pending(data) != "" {
        data := Some(data.value + d);
      } else {
        data := Some(d);
        if hasPort {
          drains := drains + 1;
        } else {
          thrown := true;
        }
      }
    }

    /**
     * `sendNextChunkCallback`: without a port or pending data it does
     * nothing; otherwise it writes the next chunk, and requests another drain
     * only when data remains.
     */
    method SendNextChunk()
      requires Conserved()
      modifies this
      ensures Conserved() && input == old(input) && hasPort == old(hasPort)
      ensures !old(hasPort) || old(Pending(data)) == "" ==>
        data == old(data) && written == old(written) && drains == old(drains)
      ensures old(hasPort) && old(Pending(data)) != "" ==>
        var d := old(Pending(data));
        written == old(written) + [NextChunk(d)] &&
        (if |d| <= CHUNK_SIZE then data.None? && drains == old(drains)
         else data == Some(Rest(d)) && drains == old(drains) + 1)
    {
      if hasPort && Pending(data) != "" {
        var d := data.value;
        var chunk: string;
        if |d| <= CHUNK_SIZE {
          chunk := d;
          data := None;
        } else {
          chunk := d[..CHUNK_SIZE];
          data := Some(d[CHUNK_SIZE..]);
        }
        ChunkThenRest(d);
        ConcatAppend(written, chunk);
        written := written + [chunk];
        if Pending(data) != "" {
          drains := drains + 1;
        }
      }
    }
  }

  /** Pending data of at most one chunk is sent whole by the next drain, which leaves nothing pending. */
  lemma {:induction false} LastChunk(d: string)
    requires 0 < |d| <= CHUNK_SIZE
    ensures Chunks(d) == [d] && Rest(d) == ""
  {
    assert Chunks(Rest(d)) == [];
  }
}
