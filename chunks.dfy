/**
  How the handler buffers an HTTP response body: every 'data' event pushes
  its chunk onto a list (route.ts:51-55 and 90-91), and at 'end' the list is
  concatenated with `Buffer.concat`, which allocates one buffer of the total
  length and copies each chunk in at its offset.
 */
module Chunks {
  import opened JsRuntime

  /** The chunks laid end to end, in the order they arrived. */
  function Flatten(chunks: seq<seq<Byte>>): seq<Byte>
  {
    if chunks == [] then [] else chunks[0] + Flatten(chunks[1..])
  }

  /** The sum of the chunk lengths. */
  function TotalLength(chunks: seq<seq<Byte>>): nat
  {
    if chunks == [] then 0 else |chunks[0]| + TotalLength(chunks[1..])
  }

  lemma {:induction false} FlattenConcat(a: seq<seq<Byte>>, b: seq<seq<Byte>>)
    ensures Flatten(a + b) == Flatten(a) + Flatten(b)
  {
    if a != [] {
      assert (a + b)[1..] == a[1..] + b;
      FlattenConcat(a[1..], b);
    } else {
      assert a + b == b;
    }
  }

  lemma FlattenAppend(chunks: seq<seq<Byte>>, c: seq<Byte>)
    ensures Flatten(chunks + [c]) == Flatten(chunks) + c
  {
    FlattenConcat(chunks, [c]);
    assert Flatten([c]) == c + Flatten([]);
  }

  /** The buffered body is as long as all the chunks together. */
  lemma {:induction false} FlattenLength(chunks: seq<seq<Byte>>)
    ensures |Flatten(chunks)| == TotalLength(chunks)
  {
    if chunks != [] {
      FlattenLength(chunks[1..]);
    }
  }

  /**
    Byte j of chunk i sits in the body at the total length of the chunks
    before it, plus j: nothing is lost, duplicated or reordered.
   */
  lemma FlattenAt(chunks: seq<seq<Byte>>, i: nat, j: nat)
    requires i < |chunks| && j < |chunks[i]|
    ensures TotalLength(chunks[..i]) + j < |Flatten(chunks)|
    ensures Flatten(chunks)[TotalLength(chunks[..i]) + j] == chunks[i][j]
  {
    assert chunks == chunks[..i] + chunks[i..];
    FlattenConcat(chunks[..i], chunks[i..]);
    FlattenLength(chunks[..i]);
  }

  /** The body so far grows by each chunk in turn. */
  lemma FlattenPrefix(chunks: seq<seq<Byte>>, i: nat)
    requires i < |chunks|
    ensures Flatten(chunks[..i + 1]) == Flatten(chunks[..i]) + chunks[i]
  {
    assert chunks[..i + 1] == chunks[..i] + [chunks[i]];
    FlattenAppend(chunks[..i], chunks[i]);
  }

  /** The body so far is never longer than the whole body. */
  lemma FlattenPrefixLength(chunks: seq<seq<Byte>>, k: nat)
    requires k <= |chunks|
    ensures |Flatten(chunks[..k])| <= |Flatten(chunks)|
  {
    assert chunks == chunks[..k] + chunks[k..];
    FlattenConcat(chunks[..k], chunks[k..]);
  }

  /** The 'data' handler: each chunk is pushed onto the list as it arrives. */
  method Receive(stream: seq<seq<Byte>>) returns (chunks: seq<seq<Byte>>)
    ensures chunks == stream
  {
    chunks := [];
    for i := 0 to |stream|
      invariant chunks == stream[..i]
    {
      chunks := chunks + [stream[i]];
    }
  }

  /** Copies one chunk into the buffer at offset `pos`, leaving what precedes it alone. */
  method CopyChunk(buffer: array<Byte>, pos: nat, c: seq<Byte>)
    requires pos + |c| <= buffer.Length
    modifies buffer
    ensures buffer[..pos + |c|] == old(buffer[..pos]) + c
    ensures buffer[pos + |c|..] == old(buffer[pos + |c|..])
  {
    for j := 0 to |c|
      invariant buffer[..pos + j] == old(buffer[..pos]) + c[..j]
      invariant buffer[pos + j..] == old(buffer[pos + j..])
    {
      buffer[pos + j] := c[j];
      assert buffer[..pos + j + 1] == buffer[..pos + j] + [c[j]];
      assert c[..j + 1] == c[..j] + [c[j]];
    }
    assert c[..|c|] == c;
  }

  /** The total length of the chunks, summed one chunk at a time. */
  method Total(chunks: seq<seq<Byte>>) returns (total: nat)
    ensures total == |Flatten(chunks)|
  {
    total := 0;
    for i := 0 to |chunks|
      invariant total == |Flatten(chunks[..i])|
    {
      FlattenPrefix(chunks, i);
      total := total + |chunks[i]|;
    }
    assert chunks[..|chunks|] == chunks;
  }

  /** Buffer.concat: one buffer of the total length, each chunk copied in at its offset. */
  method Concat(chunks: seq<seq<Byte>>) returns (body: seq<Byte>)
    ensures body == Flatten(chunks)
  {
    var total := Total(chunks);
    var buffer := new Byte[total];
    var pos := 0;
    for i := 0 to |chunks|
      invariant buffer.Length == |Flatten(chunks)|
      invariant pos == |Flatten(chunks[..i])| <= buffer.Length
      invariant buffer[..pos] == Flatten(chunks[..i])
    {
      FlattenPrefix(chunks, i);
      FlattenPrefixLength(chunks, i + 1);
      CopyChunk(buffer, pos, chunks[i]);
      pos := pos + |chunks[i]|;
    }
    assert chunks[..|chunks|] == chunks;
    body := buffer[..];
  }

  /** A whole response body: chunks pushed as they arrive, then concatenated. */
  method ReadBody(stream: seq<seq<Byte>>) returns (body: seq<Byte>)
    ensures body == Flatten(stream)
    ensures |body| == TotalLength(stream)
  {
    var chunks := Receive(stream);
    body := Concat(chunks);
    FlattenLength(stream);
  }
}
