/** Page bytes over a chunk stream: the server loop that cuts them up and the readers that put them together. */
module PageStream {
  import opened Options

  /** What one Read of the page source yields with its bytes. */
  datatype Status = More | EndOfFile | Failed

  datatype Piece = Piece(data: seq<bv8>, status: Status)

  const CHUNK_SIZE := 32 * 1024

  function Concat(chunks: seq<seq<bv8>>): seq<bv8> {
    if chunks == [] then [] else Concat(chunks[..|chunks| - 1]) + chunks[|chunks| - 1]
  }

  /** The pieces a loop reads before it stops: up to and including the first that ends the source. */
  function ReadUp(pieces: seq<Piece>): seq<Piece> {
    if pieces == [] then [] else if !pieces[0].status.More? then [pieces[0]] else [pieces[0]] + ReadUp(pieces[1..])
  }

  function BytesOf(pieces: seq<Piece>): seq<bv8> {
    if pieces == [] then [] else pieces[0].data + BytesOf(pieces[1..])
  }

  /** The bytes of the source up to its end. */
  function SourceBytes(pieces: seq<Piece>): seq<bv8> {
    BytesOf(ReadUp(pieces))
  }

  /** How the source ends; running dry reads as end of file. */
  function SourceEnd(pieces: seq<Piece>): Status {
    if pieces == [] then EndOfFile else if !pieces[0].status.More? then pieces[0].status else SourceEnd(pieces[1..])
  }

  lemma ConcatSnoc(chunks: seq<seq<bv8>>, chunk: seq<bv8>)
    ensures Concat(chunks + [chunk]) == Concat(chunks) + chunk
  {
    assert (chunks + [chunk])[..|chunks|] == chunks;
  }

  lemma {:induction false} ConcatHead(chunks: seq<seq<bv8>>)
    requires chunks != []
    ensures Concat(chunks) == chunks[0] + Concat(chunks[1..])
    decreases |chunks|
  {
    if |chunks| == 1 {
      assert chunks == [] + [chunks[0]];
      ConcatSnoc([], chunks[0]);
    } else {
      var front, last := chunks[..|chunks| - 1], chunks[|chunks| - 1];
      ConcatHead(front);
      assert chunks[1..] == front[1..] + [last];
      ConcatSnoc(front[1..], last);
    }
  }

  lemma CutAt(a: seq<bv8>, b: seq<bv8>, n: nat, c: seq<bv8>)
    requires n <= |b|
    ensures a + b[..n] + b[n..] + c == a + [] + (b + c) == a + b + c
  {
    assert b[..n] + b[n..] == b;
  }

  /** The page source, read into the caller's buffer. */
  class Source {
    var pieces: seq<Piece>

    constructor (pieces: seq<Piece>)
      ensures this.pieces == pieces
    {
      this.pieces := pieces;
    }

    method Read(buf: array<bv8>) returns (n: nat, status: Status)
      requires pieces != [] ==> |pieces[0].data| <= buf.Length
      modifies this, buf
      ensures n <= buf.Length
      ensures old(pieces) == [] ==> n == 0 && status == EndOfFile && pieces == []
      ensures old(pieces) != [] ==>
                buf[..n] == old(pieces)[0].data && status == old(pieces)[0].status && pieces == old(pieces)[1..]
    {
      if pieces == [] {
        return 0, EndOfFile;
      }
      var data := pieces[0].data;
      for i := 0 to |data|
        invariant buf[..i] == data[..i]
        invariant pieces == old(pieces)
      {
        buf[i] := data[i];
      }
      n, status := |data|, pieces[0].status;
      pieces := pieces[1..];
    }
  }

  /** The server's side of the stream; sending marshals the bytes. `breaksAfter` sends it starts to fail. */
  class Stream {
    var chunks: seq<seq<bv8>>
    const breaksAfter: Option<nat>

    constructor (breaksAfter: Option<nat>)
      ensures chunks == [] && this.breaksAfter == breaksAfter
    {
      chunks, this.breaksAfter := [], breaksAfter;
    }

    method Send(chunk: seq<bv8>) returns (ok: bool)
      modifies this
      ensures ok <==> breaksAfter == None || |old(chunks)| < breaksAfter.value
      ensures chunks == if ok then old(chunks) + [chunk] else old(chunks)
    {
      ok := breaksAfter == None || |chunks| < breaksAfter.value;
      if ok {
        chunks := chunks + [chunk];
      }
    }
  }

  /** How the server loop returns. */
  datatype Result = Done | SendError | ReadError

  /** Reads the source through one reused buffer and sends every non-empty piece as a chunk. */
  method FetchPageStream(src: Source, stream: Stream) returns (result: Result)
    requires stream.chunks == []
    requires forall i :: 0 <= i < |src.pieces| ==> |src.pieces[i].data| <= CHUNK_SIZE
    modifies src, stream
    ensures forall i :: 0 <= i < |stream.chunks| ==> 0 < |stream.chunks[i]| <= CHUNK_SIZE
    ensures result != SendError ==> Concat(stream.chunks) == SourceBytes(old(src.pieces))
    ensures result != SendError ==> (result == Done <==> SourceEnd(old(src.pieces)) == EndOfFile)
    ensures result == SendError ==> Concat(stream.chunks) <= SourceBytes(old(src.pieces))
    ensures result == SendError ==> stream.breaksAfter == Some(|stream.chunks|)
  {
    hide SourceBytes, SourceEnd, Concat;
    NothingSent();
    var buf := new bv8[CHUNK_SIZE];
    ghost var all := src.pieces;
    while true
      modifies src, stream, buf
      invariant forall i :: 0 <= i < |src.pieces| ==> |src.pieces[i].data| <= CHUNK_SIZE
      invariant forall i :: 0 <= i < |stream.chunks| ==> 0 < |stream.chunks[i]| <= CHUNK_SIZE
      invariant SourceBytes(all) == Concat(stream.chunks) + SourceBytes(src.pieces)
      invariant SourceEnd(all) == SourceEnd(src.pieces)
      invariant stream.breaksAfter.Some? ==> |stream.chunks| <= stream.breaksAfter.value
      decreases |src.pieces|
    {
      ghost var before := src.pieces;
      ghost var sent := stream.chunks;
      var n, status := src.Read(buf);
      if n > 0 {
        var ok := stream.Send(buf[..n]);
        if !ok {
          return SendError;
        }
        ConcatSnoc(sent, buf[..n]);
      }
      if before != [] {
        ReadOne(before);
      }
      if !status.More? {
        return if status.EndOfFile? then Done else ReadError;
      }
    }
  }

  lemma NothingSent()
    ensures Concat([]) == [] && SourceBytes([]) == [] && SourceEnd([]) == EndOfFile
  {
  }

  lemma ReadOne(pieces: seq<Piece>)
    requires pieces != []
    ensures SourceBytes(pieces) == pieces[0].data + if pieces[0].status.More? then SourceBytes(pieces[1..]) else []
    ensures SourceEnd(pieces) == if pieces[0].status.More? then SourceEnd(pieces[1..]) else pieces[0].status
  {
    var rest := if pieces[0].status.More? then ReadUp(pieces[1..]) else [];
    assert ReadUp(pieces) == [pieces[0]] + rest;
    assert ([pieces[0]] + rest)[1..] == rest;
    assert BytesOf(ReadUp(pieces)) == pieces[0].data + BytesOf(rest);
  }

  /**
   * The client reader; pageStreamReader and adapterStreamReader read alike. `incoming` is what Recv will
   * still deliver before `end`, and `returned` all bytes handed to the caller so far.
   */
  class Reader {
    var incoming: seq<seq<bv8>>
    const end: Status
    var buf: seq<bv8>
    ghost var returned: seq<bv8>
    ghost const total: seq<bv8>

    constructor (chunks: seq<seq<bv8>>, end: Status)
      requires !end.More?
      ensures Valid() && total == Concat(chunks) && incoming == chunks && this.end == end && returned == []
    {
      incoming, this.end, buf, returned := chunks, end, [], [];
      total := Concat(chunks);
    }

    /** No byte is lost, doubled or moved: returned, buffered and still to come make up the whole. */
    ghost predicate Valid()
      reads this
    {
      returned + buf + Concat(incoming) == total && !end.More?
    }

    method Read(p: array<bv8>) returns (n: nat, status: Status)
      requires Valid()
      modifies this, p
      ensures Valid() && n <= p.Length
      ensures returned == old(returned) + p[..n]
      ensures p[n..] == old(p[n..])
      ensures !status.More? ==> n == 0 && status == end && returned == total
      ensures status.More? <==> old(buf) != [] || old(incoming) != []
      ensures status.More? ==>
                var next := if old(buf) != [] then old(buf) else old(incoming)[0];
                && n == (if p.Length < |next| then p.Length else |next|) && p[..n] == next[..n] && buf == next[n..]
                && incoming == if old(buf) != [] then old(incoming) else old(incoming)[1..]
    {
      hide Concat;
      if |buf| > 0 {
        n := Copy(p, buf);
        CutAt(returned, buf, n, Concat(incoming));
        returned, buf := returned + p[..n], buf[n..];
        return n, More;
      }
      if incoming == [] {
        NothingSent();
        assert p[0..] == old(p[0..]) && returned + [] + [] == returned;
        return 0, end;
      }
      var chunk := incoming[0];
      ConcatHead(incoming);
      incoming := incoming[1..];
      n := Copy(p, chunk);
      CutAt(returned, chunk, n, Concat(incoming));
      returned, buf := returned + p[..n], if n < |chunk| then chunk[n..] else [];
      return n, More;
    }
  }

  /** Go's copy: as many bytes as fit. */
  method Copy(p: array<bv8>, data: seq<bv8>) returns (n: nat)
    modifies p
    ensures n == if p.Length < |data| then p.Length else |data|
    ensures p[..n] == data[..n] && p[n..] == old(p[n..])
  {
    n := if p.Length < |data| then p.Length else |data|;
    for i := 0 to n
      invariant p[..i] == data[..i]
      invariant p[n..] == old(p[n..])
    {
      p[i] := data[i];
    }
  }

  /**
   * Reads with the given buffer sizes until they run out or the stream ends. A read into a non-empty buffer
   * yields a byte or takes up a chunk.
   */
  method ReadWith(r: Reader, sizes: seq<nat>) returns (out: seq<bv8>, ended: bool)
    requires r.Valid() && r.returned == []
    modifies r
    ensures r.Valid() && out == r.returned <= r.total
    ensures ended ==> out == r.total
    ensures !ended && (forall k :: 0 <= k < |sizes| ==> sizes[k] > 0) ==> |sizes| <= |out| + |old(r.incoming)|
  {
    out, ended := [], false;
    var i := 0;
    while i < |sizes| && !ended
      invariant r.Valid() && out == r.returned
      invariant ended ==> out == r.total
      invariant 0 <= i <= |sizes|
      invariant !ended && (forall k :: 0 <= k < |sizes| ==> sizes[k] > 0) ==> i + |r.incoming| <= |out| + |old(r.incoming)|
    {
      var p := new bv8[sizes[i]];
      var n, status := r.Read(p);
      out := out + p[..n];
      ended := !status.More?;
      i := i + 1;
    }
    assert r.total == r.returned + (r.buf + Concat(r.incoming));
  }

  /** A page through server, stream and reader: with any positive buffer size all source bytes arrive in order. */
  method Transfer(src: Source, size: nat) returns (out: seq<bv8>, result: Result)
    requires size > 0 && forall i :: 0 <= i < |src.pieces| ==> |src.pieces[i].data| <= CHUNK_SIZE
    modifies src
    ensures out == SourceBytes(old(src.pieces))
    ensures result == Done <==> SourceEnd(old(src.pieces)) == EndOfFile
  {
    var stream := new Stream(None);
    result := FetchPageStream(src, stream);
    var r := new Reader(stream.chunks, if result.Done? then EndOfFile else Failed);
    out := [];
    var ended := false;
    while !ended
      invariant fresh(r) && r.Valid() && out == r.returned
      invariant ended ==> out == r.total
      decreases !ended, |r.incoming|, |r.buf|
    {
      var p := new bv8[size];
      var n, status := r.Read(p);
      out := out + p[..n];
      ended := !status.More?;
    }
  }

  /** adapterStreamReader's Close: the call it stands for leaves the active count once. */
  class CallCounter {
    var activeCalls: int

    constructor ()
      ensures activeCalls == 0
    {
      activeCalls := 0;
    }
  }

  class AdapterStream {
    const calls: CallCounter
    var closed: bool

    /** startCall. */
    constructor (calls: CallCounter)
      modifies calls
      ensures this.calls == calls && !closed && calls.activeCalls == old(calls.activeCalls) + 1
    {
      this.calls, closed := calls, false;
      new;
      calls.activeCalls := calls.activeCalls + 1;
    }

    method Close()
      modifies this, calls
      ensures closed
      ensures calls.activeCalls == old(calls.activeCalls) - if old(closed) then 0 else 1
    {
      if !closed {
        closed := true;
        calls.activeCalls := calls.activeCalls - 1;
      }
    }
  }
}
