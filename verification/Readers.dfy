/** The readers image data passes through. A Read fills part of a caller's buffer p[lo..hi] and says
    whether the stream goes on, has ended, or broke. */
module Readers {
  import opened Wrappers

  datatype Status = More | EndOfFile | Broken

  /** Nothing outside p[lo..hi] has changed. */
  ghost predicate Kept(was: seq<Byte>, p: seq<Byte>, lo: nat, hi: nat) {
    |p| == |was| && forall i | 0 <= i < |p| && (i < lo || hi <= i) :: p[i] == was[i]
  }

  /** What every Read keeps: it delivers the next n bytes of what is left, into the buffer it was given. */
  ghost predicate Delivered(before: seq<Byte>, after: seq<Byte>, was: seq<Byte>, p: seq<Byte>, lo: nat, hi: nat,
                            n: nat)
  {
    && lo + n <= hi <= |p| && n <= |before|
    && Kept(was, p, lo, hi)
    && p[lo..lo + n] == before[..n]
    && after == before[n..]
  }

  lemma DeliveredMoves(before: seq<Byte>, after: seq<Byte>, was: seq<Byte>, p: seq<Byte>, lo: nat, hi: nat, n: nat)
    requires Delivered(before, after, was, p, lo, hi, n)
    ensures p[..lo + n] + after == was[..lo] + before
  {
    assert p[..lo] == was[..lo];
    assert p[..lo + n] == p[..lo] + p[lo..lo + n];
    assert before == before[..n] + before[n..];
  }

  /** Delivered into a shorter buffer, and so into the whole one. */
  lemma DeliveredWithin(before: seq<Byte>, after: seq<Byte>, was: seq<Byte>, p: seq<Byte>, lo: nat, end: nat, hi: nat,
                        n: nat)
    requires Delivered(before, after, was, p, lo, end, n) && end <= hi <= |p|
    ensures Delivered(before, after, was, p, lo, hi, n)
  {
  }

  /** The first bytes of a limited stream. */
  function Limited(stream: seq<Byte>, limit: int): seq<Byte> {
    if limit <= 0 then [] else if limit < |stream| then stream[..limit] else stream
  }

  lemma DeliveredLimited(before: seq<Byte>, after: seq<Byte>, was: seq<Byte>, p: seq<Byte>, lo: nat, hi: nat, n: nat,
                         limit: nat)
    requires Delivered(before, after, was, p, lo, hi, n) && n <= limit
    ensures Delivered(Limited(before, limit), Limited(after, limit - n), was, p, lo, hi, n)
  {
  }

  /** What is read of a stream is read of whatever it is the front of. */
  lemma DeliveredAhead(before: seq<Byte>, after: seq<Byte>, was: seq<Byte>, p: seq<Byte>, lo: nat, hi: nat, n: nat,
                       behind: seq<Byte>)
    requires Delivered(before, after, was, p, lo, hi, n)
    ensures Delivered(before + behind, after + behind, was, p, lo, hi, n)
  {
  }

  // ---------------------------------------------------------------- byte slices

  /** byteSliceReader; a bytes.Reader reads the same way. */
  class ByteSliceReader {
    const data: seq<Byte>
    var pos: nat

    constructor (data: seq<Byte>)
      ensures this.data == data && Rest() == data
    {
      this.data := data;
      pos := 0;
    }

    ghost function Rest(): seq<Byte>
      reads this
    {
      if pos <= |data| then data[pos..] else []
    }

    method Read(p: array<Byte>, lo: nat, hi: nat) returns (n: nat, status: Status)
      requires lo <= hi <= p.Length
      modifies this, p
      ensures Delivered(old(Rest()), Rest(), old(p[..]), p[..], lo, hi, n)
      ensures n == Min(hi - lo, |old(Rest())|)
      ensures status == if old(Rest()) == [] then EndOfFile else More
    {
      if pos >= |data| {
        return 0, EndOfFile;
      }
      n, status := Min(hi - lo, |data| - pos), More;
      forall i | 0 <= i < n {
        p[lo + i] := data[pos + i];
      }
      pos := pos + n;
    }
  }

  /** io.LimitReader over a byteSliceReader. */
  class LimitedReader {
    const source: ByteSliceReader
    var left: int

    constructor (source: ByteSliceReader, limit: int)
      ensures this.source == source && left == limit
    {
      this.source := source;
      left := limit;
    }

    ghost function Rest(): seq<Byte>
      reads this, source
    {
      Limited(source.Rest(), left)
    }

    method Read(p: array<Byte>, lo: nat, hi: nat) returns (n: nat, status: Status)
      requires lo <= hi <= p.Length
      modifies this, source, p
      ensures Delivered(old(Rest()), Rest(), old(p[..]), p[..], lo, hi, n)
      ensures n == Min(hi - lo, |old(Rest())|)
      ensures status == if old(Rest()) == [] then EndOfFile else More
    {
      if left <= 0 {
        return 0, EndOfFile;
      }
      var end := if hi - lo > left then lo + left else hi;
      ghost var before, was, limit := source.Rest(), p[..], left;
      n, status := source.Read(p, lo, end);
      left := left - n;
      DeliveredWithin(before, source.Rest(), was, p[..], lo, end, hi, n);
      DeliveredLimited(before, source.Rest(), was, p[..], lo, hi, n, limit);
    }
  }

  /** bytesReader: the upload body for a byte slice. */
  method BytesReader(b: seq<Byte>) returns (r: LimitedReader)
    ensures fresh(r) && fresh(r.source) && r.Rest() == b
  {
    var source := new ByteSliceReader(b);
    r := new LimitedReader(source, |b|);
  }

  method ReadChunk(r: LimitedReader, size: nat) returns (chunk: seq<Byte>, status: Status)
    requires size >= 1
    modifies r, r.source
    ensures chunk + r.Rest() == old(r.Rest())
    ensures if old(r.Rest()) == [] then status == EndOfFile && chunk == [] else status == More && chunk != []
  {
    var p := new Byte[size];
    ghost var was := p[..];
    var n;
    n, status := r.Read(p, 0, size);
    DeliveredMoves(old(r.Rest()), r.Rest(), was, p[..], 0, size, n);
    chunk := p[..n];
  }

  /** Drained with buffers of any positive sizes, bytesReader yields its bytes and then ends, after
      at most one read a byte and one for the end. */
  method Drain(b: seq<Byte>, bufferSize: nat -> nat) returns (out: seq<Byte>, count: nat)
    requires forall i :: bufferSize(i) >= 1
    ensures out == b && 1 <= count <= |b| + 1
  {
    var r := BytesReader(b);
    out, count := [], 0;
    var status := More;
    while status == More
      invariant fresh(r) && fresh(r.source)
      invariant out + r.Rest() == b
      invariant if status == More then count <= |out| else r.Rest() == [] && 1 <= count <= |out| + 1
      decreases |r.Rest()|, status == More
    {
      var chunk;
      chunk, status := ReadChunk(r, bufferSize(count));
      Associative(out, chunk, r.Rest());
      out := out + chunk;
      count := count + 1;
    }
  }

  // ---------------------------------------------------------------- response bodies

  /** What is left of a list of chunks of which the first n bytes, all in the first chunk, are taken. */
  lemma TakenFromFirst(chunks: seq<seq<Byte>>, n: nat)
    requires chunks != [] && n <= |chunks[0]|
    ensures n <= |Flatten(chunks)| && Flatten(chunks)[..n] == chunks[0][..n]
    ensures Flatten(if n == |chunks[0]| then chunks[1..] else [chunks[0][n..]] + chunks[1..]) == Flatten(chunks)[n..]
  {
    var chunk := chunks[0];
    if n < |chunk| {
      assert ([chunk[n..]] + chunks[1..])[1..] == chunks[1..];
    }
  }

  /** A response body: it arrives in chunks of any sizes, even empty ones, and then ends or breaks;
      the end may be reported together with the last bytes or on a later read. */
  class BodyReader {
    var chunks: seq<seq<Byte>>
    const clean: bool
    const early: bool

    constructor (chunks: seq<seq<Byte>>, clean: bool, early: bool)
      ensures this.chunks == chunks && this.clean == clean && this.early == early
    {
      this.chunks, this.clean, this.early := chunks, clean, early;
    }

    ghost function Rest(): seq<Byte>
      reads this
    {
      Flatten(chunks)
    }

    function End(): Status {
      if clean then EndOfFile else Broken
    }

    method Read(p: array<Byte>, lo: nat, hi: nat) returns (n: nat, status: Status)
      requires lo < hi <= p.Length
      modifies this, p
      ensures Delivered(old(Rest()), Rest(), old(p[..]), p[..], lo, hi, n)
      ensures status != More ==> status == End() && chunks == []
      ensures old(chunks) == [] ==> status != More
      ensures status == More ==> |chunks| < |old(chunks)| || (|chunks| == |old(chunks)| && n > 0)
    {
      if chunks == [] {
        return 0, End();
      }
      ghost var was, all := p[..], chunks;
      var chunk := chunks[0];
      n := Min(hi - lo, |chunk|);
      forall i | 0 <= i < n {
        p[lo + i] := chunk[i];
      }
      chunks := if n == |chunk| then chunks[1..] else [chunk[n..]] + chunks[1..];
      TakenFromFirst(all, n);
      assert p[lo..lo + n] == chunk[..n];
      status := if chunks == [] && early then End() else More;
    }
  }

  /** io.MultiReader of an optional byte reader and a body; each is dropped at its end of file. */
  class MultiReader {
    var first: Option<ByteSliceReader>
    const body: BodyReader

    constructor (first: Option<ByteSliceReader>, body: BodyReader)
      ensures this.first == first && this.body == body
    {
      this.first, this.body := first, body;
    }

    ghost function Parts(): set<object>
      reads this
    {
      {this, body} + if first.Some? then {first.value} else {}
    }

    ghost function Rest(): seq<Byte>
      reads Parts()
    {
      (if first.Some? then first.value.Rest() else []) + body.Rest()
    }

    /** Decreases at every read that is not the last. */
    ghost function Reads(): nat
      reads Parts()
    {
      |Rest()| + |body.chunks|
    }

    method Read(p: array<Byte>, lo: nat, hi: nat) returns (n: nat, status: Status)
      requires lo < hi <= p.Length
      modifies Parts(), p
      ensures Parts() <= old(Parts())
      ensures Delivered(old(Rest()), Rest(), old(p[..]), p[..], lo, hi, n)
      ensures status != More ==> status == body.End() && Rest() == []
      ensures status == More ==> Reads() < old(Reads())
    {
      if first.Some? {
        ghost var before, was := first.value.Rest(), p[..];
        n, status := first.value.Read(p, lo, hi);
        DeliveredAhead(before, first.value.Rest(), was, p[..], lo, hi, n, body.Rest());
        if status == More {
          return;
        }
        first := None;
      }
      n, status := body.Read(p, lo, hi);
    }
  }

  /** append(b, 0): the same bytes on a longer array. */
  method Grow(b: array<Byte>) returns (grown: array<Byte>)
    ensures fresh(grown) && grown.Length > b.Length && grown[..b.Length] == b[..]
  {
    var capacity: nat :| capacity > b.Length;
    grown := new Byte[capacity];
    forall i | 0 <= i < b.Length {
      grown[i] := b[i];
    }
  }

  /** One turn of io.ReadAll's loop: read behind the first len bytes, and make room if none is left. */
  method ReadMore(r: MultiReader, b: array<Byte>, len: nat)
    returns (b': array<Byte>, len': nat, status: Status)
    requires len < b.Length && b !in r.Parts()
    modifies r.Parts(), b
    ensures r.Parts() <= old(r.Parts())
    ensures (b' == b || fresh(b')) && len' <= b'.Length && (status == More ==> len' < b'.Length)
    ensures b'[..len'] + r.Rest() == old(b[..len] + r.Rest())
    ensures status != More ==> status == r.body.End() && r.Rest() == []
    ensures status == More ==> r.Reads() < old(r.Reads())
  {
    ghost var was, left := b[..], r.Rest();
    var n;
    n, status := r.Read(b, len, b.Length);
    DeliveredMoves(left, r.Rest(), was, b[..], len, b.Length, n);
    assert was[..len] == old(b[..len]);
    b', len' := b, len + n;
    if status == More && len' == b.Length {
      b' := Grow(b);
      assert b'[..len'] == b[..len'];
    }
  }

  /** io.ReadAll: reads into a growing buffer until the end; ok says the stream ended cleanly. */
  method ReadAll(r: MultiReader) returns (all: seq<Byte>, ok: bool)
    modifies r.Parts()
    ensures all == old(r.Rest()) && ok == r.body.clean
  {
    var b := new Byte[512];
    var len: nat, status := 0, More;
    while status == More
      invariant len <= b.Length && (status == More ==> len < b.Length)
      invariant fresh(b) && r.Parts() <= old(r.Parts()) && b !in r.Parts()
      invariant b[..len] + r.Rest() == old(r.Rest())
      invariant status != More ==> status == r.body.End() && r.Rest() == []
      decreases status == More, r.Reads()
    {
      b, len, status := ReadMore(r, b, len);
    }
    all, ok := b[..len], status == EndOfFile;
  }

  /** io.ReadFull for a one-byte buffer, as the result peek[:n]. */
  method Peek(body: BodyReader) returns (peek: seq<Byte>)
    modifies body
    ensures |peek| <= 1 && peek + body.Rest() == old(body.Rest())
    ensures peek == [] <==> old(body.Rest()) == []
  {
    var p := new Byte[1];
    var n: nat, status := 0, More;
    while n < 1 && status == More
      invariant n <= 1 && fresh(p)
      invariant p[..n] + body.Rest() == old(body.Rest())
      invariant n == 0 && status != More ==> body.Rest() == []
      decreases n < 1 && status == More, |body.chunks|
    {
      n, status := body.Read(p, 0, 1);
    }
    peek := p[..n];
  }

  /** io.MultiReader(bytes.NewReader(peek), body), read to its end. */
  method ReadPeeked(peek: seq<Byte>, body: BodyReader) returns (all: seq<Byte>, ok: bool)
    modifies body
    ensures all == peek + old(body.Rest()) && ok == body.clean
  {
    var front := new ByteSliceReader(peek);
    var full := new MultiReader(Some(front), body);
    assert full.Rest() == peek + body.Rest();
    all, ok := ReadAll(full);
  }

  /** Deploy's look at a part: the first byte decides, and whoever reads on sees the whole body, for
      every way the body can be cut into reads, the empty body included. */
  method PeekThenReadAll(body: BodyReader) returns (sentinel: bool, all: seq<Byte>, ok: bool)
    modifies body
    ensures all == old(body.Rest()) && ok == body.clean
    ensures sentinel <==> all != [] && all[0] == '{' as Byte
  {
    var peek := Peek(body);
    sentinel := |peek| == 1 && peek[0] == '{' as Byte;
    all, ok := ReadPeeked(peek, body);
  }
}
