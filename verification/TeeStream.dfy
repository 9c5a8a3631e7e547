/** `TeeStream`: a stream adapter that hands each chunk to its reader and copies
    it to a writer. Its environment is a script of what the source and the
    writer answer to each poll; a script that has run out answers "pending". */
module TeeStream {
  import opened Entries

  datatype SourceAnswer = Chunk(bytes: Bytes) | SourceError | End | SourcePending

  /** A writer takes any part of the buffer, fails, or is not ready. */
  datatype WriterAnswer = Took(n: nat) | WriterError | WriterPending

  datatype Poll = Pending | Failure | Item(bytes: Bytes) | Finished

  function Payload(a: SourceAnswer): Bytes {
    match a
    case Chunk(b) => b
    case _ => []
  }

  /** All bytes in the chunks of a source. */
  function BytesOf(source: seq<SourceAnswer>): Bytes {
    if source == [] then [] else BytesOf(source[..|source| - 1]) + Payload(source[|source| - 1])
  }

  /** What a poll answers with nothing left to write: the chunk or the error that
      the source has ready; after its end, that the stream is finished as soon
      as the writer has shut down; and pending while the source is. */
  predicate Answered(source: seq<SourceAnswer>, writer: seq<WriterAnswer>, r: Poll) {
    if source == [] then r == Pending
    else
      match source[0]
      case Chunk(bytes) => r == Item(bytes)
      case SourceError => r == Failure
      case SourcePending => r == Pending
      case End => r == if writer == [] || writer[0].WriterPending? then Pending else Finished
  }

  /** Moving the first `n` bytes of a buffer to what has been written. */
  lemma TakePart(written: Bytes, buf: Bytes, n: nat)
    requires n <= |buf|
    ensures (written + buf[..n]) + buf[n..] == written + buf
    ensures n == |buf| ==> (written + buf[..n]) + [] == written + buf
  {
    assert buf == buf[..n] + buf[n..];
  }

  class Tee {
    var source: seq<SourceAnswer>
    var writer: seq<WriterAnswer>
    var writeBuf: Option<Bytes>
    var streamDone: bool

    ghost const script: seq<SourceAnswer>  // everything the source will answer
    ghost var polled: seq<SourceAnswer>  // its answers so far
    ghost var written: Bytes
    ghost var emitted: Bytes

    ghost function Unwritten(): Bytes
      reads this
    {
      if writeBuf.Some? then writeBuf.value else []
    }

    ghost predicate Valid()
      reads this
    {
      && script == polled + source
      && written + Unwritten() == emitted
      && emitted == BytesOf(polled)
      && (streamDone <==> polled != [] && polled[|polled| - 1].End?)
    }

    constructor (source: seq<SourceAnswer>, writer: seq<WriterAnswer>)
      ensures Valid() && polled == [] && script == source
    {
      this.source, this.writer, this.script := source, writer, source;
      writeBuf, streamDone := None, false;
      polled, written, emitted := [], [], [];
    }

    /** The first part of a buffer has been taken, or all of it. */
    ghost static predicate FirstTook(buf: Option<Bytes>, before: seq<WriterAnswer>, rest: Option<Bytes>,
                                     after: seq<WriterAnswer>, was: Bytes, now: Bytes)
    {
      && buf.Some? && before != [] && before[0].Took?
      && (before[0].n >= |buf.value| ==> rest == None && after == before[1..] && now == was + buf.value)
    }

    method AskWriter() returns (a: WriterAnswer)
      modifies this`writer
      ensures |writer| <= |old(writer)| && (!a.WriterPending? ==> |writer| < |old(writer)|)
      ensures old(writer) == [] ==> a == WriterPending && writer == []
      ensures old(writer) != [] ==> a == old(writer)[0] && writer == old(writer)[1..]
    {
      if writer == [] {
        return WriterPending;
      }
      a, writer := writer[0], writer[1..];
    }

    method AskSource() returns (a: SourceAnswer)
      requires Valid() && !streamDone
      modifies this`source, this`polled
      ensures script == polled + source && old(polled) <= polled
      ensures BytesOf(polled) == old(BytesOf(polled)) + Payload(a)
      ensures a.End? <==> polled != [] && polled[|polled| - 1].End?
      ensures old(source) == [] ==> a == SourcePending && source == []
      ensures old(source) != [] ==> a == old(source)[0] && source == old(source)[1..]
    {
      if source == [] {
        return SourcePending;
      }
      assert (polled + [source[0]])[..|polled|] == polled;
      a, source := source[0], source[1..];
      polled := polled + [a];
    }

    /** The first part of the poll loop: offer the pending buffer until it is
        taken, or stop with what the writer answered. */
    method FlushBuffer() returns (stop: Option<Poll>)
      requires Valid()
      modifies this`writer, this`writeBuf, this`written
      ensures Valid() && |old(written)| <= |written| && |writer| <= |old(writer)|
      ensures stop == None ==> writeBuf == None
      ensures stop.Some? ==> stop.value.Pending? || stop.value.Failure?
      ensures old(writeBuf) == None ==> stop == None && writer == old(writer) && written == old(written)
      ensures old(writeBuf).Some? && old(writer) != [] && old(writer)[0].Took? &&
              old(writer)[0].n >= |old(writeBuf).value| ==>
                stop == None && writer == old(writer)[1..] && written == old(written) + old(writeBuf).value
      ensures old(writeBuf).Some? && (old(writer) == [] || old(writer)[0].WriterPending?) ==> stop == Some(Pending)
      ensures old(writeBuf).Some? && old(writer) != [] && old(writer)[0].WriterError? ==> stop == Some(Failure)
    {
      stop := None;
      while writeBuf.Some?
        invariant (writeBuf == old(writeBuf) && writer == old(writer) && written == old(written)) ||
                  FirstTook(old(writeBuf), old(writer), writeBuf, writer, old(written), written)
        invariant Valid() && |old(written)| <= |written| && |writer| <= |old(writer)|
        decreases |writer|, writeBuf.Some?
      {
        var buf := writeBuf.value;
        var w := AskWriter();
        match w {
          case Took(asked) =>
            var n := if asked > |buf| then |buf| else asked;
            TakePart(written, buf, n);
            written := written + buf[..n];
            writeBuf := if n == |buf| then None else Some(buf[n..]);
          case WriterError => return Some(Failure);
          case WriterPending => return Some(Pending);
        }
      }
    }

    /** `poll_next`. At every poll the bytes written followed by the pending
        buffer are the bytes emitted; only a returned chunk adds to them; and
        when the stream ends everything the source supplied has been emitted
        and written. */
    method PollNext() returns (r: Poll)
      requires Valid()
      modifies this
      ensures Valid() && old(polled) <= polled && |old(written)| <= |written|
      ensures emitted == old(emitted) + (if r.Item? then r.bytes else [])
      ensures r.Finished? ==> streamDone && written == emitted == BytesOf(polled)
      ensures old(streamDone) ==> polled == old(polled)
      ensures old(writeBuf) == None && !old(streamDone) ==> Answered(old(source), old(writer), r)
      ensures old(writeBuf).Some? && old(writer) != [] && old(writer)[0].Took? &&
              old(writer)[0].n >= |old(writeBuf).value| && !old(streamDone) ==>
                Answered(old(source), old(writer)[1..], r)
      ensures old(writeBuf).Some? && (old(writer) == [] || old(writer)[0].WriterPending?) ==> r == Pending
      ensures old(writeBuf).Some? && old(writer) != [] && old(writer)[0].WriterError? ==> r == Failure
    {
      var stop := FlushBuffer();
      if stop.Some? {
        r := stop.value;
      } else {
        r := PollSource();
      }
    }

    /** The rest of the loop, with nothing left to write: shut the writer down
        after the end of the source, and otherwise take the next chunk. */
    method PollSource() returns (r: Poll)
      requires Valid() && writeBuf == None
      modifies this`source, this`polled, this`writer, this`writeBuf, this`emitted, this`streamDone
      ensures Valid() && old(polled) <= polled
      ensures emitted == old(emitted) + (if r.Item? then r.bytes else [])
      ensures r.Finished? ==> streamDone && written == emitted == BytesOf(polled)
      ensures old(streamDone) ==> polled == old(polled)
      ensures !old(streamDone) ==> Answered(old(source), old(writer), r)
    {
      assert written == emitted by { assert written + [] == written; }
      if !streamDone {
        var s := AskSource();
        match s {
          case Chunk(bytes) =>
            writeBuf := Some(bytes);
            emitted := emitted + bytes;
            return Item(bytes);
          case SourceError => return Failure;
          case End => streamDone := true;
          case SourcePending => return Pending;
        }
      }
      var w := AskWriter();
      r := if w.WriterPending? then Pending else Finished;
    }
  }

  /** A reader that polls up to `patience` times and keeps what it is given: if
      it gets to the end, it has exactly the source's bytes, and so has the
      writer, whatever errors and delays came in between. */
  method ReadAll(tee: Tee, patience: nat) returns (got: Bytes, finished: bool)
    requires tee.Valid() && tee.polled == []
    modifies tee
    ensures tee.Valid() && tee.emitted == got
    ensures finished ==> tee.written == got == BytesOf(tee.polled)
    ensures finished ==> tee.polled != [] && tee.polled[|tee.polled| - 1].End?
    ensures tee.polled <= tee.script
  {
    got, finished := [], false;
    for i := 0 to patience
      invariant tee.Valid() && tee.emitted == got && !finished
    {
      var r := tee.PollNext();
      match r {
        case Item(bytes) => got := got + bytes;
        case Finished => finished := true; return;
        case _ =>
      }
    }
  }
}
