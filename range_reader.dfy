/**
 * The bounded range reader of ranger-reader.go: a cursor over a random-access
 * object handle that turns it into a sequential stream clipped to the
 * inclusive byte range [start, end].
 */
module RangeReading {
  import opened Common
  import opened Storage

  /** A requested byte range; `start` and `end` are inclusive offsets. */
  datatype Range = Range(enabled: bool, start: int, end: int)

  /** A cursor state of a reader over `rng`: 0 (not started) or inside [start, end + 1]. */
  predicate ValidCursor(rng: Range, index: int)
  {
    0 <= rng.start <= rng.end &&
    0 <= index <= rng.end + 1 &&
    (index == 0 || rng.start <= index)
  }

  /** The offset a read starts at: a zero cursor means "not started" and stands for rng.start. */
  function CursorOf(rng: Range, index: int): int
  {
    if index == 0 && rng.start > 0 then rng.start else index
  }

  /**
   * The outcome of one Read call: the count and error returned, the new
   * cursor, and the length of the buffer handed to ReadAt (0 when none).
   */
  datatype Step = Step(n: nat, err: Option<IoError>, index: int, asked: nat)

  /**
   * One call of Read from cursor `index` with a buffer of `len` bytes.
   * With `corrected` false this is the call as ranger-reader.go writes it; with
   * `corrected` true the large-buffer branch accepts io.EOF that comes with
   * every remaining byte. Every call keeps the cursor valid and never moves it
   * back, advances it by exactly the count returned, and never asks the handle
   * for a byte past rng.end.
   */
  function ReadStep(h: ObjectHandle, rng: Range, index: int, len: nat, corrected: bool): (s: Step)
    requires ValidCursor(rng, index)
    ensures ValidCursor(rng, s.index) && index <= s.index && CursorOf(rng, index) <= s.index
    ensures s.n <= len && CursorOf(rng, index) + s.asked <= rng.end + 1
    ensures index <= rng.end ==> s.index == CursorOf(rng, index) + s.n
    ensures index > rng.end ==> s == Step(0, Some(EOF), index, 0)
  {
    if index > rng.end then Step(0, Some(EOF), index, 0)
    else
      var cur := CursorOf(rng, index);
      var rem := rng.end - cur + 1;
      if len <= rem then
        var r := ReadAtResult(h.content, h.eofAtEnd, h.fault, cur, len);
        Step(r.0, r.1, cur + r.0, len)
      else
        var r := ReadAtResult(h.content, h.eofAtEnd, h.fault, cur, rem);
        if r.1.Some? && !(corrected && r.1 == Some(EOF) && r.0 == rem) then Step(0, r.1, cur, rem)
        else Step(rem, None, cur + rem, rem)
  }

  /**
   * With a buffer of at least one byte, a call without error makes progress;
   * with a backend that holds the whole range, the only error is EOF, and it
   * comes once the range is exhausted. As written this needs a backend that
   * reports EOF only on short reads (or a range that stops before the object's
   * end); corrected, any non-failing backend will do.
   */
  lemma ReadStepProgress(h: ObjectHandle, rng: Range, index: int, len: nat, corrected: bool)
    requires ValidCursor(rng, index) && len > 0
    ensures var s, cur := ReadStep(h, rng, index, len, corrected), CursorOf(rng, index);
      (s.err.None? ==> cur < s.index) &&
      (!h.fault && rng.end < |h.content| && (corrected || !h.eofAtEnd || rng.end + 1 < |h.content|) && s.err.Some? ==>
        s.err == Some(EOF) && s.index == rng.end + 1)
  {
  }

  /**
   * The lost final chunk: when the range reaches the end of the object, the
   * buffer is longer than what remains and the backend reports EOF with the
   * last bytes, Read returns (0, EOF) and keeps its cursor, where the
   * corrected call returns every remaining byte.
   */
  lemma ReadStepLosesFinalChunk(h: ObjectHandle, rng: Range, index: int, len: nat)
    requires ValidCursor(rng, index) && index <= rng.end
    requires !h.fault && h.eofAtEnd && rng.end + 1 == |h.content|
    requires len > rng.end - CursorOf(rng, index) + 1
    ensures var cur := CursorOf(rng, index); var rem := rng.end - cur + 1;
      ReadStep(h, rng, index, len, false) == Step(0, Some(EOF), cur, rem) &&
      ReadStep(h, rng, index, len, true) == Step(rem, None, rng.end + 1, rem)
  {
  }

  class RangeReader {
    const contentSize: int
    const rng: Range
    const handle: ObjectHandle
    /** Next offset to read; 0 until the first call moves it to rng.start. */
    var index: int

    /** The reader's invariant: the cursor stays inside [start, end + 1]. */
    ghost predicate Valid()
      reads this
    {
      ValidCursor(rng, index)
    }

    /** The offset the next read starts at, once the lazy start-up has run. */
    function Cursor(): int
      reads this
    {
      CursorOf(rng, index)
    }

    /** The struct literal of the handler: the cursor is still zero. */
    constructor (contentSize: int, rng: Range, handle: ObjectHandle)
      requires 0 <= rng.start <= rng.end
      ensures this.contentSize == contentSize && this.rng == rng && this.handle == handle
      ensures index == 0 && Valid() && Cursor() == rng.start
    {
      this.contentSize := contentSize;
      this.rng := rng;
      this.handle := handle;
      index := 0;
    }

    /** Close delegates to the handle and passes its answer back. */
    method Close() returns (err: Option<IoError>)
      modifies handle
      ensures handle.closed && err == handle.closeError
    {
      err := handle.Close();
    }

    /**
     * io.Reader.Read: the call does what ReadStep says, and the bytes it
     * returns are the handle's bytes from the cursor on. `corrected` selects
     * the fixed large-buffer branch (false is ranger-reader.go as written);
     * `asked` is the length of the buffer handed to ReadAt.
     */
    method Read(p: array<byte>, corrected: bool) returns (n: nat, err: Option<IoError>, ghost asked: nat)
      requires Valid()
      modifies this`index, p
      ensures Valid()
      ensures Step(n, err, index, asked) == ReadStep(handle, rng, old(index), p.Length, corrected)
      ensures forall i :: 0 <= i < n ==> p[i] == handle.content[old(Cursor()) + i]
      ensures forall i :: n <= i < p.Length ==> p[i] == old(p[i])
    {
      asked := 0;
      if index > rng.end {
        return 0, Some(EOF), asked;
      }
      if index == 0 && rng.start > 0 {
        index := rng.start;
      }
      if p.Length <= rng.end - index + 1 {
        asked := p.Length;
        n, err := handle.ReadAt(p, index);
        index := index + n;
        return;
      }
      asked := rng.end - index + 1;
      n, err := ReadRest(handle, p, index, rng.end - index + 1, corrected);
      index := index + n;
    }
  }

  /**
   * The large-buffer branch of Read (ranger-reader.go:42-51): fetch the `rem`
   * bytes left in the range into a scratch buffer p2, give up with (0, err) on
   * an error, and otherwise hand p2 out through bytes.Buffer.Read. As written
   * any error gives up; corrected, EOF that comes with all `rem` bytes does not.
   */
  method ReadRest(h: ObjectHandle, p: array<byte>, off: nat, rem: nat, corrected: bool) returns (n: nat, err: Option<IoError>)
    requires 0 < rem < p.Length
    modifies p
    ensures var r := ReadAtResult(h.content, h.eofAtEnd, h.fault, off, rem);
      if r.1.Some? && !(corrected && r.1 == Some(EOF) && r.0 == rem) then n == 0 && err == r.1
      else n == rem && err == None
    ensures forall i :: 0 <= i < n ==> p[i] == h.content[off + i]
    ensures forall i :: n <= i < p.Length ==> p[i] == old(p[i])
  {
    var p2 := new byte[rem];
    var read;
    read, err := h.ReadAt(p2, off);
    if err.Some? && !(corrected && err == Some(EOF) && read == p2.Length) {
      return 0, err;
    }
    n, err := BufferRead(p, p2[..]);
  }

  /**
   * bytes.NewBuffer(src).Read(p): copies as much of src as fits into the front
   * of p; an empty buffer gives io.EOF unless p is empty too.
   */
  method BufferRead(p: array<byte>, src: seq<byte>) returns (n: nat, err: Option<IoError>)
    modifies p
    ensures n == Min(p.Length, |src|)
    ensures err == if src == [] && p.Length > 0 then Some(EOF) else None
    ensures forall i :: 0 <= i < n ==> p[i] == src[i]
    ensures forall i :: n <= i < p.Length ==> p[i] == old(p[i])
  {
    if src == [] {
      return 0, if p.Length == 0 then None else Some(EOF);
    }
    n := Min(p.Length, |src|);
    forall i | 0 <= i < n {
      p[i] := src[i];
    }
    err := None;
  }

  /**
   * One round of the consumer: a fresh buffer of `len` bytes handed to Read
   * (as written, or corrected), and the bytes it returns. They are always
   * the object's bytes from the old cursor to the new one.
   */
  method ReadChunk(r: RangeReader, len: nat, corrected: bool) returns (got: seq<byte>, err: Option<IoError>)
    requires r.Valid() && len > 0
    requires r.rng.end < |r.handle.content|
    modifies r`index
    ensures r.Valid() && old(r.Cursor()) <= r.Cursor()
    ensures got == r.handle.content[old(r.Cursor())..r.Cursor()]
    ensures err.None? ==> old(r.Cursor()) < r.Cursor()
    ensures err.Some? && !r.handle.fault && (corrected || !r.handle.eofAtEnd || r.rng.end + 1 < |r.handle.content|) ==>
      err == Some(EOF) && r.index == r.rng.end + 1
  {
    var p := new byte[len];
    ghost var cur := r.Cursor();
    ReadStepProgress(r.handle, r.rng, r.index, len, corrected);
    var n;
    ghost var asked;
    n, err, asked := r.Read(p, corrected);
    got := p[..n];
    assert got == r.handle.content[cur..r.Cursor()];
  }

  /**
   * The consumer of the reader, as io.Copy drives it: the i-th round hands
   * Read a fresh buffer of chunk(i) bytes, the bytes each round returns are
   * kept, and the first error ends the stream. With a handle that covers the
   * range and reports EOF only on a short read, the stream is exactly the
   * range; over the corrected Read, any non-failing handle will do.
   */
  method ReadAll(r: RangeReader, chunk: nat -> nat, corrected: bool) returns (out: seq<byte>, err: Option<IoError>)
    requires r.Valid()
    requires forall i :: chunk(i) > 0
    requires r.rng.end < |r.handle.content|
    modifies r
    ensures r.Valid() && err.Some?
    ensures old(r.Cursor()) <= r.Cursor() && out == r.handle.content[old(r.Cursor())..r.Cursor()]
    ensures !r.handle.fault && (corrected || !r.handle.eofAtEnd || r.rng.end + 1 < |r.handle.content|) ==>
      out == r.handle.content[old(r.Cursor())..r.rng.end + 1] &&
      err == Some(EOF) && r.index == r.rng.end + 1
  {
    ghost var c0 := r.Cursor();
    out, err := [], None;
    var i := 0;
    while err.None?
      invariant r.Valid() && c0 <= r.Cursor()
      invariant out == r.handle.content[c0..r.Cursor()]
      invariant err.Some? && !r.handle.fault && (corrected || !r.handle.eofAtEnd || r.rng.end + 1 < |r.handle.content|) ==>
        err == Some(EOF) && r.index == r.rng.end + 1
      decreases (if err.None? then 1 else 0) + r.rng.end + 1 - r.Cursor()
    {
      ghost var cur := r.Cursor();
      var got;
      got, err := ReadChunk(r, chunk(i), corrected);
      assert r.handle.content[c0..cur] + r.handle.content[cur..r.Cursor()] == r.handle.content[c0..r.Cursor()];
      out := out + got;
      i := i + 1;
    }
  }

  /**
   * The large-buffer branch as written: a three-byte object whose handle
   * reports EOF on the read that reaches its end, the range [1, 2] and an
   * eight-byte buffer. Both bytes are fetched, yet Read returns (0, EOF) and
   * the cursor stays at 1, so the stream ends with nothing delivered.
   */
  method LostFinalChunk() returns (n: nat, err: Option<IoError>, cursor: int)
    ensures n == 0 && err == Some(EOF) && cursor == 1
  {
    var h := new ObjectHandle([7, 8, 9], true, false, None);
    var r := new RangeReader(3, Range(true, 1, 2), h);
    var p := new byte[8];
    ghost var asked;
    n, err, asked := r.Read(p, false);
    cursor := r.index;
  }

  /** The same call on the corrected Read delivers the two bytes of the range. */
  method FinalChunkKept() returns (n: nat, err: Option<IoError>, got: seq<byte>)
    ensures n == 2 && err == None && got == [8, 9]
  {
    var h := new ObjectHandle([7, 8, 9], true, false, None);
    var r := new RangeReader(3, Range(true, 1, 2), h);
    var p := new byte[8];
    ghost var asked;
    n, err, asked := r.Read(p, true);
    got := p[..n];
  }
}
