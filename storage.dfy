/**
 * The random-access object handle that the storage client hands to the proxy
 * (a minio object used as an io.ReaderAt and io.Closer). Its internals are not
 * part of this model: the handle holds the object's bytes and answers ReadAt
 * calls as the io.ReaderAt contract allows.
 */
module Storage {
  import opened Common

  /** The errors a handle reports: io.EOF, or any other backend failure. */
  datatype IoError = EOF | Fault

  /**
   * The answer of ReadAt(buf, off) with len(buf) == len on an object holding
   * `content`: the number of bytes delivered and the error.
   * `eofAtEnd` says whether a read that ends exactly at the end of the object
   * reports io.EOF (io.ReaderAt allows either); `fault` stands for a failed backend.
   */
  function ReadAtResult(content: seq<byte>, eofAtEnd: bool, fault: bool, off: nat, len: nat): (r: (nat, Option<IoError>))
    ensures r.0 <= len
    ensures r.0 > 0 ==> off + r.0 <= |content|
    // io.ReaderAt: a short read always comes with an error
    ensures r.0 < len ==> r.1.Some?
    // a healthy backend delivers every byte the object has from `off` on
    ensures !fault && off < |content| ==> r.0 == Min(len, |content| - off)
    ensures !fault && off + len <= |content| ==> r.0 == len
    // reading at or past the end of a healthy object gives nothing and io.EOF
    ensures !fault && off >= |content| ==> r == (0, Some(EOF))
    // a healthy backend reports no error but io.EOF
    ensures !fault && r.1.Some? ==> r.1 == Some(EOF)
    ensures !fault && !eofAtEnd && off + len < |content| ==> r.1 == None
    ensures fault ==> r == (0, Some(Fault))
  {
    if fault then (0, Some(Fault))
    else if off >= |content| then (0, Some(EOF))
    else
      var n := Min(len, |content| - off);
      (n, if n < len || (eofAtEnd && off + n == |content|) then Some(EOF) else None)
  }

  class ObjectHandle {
    /** The object's bytes. */
    const content: seq<byte>
    const eofAtEnd: bool
    const fault: bool
    /** What the backend reports when the handle is closed. */
    const closeError: Option<IoError>
    /** Whether Close has been called. */
    ghost var closed: bool

    constructor (content: seq<byte>, eofAtEnd: bool, fault: bool, closeError: Option<IoError>)
      ensures this.content == content && this.eofAtEnd == eofAtEnd
      ensures this.fault == fault && this.closeError == closeError
      ensures !closed
    {
      this.content := content;
      this.eofAtEnd := eofAtEnd;
      this.fault := fault;
      this.closeError := closeError;
      closed := false;
    }

    /** io.ReaderAt.ReadAt: fills the front of `buf` with the bytes at offset `off`. */
    method ReadAt(buf: array<byte>, off: nat) returns (n: nat, err: Option<IoError>)
      modifies buf
      ensures (n, err) == ReadAtResult(content, eofAtEnd, fault, off, buf.Length)
      ensures forall i :: 0 <= i < n ==> buf[i] == content[off + i]
      ensures forall i :: n <= i < buf.Length ==> buf[i] == old(buf[i])
    {
      var res := ReadAtResult(content, eofAtEnd, fault, off, buf.Length);
      n, err := res.0, res.1;
      forall i | 0 <= i < n {
        buf[i] := content[off + i];
      }
    }

    /** io.Closer.Close: releases the handle and reports the backend's answer. */
    method Close() returns (err: Option<IoError>)
      modifies this
      ensures closed && err == closeError
    {
      closed := true;
      err := closeError;
    }
  }
}
