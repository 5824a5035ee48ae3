/** Random access to a file of a backup, made from a stream that can only go forward:
  the position of the open stream decides whether a read can use it.
 */
module ObjectFile {
  import opened Order
  import opened Common

  datatype End = Clean | Eof | UnexpectedEof | Failed | Refused

  /** How the repository behaves during one call: whether it opens the object, and
      after how many bytes a stream breaks, if it does. */
  datatype Weather = Weather(opens: bool, breaks: Option<nat>) {
    predicate Fair() {
      opens && breaks.None?
    }
  }

  function Min(a: int, b: int): (m: int)
    ensures m <= a && m <= b && (m == a || m == b)
  {
    if a <= b then a else b
  }

  /** How many of `want` bytes a stream with `left` bytes gives in this weather. */
  function Given(w: Weather, left: nat, want: nat): (n: nat)
    ensures n <= left && n <= want
    ensures w.breaks.None? ==> n == Min(left, want)
  {
    var n := Min(left, want);
    if w.breaks.Some? then Min(n, w.breaks.value) else n
  }

  /** A shortfall is a break of the stream, not its end. */
  predicate Broken(w: Weather, left: nat, want: nat) {
    w.breaks.Some? && w.breaks.value < Min(left, want)
  }

  function After(w: Weather, used: nat): (r: Weather)
    ensures w.Fair() ==> r == w
  {
    if w.breaks.Some? && used <= w.breaks.value then w.(breaks := Some(w.breaks.value - used)) else w
  }

  /** The read of a file that is held as plain bytes. */
  function PlainRead(content: Bytes, size: nat, len: nat, off: nat): (r: (Bytes, End))
    requires size <= |content|
    ensures |r.0| <= len && (r.1 == Clean ==> |r.0| == len)
  {
    if off >= size then ([], Eof)
    else if len == 0 then ([], Clean)
    else if off + len > size then (content[off..size], Eof)
    else (content[off..off + len], Clean)
  }

  class File {
    const content: Bytes
    const size: nat
    var stream: Option<Bytes>
    var pos: nat
    var closed: bool

    /** An open stream holds what the object has after the position. */
    ghost predicate Valid()
      reads this
    {
      stream.Some? ==> pos <= |content| && stream.value == content[pos..]
    }

    constructor (content: Bytes, size: nat)
      ensures Valid() && this.content == content && this.size == size && !closed && stream.None?
    {
      this.content, this.size := content, size;
      stream, pos, closed := None, 0, false;
    }

    method Drop()
      modifies this`stream
      ensures Valid() && stream.None?
    {
      stream := None;
    }

    method Close()
      modifies this`stream, this`closed
      ensures Valid() && closed
    {
      closed := true;
      Drop();
    }

    /** Starts the stream again and skips to an offset. */
    method Restart(off: nat, w: Weather) returns (end: End, rest: Weather)
      modifies this`stream, this`pos
      ensures Valid()
      ensures end == Clean ==> stream.Some? && pos == off
      ensures end == Clean || end == UnexpectedEof || end == Failed
      ensures end == UnexpectedEof ==> off > |content|
      ensures w.Fair() ==> rest == w && (end == Clean <==> off <= |content|) && end != Failed
      ensures !w.opens ==> end == Failed
    {
      Drop();
      rest := w;
      if !w.opens {
        return Failed, w;
      }
      if off > 0 {
        var skipped := Given(w, |content|, off);
        rest := After(w, skipped);
        if skipped < off {
          return if Broken(w, |content|, off) then Failed else UnexpectedEof, rest;
        }
      }
      stream, pos := Some(content[off..]), off;
      end := Clean;
    }

    /** Reads from the open stream; it is dropped when it does not give enough. */
    method Fill(len: nat, w: Weather) returns (data: Bytes, end: End)
      requires Valid() && stream.Some? && pos < size && len > 0
      modifies this`stream, this`pos
      ensures Valid()
      ensures var off := old(pos); var want := Min(len, size - off);
              && |data| <= want && off + |data| <= |content| && data == content[off..off + |data|]
              && (end == Clean ==> |data| == len)
              && (end == Eof ==> off + |data| == size && |data| < len)
              && (end == UnexpectedEof ==> off + |data| == |content| < size)
              && end != Refused
              && (w.breaks.None? ==> end != Failed)
    {
      var want := Min(len, size - pos);
      var left := stream.value;
      var n := Given(w, |left|, want);
      data := left[..n];
      stream, pos := Some(left[n..]), pos + n;
      if n == want {
        return data, if n < len then Eof else Clean;
      }
      Drop();
      end := if Broken(w, |left|, want) then Failed else UnexpectedEof;
    }

    /** ReadAt. Whatever was read before, the bytes are the object's bytes at the
        offset, a shortfall is never clean, and with a repository that answers the
        read of a complete object is the plain one. */
    method ReadAt(len: nat, off: int, w: Weather) returns (data: Bytes, end: End)
      requires Valid()
      modifies this`stream, this`pos
      ensures Valid()
      ensures closed || off < 0 <==> end == Refused
      ensures data != [] ==>
                && 0 <= off && off + |data| <= |content| && off + |data| <= size
                && data == content[off..off + |data|]
      ensures end == Clean ==> |data| == len
      ensures end == Eof ==> off >= size || (off + |data| == size && |data| < len)
      ensures end == UnexpectedEof ==> |content| < size
      ensures !closed && 0 <= off < size && len > 0 && Min(off + len, size) > |content| ==>
                end == UnexpectedEof || end == Failed
      ensures w.Fair() && size <= |content| && !closed && off >= 0 ==> (data, end) == PlainRead(content, size, len, off)
      ensures w.Fair() ==> end != Failed
      ensures !w.opens && old(stream).None? && !closed && 0 <= off < size && len > 0 ==> data == [] && end == Failed
    {
      if closed || off < 0 {
        return [], Refused;
      }
      if off >= size {
        return [], Eof;
      }
      if len == 0 {
        return [], Clean;
      }
      var rest := w;
      if stream.None? || off != pos {
        end, rest := Restart(off, w);
        if end != Clean {
          return [], end;
        }
      }
      data, end := Fill(len, rest);
    }

    /** A copy of the file from front to back, in reads of any size. */
    method CopyAll(chunk: nat) returns (data: Bytes)
      requires Valid() && chunk > 0 && size <= |content| && !closed
      modifies this`stream, this`pos
      ensures Valid() && data == content[..size]
    {
      data := [];
      while |data| < size
        invariant Valid() && |data| <= size && data == content[..|data|]
        decreases size - |data|
      {
        var more, _ := ReadAt(chunk, |data|, Weather(true, None));
        assert data + more == content[..|data| + |more|];
        data := data + more;
      }
    }
  }
}
