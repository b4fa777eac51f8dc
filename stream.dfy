/** A C `FILE*` as `readline` sees it: `fgetc`, `feof`, `ferror`.
    The stream is the finite sequence of characters it will deliver; when
    that sequence runs out, `fgetc` yields EOF and sets either the
    end-of-file indicator or, for a stream whose end is a read failure,
    the error indicator. Both indicators are sticky, as in C. */
module CharStream {

  /** What one call of `fgetc` yields: a character, or EOF. */
  datatype Got = Char(c: char) | Eof

  class Stream {
    /** The characters the stream delivers, in order. */
    const data: seq<char>
    /** True when running out of data is a read error rather than end-of-file. */
    const failsAtEnd: bool
    /** True when this stream is the process's standard input. */
    const isStdin: bool
    /** Number of characters already delivered. */
    var pos: nat
    var eof: bool
    var error: bool

    ghost predicate Valid()
      reads this
    {
      && pos <= |data|
      && (eof || error ==> pos == |data|)
      && (eof ==> !failsAtEnd)
      && (error ==> failsAtEnd)
    }

    /** The characters not yet delivered. */
    function Rest(): seq<char>
      reads this
      requires Valid()
    {
      data[pos..]
    }

    /** `feof(file) || ferror(file)`. */
    function Ended(): bool
      reads this
    {
      eof || error
    }

    constructor (data: seq<char>, failsAtEnd: bool, isStdin: bool)
      ensures Valid()
      ensures this.data == data && this.failsAtEnd == failsAtEnd && this.isStdin == isStdin
      ensures pos == 0 && !eof && !error
    {
      this.data := data;
      this.failsAtEnd := failsAtEnd;
      this.isStdin := isStdin;
      pos := 0;
      eof := false;
      error := false;
    }

    /** `fgetc`: the next character, or EOF once the data is exhausted,
        in which case the matching indicator is set. */
    method GetC() returns (g: Got)
      requires Valid()
      modifies this
      ensures Valid()
      ensures old(pos) < |data| ==>
        g == Char(data[old(pos)]) && pos == old(pos) + 1 && eof == old(eof) && error == old(error)
      ensures old(pos) == |data| ==>
        && g == Eof && pos == old(pos)
        && eof == (old(eof) || !failsAtEnd)
        && error == (old(error) || failsAtEnd)
    {
      if pos < |data| {
        g := Char(data[pos]);
        pos := pos + 1;
      } else {
        g := Eof;
        if failsAtEnd {
          error := true;
        } else {
          eof := true;
        }
      }
    }
  }
}
