/** `readline`: one logical line from a stream, read a character at a time
    into a growable buffer. A line ends at `\n`, `\r` or end of stream;
    terminators met before anything else on the line are skipped unless
    the stream is standard input; a backspace deletes the last buffered
    character. */
module LineReader {
  import opened CharStream

  const Backspace: char := '\U{8}'

  /** The buffer's capacity when `readline` starts. */
  const InitialCapacity: nat := 10

  predicate IsTerminator(c: char)
  {
    c == '\n' || c == '\r'
  }

  predicate NoTerminator(s: seq<char>)
  {
    forall i :: 0 <= i < |s| ==> !IsTerminator(s[i])
  }

  predicate AllTerminators(s: seq<char>)
  {
    forall i :: 0 <= i < |s| ==> IsTerminator(s[i])
  }

  /** The buffer after one non-terminator character: a backspace drops the
      last character (none on an empty buffer), anything else is appended. */
  function Put(buf: seq<char>, c: char): seq<char>
  {
    if c == Backspace then (if |buf| > 0 then buf[..|buf| - 1] else buf)
    else buf + [c]
  }

  /** Typing `s` after `buf`, with backspaces applied. */
  function Edit(buf: seq<char>, s: seq<char>): seq<char>
    decreases |s|
  {
    if s == [] then buf else Edit(Put(buf, s[0]), s[1..])
  }

  /** Where a read stopped: the line, what was left unread, and whether
      the stream ran out (EOF or error) before a terminator ended the line. */
  datatype LineResult = LineResult(line: seq<char>, rest: seq<char>, atEnd: bool)

  /** The loop of `readline` as a function of the unread input, the
      "at beginning" flag and the buffer so far. */
  function Scan(input: seq<char>, stdin: bool, beg: bool, buf: seq<char>): (r: LineResult)
    ensures |r.rest| <= |input|
    ensures r.atEnd ==> r.rest == []
    ensures !r.atEnd ==> |r.rest| < |input|
    decreases |input|
  {
    if input == [] then LineResult(buf, [], true)
    else if IsTerminator(input[0]) then
      if beg && !stdin then Scan(input[1..], stdin, beg, buf)
      else LineResult(buf, input[1..], false)
    else Scan(input[1..], stdin, false, Put(buf, input[0]))
  }

  /** What is left unread is a suffix of the input; a read that did not
      reach the end stopped right after a terminator. */
  lemma {:induction false} ScanStopsAfterTerminator(input: seq<char>, stdin: bool, beg: bool, buf: seq<char>)
    ensures var r := Scan(input, stdin, beg, buf);
      && input[|input| - |r.rest|..] == r.rest
      && (!r.atEnd ==> IsTerminator(input[|input| - |r.rest| - 1]))
    decreases |input|
  {
    if input == [] {
    } else if IsTerminator(input[0]) && !(beg && !stdin) {
      assert input[1..] == input[|input| - |input[1..]|..];
    } else {
      var b := if IsTerminator(input[0]) then beg else false;
      var buf' := if IsTerminator(input[0]) then buf else Put(buf, input[0]);
      var r := Scan(input[1..], stdin, b, buf');
      assert Scan(input, stdin, beg, buf) == r;
      ScanStopsAfterTerminator(input[1..], stdin, b, buf');
      var k := |input| - |r.rest|;
      assert input[k..] == input[1..][k - 1..];
      if !r.atEnd {
        assert input[k - 1] == input[1..][k - 2];
      }
    }
  }

  /** The returned line never holds a terminator. */
  lemma {:induction false} ScanLineHasNoTerminator(input: seq<char>, stdin: bool, beg: bool, buf: seq<char>)
    requires NoTerminator(buf)
    ensures NoTerminator(Scan(input, stdin, beg, buf).line)
    decreases |input|
  {
    if input != [] {
      var c := input[0];
      if IsTerminator(c) {
        if beg && !stdin {
          ScanLineHasNoTerminator(input[1..], stdin, beg, buf);
        }
      } else {
        var buf' := Put(buf, c);
        assert NoTerminator(buf') by {
          if c != Backspace {
            assert forall i :: 0 <= i < |buf'| ==> buf'[i] == if i < |buf| then buf[i] else c;
          }
        }
        ScanLineHasNoTerminator(input[1..], stdin, false, buf');
      }
    }
  }

  /** Away from standard input, terminators at the start of a line are
      leftovers of the previous line's ending and are skipped. */
  lemma {:induction false} LeadingTerminatorsSkipped(t: seq<char>, s: seq<char>, buf: seq<char>)
    requires AllTerminators(t)
    ensures Scan(t + s, false, true, buf) == Scan(s, false, true, buf)
    decreases |t|
  {
    if t != [] {
      assert (t + s)[0] == t[0] && (t + s)[1..] == t[1..] + s;
      LeadingTerminatorsSkipped(t[1..], s, buf);
    } else {
      assert t + s == s;
    }
  }

  /** On standard input the first terminator ends the line, even on an
      empty one. */
  lemma StdinTerminatorEndsLine(input: seq<char>, beg: bool, buf: seq<char>)
    requires input != [] && IsTerminator(input[0])
    ensures Scan(input, true, beg, buf) == LineResult(buf, input[1..], false)
  {
  }

  /** Once a line has content, reading it is typing: the line is the body
      up to the terminator, with backspaces applied, and the terminator is
      consumed. */
  lemma {:induction false} ScanBody(body: seq<char>, rest: seq<char>, stdin: bool, beg: bool, buf: seq<char>)
    requires NoTerminator(body)
    requires rest == [] || IsTerminator(rest[0])
    requires beg && !stdin ==> body != [] || rest == []
    ensures Scan(body + rest, stdin, beg, buf)
      == LineResult(Edit(buf, body), if rest == [] then [] else rest[1..], rest == [])
    decreases |body|
  {
    if body == [] {
      assert body + rest == rest;
    } else {
      assert (body + rest)[0] == body[0] && (body + rest)[1..] == body[1..] + rest;
      ScanBody(body[1..], rest, stdin, false, Put(buf, body[0]));
    }
  }

  /** The reference reading of a line: skip the leftover terminators
      (none on standard input), then the line is the edited body up to the
      next terminator or the end of the stream. */
  lemma ReadLineReference(t: seq<char>, body: seq<char>, rest: seq<char>, stdin: bool)
    requires AllTerminators(t) && (stdin ==> t == [])
    requires NoTerminator(body) && (body != [] || rest == [])
    requires rest == [] || IsTerminator(rest[0])
    ensures Scan(t + body + rest, stdin, true, [])
      == LineResult(Edit([], body), if rest == [] then [] else rest[1..], rest == [])
  {
    if !stdin {
      assert t + body + rest == t + (body + rest);
      LeadingTerminatorsSkipped(t, body + rest, []);
    } else {
      assert t + body + rest == body + rest;
    }
    ScanBody(body, rest, stdin, true, []);
  }

  /** Typing a character and then a backspace leaves the buffer as it was. */
  lemma BackspaceUndoes(buf: seq<char>, c: char, s: seq<char>)
    requires c != Backspace
    ensures Edit(buf, [c, Backspace] + s) == Edit(buf, s)
  {
  }

  /** Without backspaces the line is the typed text itself. */
  lemma {:induction false} EditWithoutBackspace(buf: seq<char>, s: seq<char>)
    requires Backspace !in s
    ensures Edit(buf, s) == buf + s
    decreases |s|
  {
    if s != [] {
      assert Backspace !in s[1..];
      EditWithoutBackspace(buf + [s[0]], s[1..]);
      assert buf + [s[0]] + s[1..] == buf + s;
    }
  }

  /** Away from standard input, a read that stops at a terminator returns
      a non-empty line unless a backspace in what it consumed erased it. */
  lemma {:induction false} NoEmptyLineFromTerminators(input: seq<char>, beg: bool, buf: seq<char>)
    requires !beg ==> buf != []
    ensures var r := Scan(input, false, beg, buf);
      !r.atEnd && Backspace !in input[..|input| - |r.rest|] ==> r.line != []
    decreases |input|
  {
    var r := Scan(input, false, beg, buf);
    if input != [] && !r.atEnd {
      var k := |input| - |r.rest|;
      assert input[..k][0] == input[0];
      if input[0] != Backspace && !(IsTerminator(input[0]) && !beg) {
        var b := if IsTerminator(input[0]) then beg else false;
        var buf' := if IsTerminator(input[0]) then buf else Put(buf, input[0]);
        NoEmptyLineFromTerminators(input[1..], b, buf');
        assert input[1..][..k - 1] == input[1..k];
        assert input[..k] == [input[0]] + input[1..k];
      }
    }
  }

  /** The buffer's capacity after `k` growths. */
  function Capacity(k: nat): (c: nat)
    ensures c >= InitialCapacity
  {
    if k == 0 then InitialCapacity else Grow(Capacity(k - 1))
  }

  /** `buf_cap *= 1.5f`, in integers. */
  function Grow(cap: nat): (c: nat)
    requires cap >= 2
    ensures cap < c
  {
    cap * 3 / 2
  }

  /** `realloc`: a fresh array of `cap` characters keeping the first `size`. */
  method Realloc(buf: array<char>, size: nat, cap: nat) returns (nb: array<char>)
    requires size <= buf.Length && size <= cap
    ensures fresh(nb) && nb.Length == cap && nb[..size] == buf[..size]
  {
    nb := new char[cap](_ => '\0');
    forall i | 0 <= i < size {
      nb[i] := buf[i];
    }
  }

  /** The buffer work of `readline` for one character that is not a
      terminator: a backspace drops the last character if there is one;
      any other character is appended, after the capacity grows by half
      when the buffer is full. */
  method PutChar(buf: array<char>, size: nat, ch: char, ghost grown: nat)
      returns (nbuf: array<char>, nsize: nat, ghost ngrown: nat)
    requires size <= buf.Length == Capacity(grown)
    modifies buf
    ensures nbuf == buf || fresh(nbuf)
    ensures nsize <= nbuf.Length == Capacity(ngrown)
    ensures nbuf[..nsize] == Put(old(buf[..size]), ch)
    ensures ngrown == if ch != Backspace && size == buf.Length then grown + 1 else grown
  {
    nbuf, nsize, ngrown := buf, size, grown;
    if ch == Backspace {
      if size > 0 {
        nsize := size - 1;
      }
    } else {
      if size >= buf.Length {
        nbuf := Realloc(buf, size, Grow(buf.Length));
        ngrown := grown + 1;
      }
      nbuf[size] := ch;
      nsize := size + 1;
    }
  }

  /** `readline`. On a stream already at end-of-file or in error, NULL and
      size 0 and nothing is read. Otherwise a fresh NUL-terminated array
      whose first `size` characters are the line. */
  method ReadLine(file: Stream) returns (line: array?<char>, size: nat)
    requires file.Valid()
    modifies file
    ensures file.Valid()
    ensures old(file.Ended()) ==>
      line == null && size == 0 && file.pos == old(file.pos) && file.eof == old(file.eof) && file.error == old(file.error)
    ensures !old(file.Ended()) ==>
      var r := Scan(old(file.Rest()), file.isStdin, true, []);
      && line != null && fresh(line)
      && line.Length == size + 1 && line[..size] == r.line && line[size] == '\0'
      && file.Rest() == r.rest && file.Ended() == r.atEnd
  {
    if file.eof || file.error {
      return null, 0;
    }
    ghost var r := Scan(file.Rest(), file.isStdin, true, []);
    ghost var grown: nat := 0;
    size := 0;
    var buf := new char[InitialCapacity](_ => '\0');
    var beg := true;
    var stop := false;
    while !stop
      invariant file.Valid()
      invariant fresh(buf) && size <= buf.Length == Capacity(grown)
      invariant !stop ==> !file.Ended() && Scan(file.Rest(), file.isStdin, beg, buf[..size]) == r
      invariant stop ==> buf[..size] == r.line && file.Rest() == r.rest && file.Ended() == r.atEnd
      decreases |file.data| - file.pos, !stop
    {
      ghost var rest := file.Rest();
      var g := file.GetC();
      match g
      case Eof =>
        stop := true;
      case Char(ch) =>
        assert rest[0] == ch && rest[1..] == file.Rest();
        if ch == '\n' || ch == '\r' {
          if !(beg && !file.isStdin) {
            stop := true;
          }
        } else {
          beg := false;
          buf, size, grown := PutChar(buf, size, ch, grown);
        }
    }
    line := Realloc(buf, size, size + 1);
    line[size] := '\0';
  }

  /** The lines `readline` returns, one call after another, on a stream
      that has not ended, up to (not including) the NULL that follows the
      call that reached the end. */
  function Lines(input: seq<char>, stdin: bool): (ls: seq<seq<char>>)
    ensures |ls| > 0
    decreases |input|
  {
    var r := Scan(input, stdin, true, []);
    if r.atEnd then [r.line] else [r.line] + Lines(r.rest, stdin)
  }

  /** The lines still to come from a stream in a given state. */
  function Pending(ended: bool, rest: seq<char>, stdin: bool): seq<seq<char>>
  {
    if ended then [] else Lines(rest, stdin)
  }

  /** One `readline` takes the first of the pending lines. */
  lemma PendingAfterRead(rest: seq<char>, stdin: bool)
    ensures var r := Scan(rest, stdin, true, []);
      Lines(rest, stdin) == [r.line] + Pending(r.atEnd, r.rest, stdin)
  {
  }

  /** Away from standard input, terminators before a line do not make
      lines of their own. */
  lemma LinesSkipLeadingTerminators(t: seq<char>, s: seq<char>)
    requires AllTerminators(t)
    ensures Lines(t + s, false) == Lines(s, false)
  {
    LeadingTerminatorsSkipped(t, s, []);
  }

  /** A terminator-free text, its terminators and more input read as the
      text with backspaces applied, then as the input after the terminators.
      Away from standard input the text must not be empty (terminators
      before it would be skipped) and a run of terminators ends the line as
      one; on standard input each terminator ends a line, so there is one. */
  lemma LinesAfterLine(line: seq<char>, t: seq<char>, rest: seq<char>, stdin: bool)
    requires NoTerminator(line) && (!stdin ==> line != [])
    requires t != [] && AllTerminators(t) && (stdin ==> |t| == 1)
    ensures Lines(line + t + rest, stdin) == [Edit([], line)] + Lines(rest, stdin)
    ensures Backspace !in line ==> Lines(line + t + rest, stdin) == [line] + Lines(rest, stdin)
  {
    assert line + t + rest == line + (t + rest);
    ScanBody(line, t + rest, stdin, true, []);
    assert (t + rest)[1..] == t[1..] + rest;
    if stdin {
      assert t[1..] + rest == rest;
    } else {
      LinesSkipLeadingTerminators(t[1..], rest);
    }
    if Backspace !in line {
      EditWithoutBackspace([], line);
      assert [] + line == line;
    }
  }

  /** A last line without terminator reads as itself with backspaces
      applied, and nothing comes after it. */
  lemma LastLine(line: seq<char>, stdin: bool)
    requires NoTerminator(line)
    ensures Lines(line, stdin) == [Edit([], line)]
    ensures Backspace !in line ==> Lines(line, stdin) == [line]
  {
    ScanBody(line, [], stdin, true, []);
    assert line + [] == line;
    if Backspace !in line {
      EditWithoutBackspace([], line);
      assert [] + line == line;
    }
  }

  /** A terminator-free text ended by one terminator reads as the text with
      backspaces applied, then one more, empty, line; away from standard
      input a lone terminator is skipped and reads as one empty line. */
  lemma TerminatedSingleLine(input: seq<char>, c: char, stdin: bool)
    requires IsTerminator(c) && NoTerminator(input)
    ensures Lines(input + [c], stdin)
      == if !stdin && input == [] then [[]] else [Edit([], input), []]
  {
    if stdin || input != [] {
      ScanBody(input, [c], stdin, true, []);
      assert [c][1..] == [];
    } else {
      assert input + [c] == [c] && [c][1..] == [];
      assert Scan([c], stdin, true, []) == LineResult([], [], true);
    }
  }

  /** A read of input that ends in a terminator can only reach the end
      without having started a line, so the line it returns is empty. */
  lemma {:induction false} ScanToEndAfterTerminator(input: seq<char>, stdin: bool, beg: bool, buf: seq<char>)
    requires input != [] && IsTerminator(input[|input| - 1])
    requires beg ==> buf == []
    ensures var r := Scan(input, stdin, beg, buf); r.atEnd ==> r.line == []
    decreases |input|
  {
    if IsTerminator(input[0]) {
      if beg && !stdin && |input| > 1 {
        assert input[1..][|input| - 2] == input[|input| - 1];
        ScanToEndAfterTerminator(input[1..], stdin, beg, buf);
      }
    } else {
      assert |input| > 1;
      assert input[1..][|input| - 2] == input[|input| - 1];
      ScanToEndAfterTerminator(input[1..], stdin, false, Put(buf, input[0]));
    }
  }

  /** Whatever the input, a stream whose last character is a terminator
      yields, as its last line before NULL, an empty one. */
  lemma {:induction false} TrailingTerminatorGivesEmptyLine(s: seq<char>, c: char, stdin: bool)
    requires IsTerminator(c)
    ensures var ls := Lines(s + [c], stdin); ls[|ls| - 1] == []
    decreases |s|
  {
    var input := s + [c];
    var r := Scan(input, stdin, true, []);
    ScanToEndAfterTerminator(input, stdin, true, []);
    if !r.atEnd {
      ScanStopsAfterTerminator(input, stdin, true, []);
      assert Lines(input, stdin) == [r.line] + Lines(r.rest, stdin);
      if r.rest != [] {
        var s' := r.rest[..|r.rest| - 1];
        assert r.rest[|r.rest| - 1] == input[|input| - 1] == c;
        assert r.rest == s' + [c];
        TrailingTerminatorGivesEmptyLine(s', c, stdin);
      }
    }
  }
}
