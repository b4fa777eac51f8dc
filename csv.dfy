/** `csv_parse` and `csv_open`: read the header line, count its tokens,
    then check that every later line has the same count, stopping at the
    first line that does not. */
module Csv {
  import opened CharStream
  import opened Tokenizer
  import opened LineReader

  datatype Option<T> = None | Some(value: T)

  /** The value `csv_parse`'s counter reaches for one line as `readline`
      returned it (a C string, so it ends at the first NUL). */
  function ItemCount(line: seq<char>, delim: char): nat
  {
    Counter(CStr(line), delim)
  }

  /** The number of fields `strtok` finds in a line. */
  function FieldCount(line: seq<char>, delim: char): nat
  {
    |Tokens(CStr(line), delim)|
  }

  /** The 1-based number of the first line from index `i` on whose count
      differs from `n`, or 0 when there is none. */
  function FirstMismatch(lines: seq<seq<char>>, n: nat, i: nat, delim: char): (k: nat)
    ensures k == 0 || i < k <= |lines|
    decreases |lines| - i
  {
    if i >= |lines| then 0
    else if ItemCount(lines[i], delim) != n then i + 1
    else FirstMismatch(lines, n, i + 1, delim)
  }

  /** What `csv_parse` returns for the lines `readline` yields: -1 for an
      empty header, otherwise the first mismatching line or 0. */
  function Verdict(lines: seq<seq<char>>, delim: char): int
    requires |lines| > 0
  {
    if |lines[0]| == 0 then -1
    else FirstMismatch(lines, ItemCount(lines[0], delim), 1, delim)
  }

  /** What `csv_parse` returns for a stream in a given state. */
  function ParseOutcome(ended: bool, rest: seq<char>, stdin: bool, delim: char): int
  {
    if ended then -1 else Verdict(Lines(rest, stdin), delim)
  }

  lemma {:induction false} FirstMismatchMeaning(lines: seq<seq<char>>, n: nat, i: nat, delim: char)
    ensures var k := FirstMismatch(lines, n, i, delim);
      && (k == 0 <==> forall j :: i <= j < |lines| ==> ItemCount(lines[j], delim) == n)
      && (k != 0 ==> ItemCount(lines[k - 1], delim) != n)
      && (k != 0 ==> forall j :: i <= j < k - 1 ==> ItemCount(lines[j], delim) == n)
    decreases |lines| - i
  {
    if i < |lines| && ItemCount(lines[i], delim) == n {
      FirstMismatchMeaning(lines, n, i + 1, delim);
    }
  }

  /** `csv_parse`'s result in terms of field counts: -1 exactly for an empty
      header; 0 exactly when every later line has the header's number of
      fields; otherwise the 1-based number of the first line that does not,
      the header being line 1. */
  lemma VerdictMeaning(lines: seq<seq<char>>, delim: char)
    requires |lines| > 0
    ensures Verdict(lines, delim) == -1 <==> |lines[0]| == 0
    ensures Verdict(lines, delim) == 0 <==>
      |lines[0]| > 0 && forall j :: 1 <= j < |lines| ==> FieldCount(lines[j], delim) == FieldCount(lines[0], delim)
    ensures var v := Verdict(lines, delim);
      v > 0 ==>
        && 2 <= v <= |lines|
        && FieldCount(lines[v - 1], delim) != FieldCount(lines[0], delim)
        && forall j :: 1 <= j < v - 1 ==> FieldCount(lines[j], delim) == FieldCount(lines[0], delim)
  {
    if |lines[0]| > 0 {
      var n := ItemCount(lines[0], delim);
      FirstMismatchMeaning(lines, n, 1, delim);
      forall j | 0 <= j < |lines|
        ensures ItemCount(lines[j], delim) == n <==> FieldCount(lines[j], delim) == FieldCount(lines[0], delim)
      {
        CountersMatchIff(CStr(lines[j]), CStr(lines[0]), delim);
      }
    }
  }

  /** Taking the first of the pending lines `lines[k..]`. */
  lemma NextPending(lines: seq<seq<char>>, k: nat, pending: seq<seq<char>>)
    requires k <= |lines| && lines[k..] == pending && pending != []
    ensures k < |lines| && lines[k] == pending[0] && lines[k + 1..] == pending[1..]
  {
  }

  /** `csv_parse`. On success the stream has been read to its end; on a
      mismatch at line `code` it stops there, with the lines after it still
      to come. */
  method Parse(file: Stream, delim: char) returns (code: int)
    requires file.Valid()
    modifies file
    ensures file.Valid()
    ensures code == ParseOutcome(old(file.Ended()), old(file.Rest()), file.isStdin, delim)
    ensures code == 0 ==> file.Ended()
    ensures code > 0 ==>
      Pending(file.Ended(), file.Rest(), file.isStdin)
        == old(Pending(file.Ended(), file.Rest(), file.isStdin))[code..]
  {
    ghost var lines := Pending(file.Ended(), file.Rest(), file.isStdin);
    ghost var before := file.Rest();
    var line, len := ReadLine(file);
    if len == 0 {
      return -1;
    }
    PendingAfterRead(before, file.isStdin);
    CStrOfTerminated(line[..len], line[..]);
    var colCount := CountItems(line, delim);
    var lineCount := 1;
    NextPending(lines, 0, lines);
    ghost var wasEnded := file.Ended();
    before := file.Rest();
    line, len := ReadLine(file);
    if !wasEnded {
      PendingAfterRead(before, file.isStdin);
      NextPending(lines, 1, Lines(before, file.isStdin));
    }
    while line != null
      invariant file.Valid()
      invariant 1 <= lineCount <= |lines|
      invariant line != null ==>
        && lineCount < |lines| && line.Length == len + 1
        && line[..len] == lines[lineCount] && line[len] == '\0'
        && lines[lineCount + 1..] == Pending(file.Ended(), file.Rest(), file.isStdin)
      invariant line == null ==> lineCount == |lines| && file.Ended()
      invariant FirstMismatch(lines, colCount, 1, delim) == FirstMismatch(lines, colCount, lineCount, delim)
      decreases |lines| - lineCount
    {
      lineCount := lineCount + 1;
      CStrOfTerminated(line[..len], line[..]);
      var itemCount := CountItems(line, delim);
      if itemCount != colCount {
        return lineCount;
      }
      wasEnded := file.Ended();
      before := file.Rest();
      line, len := ReadLine(file);
      if !wasEnded {
        PendingAfterRead(before, file.isStdin);
        NextPending(lines, lineCount, Lines(before, file.isStdin));
      }
    }
    return 0;
  }

  /** A column of a loaded file: its header text and position. */
  datatype Column = Column(name: string, idx: int)

  /** `CsvFile`: the open stream, the file's name, its columns and rows
      (`columns_len` and `rows_len` are the lengths of the sequences) and
      its delimiter. */
  datatype CsvFile = CsvFile(file: Stream, filename: string, columns: seq<Column>, rows: seq<string>, delim: char)

  /** What `csv_open` returns, and what it writes to `*out` (None when it
      writes nothing). */
  datatype OpenResult = OpenResult(code: int, out: Option<CsvFile>)

  /** `csv_open`'s outcome, given the arguments, the stream `fopen`
      returned (null when it failed) and `csv_parse`'s result on it. */
  function OpenOutcome(filename: Option<string>, hasOut: bool, file: Stream?, parseCode: int, delim: char): (r: OpenResult)
    ensures r.code == 0 || r.code == 1
    ensures r.code == 0 <==> filename.Some? && hasOut && file != null && parseCode == 0
    ensures r.out.Some? <==> r.code == 0
    ensures r.out.Some? ==>
      && r.out.value.file == file && r.out.value.filename == filename.value
      && r.out.value.columns == [] && r.out.value.rows == [] && r.out.value.delim == delim
  {
    if filename.None? || !hasOut then OpenResult(1, None)
    else if file == null then OpenResult(1, None)
    else if parseCode != 0 then OpenResult(1, None)
    else OpenResult(0, Some(CsvFile(file, filename.value, [], [], delim)))
  }

  /** `csv_open`. `handle` is the stream `fopen` gives for `filename`, or
      null when it cannot open it; it is only consulted when both pointer
      arguments are present. A stream `fopen` opens is never standard
      input, so the standard-input rule of `readline` does not apply here.
      The stream stored in a successful result has been read to its end. */
  method Open(filename: Option<string>, hasOut: bool, delim: char, handle: Stream?) returns (r: OpenResult)
    requires handle != null ==> handle.Valid() && !handle.isStdin
    modifies handle
    ensures r.out.Some? ==> r.out.value.file.Valid() && r.out.value.file.Ended()
    ensures r == OpenOutcome(filename, hasOut, handle,
      if filename.Some? && hasOut && handle != null
      then old(ParseOutcome(handle.Ended(), handle.Rest(), handle.isStdin, delim))
      else 0,
      delim)
  {
    if filename.None? || !hasOut {
      return OpenResult(1, None);
    }
    if handle == null {
      return OpenResult(1, None);
    }
    var err := Parse(handle, delim);
    if err != 0 {
      return OpenResult(1, None);
    }
    return OpenResult(0, Some(CsvFile(handle, filename.value, [], [], delim)));
  }

  /** A backspace deletes the character before it: "ab<BS>c" reads "ac". */
  lemma BackspaceExample()
    ensures Scan("ab\U{8}c", false, true, []) == LineResult("ac", [], true)
  {
  }

  /** The count of a NUL-free line made of two fields. */
  lemma TwoFieldCount(x: seq<char>, y: seq<char>, delim: char)
    requires x != [] && y != [] && delim !in x && delim !in y && delim != '\0'
    requires '\0' !in x && '\0' !in y
    ensures ItemCount(x + [delim] + y, delim) == 3
  {
    var s := x + [delim] + y;
    UpToUnique(s, '\0', s);
    TokensAcrossDelimiter(x, delim, y);
    WholeLineIsOneToken(x, delim);
    WholeLineIsOneToken(y, delim);
  }

  /** The counts of the sample lines below: two fields each. */
  lemma SampleCounts()
    ensures ItemCount("a,b", ',') == 3
    ensures ItemCount("1,2", ',') == 3
    ensures ItemCount("a,,b", ',') == 3
  {
  }

  /** Two backspace-free lines, each ended by a terminator, read as those
      lines and then one empty line. */
  lemma TwoTerminatedLines(header: seq<char>, row: seq<char>, c: char)
    requires header != [] && NoTerminator(header) && Backspace !in header
    requires row != [] && NoTerminator(row) && Backspace !in row
    requires IsTerminator(c)
    ensures Lines(header + [c] + row + [c], false) == [header, row, []]
  {
    assert header + [c] + row + [c] == header + [c] + (row + [c] + []);
    LinesAfterLine(header, [c], row + [c] + [], false);
    LinesAfterLine(row, [c], [], false);
  }

  lemma TrailingNewlineLines()
    ensures Lines("a,b\n1,2\n", false) == ["a,b", "1,2", []]
  {
    assert "a,b\n1,2\n" == "a,b" + ['\n'] + "1,2" + ['\n'];
    TwoTerminatedLines("a,b", "1,2", '\n');
  }

  /** A file whose last line ends in a newline yields an extra empty line,
      which has no field: "a,b\n1,2\n" fails at line 3. */
  lemma TrailingNewlineExample()
    ensures ParseOutcome(false, "a,b\n1,2\n", false, ',') == 3
  {
    TrailingNewlineLines();
    SampleCounts();
  }

  /** A backspace-free line, its terminators and a last backspace-free
      line read as those two lines. */
  lemma LineThenLastLine(header: seq<char>, t: seq<char>, row: seq<char>)
    requires header != [] && NoTerminator(header) && Backspace !in header
    requires t != [] && AllTerminators(t)
    requires NoTerminator(row) && Backspace !in row
    ensures Lines(header + t + row, false) == [header, row]
  {
    LinesAfterLine(header, t, row, false);
    LastLine(row, false);
  }

  lemma EmptyFieldLines()
    ensures Lines("a,,b\r\n1,2", false) == ["a,,b", "1,2"]
  {
    assert "a,,b\r\n1,2" == "a,,b" + "\r\n" + "1,2";
    LineThenLastLine("a,,b", "\r\n", "1,2");
  }

  /** Empty fields are dropped: "a,,b" has the two fields of "1,2". */
  lemma EmptyFieldExample()
    ensures ParseOutcome(false, "a,,b\r\n1,2", false, ',') == 0
  {
    EmptyFieldLines();
    SampleCounts();
  }

  /** An empty file, or one holding only line endings, is refused. */
  lemma EmptyFileExample()
    ensures ParseOutcome(false, "", false, ',') == -1
    ensures ParseOutcome(false, "\r\n\n", false, ',') == -1
  {
  }
}
