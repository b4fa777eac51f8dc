# c_csv: line reading and row-count validation, in Dafny

This project models the parsing core of the `c_csv` library (`src/csv/csv.c`):

- **`readline`** reads one logical line from a `FILE*` one character at a
  time. It stops at `\n`, `\r` or end of stream. Terminators met before any
  other character of the line are skipped, except on standard input. A backspace
  deletes the last buffered character. The buffer starts with capacity 10
  and grows by half whenever it is full. The result is trimmed to the
  content plus a NUL. A stream already at end-of-file or in error gives
  NULL and size 0.
- **`csv_parse`** reads the header and rejects an empty one (-1). It counts
  the header's tokens with `strtok`, then counts every later line the same
  way. It returns the 1-based number of the first line whose count
  differs, or 0.
- **`csv_open`** maps these outcomes to its own result: 1 for a missing
  argument, a file that cannot be opened or a parse error; 0 and a
  `CsvFile` with no columns, no rows and the given delimiter on success.

Modules, one per component:

- `CharStream` (stream.dfy): the stream as a class with `fgetc`, and
  `feof`/`ferror` as sticky flags.
- `Tokenizer` (tokens.dfy): `strtok`-based counting. `Tokens` is the
  specification, `Strtok` and `CountItems` are the loops.
- `LineReader` (line_reader.dfy): `Scan` specifies the reading loop.
  `ReadLine` is the imperative version over an `array<char>` buffer.
  `Lines` gives the sequence of lines that successive calls return.
- `Csv` (csv.dfy): `Verdict` and `ParseOutcome` specify `csv_parse`.
  `Parse` is the loop. `OpenOutcome` and `Open` model `csv_open`.

Behaviour of the code that the model keeps on purpose:

- `csv_parse` compares counters, not token counts. A counter is
  `ntokens + 1` when a line has tokens and 0 when it has none. The two
  comparisons agree (`CountersMatchIff`, `VerdictMeaning`).
- `feof` is only set once `fgetc` has hit the end. So when the file's
  last line ends in a terminator, one more call returns an empty, non-NULL
  line (`TrailingTerminatorGivesEmptyLine`).
  That line counts as a row with no fields. As a result,
  `"a,b\n1,2\n"` fails at line 3 (`TrailingNewlineExample`).
- Empty fields are dropped, so `"a,,b"` counts like `"a,b"`.
- The lines are C strings. A NUL character inside a line counts toward
  the size `readline` reports, so a line holding only NUL is not "empty".
  `strtok` stops at that NUL.
- `csv_parse` hands `strtok` the `char` `delim` where a delimiter string
  is expected (src/csv/csv.c:68, 71, 79, 82). The one-character string
  `delim_str` built at line 57 is evidently what was meant, and the model
  splits on that one character.
- A successful `csv_open` leaves the columns and rows empty: the code
  never fills them in, and it has no option to trim fields.

## Model

| member | source | states |
|---|---|---|
| CharStream.Stream.GetC | src/csv/csv.c:109 | `fgetc`: the next character and one step forward, or EOF with the end-of-file or error flag set and nothing consumed |
| Tokenizer.CStr | src/csv/csv.c:68 | the C string `strtok` reads is the longest NUL-free prefix of the buffer |
| Tokenizer.CStrOfTerminated | src/csv/csv.c:143-144 | a buffer holding the line and then a NUL reads as that line does |
| Tokenizer.Tokens | src/csv/csv.c:68-73 | each token `strtok` returns is non-empty and holds no delimiter |
| Tokenizer.SplitJoin | src/csv/csv.c:57 | the plain split on the one-character delimiter set: fields have no delimiter and joining them restores the line |
| Tokenizer.TokensAreNonEmptyFields | src/csv/csv.c:68-73 | the tokens are exactly the non-empty fields of the plain split: empty fields are dropped |
| Tokenizer.TokensAcrossDelimiter | src/csv/csv.c:68-73 | a delimiter separates tokens: the tokens of `x + d + y` are those of `x` followed by those of `y` |
| Tokenizer.DelimiterRunsCollapse | src/csv/csv.c:68-73 | two delimiters in a row count as one |
| Tokenizer.OuterDelimitersIgnored | src/csv/csv.c:68-73 | a leading or trailing delimiter produces no token |
| Tokenizer.WholeLineIsOneToken | src/csv/csv.c:68-73 | a non-empty line without the delimiter is its own sole token |
| Tokenizer.NoTokensIff | src/csv/csv.c:68-69 | the first `strtok` returns NULL exactly when the line is empty or all delimiters |
| Tokenizer.CountersMatchIff | src/csv/csv.c:69-73 | the counters (`Counter`: `ntokens+1`, or 0) are equal exactly when the token counts are equal |
| Tokenizer.SkipDelimiters | src/csv/csv.c:68 | `strtok`'s first step: skipping the run of delimiters loses no token |
| Tokenizer.SkipToken | src/csv/csv.c:68 | `strtok`'s second step: the token runs to the next delimiter or to the end of the string |
| Tokenizer.Strtok | src/csv/csv.c:68-71 | one call: NULL exactly when no token is left; otherwise the first remaining token, with the saved position past the delimiter that ends it, or at the end of the string; NULL leaves the position at the end |
| Tokenizer.CountItems | src/csv/csv.c:68-73 | the counting loop ends with `ntokens+1`, or 0 when there is no token |
| LineReader.Scan | src/csv/csv.c:107-134 | the reading loop never consumes more than it is given; it consumes everything when it hits the end and strictly less when a terminator stops it |
| LineReader.ScanStopsAfterTerminator | src/csv/csv.c:109-115 | the unread part is a suffix of the input; a read that did not hit the end stopped right after a terminator |
| LineReader.ScanLineHasNoTerminator | src/csv/csv.c:110-115 | the returned line never contains `\n` or `\r` |
| LineReader.LeadingTerminatorsSkipped | src/csv/csv.c:108-113 | away from stdin, terminators before any content are consumed and skipped |
| LineReader.StdinTerminatorEndsLine | src/csv/csv.c:111-114 | on stdin a terminator always ends the line, even an empty one |
| LineReader.ScanBody | src/csv/csv.c:109-134 | once the line has started, the result is the body with backspaces applied; the terminator is consumed, or the end of the stream is reported |
| LineReader.ReadLineReference | src/csv/csv.c:107-134 | reference reading: skip leftover terminators (none on stdin), then the edited body up to the next terminator or the end |
| LineReader.BackspaceUndoes | src/csv/csv.c:116-122 | in `Edit` (typing, one `Put` per character), a backspace removes the character typed just before it |
| LineReader.EditWithoutBackspace | src/csv/csv.c:123-133 | without backspaces the line is the text exactly as read |
| LineReader.NoEmptyLineFromTerminators | src/csv/csv.c:108-115 | away from stdin, a read ending at a terminator gives a non-empty line unless a backspace among the characters it consumed erased it |
| LineReader.Capacity | src/csv/csv.c:100 | the capacity after any number of growths is at least the initial 10 |
| LineReader.Grow | src/csv/csv.c:124 | the growth step `cap * 3 / 2` strictly increases the capacity |
| LineReader.Realloc | src/csv/csv.c:125-131 | `realloc`: a fresh array of the new size that keeps the buffered characters |
| LineReader.PutChar | src/csv/csv.c:116-133 | the buffer content becomes the old content edited by one character; capacity grows only when the buffer is full and a character is appended |
| LineReader.ReadLine | src/csv/csv.c:93-146 | NULL, size 0 and no input consumed on a stream at EOF or in error; otherwise a fresh array of size+1 holding the `Scan` line then a NUL, with the stream left exactly after what `Scan` consumed |
| LineReader.Lines | src/csv/csv.c:77 | a stream that has not ended yields at least one line |
| LineReader.PendingAfterRead | src/csv/csv.c:77 | each `readline` takes the first of the lines still to come |
| LineReader.LinesSkipLeadingTerminators | src/csv/csv.c:108-113 | away from stdin, blank lines before a line make no lines of their own |
| LineReader.LinesAfterLine | src/csv/csv.c:109-115 | a terminator-free text and its terminator read as the text with backspaces applied (the text itself when it has none), then as what follows; away from stdin the text is non-empty and a run of terminators ends it as one, on stdin there is exactly one terminator |
| LineReader.LastLine | src/csv/csv.c:136-145 | a last line without terminator, on any stream, reads as itself with backspaces applied (itself when it has none), with nothing after it |
| LineReader.TerminatedSingleLine | src/csv/csv.c:94-97 | a terminator-free text ended by one terminator reads as the text with backspaces applied, then one more, empty, line; away from stdin a lone terminator reads as one empty line |
| LineReader.ScanToEndAfterTerminator | src/csv/csv.c:107-115 | a read of input ending in a terminator reaches the end only without having started a line, so it returns the empty line |
| LineReader.TrailingTerminatorGivesEmptyLine | src/csv/csv.c:94-97 | for every input, a stream whose last character is a terminator yields an empty line as its last line before NULL |
| Csv.FirstMismatch | src/csv/csv.c:77-89 | the row loop returns 0 or a line number past the lines already checked and within the file |
| Csv.FirstMismatchMeaning | src/csv/csv.c:77-90 | 0 exactly when every later line matches; otherwise the returned line mismatches and every line before it matches |
| Csv.VerdictMeaning | src/csv/csv.c:58-90 | `Verdict`, the result of `csv_parse` on the lines read: -1 exactly for an empty header; 0 exactly when every line has the header's field count; otherwise the 1-based number of the first line that does not |
| Csv.Parse | src/csv/csv.c:56-91 | `csv_parse` returns `ParseOutcome` (-1 on an ended stream, otherwise `Verdict` of the lines to come) of the stream as it was on entry; on 0 the stream has ended; on a mismatch at line `code` the lines still to come are exactly those after it |
| Csv.OpenOutcome | src/csv/csv.c:12-46 | result 0 or 1; 0 exactly when both arguments are present, the file opens and parsing succeeds; only then is a `CsvFile` produced, with no columns or rows and the given delimiter |
| Csv.Open | src/csv/csv.c:12-46 | `csv_open` returns `OpenOutcome` of its arguments and of `csv_parse` on the opened stream, which is never standard input; the stream stored on success has been read to its end |
| Csv.TwoFieldCount | src/csv/csv.c:68-73 | a line made of two non-empty fields without NUL or delimiter, joined by a delimiter other than NUL, has the counter value 3 |
| Csv.SampleCounts | src/csv/csv.c:68-73 | "a,b", "1,2" and "a,,b" all count 3 |
| Csv.BackspaceExample | src/csv/csv.c:116-122 | "ab", backspace, "c" reads as "ac" |
| Csv.TwoTerminatedLines | src/csv/csv.c:107-145 | away from stdin, two non-empty, backspace-free lines each ended by a terminator read as those lines and then an empty one |
| Csv.LineThenLastLine | src/csv/csv.c:107-145 | away from stdin, a non-empty backspace-free line, its terminators and a backspace-free last line read as exactly those two lines |
| Csv.TrailingNewlineLines | src/csv/csv.c:136-145 | "a,b\n1,2\n" is read as three lines, the last one empty |
| Csv.TrailingNewlineExample | src/csv/csv.c:77-88 | `csv_parse` rejects "a,b\n1,2\n" at line 3 |
| Csv.EmptyFieldLines | src/csv/csv.c:108-115 | "a,,b\r\n1,2" is read as two lines, and the `\n` of the `\r\n` is skipped |
| Csv.EmptyFieldExample | src/csv/csv.c:68-84 | "a,,b\r\n1,2" is accepted, because the empty field is dropped |
| Csv.EmptyFileExample | src/csv/csv.c:62-65 | an empty file, or one holding only line endings, gives -1 |

## Left out

- `fopen`, `perror`, `fprintf` and `fclose` in `csv_open` are file-system and diagnostic I/O. `Open` takes the stream that `fopen` would return as a parameter (null when it fails). It writes no messages and does not close the stream on failure.
- A stream is a finite sequence of characters. A read error is modelled as the data running out with the error flag set instead of the end-of-file flag. A terminal that delivers more data after an end-of-file is not modelled.
- Allocation failures of `calloc` and `realloc` are allocator behaviour, so the model has no NULL-from-allocation path.
- LineReader.Grow: models `buf_cap *= 1.5f` as the integer `cap * 3 / 2`. This agrees with the float computation wherever single precision is exact. The rounding of very large capacities is not captured.
- Csv.Parse: `line_count` and the counters are unbounded integers. Overflow of `int` or `size_t` is not modelled.
- Tokenizer.CountItems: does not model `strtok` writing NUL characters over delimiters in the line buffer. The buffer is freed right after counting, so no caller can see those writes.
- The `strtok` calls pass the character `delim` where a delimiter string is expected. That call has no defined meaning in C. The model uses the one-character set `delim_str` from src/csv/csv.c:57.
- TwoFieldCount: stated only for NUL-free fields and a non-NUL delimiter; a NUL ends the C string `strtok` reads, so such a line counts what comes before it (`CStr`).
- Csv.OpenOutcome: the `CsvFile`'s file name is the given name. The copy at src/csv/csv.c:31-33 does not add a terminating NUL, and memory ownership (`free`) is not modelled.
- `csv_close`, `csv_at`, `csv_row`, `csv_row_at`, `csv_row_at_idx`, `csv_read` and `str_split` are declared but have no bodies, so there is nothing to model.
- src/csv/csv.h declares only types. The model borrows the shape of `CsvFile` and of a column, and renders `columns_len` and `rows_len` as the lengths of the sequences.
- Characters are Dafny `char` values. EOF is a separate value, as `fgetc`'s `int` result keeps it.
