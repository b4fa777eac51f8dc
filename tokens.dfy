/** Token counting as `csv_parse` does it with `strtok` over a line that
    `readline` returned: the line is read as a C string (it ends at the
    first NUL character), and the delimiter set is the single character
    `delim`. Runs of delimiters collapse, and leading and trailing
    delimiters produce nothing, so empty fields are dropped. */
module Tokenizer {

  /** The longest prefix of `s` that does not contain `stop`. */
  function UpTo(s: seq<char>, stop: char): (w: seq<char>)
    ensures w <= s
    ensures stop !in w
    ensures |w| < |s| ==> s[|w|] == stop
    decreases |s|
  {
    if s == [] || s[0] == stop then [] else [s[0]] + UpTo(s[1..], stop)
  }

  /** The C string held in a buffer: everything before the first NUL. */
  function CStr(s: seq<char>): (c: seq<char>)
    ensures c <= s && '\0' !in c
    ensures |c| < |s| ==> s[|c|] == '\0'
  {
    UpTo(s, '\0')
  }

  /** The three properties of `UpTo` determine it. */
  lemma {:induction false} UpToUnique(s: seq<char>, stop: char, w: seq<char>)
    requires w <= s && stop !in w
    requires |w| < |s| ==> s[|w|] == stop
    ensures UpTo(s, stop) == w
    decreases |s|
  {
    if s != [] && s[0] != stop {
      assert w != [] && w[0] == s[0];
      UpToUnique(s[1..], stop, w[1..]);
    }
  }

  /** A buffer holding a line followed by a NUL reads as the line does. */
  lemma CStrOfTerminated(line: seq<char>, buf: seq<char>)
    requires |buf| > |line| && buf[..|line|] == line && buf[|line|] == '\0'
    ensures CStr(buf) == CStr(line)
  {
  }

  /** The non-empty tokens `strtok` returns, in order, when it is called
      first on `s` and then repeatedly with a NULL string. */
  function Tokens(s: seq<char>, delim: char): (ts: seq<seq<char>>)
    ensures forall i :: 0 <= i < |ts| ==> ts[i] != [] && delim !in ts[i]
    decreases |s|
  {
    if s == [] then []
    else if s[0] == delim then Tokens(s[1..], delim)
    else
      var t := UpTo(s, delim);
      [t] + Tokens(s[|t|..], delim)
  }

  /** Every field of `s` between delimiters, empty ones included. */
  function Split(s: seq<char>, delim: char): (fs: seq<seq<char>>)
    ensures |fs| > 0
    decreases |s|
  {
    var w := UpTo(s, delim);
    if |w| == |s| then [s] else [w] + Split(s[|w| + 1..], delim)
  }

  function Join(fs: seq<seq<char>>, delim: char): seq<char>
    requires |fs| > 0
  {
    if |fs| == 1 then fs[0] else fs[0] + [delim] + Join(fs[1..], delim)
  }

  function NonEmpty(fs: seq<seq<char>>): seq<seq<char>>
  {
    if fs == [] then []
    else (if fs[0] == [] then [] else [fs[0]]) + NonEmpty(fs[1..])
  }

  /** `Split` is a faithful split: its fields hold no delimiter and joining
      them back with the delimiter gives the line. */
  lemma {:induction false} SplitJoin(s: seq<char>, delim: char)
    ensures Join(Split(s, delim), delim) == s
    ensures forall i :: 0 <= i < |Split(s, delim)| ==> delim !in Split(s, delim)[i]
    decreases |s|
  {
    var w := UpTo(s, delim);
    if |w| < |s| {
      var tail := s[|w| + 1..];
      SplitJoin(tail, delim);
      assert s == w + [delim] + tail;
      assert Split(s, delim)[1..] == Split(tail, delim);
    } else {
      assert w == s;
    }
  }

  /** The tokens are exactly the non-empty fields: `strtok` drops every
      empty field, whether between two delimiters or at either end. */
  lemma {:induction false} TokensAreNonEmptyFields(s: seq<char>, delim: char)
    ensures Tokens(s, delim) == NonEmpty(Split(s, delim))
    decreases |s|
  {
    var w := UpTo(s, delim);
    if s == [] {
    } else if s[0] == delim {
      assert w == [];
      TokensAreNonEmptyFields(s[1..], delim);
      assert Split(s, delim) == [[]] + Split(s[1..], delim);
      assert ([[]] + Split(s[1..], delim))[1..] == Split(s[1..], delim);
    } else if |w| == |s| {
      assert w == s;
      assert s[|w|..] == [];
      assert NonEmpty([s]) == [s] + NonEmpty([]);
    } else {
      var tail := s[|w| + 1..];
      TokensAreNonEmptyFields(tail, delim);
      assert s[|w|..][0] == delim && s[|w|..][1..] == tail;
      assert Tokens(s[|w|..], delim) == Tokens(tail, delim);
      assert ([w] + Split(tail, delim))[1..] == Split(tail, delim);
    }
  }

  /** A delimiter separates tokens: nothing crosses it. */
  lemma {:induction false} TokensAcrossDelimiter(x: seq<char>, delim: char, y: seq<char>)
    ensures Tokens(x + [delim] + y, delim) == Tokens(x, delim) + Tokens(y, delim)
    decreases |x|
  {
    var s := x + [delim] + y;
    if x == [] {
      assert s[1..] == y;
    } else if x[0] == delim {
      assert s[1..] == x[1..] + [delim] + y;
      TokensAcrossDelimiter(x[1..], delim, y);
    } else {
      var u := UpTo(x, delim);
      UpToUnique(s, delim, u);
      assert s[|u|..] == x[|u|..] + [delim] + y;
      TokensAcrossDelimiter(x[|u|..], delim, y);
      if |u| == |x| {
        assert x[|u|..] == [];
      }
    }
  }

  /** Runs of delimiters collapse: "a,,b" has the tokens of "a,b". */
  lemma DelimiterRunsCollapse(x: seq<char>, delim: char, y: seq<char>)
    ensures Tokens(x + [delim, delim] + y, delim) == Tokens(x + [delim] + y, delim)
  {
    assert x + [delim, delim] + y == x + [delim] + ([delim] + y);
    TokensAcrossDelimiter(x, delim, [delim] + y);
    TokensAcrossDelimiter(x, delim, y);
    assert ([delim] + y)[1..] == y;
  }

  /** Leading and trailing delimiters produce nothing. */
  lemma OuterDelimitersIgnored(s: seq<char>, delim: char)
    ensures Tokens([delim] + s, delim) == Tokens(s, delim)
    ensures Tokens(s + [delim], delim) == Tokens(s, delim)
  {
    TokensAcrossDelimiter([], delim, s);
    assert [] + [delim] + s == [delim] + s;
    TokensAcrossDelimiter(s, delim, []);
    assert s + [delim] + [] == s + [delim];
  }

  /** A line without the delimiter is its own sole token, unless empty. */
  lemma WholeLineIsOneToken(s: seq<char>, delim: char)
    requires delim !in s
    ensures Tokens(s, delim) == if s == [] then [] else [s]
  {
    if s != [] {
      UpToUnique(s, delim, s);
      assert s[|s|..] == [];
    }
  }

  /** A line has no token exactly when every character is the delimiter. */
  lemma {:induction false} NoTokensIff(s: seq<char>, delim: char)
    ensures Tokens(s, delim) == [] <==> forall i :: 0 <= i < |s| ==> s[i] == delim
    decreases |s|
  {
    if s != [] && s[0] == delim {
      NoTokensIff(s[1..], delim);
      assert forall i :: 1 <= i < |s| ==> s[i] == s[1..][i - 1];
    }
  }

  /** The value `csv_parse`'s counter reaches for one line: it starts at
      1 when `strtok` finds a first token and 0 otherwise, and it is
      incremented once more for every further call, the one returning
      NULL included. */
  function Counter(s: seq<char>, delim: char): nat
  {
    var n := |Tokens(s, delim)|;
    if n == 0 then 0 else n + 1
  }

  /** Comparing counters compares token counts. */
  lemma CountersMatchIff(a: seq<char>, b: seq<char>, delim: char)
    ensures Counter(a, delim) == Counter(b, delim) <==> |Tokens(a, delim)| == |Tokens(b, delim)|
  {
  }

  /** Reading a buffer at a position inside or just past its C string:
      the position is inside exactly when the buffer holds a non-NUL
      character there, and that character is the string's. */
  lemma CStrAt(buf: seq<char>, i: nat)
    requires i <= |CStr(buf)|
    ensures (i < |buf| && buf[i] != '\0') <==> i < |CStr(buf)|
    ensures i < |CStr(buf)| ==> CStr(buf)[i] == buf[i]
  {
  }

  /** The tokens from a token's start: that token, then those after the
      delimiter (if any) that ends it. */
  lemma TokenThenRest(s: seq<char>, i: nat, j: nat, delim: char)
    requires i < j <= |s| && delim !in s[i..j]
    requires j < |s| ==> s[j] == delim
    ensures Tokens(s[i..], delim) == [s[i..j]] + Tokens(s[if j < |s| then j + 1 else j..], delim)
  {
    var t := s[i..];
    UpToUnique(t, delim, s[i..j]);
    assert t[j - i..] == s[j..];
    if j < |s| {
      assert s[j..][1..] == s[j + 1..];
    }
  }

  /** `strspn` over the C string in `line` from `from`: the end of the run
      of delimiters that starts there. Skipping it loses no token. */
  method SkipDelimiters(line: array<char>, from: nat, delim: char) returns (i: nat)
    requires from <= |CStr(line[..])|
    ensures var s := CStr(line[..]);
      && from <= i <= |s|
      && (i < |s| ==> s[i] != delim)
      && Tokens(s[i..], delim) == Tokens(s[from..], delim)
  {
    ghost var buf := line[..];
    ghost var s := CStr(buf);
    i := from;
    CStrAt(buf, i);
    while i < line.Length && line[i] != '\0' && line[i] == delim
      invariant from <= i <= |s|
      invariant (i < line.Length && line[i] != '\0') <==> i < |s|
      invariant i < |s| ==> s[i] == line[i]
      invariant Tokens(s[i..], delim) == Tokens(s[from..], delim)
    {
      assert s[i..][1..] == s[i + 1..];
      i := i + 1;
      CStrAt(buf, i);
    }
  }

  /** `strcspn` over the C string in `line` from `from`: the end of the
      run of non-delimiters that starts there. */
  method SkipToken(line: array<char>, from: nat, delim: char) returns (j: nat)
    requires from <= |CStr(line[..])|
    ensures var s := CStr(line[..]);
      && from <= j <= |s|
      && delim !in s[from..j]
      && (j < |s| ==> s[j] == delim)
  {
    ghost var buf := line[..];
    ghost var s := CStr(buf);
    j := from;
    CStrAt(buf, j);
    while j < line.Length && line[j] != '\0' && line[j] != delim
      invariant from <= j <= |s|
      invariant (j < line.Length && line[j] != '\0') <==> j < |s|
      invariant j < |s| ==> s[j] == line[j]
      invariant forall k :: from <= k < j ==> s[k] != delim
    {
      j := j + 1;
      CStrAt(buf, j);
    }
    assert forall k :: 0 <= k < j - from ==> s[from..j][k] == s[from + k];
  }

  /** One call of `strtok` with the saved position `from` into the C string
      held in `line`: skip delimiters; at the end of the string there is no
      token; otherwise the token runs to the next delimiter or the end, and
      the saved position moves past the delimiter that ends it. */
  method Strtok(line: array<char>, from: nat, delim: char) returns (found: bool, token: seq<char>, next: nat)
    requires from <= |CStr(line[..])|
    ensures var s := CStr(line[..]);
      && from <= next <= |s|
      && found == (Tokens(s[from..], delim) != [])
      && (found ==> from < next && Tokens(s[from..], delim) == [token] + Tokens(s[next..], delim))
      && (found ==> next == |s| || s[next - 1] == delim)
      && (!found ==> next == |s|)
  {
    ghost var s := CStr(line[..]);
    var i := SkipDelimiters(line, from, delim);
    CStrAt(line[..], i);
    if i == line.Length || line[i] == '\0' {
      assert s[i..] == [];
      return false, [], i;
    }
    var j := SkipToken(line, i, delim);
    assert i < j by {
      CStrAt(line[..], i);
      assert s[i] != delim;
      assert s[i..i + 1] == [s[i]];
    }
    CStrAt(line[..], j);
    token := line[i..j];
    assert token == s[i..j];
    TokenThenRest(s, i, j, delim);
    next := if j < line.Length && line[j] != '\0' then j + 1 else j;
    found := true;
  }

  /** `csv_parse`'s counting loop over one line: call `strtok` until it
      returns NULL, counting as the source does. */
  method CountItems(line: array<char>, delim: char) returns (count: nat)
    ensures count == Counter(CStr(line[..]), delim)
  {
    ghost var s := CStr(line[..]);
    var found, token, p := Strtok(line, 0, delim);
    assert s[0..] == s;
    count := if found then 1 else 0;
    while found
      invariant p <= |s|
      invariant found ==> 1 <= count && count + |Tokens(s[p..], delim)| == |Tokens(s, delim)|
      invariant !found ==> count == Counter(s, delim)
      decreases |s| - p, found
    {
      found, token, p := Strtok(line, p, delim);
      count := count + 1;
    }
  }
}
