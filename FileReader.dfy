/** Reading one column of numbers out of the lines of a delimited text file.
    The file is given as its lines, each with its line break; turning a
    field into a number is the parameter `parse`, which gives `None` where
    the text is not a number. */
module FileReader {
  import opened Slicing

  datatype Option<T> = None | Some(value: T)

  /** What stops the reading: a negative column beyond the first field of
      a line, or a field that is not a number. */
  datatype ReadError = IndexError | ValueError

  /** What one line gives: no value (too few fields), a value, or an error. */
  datatype LineFate = Skipped | Value(value: real) | Failed(error: ReadError)

  /** The values read, in the order of their lines, with the number of lines
      that had too few fields; or the error that stopped the reading. */
  datatype Read = Read(values: seq<real>, lineCount: nat) | ReadFailed(error: ReadError)

  /** The whitespace a strip without arguments removes. */
  predicate IsSpace(c: char)
  {
    c == ' ' || c == '\t' || c == '\n' || c == '\r' || c == '\U{B}' || c == '\U{C}'
  }

  /** The number of whitespace characters `s` begins with. */
  function LeadingSpaces(s: string): (k: nat)
    ensures k <= |s|
    ensures forall i | 0 <= i < k :: IsSpace(s[i])
    ensures k < |s| ==> !IsSpace(s[k])
  {
    if |s| > 0 && IsSpace(s[0]) then 1 + LeadingSpaces(s[1..]) else 0
  }

  /** Where the trailing whitespace of `s` begins. */
  function TrailingSpaces(s: string): (k: nat)
    ensures k <= |s|
    ensures forall i | k <= i < |s| :: IsSpace(s[i])
    ensures k > 0 ==> !IsSpace(s[k - 1])
  {
    if |s| > 0 && IsSpace(s[|s| - 1]) then TrailingSpaces(s[..|s| - 1]) else |s|
  }

  /** `s` without its leading whitespace. */
  function StripLeft(s: string): string
  {
    s[LeadingSpaces(s)..]
  }

  /** `s` without its trailing whitespace. */
  function StripRight(s: string): string
  {
    s[..TrailingSpaces(s)]
  }

  /** `s` without leading and trailing whitespace. */
  function Strip(s: string): string
  {
    StripRight(StripLeft(s))
  }

  /** Stripping keeps the piece `s[i..j]` of `s`, which neither begins nor
      ends with whitespace, and removes only whitespace around it. */
  lemma StripIsInfix(s: string) returns (i: nat, j: nat)
    ensures i <= j <= |s| && Strip(s) == s[i..j]
    ensures forall k | 0 <= k < i :: IsSpace(s[k])
    ensures forall k | j <= k < |s| :: IsSpace(s[k])
    ensures i < j ==> !IsSpace(s[i]) && !IsSpace(s[j - 1])
  {
    i := LeadingSpaces(s);
    var l := s[i..];
    j := i + TrailingSpaces(l);
    assert Strip(s) == l[..j - i] == s[i..j];
    forall k | j <= k < |s|
      ensures IsSpace(s[k])
    {
      assert s[k] == l[k - i];
    }
    if i < j {
      assert s[j - 1] == l[j - 1 - i];
    }
  }

  /** The fields of `s` between the occurrences of `d`: consecutive
      delimiters give empty fields, and there is always at least one field. */
  function Split(s: string, d: char): (fields: seq<string>)
    ensures |fields| >= 1
    ensures forall i | 0 <= i < |fields| :: d !in fields[i]
  {
    if |s| == 0 then [""]
    else
      var rest := Split(s[1..], d);
      if s[0] == d then [""] + rest else [[s[0]] + rest[0]] + rest[1..]
  }

  /** The fields put back together with `d` between them. */
  function Join(fields: seq<string>, d: char): string
    requires |fields| >= 1
  {
    if |fields| == 1 then fields[0] else fields[0] + [d] + Join(fields[1..], d)
  }

  /** Joining the fields of `s` gives `s` back. */
  lemma {:induction false} JoinSplit(s: string, d: char)
    ensures Join(Split(s, d), d) == s
  {
    if |s| > 0 {
      var rest := Split(s[1..], d);
      JoinSplit(s[1..], d);
      if s[0] == d {
        assert Split(s, d)[1..] == rest;
      } else {
        var fields := Split(s, d);
        if |rest| == 1 {
          assert Join(fields, d) == [s[0]] + rest[0];
        } else {
          assert fields[1..] == rest[1..];
          assert Join(rest, d) == rest[0] + [d] + Join(rest[1..], d);
        }
      }
      assert s == [s[0]] + s[1..];
    }
  }

  /** Splitting fields joined with `d` gives them back when none holds `d`. */
  lemma {:induction false} SplitJoin(fields: seq<string>, d: char)
    requires |fields| >= 1 && forall i | 0 <= i < |fields| :: d !in fields[i]
    ensures Split(Join(fields, d), d) == fields
    decreases |fields|, |fields[0]|
  {
    var f := fields[0];
    if |f| == 0 {
      if |fields| > 1 {
        var s := Join(fields, d);
        assert s == [d] + Join(fields[1..], d);
        assert s[1..] == Join(fields[1..], d);
        SplitJoin(fields[1..], d);
        assert fields == [""] + fields[1..];
      }
    } else {
      var fields' := fields[0 := f[1..]];
      assert fields'[1..] == fields[1..];
      SplitJoin(fields', d);
      var s := Join(fields, d);
      assert s == [f[0]] + Join(fields', d);
      assert s[1..] == Join(fields', d);
      assert f == [f[0]] + f[1..];
      assert fields == [f] + fields'[1..];
    }
  }

  /** A line has one field more than it has delimiters. */
  lemma {:induction false} SplitCount(s: string, d: char)
    ensures |Split(s, d)| == multiset(s)[d] + 1
  {
    if |s| > 0 {
      SplitCount(s[1..], d);
      assert s == [s[0]] + s[1..];
    }
  }

  /** Field `column` of `fields` as a list index: a negative index counts
      from the end; `None` where there is no such field. */
  function FieldAt(fields: seq<string>, column: int): (r: Option<string>)
    ensures r.Some? <==> -|fields| <= column < |fields|
    ensures 0 <= column < |fields| ==> r == Some(fields[column])
    ensures -|fields| <= column < 0 ==> r == Some(fields[|fields| + column])
  {
    if 0 <= column < |fields| then Some(fields[column])
    else if -|fields| <= column < 0 then Some(fields[|fields| + column])
    else None
  }

  /** What one line gives: a line whose stripped fields number more than
      `column` gives the parse of field `column`; any other line is skipped. */
  function Fate(line: string, delimiter: char, column: int, parse: string -> Option<real>): LineFate
  {
    var fields := Split(Strip(line), delimiter);
    if |fields| > column then
      match FieldAt(fields, column)
      case None => Failed(IndexError)
      case Some(field) =>
        match parse(field)
        case None => Failed(ValueError)
        case Some(v) => Value(v)
    else Skipped
  }

  /** The fate of every line, in order. */
  function Fates(lines: seq<string>, delimiter: char, column: int, parse: string -> Option<real>): (fates: seq<LineFate>)
    ensures |fates| == |lines|
  {
    seq(|lines|, i requires 0 <= i < |lines| => Fate(lines[i], delimiter, column, parse))
  }

  /** The reading so far, followed by one more line. */
  function Next(r: Read, fate: LineFate): Read
  {
    match r
    case ReadFailed(e) => ReadFailed(e)
    case Read(values, lineCount) =>
      match fate
      case Skipped => Read(values, lineCount + 1)
      case Value(v) => Read(values + [v], lineCount)
      case Failed(e) => ReadFailed(e)
  }

  /** Lines with these fates read one after the other: values are collected
      and skipped lines counted until a line fails. */
  function ReadFates(fates: seq<LineFate>): Read
  {
    if |fates| == 0 then Read([], 0) else Next(ReadFates(fates[..|fates| - 1]), fates[|fates| - 1])
  }

  /** The lines read one after the other. */
  function ReadLines(lines: seq<string>, delimiter: char, column: int, parse: string -> Option<real>): Read
  {
    ReadFates(Fates(lines, delimiter, column, parse))
  }

  /** The lines that are read: the first `offset` lines are dropped when
      there are more lines than that; otherwise every line is kept. A
      negative offset keeps only the last `-offset` lines. */
  function Kept(lines: seq<string>, offset: int): (kept: seq<string>)
    ensures 0 <= offset < |lines| ==> kept == lines[offset..]
    ensures offset >= |lines| ==> kept == lines
    ensures offset < 0 ==> kept == lines[if |lines| + offset < 0 then 0 else |lines| + offset..]
  {
    SliceBounds(lines, offset, |lines|);
    if offset < |lines| then Slice(lines, offset, |lines|) else lines
  }

  /** Reading fails exactly when some line fails. */
  lemma {:induction false} ReadFailsAtFailedLine(fates: seq<LineFate>)
    ensures ReadFates(fates).ReadFailed? <==> exists i | 0 <= i < |fates| :: fates[i].Failed?
  {
    if |fates| > 0 {
      var init := fates[..|fates| - 1];
      ReadFailsAtFailedLine(init);
      assert forall i | 0 <= i < |init| :: init[i] == fates[i];
    }
  }

  /** Every line read either gives a value or is counted as skipped. */
  lemma {:induction false} ReadAccountsForEveryLine(fates: seq<LineFate>)
    requires ReadFates(fates).Read?
    ensures |ReadFates(fates).values| + ReadFates(fates).lineCount == |fates|
  {
    if |fates| > 0 {
      ReadAccountsForEveryLine(fates[..|fates| - 1]);
    }
  }

  /** Lines that all have a field to read are none of them skipped. */
  lemma {:induction false} NothingSkipped(fates: seq<LineFate>)
    requires forall i | 0 <= i < |fates| :: !fates[i].Skipped?
    requires ReadFates(fates).Read?
    ensures ReadFates(fates).lineCount == 0
  {
    if |fates| > 0 {
      NothingSkipped(fates[..|fates| - 1]);
    }
  }

  /** Column 0 exists in every line, so no line is skipped and every line
      gives a value. */
  lemma FirstColumnSkipsNothing(lines: seq<string>, delimiter: char, parse: string -> Option<real>)
    requires ReadLines(lines, delimiter, 0, parse).Read?
    ensures ReadLines(lines, delimiter, 0, parse).lineCount == 0
    ensures |ReadLines(lines, delimiter, 0, parse).values| == |lines|
  {
    var fates := Fates(lines, delimiter, 0, parse);
    NothingSkipped(fates);
    ReadAccountsForEveryLine(fates);
  }

  /** Once a line fails, the lines after it change nothing: the reading
      stops with that line's error. */
  lemma {:induction false} FailureStops(a: seq<LineFate>, b: seq<LineFate>)
    requires ReadFates(a).ReadFailed?
    ensures ReadFates(a + b) == ReadFates(a)
  {
    if |b| == 0 {
      assert a + b == a;
    } else {
      assert (a + b)[..|a + b| - 1] == a + b[..|b| - 1];
      FailureStops(a, b[..|b| - 1]);
    }
  }

  /** Reading the lines of `a` and then those of `b` puts the values of `a`
      before the values of `b` and adds up the skipped lines. */
  lemma {:induction false} ReadInOrder(a: seq<LineFate>, b: seq<LineFate>)
    requires ReadFates(a + b).Read?
    ensures ReadFates(a).Read? && ReadFates(b).Read?
    ensures ReadFates(a + b)
         == Read(ReadFates(a).values + ReadFates(b).values, ReadFates(a).lineCount + ReadFates(b).lineCount)
  {
    if |b| == 0 {
      assert a + b == a;
    } else {
      var b', fate := b[..|b| - 1], b[|b| - 1];
      assert (a + b)[..|a + b| - 1] == a + b';
      assert (a + b)[|a + b| - 1] == fate;
      ReadInOrder(a, b');
      if fate.Value? {
        var va, vb := ReadFates(a).values, ReadFates(b').values;
        assert va + vb + [fate.value] == va + (vb + [fate.value]);
      }
    }
  }

  /** The fates of the lines of `a` and then `b` are those of `a` and then
      those of `b`. */
  lemma FatesAppend(a: seq<string>, b: seq<string>, delimiter: char, column: int, parse: string -> Option<real>)
    ensures Fates(a + b, delimiter, column, parse) == Fates(a, delimiter, column, parse) + Fates(b, delimiter, column, parse)
  {
  }

  /** A single line: it gives its value, or is counted as skipped. */
  lemma ReadOneLine(line: string, delimiter: char, column: int, parse: string -> Option<real>)
    ensures var r := ReadLines([line], delimiter, column, parse);
      match Fate(line, delimiter, column, parse)
      case Skipped => r == Read([], 1)
      case Value(v) => r == Read([v], 0)
      case Failed(e) => r == ReadFailed(e)
  {
    var fates := Fates([line], delimiter, column, parse);
    assert fates[..0] == [] && fates[0] == Fate(line, delimiter, column, parse);
    assert ReadFates(fates) == Next(ReadFates([]), fates[0]);
    assert ReadLines([line], delimiter, column, parse) == Next(Read([], 0), Fate(line, delimiter, column, parse));
  }

  /** With a column that is not negative, a line gives a value exactly when
      it has at least `column` delimiters, and the value is the parse of
      that field. */
  lemma FateOfColumn(line: string, delimiter: char, column: nat, parse: string -> Option<real>)
    ensures Fate(line, delimiter, column, parse).Skipped? <==> multiset(Strip(line))[delimiter] < column
    ensures multiset(Strip(line))[delimiter] >= column ==>
      Fate(line, delimiter, column, parse) ==
        match parse(Split(Strip(line), delimiter)[column])
        case None => Failed(ValueError)
        case Some(v) => Value(v)
  {
    SplitCount(Strip(line), delimiter);
  }

  /** Reading one line more. */
  lemma ReadPrefix(fates: seq<LineFate>, i: nat)
    requires i < |fates|
    ensures ReadFates(fates[..i + 1]) == Next(ReadFates(fates[..i]), fates[i])
  {
    assert fates[..i + 1][..i] == fates[..i];
  }

  /** Reading that fails at line `i` fails with that line's error. */
  lemma ReadStopsAt(fates: seq<LineFate>, i: nat)
    requires i < |fates| && ReadFates(fates[..i + 1]).ReadFailed?
    ensures ReadFates(fates) == ReadFates(fates[..i + 1])
  {
    FailureStops(fates[..i + 1], fates[i + 1..]);
    assert fates[..i + 1] + fates[i + 1..] == fates;
  }

  /** Reads one line: its stripped fields, then field `column` when there
      are more fields than `column`. */
  method ReadLine(line: string, delimiter: char, column: int, parse: string -> Option<real>) returns (fate: LineFate)
    ensures fate == Fate(line, delimiter, column, parse)
  {
    var splittedLine := Split(Strip(line), delimiter);
    if |splittedLine| > column {
      var field := FieldAt(splittedLine, column);
      if field.None? {
        return Failed(IndexError);
      }
      var value := parse(field.value);
      if value.None? {
        return Failed(ValueError);
      }
      return Value(value.value);
    }
    return Skipped;
  }

  /** Reads the lines kept after `offset`: each gives the number in field
      `column` or is counted as having too few fields. */
  method FileAsFloatArray(lines: seq<string>, delimiter: char, column: int, offset: int, parse: string -> Option<real>)
    returns (r: Read)
    ensures r == ReadLines(Kept(lines, offset), delimiter, column, parse)
  {
    var kept := lines;
    if offset < |lines| {
      kept := Slice(lines, offset, |lines|);
    }
    assert kept == Kept(lines, offset);
    r := ReadEveryLine(kept, delimiter, column, parse);
  }

  /** The loop of `FileAsFloatArray`: reads `lines` in order, collecting the
      values and counting the skipped lines, and stops at the first line
      that fails. */
  method ReadEveryLine(lines: seq<string>, delimiter: char, column: int, parse: string -> Option<real>)
    returns (r: Read)
    ensures r == ReadLines(lines, delimiter, column, parse)
  {
    ghost var fates := Fates(lines, delimiter, column, parse);
    var lineCount := 0;
    var result := [];
    for i := 0 to |lines|
      invariant ReadFates(fates[..i]) == Read(result, lineCount)
    {
      ReadPrefix(fates, i);
      var fate := ReadLine(lines[i], delimiter, column, parse);
      assert fate == fates[i];
      match fate
      case Failed(e) =>
        ReadStopsAt(fates, i);
        return ReadFailed(e);
      case Value(v) =>
        result := result + [v];
      case Skipped =>
        lineCount := lineCount + 1;
    }
    assert fates[..|lines|] == fates;
    return Read(result, lineCount);
  }
}
