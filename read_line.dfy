/**
  read_line (helpers.cpp, lines 207-224): a line of map data is cut at
  every single space, and each space-terminated token contributes its first
  character to the row.  Text after the last space is dropped, and an empty
  token makes token.at(0) throw std::out_of_range.
*/
module LineReading {

  /** What read_line produces: the row of cell colours, or the exception. */
  datatype Outcome = Row(cells: seq<char>) | OutOfRange

  /** The result of string::find: an index, or npos. */
  datatype Position = At(index: nat) | NotFound

  const Delimiter: char := ' '

  /** string::find for one character: the first index holding c. */
  function Find(s: string, c: char): (r: Position)
    ensures r.At? ==> r.index < |s| && s[r.index] == c && c !in s[..r.index]
    ensures r.NotFound? <==> c !in s
  {
    if s == [] then NotFound
    else if s[0] == c then At(0)
    else match Find(s[1..], c)
      case NotFound => NotFound
      case At(k) => assert s[..k + 1] == [s[0]] + s[1..][..k]; At(k + 1)
  }

  /** Find returns the first index holding c, whichever it is. */
  lemma {:induction false} FindFirst(s: string, c: char, i: nat)
    requires i < |s| && s[i] == c && c !in s[..i]
    ensures Find(s, c) == At(i)
  {
    if i > 0 {
      assert s[0] == s[..i][0];
      assert s[1..][..i - 1] == s[1..i];
      assert forall k :: 0 <= k < i - 1 ==> s[1..i][k] == s[..i][k + 1];
      FindFirst(s[1..], c, i - 1);
    }
  }

  /** c is put in front of the row, and the exception passes through. */
  function Prepend(c: char, o: Outcome): Outcome
  {
    match o
    case Row(cells) => Row([c] + cells)
    case OutOfRange => OutOfRange
  }

  /** The cells already pushed, in front of what the rest of the line yields. */
  function PrependAll(row: seq<char>, o: Outcome): Outcome
  {
    match o
    case Row(cells) => Row(row + cells)
    case OutOfRange => OutOfRange
  }

  /**
    What read_line returns for s, one space-terminated token at a time.  A
    token is cut before the first space, so no cell of the row is a space.
  */
  function ReadLineResult(s: string): (r: Outcome)
    ensures r.Row? ==> Delimiter !in r.cells
    decreases |s|
  {
    match Find(s, Delimiter)
    case NotFound => Row([])
    case At(pos) =>
      if pos == 0 then OutOfRange
      else
        assert s[0] == s[..pos][0];
        Prepend(s[0], ReadLineResult(s[pos + 1..]))
  }

  /** read_line: loops while a space remains, cutting off one token and its space each time. */
  method ReadLine(line: string) returns (r: Outcome)
    ensures r == ReadLineResult(line)
  {
    var s := line;
    var row: seq<char> := [];
    var pos := Find(s, Delimiter);
    while pos.At?
      invariant pos == Find(s, Delimiter)
      invariant ReadLineResult(line) == PrependAll(row, ReadLineResult(s))
      decreases |s|
    {
      var token := s[..pos.index];
      ghost var s0 := s;
      s := s[pos.index + 1..];
      if |token| == 0 {
        return OutOfRange;
      }
      var cell := token[0];
      PushCell(row, s0, pos.index, s);
      row := row + [cell];
      pos := Find(s, Delimiter);
    }
    return Row(row);
  }

  /** One pass of ReadLine's loop keeps the row pushed so far in front of what remains. */
  lemma PushCell(row: seq<char>, s: string, pos: nat, rest: string)
    requires Find(s, Delimiter) == At(pos) && pos > 0 && rest == s[pos + 1..]
    ensures PrependAll(row, ReadLineResult(s)) == PrependAll(row + [s[0]], ReadLineResult(rest))
  {
    TokenRead(s, pos);
    PushOne(row, s[0], ReadLineResult(rest));
  }

  /** A non-empty first token contributes its first character. */
  lemma TokenRead(s: string, pos: nat)
    requires Find(s, Delimiter) == At(pos) && pos > 0
    ensures ReadLineResult(s) == Prepend(s[0], ReadLineResult(s[pos + 1..]))
  {
  }

  /** Putting c in front and then the row is putting row + [c] in front. */
  lemma PushOne(row: seq<char>, c: char, o: Outcome)
    ensures PrependAll(row, Prepend(c, o)) == PrependAll(row + [c], o)
  {
    if o.Row? {
      assert row + ([c] + o.cells) == row + [c] + o.cells;
    }
  }

  // ---------------------------------------------------------------------
  // What the row is, stated without the loop.

  /** Some token is empty: the line starts with a space or has two spaces in a row. */
  predicate HasEmptyToken(s: string)
  {
    exists k :: 0 <= k < |s| && s[k] == Delimiter && (k == 0 || s[k - 1] == Delimiter)
  }

  /** read_line fails exactly when some space-terminated token is empty. */
  lemma {:induction false} FailsIffEmptyToken(s: string)
    ensures ReadLineResult(s) == OutOfRange <==> HasEmptyToken(s)
    decreases |s|
  {
    match Find(s, Delimiter)
    case NotFound =>
    case At(pos) =>
      if pos > 0 {
        var rest := s[pos + 1..];
        FailsIffEmptyToken(rest);
        if HasEmptyToken(rest) {
          var k :| 0 <= k < |rest| && rest[k] == Delimiter && (k == 0 || rest[k - 1] == Delimiter);
          assert s[pos + 1 + k] == Delimiter && s[pos + k] == Delimiter;
        }
        if HasEmptyToken(s) {
          var k :| 0 <= k < |s| && s[k] == Delimiter && (k == 0 || s[k - 1] == Delimiter);
          assert k > pos;
          assert rest[k - pos - 1] == Delimiter;
          assert k - pos - 1 == 0 || rest[k - pos - 2] == Delimiter;
        }
      }
  }

  /** The number of spaces in s. */
  function Spaces(s: string): nat
  {
    if s == [] then 0 else Spaces(s[1..]) + if s[0] == Delimiter then 1 else 0
  }

  lemma {:induction false} SpacesAppend(a: string, b: string)
    ensures Spaces(a + b) == Spaces(a) + Spaces(b)
    decreases |a|
  {
    if a != [] {
      assert (a + b)[0] == a[0];
      assert (a + b)[1..] == a[1..] + b;
      SpacesAppend(a[1..], b);
    } else {
      assert a + b == b;
    }
  }

  lemma {:induction false} NoSpaces(s: string)
    requires Delimiter !in s
    ensures Spaces(s) == 0
    decreases |s|
  {
    if s != [] {
      NoSpaces(s[1..]);
    }
  }

  /** A successful read yields one cell per space in the line. */
  lemma {:induction false} OneCellPerSpace(s: string)
    requires ReadLineResult(s).Row?
    ensures |ReadLineResult(s).cells| == Spaces(s)
    decreases |s|
  {
    match Find(s, Delimiter)
    case NotFound =>
      NoSpaces(s);
    case At(pos) =>
      var rest := s[pos + 1..];
      OneCellPerSpace(rest);
      assert s == s[..pos] + [Delimiter] + rest;
      SpacesAppend(s[..pos] + [Delimiter], rest);
      SpacesAppend(s[..pos], [Delimiter]);
      NoSpaces(s[..pos]);
  }

  /** Each token followed by one space. */
  function Joined(tokens: seq<string>): string
  {
    if tokens == [] then [] else tokens[0] + [Delimiter] + Joined(tokens[1..])
  }

  /** The first character of every token, in order. */
  function FirstChars(tokens: seq<string>): (r: seq<char>)
    requires forall k :: 0 <= k < |tokens| ==> |tokens[k]| > 0
    ensures |r| == |tokens| && forall k :: 0 <= k < |tokens| ==> r[k] == tokens[k][0]
  {
    if tokens == [] then [] else [tokens[0][0]] + FirstChars(tokens[1..])
  }

  /**
    A line of space-terminated tokens followed by text without a space reads
    back as the first characters of the tokens, in order: the trailing text
    is dropped.
  */
  lemma {:induction false} ReadsFirstChars(tokens: seq<string>, tail: string)
    requires forall k :: 0 <= k < |tokens| ==> |tokens[k]| > 0 && Delimiter !in tokens[k]
    requires Delimiter !in tail
    ensures ReadLineResult(Joined(tokens) + tail) == Row(FirstChars(tokens))
    decreases |tokens|
  {
    var s := Joined(tokens) + tail;
    if tokens == [] {
      assert s == tail;
    } else {
      var t := tokens[0];
      var rest := Joined(tokens[1..]) + tail;
      assert s == t + [Delimiter] + rest;
      assert Delimiter !in s[..|t|] by {
        assert s[..|t|] == t;
      }
      FindFirst(s, Delimiter, |t|);
      assert s[|t| + 1..] == rest;
      ReadsFirstChars(tokens[1..], tail);
    }
  }

  /** Text after the last space never changes the row. */
  lemma {:induction false} TrailingTextDropped(s: string, tail: string)
    requires s == [] || s[|s| - 1] == Delimiter
    requires Delimiter !in tail
    ensures ReadLineResult(s + tail) == ReadLineResult(s)
    decreases |s|
  {
    if s == [] {
      assert s + tail == tail;
    } else {
      FirstSpaceKept(s, tail);
      var pos := Find(s, Delimiter).index;
      if pos > 0 {
        TrailingTextDropped(s[pos + 1..], tail);
      }
    }
  }

  /** Appending text to a line that ends in a space keeps its first space and what follows it. */
  lemma FirstSpaceKept(s: string, tail: string)
    requires s != [] && s[|s| - 1] == Delimiter
    ensures Find(s, Delimiter).At? && Find(s + tail, Delimiter) == Find(s, Delimiter)
    ensures (s + tail)[Find(s, Delimiter).index + 1..] == s[Find(s, Delimiter).index + 1..] + tail
  {
    var pos := Find(s, Delimiter).index;
    assert (s + tail)[..pos] == s[..pos];
    FindFirst(s + tail, Delimiter, pos);
  }
}
