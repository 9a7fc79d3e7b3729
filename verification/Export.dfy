/** The COPY writer of pkg/db/export.go, and that what it writes reads back as the rows it was given. */
module Export {
  import opened Wrappers
  import opened Decimals
  import opened CopyFormat

  // ---------------------------------------------------------------- one value

  function EscapeChar(c: char): string {
    match c
    case '\\' => "\\\\"
    case '\t' => "\\t"
    case '\n' => "\\n"
    case '\r' => "\\r"
    case _ => [c]
  }

  function EscapeCopyString(s: string): string {
    if s == "" then "" else EscapeChar(s[0]) + EscapeCopyString(s[1..])
  }

  function FormatCopyValue(v: Value): string {
    match v
    case Null => "\\N"
    case Bool(b) => if b then "t" else "f"
    case Int(n) => FormatInt(n)
    case Text(s) => EscapeCopyString(s)
  }

  predicate OfKind(v: Value, kind: Kind) {
    match v
    case Null => true
    case Bool(_) => kind.BoolColumn?
    case Int(_) => kind.IntColumn?
    case Text(_) => kind.TextColumn?
  }

  /** No tab, no line end, and behind each backslash one of these letters: nothing that ends a field or a line. */
  predicate Safe(s: string) {
    || s == ""
    || (s[0] == '\\' && |s| >= 2 && s[1] in {'\\', 't', 'n', 'r', 'N'} && Safe(s[2..]))
    || (s[0] !in {'\\', '\t', '\n', '\r'} && Safe(s[1..]))
  }

  lemma {:induction false} EscapedIsSafe(s: string)
    ensures Safe(EscapeCopyString(s))
  {
    if s != "" {
      EscapedIsSafe(s[1..]);
      var front, rest := EscapeChar(s[0]), EscapeCopyString(s[1..]);
      assert (front + rest)[|front|..] == rest;
    }
  }

  lemma UnescapesOne(c: char, rest: string)
    ensures Unescape(EscapeChar(c) + rest) == [c] + Unescape(rest)
  {
    var all := EscapeChar(c) + rest;
    if |EscapeChar(c)| == 2 {
      assert all[1] == EscapeChar(c)[1] && all[2..] == rest;
      assert c == '\\' ==> DigitRun(all[1..], 8, 3) == 0;
    } else {
      assert all[1..] == rest;
    }
  }

  lemma {:induction false} UnescapesBack(s: string)
    ensures Unescape(EscapeCopyString(s)) == s
  {
    if s != "" {
      UnescapesBack(s[1..]);
      UnescapesOne(s[0], EscapeCopyString(s[1..]));
    }
  }

  /** Nothing that means anything to the reader. */
  predicate Plain(s: string) {
    forall i :: 0 <= i < |s| ==> s[i] !in {'\\', '\t', '\n', '\r'}
  }

  lemma {:induction false} PlainReadsBack(s: string)
    requires Plain(s)
    ensures Safe(s) && Unescape(s) == s
  {
    if s != "" {
      PlainReadsBack(s[1..]);
    }
  }

  lemma NumbersArePlain(n: int)
    ensures Plain(FormatInt(n))
  {
    IntReadsBack(n);
    var s := FormatInt(n);
    forall i | 0 <= i < |s| ensures s[i] !in {'\\', '\t', '\n', '\r'} {
      assert IsDigit(s[i]) || s[i] == '-' by {
        if n < 0 && i > 0 {
          assert s[i] == s[1..][i - 1];
        }
      }
    }
  }

  /** NULL is never confused with a string. */
  lemma EscapedIsNotNull(s: string)
    ensures EscapeCopyString(s) != NULL
  {
    if s != "" {
      var front := EscapeChar(s[0]);
      assert EscapeCopyString(s)[..|front|] == front;
      assert front != NULL && (|front| == 1 ==> front[0] != '\\');
    }
  }

  /** One value reads back as itself, and contains nothing that ends a field or a line. */
  lemma ValueReadsBack(v: Value, kind: Kind)
    requires OfKind(v, kind)
    ensures Safe(FormatCopyValue(v)) && ReadField(kind, FormatCopyValue(v)) == Some(v)
  {
    match v {
      case Null => assert Safe(NULL[2..]);
      case Bool(b) => PlainReadsBack(if b then "t" else "f");
      case Int(n) =>
        NumbersArePlain(n);
        PlainReadsBack(FormatInt(n));
        IntReadsBack(n);
        assert FormatInt(n)[0] != NULL[0];
      case Text(s) =>
        EscapedIsSafe(s);
        UnescapesBack(s);
        EscapedIsNotNull(s);
    }
  }

  // ---------------------------------------------------------------- one row

  /** strings.Join(parts, "\t") */
  function Join(parts: seq<string>): string {
    if parts == [] then ""
    else if |parts| == 1 then parts[0]
    else parts[0] + "\t" + Join(parts[1..])
  }

  function Parts(vals: seq<Value>): (r: seq<string>)
    ensures |r| == |vals|
    ensures forall i :: 0 <= i < |vals| ==> r[i] == FormatCopyValue(vals[i])
  {
    seq(|vals|, i requires 0 <= i < |vals| => FormatCopyValue(vals[i]))
  }

  /** The row has a value for each column. */
  predicate Conforms(vals: seq<Value>, kinds: seq<Kind>) {
    |vals| == |kinds| && forall i :: 0 <= i < |vals| ==> OfKind(vals[i], kinds[i])
  }

  method JoinAll(parts: array<string>) returns (row: string)
    ensures row == Join(parts[..])
  {
    row := "";
    var i := parts.Length;
    while i > 0
      invariant 0 <= i <= parts.Length
      invariant row == Join(parts[i..])
    {
      i := i - 1;
      row := if i == parts.Length - 1 then parts[i] else parts[i] + "\t" + row;
      assert parts[i..][1..] == parts[i + 1..];
    }
    assert parts[0..] == parts[..];
  }

  method FormatCopyRow(vals: seq<Value>) returns (row: string)
    ensures row == Join(Parts(vals))
  {
    var parts := new string[|vals|];
    for i := 0 to |vals|
      invariant forall j :: 0 <= j < i ==> parts[j] == FormatCopyValue(vals[j])
    {
      parts[i] := FormatCopyValue(vals[i]);
    }
    assert parts[..] == Parts(vals);
    row := JoinAll(parts);
  }

  predicate AllSafe(parts: seq<string>) {
    forall i :: 0 <= i < |parts| ==> Safe(parts[i])
  }

  lemma PrependTwice(a: string, b: string, fields: seq<string>)
    requires fields != []
    ensures PrependFirst(a, PrependFirst(b, fields)) == PrependFirst(a + b, fields)
  {
    assert a + (b + fields[0]) == (a + b) + fields[0];
  }

  lemma PrependNothing(fields: seq<string>)
    requires fields != []
    ensures PrependFirst("", fields) == fields
  {
    assert "" + fields[0] == fields[0];
  }

  /** A safe text is the beginning of the first field, whatever follows. */
  lemma {:induction false} SafeField(s: string, rest: string)
    requires Safe(s)
    ensures Fields(s + rest) == PrependFirst(s, Fields(rest))
  {
    if s == "" {
      assert s + rest == rest;
      PrependNothing(Fields(rest));
    } else {
      var k := if s[0] == '\\' then 2 else 1;
      SafeField(s[k..], rest);
      assert (s + rest)[k..] == s[k..] + rest;
      assert (s + rest)[..k] == s[..k];
      PrependTwice(s[..k], s[k..], Fields(rest));
      assert s[..k] + s[k..] == s;
    }
  }

  lemma FieldBeforeTab(s: string, rest: string)
    requires Safe(s)
    ensures Fields(s + "\t" + rest) == [s] + Fields(rest)
  {
    var behind := "\t" + rest;
    SafeField(s, behind);
    assert s + "\t" + rest == s + behind;
    assert behind[1..] == rest;
    assert s + "" == s;
  }

  lemma LastField(s: string)
    requires Safe(s)
    ensures Fields(s) == [s]
  {
    SafeField(s, "");
    assert s + "" == s;
  }

  lemma {:induction false} JoinedFields(parts: seq<string>)
    requires parts != [] && AllSafe(parts)
    ensures Fields(Join(parts)) == parts
  {
    if |parts| == 1 {
      LastField(parts[0]);
    } else {
      JoinedFields(parts[1..]);
      FieldBeforeTab(parts[0], Join(parts[1..]));
      assert parts == [parts[0]] + parts[1..];
    }
  }

  // ---------------------------------------------------------------- one line

  /** A text of fields and tabs: it ends no line and is no end marker. */
  predicate OneLine(s: string) {
    || s == ""
    || (s[0] == '\\' && |s| >= 2 && s[1] !in {'.', '\n', '\r'} && OneLine(s[2..]))
    || (s[0] !in {'\\', '\n', '\r'} && OneLine(s[1..]))
  }

  lemma {:induction false} OneLineAppend(a: string, b: string)
    requires Safe(a) && OneLine(b)
    ensures OneLine(a + b)
  {
    if a == "" {
      assert a + b == b;
    } else {
      var k := if a[0] == '\\' then 2 else 1;
      OneLineAppend(a[k..], b);
      assert (a + b)[k..] == a[k..] + b;
    }
  }

  lemma {:induction false} JoinedIsOneLine(parts: seq<string>)
    requires AllSafe(parts)
    ensures OneLine(Join(parts))
  {
    if |parts| == 1 {
      OneLineAppend(parts[0], "");
      assert parts[0] + "" == parts[0];
    } else if |parts| > 1 {
      JoinedIsOneLine(parts[1..]);
      var rest := "\t" + Join(parts[1..]);
      assert rest[1..] == Join(parts[1..]);
      OneLineAppend(parts[0], rest);
      assert Join(parts) == parts[0] + rest;
    }
  }

  lemma {:induction false} LineReadsBack(s: string, rest: string)
    requires OneLine(s)
    ensures ReadLine(s + "\n" + rest) == Some((s, rest))
  {
    var all := s + "\n" + rest;
    if s == "" {
      assert all[1..] == rest;
    } else {
      var k := if s[0] == '\\' then 2 else 1;
      LineReadsBack(s[k..], rest);
      assert all[k..] == s[k..] + "\n" + rest;
      assert all[..k] == s[..k];
      assert s[..k] + s[k..] == s;
    }
  }

  // ---------------------------------------------------------------- the table

  /** The rows of a table as copyTableRows writes them, behind the COPY statement. */
  function CopyData(rows: seq<seq<Value>>): string {
    if rows == [] then "\\.\n" else Join(Parts(rows[0])) + "\n" + CopyData(rows[1..])
  }

  class Output {
    var written: string

    constructor ()
      ensures written == ""
    {
      written := "";
    }

    method Print(s: string)
      modifies this
      ensures written == old(written) + s
    {
      written := written + s;
    }
  }

  lemma CopyDataShrinks(written: string, rows: seq<seq<Value>>, i: nat)
    requires i < |rows|
    ensures written + CopyData(rows[i..]) == written + (Join(Parts(rows[i])) + "\n") + CopyData(rows[i + 1..])
  {
    assert rows[i..][1..] == rows[i + 1..];
  }

  method WriteCopyRow(vals: seq<Value>, w: Output)
    modifies w
    ensures w.written == old(w.written) + (Join(Parts(vals)) + "\n")
  {
    var row := FormatCopyRow(vals);
    w.Print(row + "\n");
  }

  /** A table without columns writes nothing at all. */
  method CopyTableRows(columns: nat, header: string, rows: seq<seq<Value>>, w: Output)
    requires forall i :: 0 <= i < |rows| ==> |rows[i]| == columns
    modifies w
    ensures w.written == old(w.written) + if columns == 0 then "" else header + CopyData(rows)
  {
    if columns == 0 {
      return;
    }
    w.Print(header);
    ghost var all := w.written + CopyData(rows);
    assert rows[0..] == rows;
    for i := 0 to |rows|
      invariant w.written + CopyData(rows[i..]) == all
    {
      CopyDataShrinks(w.written, rows, i);
      WriteCopyRow(rows[i], w);
    }
    w.Print("\\.\n");
  }

  lemma {:induction false} PartsReadBack(kinds: seq<Kind>, vals: seq<Value>)
    requires Conforms(vals, kinds)
    ensures ReadFields(kinds, Parts(vals)) == Some(vals) && AllSafe(Parts(vals))
  {
    if vals != [] {
      ValueReadsBack(vals[0], kinds[0]);
      PartsReadBack(kinds[1..], vals[1..]);
      assert Parts(vals)[1..] == Parts(vals[1..]);
      assert vals == [vals[0]] + vals[1..];
      assert forall i :: 1 <= i < |vals| ==> Parts(vals)[i] == Parts(vals[1..])[i - 1];
    }
  }

  lemma RowReadsBack(kinds: seq<Kind>, vals: seq<Value>, rest: string)
    requires vals != [] && Conforms(vals, kinds)
    ensures var row := Join(Parts(vals));
      && ReadLine(row + "\n" + rest) == Some((row, rest))
      && row != END_MARKER
      && ReadFields(kinds, Fields(row)) == Some(vals)
  {
    PartsReadBack(kinds, vals);
    JoinedFields(Parts(vals));
    JoinedIsOneLine(Parts(vals));
    LineReadsBack(Join(Parts(vals)), rest);
  }

  /** A line that is no end marker is read as one row in front of the rows behind it. */
  lemma LineBeforeRows(kinds: seq<Kind>, line: string, behind: string, vals: seq<Value>, rows: seq<seq<Value>>,
                       rest: string)
    requires ReadLine(line + "\n" + behind) == Some((line, behind)) && line != END_MARKER
    requires ReadFields(kinds, Fields(line)) == Some(vals) && ReadRows(kinds, behind) == Some((rows, rest))
    ensures ReadRows(kinds, line + "\n" + behind) == Some(([vals] + rows, rest))
  {
  }

  lemma FirstLine(rows: seq<seq<Value>>, rest: string)
    ensures rows == [] ==> CopyData(rows) + rest == END_MARKER + "\n" + rest
    ensures rows != [] ==>
      CopyData(rows) + rest == Join(Parts(rows[0])) + "\n" + (CopyData(rows[1..]) + rest)
  {
    assert END_MARKER + "\n" == "\\.\n";
  }

  /**
   The rows of a table with at least one column, written and read back by the types of its columns, are
   the same rows; no row is read as the end marker, and the text behind the end marker is left alone.
   */
  lemma {:induction false} TableReadsBack(kinds: seq<Kind>, rows: seq<seq<Value>>, rest: string)
    requires kinds != [] && forall i :: 0 <= i < |rows| ==> Conforms(rows[i], kinds)
    ensures ReadRows(kinds, CopyData(rows) + rest) == Some((rows, rest))
  {
    FirstLine(rows, rest);
    if rows == [] {
      MarkerReadsBack(rest);
    } else {
      var row, behind := Join(Parts(rows[0])), CopyData(rows[1..]) + rest;
      RowReadsBack(kinds, rows[0], behind);
      TableReadsBack(kinds, rows[1..], rest);
      LineBeforeRows(kinds, row, behind, rows[0], rows[1..], rest);
      assert rows == [rows[0]] + rows[1..];
    }
  }

  lemma MarkerReadsBack(rest: string)
    ensures ReadLine(END_MARKER + "\n" + rest) == Some((END_MARKER, rest))
  {
    var all := END_MARKER + "\n" + rest;
    assert all[2..] == "\n" + rest;
    assert all[2..][1..] == rest;
    assert all[..2] == END_MARKER;
    assert END_MARKER + "" == END_MARKER;
  }
}
