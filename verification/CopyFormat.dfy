/**
 The text format of PostgreSQL's COPY as its documentation gives it ("File Formats", "Text Format"),
 read back: lines, fields, NULL, escapes, and the end marker. A char stands for a byte.
 */
module CopyFormat {
  import opened Wrappers
  import opened Decimals

  // ---------------------------------------------------------------- lines and fields

  /** The text up to the first newline or carriage return that is not behind a backslash, and the text behind it. */
  function ReadLine(text: string): Option<(string, string)> {
    if text == "" then None
    else if text[0] in {'\n', '\r'} then Some(("", text[1..]))
    else if text[0] == '\\' && |text| >= 2 then Prepend(text[..2], ReadLine(text[2..]))
    else Prepend(text[..1], ReadLine(text[1..]))
  }

  function Prepend(front: string, line: Option<(string, string)>): Option<(string, string)> {
    match line
    case None => None
    case Some((s, rest)) => Some((front + s, rest))
  }

  /** The fields of a line: they end at each tab that is not behind a backslash. */
  function Fields(line: string): (r: seq<string>)
    ensures r != []
  {
    if line == "" then [""]
    else if line[0] == '\t' then [""] + Fields(line[1..])
    else if line[0] == '\\' && |line| >= 2 then PrependFirst(line[..2], Fields(line[2..]))
    else PrependFirst(line[..1], Fields(line[1..]))
  }

  function PrependFirst(front: string, fields: seq<string>): (r: seq<string>)
    requires fields != []
    ensures |r| == |fields|
  {
    fields[0 := front + fields[0]]
  }

  // ---------------------------------------------------------------- escapes

  function DigitValue(c: char): Option<int> {
    if '0' <= c <= '9' then Some(c as int - '0' as int)
    else if 'a' <= c <= 'f' then Some(c as int - 'a' as int + 10)
    else if 'A' <= c <= 'F' then Some(c as int - 'A' as int + 10)
    else None
  }

  /** How many of the first max characters are digits of the base. */
  function DigitRun(s: string, base: int, max: nat): (k: nat)
    ensures k <= |s| && k <= max
  {
    if max == 0 || s == "" then 0
    else match DigitValue(s[0])
      case Some(d) => if d < base then 1 + DigitRun(s[1..], base, max - 1) else 0
      case None => 0
  }

  function Number(s: string, base: int): int {
    if s == "" then 0
    else Number(s[..|s| - 1], base) * base + match DigitValue(s[|s| - 1]) case Some(d) => d case None => 0
  }

  function Byte(n: int): char {
    (n % 256) as char
  }

  /** The characters with a letter of their own. */
  function Control(c: char): Option<char> {
    match c
    case 'b' => Some(8 as char)
    case 'f' => Some(12 as char)
    case 'n' => Some('\n')
    case 'r' => Some('\r')
    case 't' => Some('\t')
    case 'v' => Some(11 as char)
    case _ => None
  }

  /** Undoes the backslash sequences: letters, octal and hexadecimal numbers, and any other character itself. */
  function Unescape(s: string): string
    decreases |s|
  {
    if s == "" then ""
    else if s[0] != '\\' then [s[0]] + Unescape(s[1..])
    else if |s| == 1 then ""
    else if Control(s[1]).Some? then [Control(s[1]).value] + Unescape(s[2..])
    else
      var octal := DigitRun(s[1..], 8, 3);
      if octal > 0 then [Byte(Number(s[1..1 + octal], 8))] + Unescape(s[1 + octal..])
      else
        var hex := if s[1] == 'x' then DigitRun(s[2..], 16, 2) else 0;
        if hex > 0 then [Byte(Number(s[2..2 + hex], 16))] + Unescape(s[2 + hex..])
        else [s[1]] + Unescape(s[2..])
  }

  // ---------------------------------------------------------------- rows

  const NULL: string := "\\N"
  const END_MARKER: string := "\\."

  /** A value of a column: NULL, a boolean, an integer or a string. */
  datatype Value = Null | Bool(b: bool) | Int(n: int) | Text(s: string)

  datatype Kind = BoolColumn | IntColumn | TextColumn

  /** A text as the type of the column reads it. */
  function ReadText(kind: Kind, text: string): Option<Value> {
    match kind
    case BoolColumn => if text == "t" then Some(Bool(true)) else if text == "f" then Some(Bool(false)) else None
    case IntColumn => if ReadInt(text).Some? then Some(Int(ReadInt(text).value)) else None
    case TextColumn => Some(Text(text))
  }

  /** NULL is told from a string before the backslash sequences are undone. */
  function ReadField(kind: Kind, field: string): Option<Value> {
    if field == NULL then Some(Null) else ReadText(kind, Unescape(field))
  }

  /** One value for each column, or None when a field is missing, superfluous, or not of its column's type. */
  function ReadFields(kinds: seq<Kind>, fields: seq<string>): Option<seq<Value>> {
    if |kinds| != |fields| then None
    else if kinds == [] then Some([])
    else
      var first, others := ReadField(kinds[0], fields[0]), ReadFields(kinds[1..], fields[1..]);
      if first.Some? && others.Some? then Some([first.value] + others.value) else None
  }

  lemma {:induction false} LineIsShorter(text: string)
    ensures match ReadLine(text) case None => true case Some((line, rest)) => |rest| < |text|
  {
    if text != "" && text[0] !in {'\n', '\r'} {
      LineIsShorter(if text[0] == '\\' && |text| >= 2 then text[2..] else text[1..]);
    }
  }

  /** Rows up to the end marker, and the text behind it; None when there is no end marker or a row is bad. */
  function ReadRows(kinds: seq<Kind>, text: string): Option<(seq<seq<Value>>, string)>
    decreases |text|
  {
    LineIsShorter(text);
    match ReadLine(text)
    case None => None
    case Some((line, rest)) =>
      if line == END_MARKER then Some(([], rest))
      else match (ReadFields(kinds, Fields(line)), ReadRows(kinds, rest))
        case (Some(row), Some((rows, rest2))) => Some(([row] + rows, rest2))
        case _ => None
  }
}
