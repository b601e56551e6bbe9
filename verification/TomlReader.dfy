/** A reader for a part of TOML v1.0.0: comments, bare and quoted keys, tables (section "Table"),
    and basic strings, decimal integers, booleans and arrays as values.  Anything else of TOML,
    and everything that is not TOML, is rejected. */
module TomlReader {
  import opened Outcomes
  import opened Texts
  import opened ConfigValues
  import opened CanonicalToml

  /** What has been read at the front of a text, and the text after it. */
  datatype Read<+T> = Read(value: T, rest: string)

  predicate IsBlank(c: char) {
    c == ' ' || c == '\t'
  }

  function SkipBlanks(s: string): (r: string)
    ensures |r| <= |s|
  {
    if s != "" && IsBlank(s[0]) then SkipBlanks(s[1..]) else s
  }

  function SkipBlankLines(s: string): (r: string)
    ensures |r| <= |s|
  {
    if s != "" && (IsBlank(s[0]) || s[0] == '\n') then SkipBlankLines(s[1..]) else s
  }

  /* ---------- basic strings (section "String") ---------- */

  function HexValue(c: char): Option<nat> {
    if '0' <= c <= '9' then Some(c as int - '0' as int)
    else if 'a' <= c <= 'f' then Some(c as int - 'a' as int + 10)
    else if 'A' <= c <= 'F' then Some(c as int - 'A' as int + 10)
    else None
  }

  function HexNumber(digits: string): Option<nat> {
    if digits == "" then Some(0)
    else
      var high :- HexNumber(digits[..|digits| - 1]);
      var low :- HexValue(digits[|digits| - 1]);
      Some(16 * high + low)
  }

  /** Only Unicode scalar values can be escaped: no surrogates. */
  function ReadUnicode(s: string, digits: nat): (r: Option<Read<char>>)
    ensures r.Some? ==> |r.value.rest| <= |s|
  {
    if |s| < digits then None
    else
      var n :- HexNumber(s[..digits]);
      if n < 0xD800 || 0xE000 <= n < 0x11_0000 then Some(Read(n as char, s[digits..])) else None
  }

  function ReadEscape(s: string): (r: Option<Read<char>>)
    ensures r.Some? ==> |r.value.rest| < |s|
  {
    if s == "" then None
    else if s[0] == '"' then Some(Read('"', s[1..]))
    else if s[0] == '\\' then Some(Read('\\', s[1..]))
    else if s[0] == 'b' then Some(Read(0x08 as char, s[1..]))
    else if s[0] == 't' then Some(Read('\t', s[1..]))
    else if s[0] == 'n' then Some(Read('\n', s[1..]))
    else if s[0] == 'f' then Some(Read(0x0C as char, s[1..]))
    else if s[0] == 'r' then Some(Read('\r', s[1..]))
    else if s[0] == 'u' then ReadUnicode(s[1..], 4)
    else if s[0] == 'U' then ReadUnicode(s[1..], 8)
    else None
  }

  predicate IsControl(c: char) {
    (c as int < 0x20 && c != '\t') || c as int == 0x7F
  }

  /** The rest of a basic string, up to its closing quote. */
  function ReadString(s: string): (r: Option<Read<string>>)
    ensures r.Some? ==> |r.value.rest| < |s|
    decreases |s|
  {
    if s == "" || IsControl(s[0]) then None
    else if s[0] == '"' then Some(Read("", s[1..]))
    else
      var c :- if s[0] == '\\' then ReadEscape(s[1..]) else Some(Read(s[0], s[1..]));
      var others :- ReadString(c.rest);
      Some(Read([c.value] + others.value, others.rest))
  }

  /* ---------- keys (section "Keys") ---------- */

  function ReadBare(s: string): (r: Read<string>)
    ensures |r.value| + |r.rest| == |s|
  {
    if s == "" || !IsBare(s[0]) then Read("", s)
    else
      var others := ReadBare(s[1..]);
      Read([s[0]] + others.value, others.rest)
  }

  function ReadKey(s: string): (r: Option<Read<string>>)
    ensures r.Some? ==> |r.value.rest| < |s|
  {
    if s != "" && s[0] == '"' then ReadString(s[1..])
    else if ReadBare(s).value == "" then None
    else Some(ReadBare(s))
  }

  /** The keys of a table header, with its closing bracket. */
  function ReadPath(s: string): (r: Option<Read<Path>>)
    ensures r.Some? ==> |r.value.rest| < |s|
    decreases |s|
  {
    var key :- ReadKey(SkipBlanks(s));
    var after := SkipBlanks(key.rest);
    if after != "" && after[0] == ']' then Some(Read([key.value], after[1..]))
    else if after != "" && after[0] == '.' then
      var others :- ReadPath(after[1..]);
      Some(Read([key.value] + others.value, others.rest))
    else None
  }

  /* ---------- values ---------- */

  function ReadDigits(s: string): (r: Read<string>)
    ensures |r.value| + |r.rest| == |s|
    ensures forall c :: c in r.value ==> IsDigit(c)
  {
    if s == "" || !IsDigit(s[0]) then Read("", s)
    else
      var others := ReadDigits(s[1..]);
      Read([s[0]] + others.value, others.rest)
  }

  /** A decimal integer has no leading zeros. */
  function ReadNatural(s: string): (r: Option<Read<nat>>)
    ensures r.Some? ==> |r.value.rest| < |s|
  {
    var digits := ReadDigits(s);
    if digits.value == "" || (digits.value[0] == '0' && |digits.value| > 1) then None
    else Some(Read(Number(digits.value), digits.rest))
  }

  function ReadInteger(s: string): (r: Option<Read<Value>>)
    ensures r.Some? ==> |r.value.rest| < |s|
  {
    if s == "" then None
    else
      var n :- ReadNatural(if s[0] == '-' || s[0] == '+' then s[1..] else s);
      Some(Read(Int(if s[0] == '-' then 0 - n.value else n.value), n.rest))
  }

  function ReadValue(s: string): (r: Option<Read<Value>>)
    ensures r.Some? ==> |r.value.rest| < |s|
    decreases |s|, 0
  {
    if s == "" then None
    else if s[0] == '"' then
      var text :- ReadString(s[1..]);
      Some(Read(Str(text.value), text.rest))
    else if s[0] == '[' then
      var items :- ReadItems(s[1..]);
      Some(Read(List(items.value), items.rest))
    else if "true" <= s then Some(Read(Bool(true), s[4..]))
    else if "false" <= s then Some(Read(Bool(false), s[5..]))
    else ReadInteger(s)
  }

  /** The items of an array, with its closing bracket. */
  function ReadItems(s: string): (r: Option<Read<seq<Value>>>)
    ensures r.Some? ==> |r.value.rest| < |s|
    decreases |s|, 1
  {
    var start := SkipBlankLines(s);
    if start != "" && start[0] == ']' then Some(Read([], start[1..]))
    else
      var item :- ReadValue(start);
      var after := SkipBlankLines(item.rest);
      if after != "" && after[0] == ',' then
        var others :- ReadItems(after[1..]);
        Some(Read([item.value] + others.value, others.rest))
      else if after != "" && after[0] == ']' then Some(Read([item.value], after[1..]))
      else None
  }

  /* ---------- lines ---------- */

  function ReadStatement(s: string): (r: Option<Read<Statement>>)
    ensures r.Some? ==> |r.value.rest| < |s|
  {
    if s != "" && s[0] == '[' then
      var path :- ReadPath(s[1..]);
      Some(Read(Header(path.value), path.rest))
    else
      var key :- ReadKey(s);
      var after := SkipBlanks(key.rest);
      if after == "" || after[0] != '=' then None
      else
        var v :- ReadValue(SkipBlanks(after[1..]));
        Some(Read(KeyValue(key.value, v.value), v.rest))
  }

  function SkipComment(s: string): (r: Option<string>)
    ensures r.Some? ==> |r.value| <= |s| && (r.value == "" || r.value[0] == '\n')
  {
    if s == "" || s[0] == '\n' then Some(s)
    else if IsControl(s[0]) then None
    else SkipComment(s[1..])
  }

  /** Nothing but blanks and a comment may follow on a line. */
  function ReadLineEnd(s: string): (r: Option<string>)
    ensures r.Some? ==> |r.value| <= |s|
  {
    var after := SkipBlanks(s);
    if after == "" || after[0] == '\n' then Some(after)
    else if after[0] == '#' then SkipComment(after)
    else None
  }

  function ReadStatements(s: string): Option<seq<Statement>>
    decreases |s|
  {
    var start := SkipBlanks(s);
    if start == "" then Some([])
    else if start[0] == '\n' then ReadStatements(start[1..])
    else if start[0] == '#' then
      var end :- SkipComment(start);
      if end == "" then Some([]) else ReadStatements(end[1..])
    else
      var first :- ReadStatement(start);
      var end :- ReadLineEnd(first.rest);
      var others :- ReadStatements(end);
      Some([first.value] + others)
  }

  /* ---------- what a document means (section "Table") ---------- */

  /** A table that has a header is `Explicit`; one that is only part of a longer header is not. */
  datatype Node = Implicit | Explicit | Leaf(value: Value)

  datatype Doc = Doc(current: Path, nodes: map<Path, Node>)

  /** No key is given twice, no table has two headers, and no value is used as a table. */
  function Execute(d: Doc, s: Statement): Option<Doc> {
    match s
    case KeyValue(k, v) =>
      if d.current + [k] in d.nodes then None else Some(d.(nodes := d.nodes[d.current + [k] := Leaf(v)]))
    case Header(path) =>
      if path in d.nodes && d.nodes[path] != Implicit then None
      else if exists i :: 0 < i < |path| && path[..i] in d.nodes && d.nodes[path[..i]].Leaf? then None
      else
        var parents := map i | 0 < i < |path| && path[..i] !in d.nodes :: path[..i] := Implicit;
        Some(Doc(path, (d.nodes + parents)[path := Explicit]))
  }

  function ExecuteAll(d: Doc, statements: seq<Statement>): Option<Doc>
    decreases statements
  {
    if statements == [] then Some(d)
    else
      var next :- Execute(d, statements[0]);
      ExecuteAll(next, statements[1..])
  }

  function ReadToml(text: string): Option<Doc> {
    var statements :- ReadStatements(text);
    ExecuteAll(Doc([], map[]), statements)
  }

  /** What is found under a path. */
  datatype Found = Nothing | ATable | AValue(value: Value)

  function Lookup(d: Doc, path: Path): Found {
    if path !in d.nodes then Nothing
    else if d.nodes[path].Leaf? then AValue(d.nodes[path].value)
    else ATable
  }
}
