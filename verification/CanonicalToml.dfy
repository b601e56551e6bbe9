/** The canonical TOML printer of partial configuration updates. */
module CanonicalToml {
  import opened Outcomes
  import opened Texts
  import opened ConfigValues

  /* ---------- strings and keys ---------- */

  function HexDigit(n: nat): char
    requires n < 16
  {
    "0123456789abcdef"[n]
  }

  function HexDigits(n: nat, count: nat): string {
    if count == 0 then "" else HexDigits(n / 16, count - 1) + [HexDigit(n % 16)]
  }

  function EscapeUnit(n: nat): string {
    "\\u" + HexDigits(n, 4)
  }

  /** `json.dumps` escapes everything outside printable ASCII, characters above U+FFFF as a pair
      of surrogates. */
  function Escape(c: char): string {
    if c == '"' then "\\\""
    else if c == '\\' then "\\\\"
    else if c == '\n' then "\\n"
    else if c == '\r' then "\\r"
    else if c == '\t' then "\\t"
    else if c as int == 0x0C then "\\f"
    else if c as int == 0x08 then "\\b"
    else if ' ' <= c <= '~' then [c]
    else if c as int <= 0xFFFF then EscapeUnit(c as int)
    else
      var n := c as int - 0x1_0000;
      EscapeUnit(0xD800 + n / 0x400) + EscapeUnit(0xDC00 + n % 0x400)
  }

  function Escaped(text: string): string {
    if text == "" then "" else Escape(text[0]) + Escaped(text[1..])
  }

  function Quoted(text: string): string {
    "\"" + Escaped(text) + "\""
  }

  predicate IsBare(c: char) {
    'A' <= c <= 'Z' || 'a' <= c <= 'z' || '0' <= c <= '9' || c == '_' || c == '-'
  }

  predicate IsBareKey(key: string) {
    key != "" && forall c :: c in key ==> IsBare(c)
  }

  /** The pattern for bare keys ends in `$`, which also matches before a final newline. */
  predicate MatchesBareKey(key: string) {
    IsBareKey(key) || (key != "" && key[|key| - 1] == '\n' && IsBareKey(key[..|key| - 1]))
  }

  function TomlKey(key: string): string {
    if MatchesBareKey(key) then key else Quoted(key)
  }

  /* ---------- values ---------- */

  /** The text of a value, or nothing for one that canonical TOML does not support. */
  function TomlValue(v: Value): Option<string>
    decreases v
  {
    match v
    case Bool(b) => Some(if b then "true" else "false")
    case Int(n) => Some(if n < 0 then "-" + Digits(-n) else Digits(n))
    case Str(text) => Some(Quoted(text))
    case List(items) => (var text :- TomlItems(items); Some("[" + text + "]"))
    case _ => None
  }

  /** The items, separated by commas. */
  function TomlItems(items: seq<Value>): Option<string>
    decreases items
  {
    if items == [] then Some("")
    else if |items| == 1 then TomlValue(items[0])
    else
      var first :- TomlValue(items[0]);
      var others :- TomlItems(items[1..]);
      Some(first + ", " + others)
  }

  /* ---------- statements and lines ---------- */

  type Path = seq<string>

  /** What one line of a TOML document says. */
  datatype Statement = KeyValue(key: string, value: Value) | Header(path: Path)

  function PathText(path: Path): string {
    if path == [] then "" else if |path| == 1 then TomlKey(path[0]) else TomlKey(path[0]) + "." + PathText(path[1..])
  }

  function Line(s: Statement): Option<string> {
    match s
    case KeyValue(k, v) => (var text :- TomlValue(v); Some(TomlKey(k) + " = " + text))
    case Header(path) => Some("[" + PathText(path) + "]")
  }

  /** A header is set off by an empty line, unless it comes first. */
  function Append(lines: seq<string>, s: Statement): Option<seq<string>> {
    var line :- Line(s);
    Some(lines + (if s.Header? && lines != [] then [""] else []) + [line])
  }

  function AppendAll(lines: seq<string>, statements: seq<Statement>): Option<seq<string>>
    decreases statements
  {
    if statements == [] then Some(lines)
    else
      var next :- Append(lines, statements[0]);
      AppendAll(next, statements[1..])
  }

  /** What a table is printed as: its header unless it only holds tables, its own values, then
      the tables in it. */
  function Scalars(entries: seq<Entry>): (r: seq<Statement>)
    ensures forall s :: s in r ==> s.KeyValue?
  {
    if entries == [] then []
    else (if entries[0].value.Table? then [] else [KeyValue(entries[0].key, entries[0].value)]) + Scalars(entries[1..])
  }

  function Own(path: Path, entries: seq<Entry>): seq<Statement> {
    (if Scalars(entries) != [] || entries == [] then [Header(path)] else []) + Scalars(entries)
  }

  function TableStatements(path: Path, entries: seq<Entry>): seq<Statement>
    decreases entries, 1
  {
    Own(path, entries) + SubStatements(path, entries)
  }

  function SubStatements(path: Path, entries: seq<Entry>): seq<Statement>
    decreases entries, 0
  {
    if entries == [] then []
    else
      (if entries[0].value.Table? then TableStatements(path + [entries[0].key], entries[0].value.entries) else [])
      + SubStatements(path, entries[1..])
  }

  /** A whole document: the top-level values need no header. */
  function Document(data: seq<Entry>): seq<Statement> {
    Scalars(data) + SubStatements([], data)
  }

  /* ---------- the printer ---------- */

  ghost predicate Extends(lines: seq<string>, statements: seq<Statement>, ok: bool, lines': seq<string>) {
    if ok then AppendAll(lines, statements) == Some(lines') else AppendAll(lines, statements).None?
  }

  class Printer {
    var lines: seq<string>

    constructor ()
      ensures lines == []
    {
      lines := [];
    }

    method AppendScalars(scalars: seq<Statement>) returns (ok: bool)
      requires forall s :: s in scalars ==> s.KeyValue?
      modifies this
      ensures Extends(old(lines), scalars, ok, lines)
    {
      for i := 0 to |scalars|
        invariant AppendAll(old(lines), scalars) == AppendAll(lines, scalars[i..])
      {
        assert scalars[i..][1..] == scalars[i + 1..] && scalars[i] in scalars;
        var line := Line(scalars[i]);
        if line.None? {
          return false;
        }
        assert lines + [] + [line.value] == lines + [line.value];
        lines := lines + [line.value];
      }
      return true;
    }

    method AppendTable(path: Path, table: seq<Entry>) returns (ok: bool)
      modifies this
      ensures Extends(old(lines), TableStatements(path, table), ok, lines)
      decreases table, 1
    {
      var scalars := Scalars(table);
      if scalars != [] || table == [] {
        if lines != [] {
          lines := lines + [""];
        }
        lines := lines + ["[" + PathText(path) + "]"];
      }
      OwnLines(old(lines), path, table, lines);
      AppendInTwo(old(lines), Own(path, table), SubStatements(path, table));
      ok := AppendScalars(scalars);
      if ok {
        ok := AppendSubtables(path, table);
      }
    }

    method AppendSubtables(path: Path, table: seq<Entry>) returns (ok: bool)
      modifies this
      ensures Extends(old(lines), SubStatements(path, table), ok, lines)
      decreases table, 0
    {
      for i := 0 to |table|
        invariant AppendAll(old(lines), SubStatements(path, table)) == AppendAll(lines, SubStatements(path, table[i..]))
      {
        assert table[i..][1..] == table[i + 1..];
        assert [] + SubStatements(path, table[i + 1..]) == SubStatements(path, table[i + 1..]);
        if table[i].value.Table? {
          AppendInTwo(lines, TableStatements(path + [table[i].key], table[i].value.entries),
                      SubStatements(path, table[i + 1..]));
          ok := AppendTable(path + [table[i].key], table[i].value.entries);
          if !ok {
            return;
          }
        }
      }
      return true;
    }

    /** Prints a whole configuration. */
    method DumpsToml(data: seq<Entry>) returns (text: Option<string>)
      requires lines == []
      modifies this
      ensures text == Dumped(data)
    {
      AppendInTwo(lines, Scalars(data), SubStatements([], data));
      var ok := AppendScalars(Scalars(data));
      if ok {
        ok := AppendSubtables([], data);
      }
      return if ok then Some(Join(lines)) else None;
    }
  }

  function Join(lines: seq<string>): string {
    if lines == [] then "" else if |lines| == 1 then lines[0] else lines[0] + "\n" + Join(lines[1..])
  }

  function Dumped(data: seq<Entry>): Option<string> {
    var lines :- AppendAll([], Document(data));
    Some(Join(lines))
  }

  /** The canonical text of a configuration, unless a value is unsupported. */
  method CanonicalConfig(data: seq<Entry>) returns (text: Option<string>)
    ensures text == Canonical(data)
  {
    var printer := new Printer();
    var dumped := printer.DumpsToml(data);
    return if dumped.None? then None else Some(Stripped(dumped.value) + "\n");
  }

  function Canonical(data: seq<Entry>): Option<string> {
    var text :- Dumped(data);
    Some(Stripped(text) + "\n")
  }

  lemma OwnLines(lines: seq<string>, path: Path, table: seq<Entry>, begun: seq<string>)
    requires begun == if Scalars(table) == [] && table != [] then lines
                       else (if lines != [] then lines + [""] else lines) + ["[" + PathText(path) + "]"]
    ensures AppendAll(lines, Own(path, table)) == AppendAll(begun, Scalars(table))
  {
    var own := Own(path, table);
    if Scalars(table) != [] || table == [] {
      assert own[0] == Header(path) && own[1..] == Scalars(table);
      var title := "[" + PathText(path) + "]";
      assert lines + [] + [title] == lines + [title];
      assert Append(lines, own[0]) == Some(begun);
    } else {
      assert own == Scalars(table);
    }
  }

  lemma {:induction false} AppendInTwo(lines: seq<string>, a: seq<Statement>, b: seq<Statement>)
    ensures AppendAll(lines, a + b) == match AppendAll(lines, a) case None => None case Some(l) => AppendAll(l, b)
    decreases a
  {
    if a == [] {
      assert a + b == b;
    } else {
      assert (a + b)[0] == a[0] && (a + b)[1..] == a[1..] + b;
      var next := Append(lines, a[0]);
      if next.Some? {
        AppendInTwo(next.value, a[1..], b);
      }
    }
  }
}
