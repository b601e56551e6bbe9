/** Reading a canonical text back: what the printer wrote is what the reader finds. */
module TomlRoundTrip {
  import opened Outcomes
  import opened Texts
  import opened ConfigValues
  import opened CanonicalToml
  import opened TomlReader

  /* ---------- what survives ---------- */

  /** Characters above U+FFFF are escaped as surrogates, which TOML does not allow. */
  predicate IsPlain(text: string) {
    forall i :: 0 <= i < |text| ==> text[i] as int <= 0xFFFF
  }

  /** A bare key followed by a newline is printed without quotes. */
  predicate IsPlainKey(key: string) {
    IsPlain(key) && (MatchesBareKey(key) ==> IsBareKey(key))
  }

  predicate IsPlainValue(v: Value)
    decreases v
  {
    match v
    case Str(text) => IsPlain(text)
    case List(items) => ArePlain(items)
    case _ => true
  }

  predicate ArePlain(items: seq<Value>)
    decreases items
  {
    items == [] || (IsPlainValue(items[0]) && ArePlain(items[1..]))
  }

  predicate IsPlainPath(path: Path) {
    forall key :: key in path ==> IsPlainKey(key)
  }

  predicate IsPlainStatement(s: Statement) {
    match s
    case KeyValue(k, v) => IsPlainKey(k) && IsPlainValue(v)
    case Header(path) => IsPlainPath(path)
  }

  predicate ArePlainStatements(statements: seq<Statement>) {
    forall s :: s in statements ==> IsPlainStatement(s)
  }

  /** Every key and every string of a configuration survives. */
  ghost predicate IsPlainData(entries: seq<Entry>)
    decreases entries
  {
    forall e :: e in entries ==>
      && IsPlainKey(e.key)
      && if e.value.Table? then IsPlainData(e.value.entries) else IsPlainValue(e.value)
  }

  /* ---------- strings ---------- */

  function Power16(count: nat): nat {
    if count == 0 then 1 else 16 * Power16(count - 1)
  }

  lemma AppendHexDigit(digits: string, n: nat)
    requires n < 16
    ensures HexNumber(digits + [HexDigit(n)]) ==
              match HexNumber(digits) case None => None case Some(high) => Some(16 * high + n)
  {
    var s := digits + [HexDigit(n)];
    assert s[..|s| - 1] == digits;
    assert HexValue(HexDigit(n)) == Some(n);
  }

  lemma {:induction false} HexRoundTrip(n: nat, count: nat)
    requires n < Power16(count)
    ensures |HexDigits(n, count)| == count && HexNumber(HexDigits(n, count)) == Some(n)
  {
    if count > 0 {
      HexRoundTrip(n / 16, count - 1);
      AppendHexDigit(HexDigits(n / 16, count - 1), n % 16);
    }
  }

  lemma ReadHex(n: nat, rest: string)
    requires n <= 0xFFFF
    ensures ReadEscape("u" + HexDigits(n, 4) + rest) ==
            if 0xD800 <= n < 0xE000 then None else Some(Read(n as char, rest))
  {
    assert Power16(4) == 0x1_0000;
    HexRoundTrip(n, 4);
    var s := "u" + HexDigits(n, 4) + rest;
    assert s[1..] == HexDigits(n, 4) + rest;
    assert s[1..][..4] == HexDigits(n, 4) && s[1..][4..] == rest;
  }

  function Prepend(c: char, r: Option<Read<string>>): Option<Read<string>> {
    match r
    case None => None
    case Some(read) => Some(Read([c] + read.value, read.rest))
  }

  lemma ReadPlainChar(c: char, rest: string)
    requires !IsControl(c) && c != '"' && c != '\\'
    ensures ReadString([c] + rest) == Prepend(c, ReadString(rest))
  {
    assert ([c] + rest)[1..] == rest;
  }

  lemma ReadEscapedChar(escape: string)
    ensures ReadString("\\" + escape) ==
            match ReadEscape(escape) case None => None case Some(r) => Prepend(r.value, ReadString(r.rest))
  {
    assert ("\\" + escape)[1..] == escape;
  }

  lemma ReadLetter(letter: char, rest: string)
    requires letter != 'u' && letter != 'U'
    ensures ReadEscape([letter] + rest) ==
            match ReadEscape([letter]) case None => None case Some(r) => Some(Read(r.value, rest))
  {
    assert ([letter] + rest)[1..] == rest;
  }

  lemma ReadEscapedLetter(c: char, rest: string)
    requires |Escape(c)| == 2
    ensures ReadString(Escape(c) + rest) == Prepend(c, ReadString(rest))
  {
    var letter := Escape(c)[1];
    assert Escape(c) + rest == "\\" + ([letter] + rest);
    ReadEscapedChar([letter] + rest);
    ReadLetter(letter, rest);
  }

  lemma ReadEscapedUnicode(n: nat, rest: string)
    requires n <= 0xFFFF
    ensures ReadString(EscapeUnit(n) + rest) ==
            if 0xD800 <= n < 0xE000 then None else Prepend(n as char, ReadString(rest))
  {
    ReadHex(n, rest);
    assert EscapeUnit(n) + rest == "\\" + ("u" + HexDigits(n, 4) + rest);
    ReadEscapedChar("u" + HexDigits(n, 4) + rest);
  }

  lemma Escapes(c: char)
    ensures || (Escape(c) == [c] && !IsControl(c) && c != '"' && c != '\\')
            || (|Escape(c)| == 2 && c as int <= 0xFFFF)
            || (c as int <= 0xFFFF && Escape(c) == EscapeUnit(c as int))
            || c as int > 0xFFFF
    ensures Escape(c) == [c] ==> c as int <= 0xFFFF
  {
  }

  lemma ReadSurrogates(c: char, rest: string)
    requires c as int > 0xFFFF
    ensures ReadString(Escape(c) + rest).None?
  {
    var n := c as int - 0x1_0000;
    var high, low := 0xD800 + n / 0x400, 0xDC00 + n % 0x400;
    assert n < 0x10_0000;
    assert n / 0x400 < 0x400;
    assert Escape(c) == EscapeUnit(high) + EscapeUnit(low);
    ReadEscapedUnicode(high, EscapeUnit(low) + rest);
    Reassociate(EscapeUnit(high), EscapeUnit(low), rest);
  }

  lemma ReadEscaped(c: char, rest: string)
    ensures ReadString(Escape(c) + rest) == if c as int <= 0xFFFF then Prepend(c, ReadString(rest)) else None
  {
    Escapes(c);
    if c as int > 0xFFFF {
      ReadSurrogates(c, rest);
    } else if Escape(c) == [c] {
      ReadPlainChar(c, rest);
    } else if |Escape(c)| == 2 {
      ReadEscapedLetter(c, rest);
    } else {
      ReadEscapedUnicode(c as int, rest);
    }
  }

  lemma {:induction false} ReadQuoted(text: string, rest: string)
    ensures ReadString(Escaped(text) + "\"" + rest) == if IsPlain(text) then Some(Read(text, rest)) else None
  {
    if text == "" {
      assert ("\"" + rest)[1..] == rest;
      assert Escaped(text) + "\"" + rest == "\"" + rest;
    } else {
      var tail := Escaped(text[1..]) + "\"" + rest;
      assert Escaped(text) + "\"" + rest == Escape(text[0]) + tail;
      ReadEscaped(text[0], tail);
      ReadQuoted(text[1..], rest);
      PlainParts(text);
    }
  }

  lemma PlainParts(text: string)
    requires text != ""
    ensures text == [text[0]] + text[1..]
    ensures IsPlain(text) <==> text[0] as int <= 0xFFFF && IsPlain(text[1..])
  {
    assert text == [text[0]] + text[1..];
    assert forall i :: 0 <= i < |text| - 1 ==> text[1..][i] == text[i + 1];
    assert forall i :: 0 < i < |text| ==> text[i] == text[1..][i - 1];
  }

  /* ---------- keys ---------- */

  lemma {:induction false} ReadBareRun(key: string, rest: string)
    requires forall c :: c in key ==> IsBare(c)
    requires rest != "" && !IsBare(rest[0])
    ensures ReadBare(key + rest) == Read(key, rest)
  {
    if key == "" {
      assert key + rest == rest;
    } else {
      assert (key + rest)[0] == key[0] && (key + rest)[1..] == key[1..] + rest;
      ReadBareRun(key[1..], rest);
      assert [key[0]] + key[1..] == key && key[0] in key;
    }
  }

  /** What the reader can no longer continue from: no key, bracket or equals sign follows. */
  predicate IsStuck(r: Option<Read<string>>) {
    r.None? || (r.value.rest != "" && r.value.rest[0] == '\n')
  }

  lemma ReadKeyBack(key: string, rest: string)
    requires rest != "" && !IsBare(rest[0])
    ensures IsPlainKey(key) ==> ReadKey(TomlKey(key) + rest) == Some(Read(key, rest))
    ensures !IsPlainKey(key) ==> IsStuck(ReadKey(TomlKey(key) + rest))
  {
    if IsBareKey(key) {
      ReadBareRun(key, rest);
      assert IsPlainKey(key) by {
        assert forall i :: 0 <= i < |key| ==> key[i] in key;
      }
      assert key[0] in key;
    } else if MatchesBareKey(key) {
      var bare := key[..|key| - 1];
      assert key + rest == bare + ("\n" + rest);
      ReadBareRun(bare, "\n" + rest);
      assert bare[0] in bare;
    } else {
      var s := Quoted(key) + rest;
      assert s[1..] == Escaped(key) + "\"" + rest;
      ReadQuoted(key, rest);
    }
  }

  lemma ReadPathStep(s: string, key: Read<string>)
    requires s != "" && !IsBlank(s[0]) && ReadKey(s) == Some(key)
    requires key.rest != "" && !IsBlank(key.rest[0])
    ensures key.rest[0] == ']' ==> ReadPath(s) == Some(Read([key.value], key.rest[1..]))
    ensures key.rest[0] == '.' && ReadPath(key.rest[1..]).None? ==> ReadPath(s).None?
    ensures key.rest[0] == '.' && ReadPath(key.rest[1..]).Some? ==>
              ReadPath(s) == Some(Read([key.value] + ReadPath(key.rest[1..]).value.value,
                  ReadPath(key.rest[1..]).value.rest))
    ensures key.rest[0] == '\n' ==> ReadPath(s).None?
  {
  }

  lemma ReadPathStuck(s: string)
    requires s != "" && !IsBlank(s[0]) && IsStuck(ReadKey(s))
    ensures ReadPath(s).None?
  {
  }

  /** What follows the first key of a header. */
  function PathTail(path: Path, rest: string): string
    requires path != []
  {
    if |path| == 1 then "]" + rest else "." + (PathText(path[1..]) + "]" + rest)
  }

  lemma PathTextSplits(path: Path, rest: string)
    requires path != []
    ensures PathText(path) + "]" + rest == TomlKey(path[0]) + PathTail(path, rest)
  {
    var first := TomlKey(path[0]);
    if |path| == 1 {
      Reassociate(first, "]", rest);
    } else {
      var others := PathText(path[1..]);
      ReassociateAll(first, ".", others, "]", rest);
    }
  }

  lemma PathTailSplits(path: Path, rest: string)
    requires path != []
    ensures PathTail(path, rest) != ""
    ensures |path| == 1 ==> PathTail(path, rest)[0] == ']' && PathTail(path, rest)[1..] == rest
    ensures |path| > 1 ==>
              PathTail(path, rest)[0] == '.' && PathTail(path, rest)[1..] == PathText(path[1..]) + "]" + rest
  {
    if |path| == 1 {
      Behind(']', rest);
    } else {
      Behind('.', PathText(path[1..]) + "]" + rest);
    }
  }

  /** The first key of a header, read back or not. */
  lemma ReadFirstKey(key: string, tail: string)
    requires tail != "" && tail[0] in {']', '.'}
    ensures !IsPlainKey(key) ==> ReadPath(TomlKey(key) + tail).None?
    ensures IsPlainKey(key) && tail[0] == ']' ==> ReadPath(TomlKey(key) + tail) == Some(Read([key], tail[1..]))
    ensures IsPlainKey(key) && tail[0] == '.' ==>
              ReadPath(TomlKey(key) + tail) == match ReadPath(tail[1..])
                                               case None => None
                                               case Some(others) => Some(Read([key] + others.value, others.rest))
  {
    var s := TomlKey(key) + tail;
    KeyStarts(key);
    ReadKeyBack(key, tail);
    assert s[0] == TomlKey(key)[0];
    if IsPlainKey(key) {
      ReadPathStep(s, Read(key, tail));
    } else {
      ReadPathStuck(s);
    }
  }

  lemma PlainPathFirst(path: Path)
    requires path != []
    ensures path == [path[0]] + path[1..]
    ensures IsPlainPath(path) <==> IsPlainKey(path[0]) && IsPlainPath(path[1..])
  {
    assert path == [path[0]] + path[1..];
  }

  lemma {:induction false} ReadPathBack(path: Path, rest: string)
    requires path != []
    ensures ReadPath(PathText(path) + "]" + rest) == if IsPlainPath(path) then Some(Read(path, rest)) else None
  {
    var tail := PathTail(path, rest);
    PathTextSplits(path, rest);
    PathTailSplits(path, rest);
    ReadFirstKey(path[0], tail);
    PlainPathFirst(path);
    if |path| > 1 {
      ReadPathBack(path[1..], rest);
      assert ReadPath(tail[1..]) == if IsPlainPath(path[1..]) then Some(Read(path[1..], rest)) else None;
    } else {
      assert path == [path[0]];
    }
  }

  lemma KeyStarts(key: string)
    ensures TomlKey(key) != "" && (TomlKey(key)[0] == '"' || IsBare(TomlKey(key)[0]))
  {
    if IsBareKey(key) {
      assert key[0] in key;
    } else if MatchesBareKey(key) {
      assert key[0] in key[..|key| - 1];
    }
  }

  /* ---------- integers ---------- */

  predicate EndsValue(rest: string) {
    rest == "" || rest[0] in {'\n', ',', ']'}
  }

  lemma {:induction false} ReadDigitsRun(digits: string, rest: string)
    requires (forall c :: c in digits ==> IsDigit(c)) && EndsValue(rest)
    ensures ReadDigits(digits + rest) == Read(digits, rest)
  {
    if digits == "" {
      assert digits + rest == rest;
    } else {
      assert (digits + rest)[0] == digits[0] && (digits + rest)[1..] == digits[1..] + rest;
      ReadDigitsRun(digits[1..], rest);
      assert [digits[0]] + digits[1..] == digits && digits[0] in digits;
    }
  }

  lemma ReadNaturalBack(n: nat, rest: string)
    requires EndsValue(rest)
    ensures ReadNatural(Digits(n) + rest) == Some(Read(n, rest))
    ensures Digits(n) != "" && IsDigit(Digits(n)[0])
  {
    DigitsBack(n);
    ReadDigitsRun(Digits(n), rest);
    assert Digits(n)[0] in Digits(n);
  }

  lemma ReadNegativeBack(digits: string, n: nat, rest: string)
    requires ReadNatural(digits + rest) == Some(Read(n, rest))
    ensures ReadInteger("-" + digits + rest) == Some(Read(Int(0 - n), rest))
  {
    Reassociate("-", digits, rest);
    Behind('-', digits + rest);
  }

  lemma ReadPositiveBack(digits: string, n: nat, rest: string)
    requires digits != "" && IsDigit(digits[0]) && ReadNatural(digits + rest) == Some(Read(n, rest))
    ensures ReadInteger(digits + rest) == Some(Read(Int(n), rest))
  {
    assert (digits + rest)[0] == digits[0];
  }

  lemma ReadIntegerBack(n: int, rest: string)
    requires EndsValue(rest)
    ensures var text := TomlValue(Int(n)).value;
      && text != "" && (IsDigit(text[0]) || text[0] == '-')
      && ReadInteger(text + rest) == Some(Read(Int(n), rest))
  {
    if n < 0 {
      ReadNaturalBack(-n, rest);
      ReadNegativeBack(Digits(-n), -n, rest);
    } else {
      ReadNaturalBack(n, rest);
      ReadPositiveBack(Digits(n), n, rest);
    }
  }

  /* ---------- values ---------- */

  predicate StartsValue(s: string) {
    s != "" && s[0] !in {' ', '\t', '\n', ']'}
  }

  lemma ValueStarts(v: Value)
    requires TomlValue(v).Some?
    ensures StartsValue(TomlValue(v).value)
  {
    if v.Int? {
      ReadIntegerBack(v.number, "");
    }
  }

  lemma ReadBoolBack(b: bool, rest: string)
    ensures ReadValue((if b then "true" else "false") + rest) == Some(Read(Bool(b), rest))
  {
    var text := if b then "true" else "false";
    var s := text + rest;
    assert s[..|text|] == text && s[|text|..] == rest;
    assert !b ==> s[0] == 'f' && "true"[0] == 't';
  }

  lemma ReadStrStep(text: string, rest: string)
    ensures ReadValue(Quoted(text) + rest) == if IsPlain(text) then Some(Read(Str(text), rest)) else None
  {
    var s := Quoted(text) + rest;
    assert s[1..] == Escaped(text) + "\"" + rest;
    ReadQuoted(text, rest);
  }

  lemma ReadListStep(s: string)
    ensures ReadValue("[" + s) == match ReadItems(s) case None => None case Some(r) => Some(Read(List(r.value), r.rest))
  {
    assert ("[" + s)[1..] == s;
  }

  lemma {:induction false} ReadValueBack(v: Value, rest: string)
    requires TomlValue(v).Some? && EndsValue(rest)
    ensures ReadValue(TomlValue(v).value + rest) == if IsPlainValue(v) then Some(Read(v, rest)) else None
    decreases v, 0
  {
    match v {
      case Int(n) =>
        ReadIntegerBack(n, rest);
      case Bool(b) =>
        ReadBoolBack(b, rest);
      case Str(text) =>
        ReadStrStep(text, rest);
      case List(items) =>
        var body := TomlItems(items).value + "]" + rest;
        assert TomlValue(v).value + rest == "[" + body;
        ReadListStep(body);
        ReadItemsBack(items, rest);
    }
  }

  /** The items after a first one, with the comma before them and the bracket behind. */
  lemma ReadItemsStep(s: string, item: Read<Value>)
    requires StartsValue(s) && ReadValue(s) == Some(item)
    requires item.rest != ""
    ensures item.rest[0] == ']' ==> ReadItems(s) == Some(Read([item.value], item.rest[1..]))
    ensures ", " <= item.rest ==>
              ReadItems(s) == match ReadItems(item.rest[2..])
                              case None => None
                              case Some(others) => Some(Read([item.value] + others.value, others.rest))
  {
    if ", " <= item.rest {
      assert item.rest[1..][1..] == item.rest[2..];
      SkipOneBlank(item.rest[1..]);
    }
  }

  lemma SkipOneBlank(s: string)
    requires s != "" && s[0] == ' '
    ensures ReadItems(s) == ReadItems(s[1..])
  {
  }

  lemma ReadItemsFails(s: string)
    requires StartsValue(s) && ReadValue(s).None?
    ensures ReadItems(s).None?
  {
  }

  /** What follows the first item of an array. */
  function ItemsTail(items: seq<Value>, rest: string): string
    requires items != [] && TomlItems(items).Some?
  {
    if |items| == 1 then "]" + rest else ", " + (TomlItems(items[1..]).value + "]" + rest)
  }

  lemma ItemsTextSplits(items: seq<Value>, rest: string)
    requires items != [] && TomlItems(items).Some?
    ensures TomlItems(items).value + "]" + rest == TomlValue(items[0]).value + ItemsTail(items, rest)
  {
    var first := TomlValue(items[0]).value;
    if |items| == 1 {
      Reassociate(first, "]", rest);
    } else {
      var others := TomlItems(items[1..]).value;
      ReassociateAll(first, ", ", others, "]", rest);
    }
  }

  lemma ItemsTailSplits(items: seq<Value>, rest: string)
    requires items != [] && TomlItems(items).Some?
    ensures var tail := ItemsTail(items, rest);
      && EndsValue(tail) && tail != ""
      && (|items| == 1 ==> tail[0] == ']' && tail[1..] == rest)
      && (|items| > 1 ==> ", " <= tail && tail[2..] == TomlItems(items[1..]).value + "]" + rest)
  {
    if |items| == 1 {
      Behind(']', rest);
    }
  }

  /** The first item of an array, read back or not. */
  lemma ReadFirstItem(text: string, v: Value, tail: string)
    requires StartsValue(text) && (tail != "" && (tail[0] == ']' || ", " <= tail))
    requires ReadValue(text + tail) == if IsPlainValue(v) then Some(Read(v, tail)) else None
    ensures !IsPlainValue(v) ==> ReadItems(text + tail).None?
    ensures IsPlainValue(v) && tail[0] == ']' ==> ReadItems(text + tail) == Some(Read([v], tail[1..]))
    ensures IsPlainValue(v) && ", " <= tail ==>
              ReadItems(text + tail) == match ReadItems(tail[2..])
                                        case None => None
                                        case Some(others) => Some(Read([v] + others.value, others.rest))
  {
    assert (text + tail)[0] == text[0];
    if IsPlainValue(v) {
      ReadItemsStep(text + tail, Read(v, tail));
    } else {
      ReadItemsFails(text + tail);
    }
  }

  lemma PlainItemsFirst(items: seq<Value>)
    requires items != []
    ensures items == [items[0]] + items[1..]
    ensures |items| == 1 ==> items == [items[0]] && ArePlain(items) == IsPlainValue(items[0])
  {
    if |items| == 1 {
      assert items[1..] == [] && ArePlain(items[1..]);
    }
  }

  lemma {:induction false} ReadItemsBack(items: seq<Value>, rest: string)
    requires TomlItems(items).Some?
    ensures ReadItems(TomlItems(items).value + "]" + rest) == if ArePlain(items) then Some(Read(items, rest)) else None
    decreases items, 1
  {
    if items == [] {
      Behind(']', rest);
      assert "" + "]" + rest == "]" + rest;
    } else {
      var tail := ItemsTail(items, rest);
      ItemsTextSplits(items, rest);
      ItemsTailSplits(items, rest);
      ValueStarts(items[0]);
      ReadValueBack(items[0], tail);
      ReadFirstItem(TomlValue(items[0]).value, items[0], tail);
      PlainItemsFirst(items);
      if |items| > 1 {
        ReadItemsBack(items[1..], rest);
        assert ReadItems(tail[2..]) == if ArePlain(items[1..]) then Some(Read(items[1..], rest)) else None;
      }
    }
  }

  /* ---------- lines ---------- */

  predicate EndsLine(rest: string) {
    rest != "" && rest[0] == '\n'
  }

  lemma ReadKeyValueStep(s: string, key: Read<string>)
    requires s != "" && s[0] != '[' && ReadKey(s) == Some(key)
    requires " = " <= key.rest && StartsValue(key.rest[3..])
    ensures ReadStatement(s) == match ReadValue(key.rest[3..])
                                case None => None
                                case Some(v) => Some(Read(KeyValue(key.value, v.value), v.rest))
  {
    assert key.rest[1..][1..] == key.rest[2..] && key.rest[2..][1..] == key.rest[3..];
    assert SkipBlanks(key.rest) == SkipBlanks(key.rest[1..]) == key.rest[1..];
    assert SkipBlanks(key.rest[2..]) == SkipBlanks(key.rest[3..]) == key.rest[3..];
  }

  lemma ReadKeyValueStuck(s: string)
    requires s != "" && s[0] != '[' && IsStuck(ReadKey(s))
    ensures ReadStatement(s).None?
  {
  }

  lemma ReadKeyValueBack(key: string, v: Value, rest: string)
    requires TomlValue(v).Some? && EndsLine(rest)
    ensures ReadStatement(TomlKey(key) + " = " + TomlValue(v).value + rest) ==
            if IsPlainKey(key) && IsPlainValue(v) then Some(Read(KeyValue(key, v), rest)) else None
  {
    var tail := " = " + (TomlValue(v).value + rest);
    var s := TomlKey(key) + tail;
    Reassociate(TomlKey(key) + " = ", TomlValue(v).value, rest);
    Reassociate(TomlKey(key), " = ", TomlValue(v).value + rest);
    KeyStarts(key);
    ReadKeyBack(key, tail);
    if IsPlainKey(key) {
      ValueStarts(v);
      assert tail[3..] == TomlValue(v).value + rest;
      ReadKeyValueStep(s, Read(key, tail));
      ReadValueBack(v, rest);
    } else {
      ReadKeyValueStuck(s);
    }
  }

  lemma ReadHeaderBack(path: Path, rest: string)
    requires path != []
    ensures ReadStatement("[" + PathText(path) + "]" + rest) ==
            if IsPlainPath(path) then Some(Read(Header(path), rest)) else None
  {
    var s := "[" + PathText(path) + "]" + rest;
    assert s[1..] == PathText(path) + "]" + rest;
    ReadPathBack(path, rest);
  }

  lemma ReadStatementBack(s: Statement, rest: string)
    requires Line(s).Some? && EndsLine(rest) && (s.Header? ==> s.path != [])
    ensures ReadStatement(Line(s).value + rest) == if IsPlainStatement(s) then Some(Read(s, rest)) else None
  {
    match s {
      case KeyValue(key, v) => ReadKeyValueBack(key, v, rest);
      case Header(path) => ReadHeaderBack(path, rest);
    }
  }

  lemma {:induction false} ValueEnds(v: Value)
    requires TomlValue(v).Some?
    ensures TomlValue(v).value != "" && !IsSpace(TomlValue(v).value[|TomlValue(v).value| - 1])
  {
    if v.Int? {
      DigitsEnd(if v.number < 0 then -v.number else v.number);
    }
  }

  lemma DigitsEnd(n: nat)
    ensures Digits(n) != "" && !IsSpace(Digits(n)[|Digits(n)| - 1])
  {
  }

  lemma LineIsNeat(s: Statement)
    requires Line(s).Some?
    ensures IsNeat(Line(s).value) && Line(s).value[0] != '#'
  {
    if s.KeyValue? {
      KeyStarts(s.key);
      ValueEnds(s.value);
    }
  }

  /* ---------- a whole text ---------- */

  /** The text that statements add behind other lines, with the final newline. */
  function Remaining(statements: seq<Statement>): Option<string> {
    if statements == [] then Some("\n")
    else
      var line :- Line(statements[0]);
      var others :- Remaining(statements[1..]);
      Some(Newlines(statements[0]) + (line + others))
  }

  function Newlines(s: Statement): string {
    if s.Header? then "\n\n" else "\n"
  }

  lemma {:induction false} JoinOneMore(lines: seq<string>, line: string)
    requires lines != []
    ensures Join(lines + [line]) == Join(lines) + ("\n" + line)
  {
    if |lines| > 1 {
      assert (lines + [line])[1..] == lines[1..] + [line];
      JoinOneMore(lines[1..], line);
      Reassociate(lines[0] + "\n", Join(lines[1..]), "\n" + line);
    } else {
      assert (lines + [line])[1..] == [line];
    }
  }

  lemma JoinTwoMore(lines: seq<string>, line: string)
    requires lines != []
    ensures Join(lines + [""] + [line]) == Join(lines) + ("\n\n" + line)
  {
    JoinOneMore(lines, "");
    JoinOneMore(lines + [""], line);
    Reassociate(Join(lines), "\n" + "", "\n" + line);
    Reassociate("\n" + "", "\n", line);
    assert ("\n" + "") + "\n" == "\n\n";
  }

  lemma JoinAppended(lines: seq<string>, s: Statement)
    requires lines != [] && Line(s).Some?
    ensures Append(lines, s).Some? && Append(lines, s).value != []
    ensures Join(Append(lines, s).value) == Join(lines) + (Newlines(s) + Line(s).value)
  {
    if s.Header? {
      JoinTwoMore(lines, Line(s).value);
    } else {
      assert lines + [] == lines;
      JoinOneMore(lines, Line(s).value);
    }
  }

  lemma JoinedFirst(lines: seq<string>, statements: seq<Statement>)
    requires lines != [] && statements != [] && Remaining(statements).Some?
    ensures Join(lines) + Remaining(statements).value ==
            (Join(lines) + (Newlines(statements[0]) + Line(statements[0]).value)) + Remaining(statements[1..]).value
  {
    var newlines, line, others := Newlines(statements[0]), Line(statements[0]).value, Remaining(statements[1..]).value;
    Reassociate(newlines, line, others);
    Reassociate(Join(lines), newlines + line, others);
  }

  lemma {:induction false} JoinAll(lines: seq<string>, statements: seq<Statement>)
    requires lines != []
    ensures AppendAll(lines, statements).Some? <==> Remaining(statements).Some?
    ensures Remaining(statements).Some? ==>
              Join(AppendAll(lines, statements).value) + "\n" == Join(lines) + Remaining(statements).value
    decreases |statements|
  {
    if statements != [] && Line(statements[0]).Some? {
      JoinAppended(lines, statements[0]);
      JoinAll(Append(lines, statements[0]).value, statements[1..]);
      if Remaining(statements).Some? {
        JoinedFirst(lines, statements);
      }
    }
  }

  lemma SkipNewline(s: string)
    ensures ReadStatements("\n" + s) == ReadStatements(s)
  {
    assert ("\n" + s)[1..] == s;
  }

  lemma ReadOneLine(s: Statement, others: string)
    requires Line(s).Some? && EndsLine(others) && (s.Header? ==> s.path != [])
    ensures ReadStatements(Line(s).value + others) ==
            if !IsPlainStatement(s) then None
            else match ReadStatements(others) case None => None case Some(tail) => Some([s] + tail)
  {
    LineIsNeat(s);
    ReadStatementBack(s, others);
  }

  ghost predicate IsWhole(statements: seq<Statement>) {
    forall s :: s in statements && s.Header? ==> s.path != []
  }

  lemma SkipNewlines(s: Statement, text: string)
    ensures EndsLine(Newlines(s) + text) && ReadStatements(Newlines(s) + text) == ReadStatements(text)
  {
    SkipNewline(text);
    SkipNewline("\n" + text);
    assert "\n\n" + text == "\n" + ("\n" + text);
  }

  lemma SkipToLine(statements: seq<Statement>)
    requires statements != [] && Remaining(statements).Some?
    ensures EndsLine(Remaining(statements).value)
    ensures ReadStatements(Remaining(statements).value) ==
            ReadStatements(Line(statements[0]).value + Remaining(statements[1..]).value)
  {
    SkipNewlines(statements[0], Line(statements[0]).value + Remaining(statements[1..]).value);
  }

  lemma {:induction false} ReadRemaining(statements: seq<Statement>)
    requires Remaining(statements).Some? && IsWhole(statements)
    ensures EndsLine(Remaining(statements).value)
    ensures ReadStatements(Remaining(statements).value) ==
            if ArePlainStatements(statements) then Some(statements) else None
  {
    if statements == [] {
      assert ReadStatements("\n"[1..]) == Some([]);
    } else {
      ReadRemaining(statements[1..]);
      SkipToLine(statements);
      ReadOneLine(statements[0], Remaining(statements[1..]).value);
      PlainFirst(statements);
    }
  }

  lemma PlainFirst(statements: seq<Statement>)
    requires statements != []
    ensures statements == [statements[0]] + statements[1..]
    ensures ArePlainStatements(statements) <==> IsPlainStatement(statements[0]) && ArePlainStatements(statements[1..])
  {
    assert statements == [statements[0]] + statements[1..];
  }

  /* ---------- canonical text ---------- */

  lemma JoinIsNeat(lines: seq<string>)
    requires lines != [] && IsNeat(lines[0]) && IsNeat(lines[|lines| - 1])
    ensures IsNeat(Join(lines))
  {
    JoinEnds(lines);
    assert lines[0] <= Join(lines);
  }

  lemma {:induction false} JoinEnds(lines: seq<string>)
    requires lines != [] && IsNeat(lines[|lines| - 1])
    ensures Join(lines) != "" && !IsSpace(Join(lines)[|Join(lines)| - 1])
  {
    if |lines| > 1 {
      JoinEnds(lines[1..]);
    }
  }

  lemma {:induction false} LinesAreNeat(lines: seq<string>, statements: seq<Statement>)
    requires lines != [] && IsNeat(lines[0]) && IsNeat(lines[|lines| - 1])
    requires AppendAll(lines, statements).Some?
    ensures var all := AppendAll(lines, statements).value; all != [] && IsNeat(all[0]) && IsNeat(all[|all| - 1])
    decreases |statements|
  {
    if statements != [] {
      LineIsNeat(statements[0]);
      LinesAreNeat(Append(lines, statements[0]).value, statements[1..]);
    }
  }

  lemma DocumentIsNeat(statements: seq<Statement>)
    requires statements != [] && AppendAll([], statements).Some?
    ensures IsNeat(Join(AppendAll([], statements).value))
  {
    LineIsNeat(statements[0]);
    var first := Append([], statements[0]).value;
    assert first == [Line(statements[0]).value];
    LinesAreNeat(first, statements[1..]);
    JoinIsNeat(AppendAll(first, statements[1..]).value);
  }

  /** Stripping the printed text changes nothing, so it ends in exactly one newline. */
  lemma StripsNothing(data: seq<Entry>)
    requires Dumped(data).Some?
    ensures Canonical(data) == Some(Dumped(data).value + "\n")
  {
    if Document(data) != [] {
      DocumentIsNeat(Document(data));
    }
    NeatIsStripped(Dumped(data).value);
  }

  lemma ReadCanonical(data: seq<Entry>)
    requires Canonical(data).Some? && IsWhole(Document(data))
    ensures ReadStatements(Canonical(data).value) ==
            if ArePlainStatements(Document(data)) then Some(Document(data)) else None
  {
    StripsNothing(data);
    var statements := Document(data);
    if statements == [] {
      ReadRemaining([]);
      assert "" + "\n" == "\n";
    } else {
      var line, tail := Line(statements[0]).value, statements[1..];
      assert Append([], statements[0]).value == [line];
      JoinAll([line], tail);
      ReadRemaining(tail);
      ReadOneLine(statements[0], Remaining(tail).value);
      PlainFirst(statements);
    }
  }

  /* ---------- which configurations are printed, and which survive ---------- */

  lemma {:induction false} ScalarsOf(entries: seq<Entry>, s: Statement)
    ensures s in Scalars(entries) <==> exists e :: e in entries && !e.value.Table? && s == KeyValue(e.key, e.value)
  {
    if entries != [] {
      ScalarsOf(entries[1..], s);
      assert entries == [entries[0]] + entries[1..];
    }
  }

  lemma {:induction false} PlainTable(path: Path, entries: seq<Entry>)
    requires path != []
    ensures ArePlainStatements(TableStatements(path, entries)) <==> IsPlainPath(path) && IsPlainData(entries)
    ensures IsWhole(TableStatements(path, entries))
    decreases entries, 1
  {
    PlainSubtables(path, entries);
    PlainScalars(entries);
    var own := Own(path, entries);
    if Scalars(entries) == [] && entries != [] {
      ScalarsOf(entries, KeyValue(entries[0].key, entries[0].value));
      assert entries[0] in entries && entries[0].value.Table?;
    } else {
      assert own == [Header(path)] + Scalars(entries) && Header(path) in own;
    }
    assert ArePlainStatements(TableStatements(path, entries)) <==>
           ArePlainStatements(own) && ArePlainStatements(SubStatements(path, entries));
  }

  lemma PlainScalars(entries: seq<Entry>)
    ensures ArePlainStatements(Scalars(entries)) <==>
            forall e :: e in entries && !e.value.Table? ==> IsPlainKey(e.key) && IsPlainValue(e.value)
  {
    forall s ensures s in Scalars(entries) <==>
        exists e :: e in entries && !e.value.Table? && s == KeyValue(e.key, e.value) {
      ScalarsOf(entries, s);
    }
    forall e | e in entries && !e.value.Table? ensures KeyValue(e.key, e.value) in Scalars(entries) {
    }
  }

  lemma {:induction false} PlainSubtables(path: Path, entries: seq<Entry>)
    ensures ArePlainStatements(SubStatements(path, entries)) <==>
            forall e :: e in entries && e.value.Table? ==>
                IsPlainPath(path) && IsPlainKey(e.key) && IsPlainData(e.value.entries)
    ensures IsWhole(SubStatements(path, entries))
    decreases entries, 0
  {
    if entries != [] {
      var e := entries[0];
      assert entries == [e] + entries[1..];
      PlainSubtables(path, entries[1..]);
      if e.value.Table? {
        PlainTable(path + [e.key], e.value.entries);
        assert IsPlainPath(path + [e.key]) <==> IsPlainPath(path) && IsPlainKey(e.key);
      }
    }
  }

  lemma PlainDocument(data: seq<Entry>)
    ensures ArePlainStatements(Document(data)) <==> IsPlainData(data)
    ensures IsWhole(Document(data))
  {
    PlainSubtables([], data);
    PlainScalars(data);
  }
}
