/** IPv4 addresses, interfaces and networks as texts and numbers. */
module Ipv4 {
  import opened Outcomes
  import opened Texts

  const ADDRESSES := 0x1_0000_0000
  const BITS: nat := 32

  function PowerOf2(n: nat): (r: nat)
    ensures 0 < r
  {
    if n == 0 then 1 else 2 * PowerOf2(n - 1)
  }

  /* ---------- splitting ---------- */

  function Split(s: string, c: char): (r: seq<string>)
    ensures r != []
  {
    if s == "" then [""]
    else
      var others := Split(s[1..], c);
      if s[0] == c then [""] + others else [[s[0]] + others[0]] + others[1..]
  }

  function Joined(parts: seq<string>, c: char): string
    requires parts != []
  {
    if |parts| == 1 then parts[0] else parts[0] + [c] + Joined(parts[1..], c)
  }

  lemma {:induction false} JoinSplit(s: string, c: char)
    ensures Joined(Split(s, c), c) == s
  {
    if s != "" {
      var others := Split(s[1..], c);
      JoinSplit(s[1..], c);
      assert s == [s[0]] + s[1..];
      if s[0] == c {
        assert ([""] + others)[1..] == others;
        assert "" + [c] + s[1..] == s;
      } else {
        var parts := Split(s, c);
        assert parts[0] == [s[0]] + others[0] && parts[1..] == others[1..];
        if |others| > 1 {
          assert [s[0]] + (others[0] + [c] + Joined(others[1..], c)) ==
                 ([s[0]] + others[0]) + [c] + Joined(others[1..], c);
        }
      }
    }
  }

  lemma {:induction false} SplitOne(part: string, c: char)
    requires c !in part
    ensures Split(part, c) == [part]
  {
    if part != "" {
      assert part == [part[0]] + part[1..] && part[0] in part;
      SplitOne(part[1..], c);
    }
  }

  lemma {:induction false} SplitFirst(part: string, tail: string, c: char)
    requires c !in part
    ensures Split(part + [c] + tail, c) == [part] + Split(tail, c)
  {
    var s := part + [c] + tail;
    if part == "" {
      assert s[1..] == tail;
    } else {
      assert part[0] in part && s[0] == part[0] && s[1..] == part[1..] + [c] + tail;
      SplitFirst(part[1..], tail, c);
      assert [part[0]] + part[1..] == part;
    }
  }

  /* ---------- octets ---------- */

  predicate AreDigits(s: string) {
    s != "" && forall c :: c in s ==> IsDigit(c)
  }

  function ParseOctet(s: string): Option<nat> {
    if !AreDigits(s) || |s| > 3 || (s != "0" && s[0] == '0') || Number(s) > 255 then None else Some(Number(s))
  }

  lemma NumberOfOneMore(front: string, last: char)
    requires IsDigit(last) && forall c :: c in front ==> IsDigit(c)
    ensures forall c :: c in front + [last] ==> IsDigit(c)
    ensures Number(front + [last]) == 10 * Number(front) + DigitValue(last)
  {
    var s := front + [last];
    assert s[..|s| - 1] == front && s[|s| - 1] == last;
  }

  lemma DigitsOfOneMore(n: nat, last: char)
    requires IsDigit(last) && n > 0
    ensures Digits(10 * n + DigitValue(last)) == Digits(n) + [last]
  {
    var m := 10 * n + DigitValue(last);
    assert m / 10 == n && m % 10 == DigitValue(last);
  }

  lemma DigitsOfOne(last: char)
    requires IsDigit(last)
    ensures Number("" + [last]) == DigitValue(last) && Digits(DigitValue(last)) == [last]
  {
    NumberOfOneMore("", last);
  }

  lemma {:induction false} DigitsOfMore(front: string, last: char)
    requires AreDigits(front) && front[0] != '0' && IsDigit(last)
    ensures Digits(Number(front)) == front && Number(front) > 0
    ensures AreDigits(front + [last]) && Number(front + [last]) > 0 && Digits(Number(front + [last])) == front + [last]
    decreases |front|, 1
  {
    NumberOfOneMore(front, last);
    DigitsOfNumber(front);
    DigitsOfOneMore(Number(front), last);
  }

  lemma {:induction false} DigitsOfNumber(s: string)
    requires AreDigits(s) && (s == "0" || s[0] != '0')
    ensures Digits(Number(s)) == s
    ensures s[0] != '0' ==> Number(s) > 0
    decreases |s|, 0
  {
    var front, last := s[..|s| - 1], s[|s| - 1];
    assert last in s && s == front + [last];
    if front == "" {
      DigitsOfOne(last);
    } else {
      assert forall c :: c in front ==> c in s;
      assert front[0] == s[0];
      DigitsOfMore(front, last);
    }
  }

  lemma OctetRoundTrip(s: string, n: nat)
    ensures ParseOctet(s) == Some(n) <==> n < 256 && s == Digits(n)
  {
    if ParseOctet(s) == Some(n) {
      DigitsOfNumber(s);
    }
    if n < 256 && s == Digits(n) {
      DigitsBack(n);
      ShortDigits(n);
    }
  }

  lemma ShortDigits(n: nat)
    requires n < 256
    ensures |Digits(n)| <= 3
    ensures n == 0 ==> Digits(n) == "0"
  {
    assert n >= 100 ==> |Digits(n)| == 1 + |Digits(n / 10)| && |Digits(n / 10)| == 1 + |Digits(n / 100)|;
  }

  /* ---------- addresses ---------- */

  datatype Quad = Quad(a: nat, b: nat, c: nat, d: nat)

  predicate IsQuad(q: Quad) {
    q.a < 256 && q.b < 256 && q.c < 256 && q.d < 256
  }

  function Value(q: Quad): nat {
    ((q.a * 256 + q.b) * 256 + q.c) * 256 + q.d
  }

  function QuadOf(n: nat): Quad {
    Quad(n / 0x100_0000, n / 0x1_0000 % 256, n / 256 % 256, n % 256)
  }

  function QuadText(q: Quad): string {
    Digits(q.a) + "." + (Digits(q.b) + "." + (Digits(q.c) + "." + Digits(q.d)))
  }

  function AddressText(n: nat): string {
    QuadText(QuadOf(n))
  }

  function ParseAddress(s: string): (r: Option<nat>)
    ensures r.Some? ==> r.value < ADDRESSES
  {
    var octets := Split(s, '.');
    if |octets| != 4 then None
    else
      var a :- ParseOctet(octets[0]);
      var b :- ParseOctet(octets[1]);
      var c :- ParseOctet(octets[2]);
      var d :- ParseOctet(octets[3]);
      Some(Value(Quad(a, b, c, d)))
  }

  lemma QuadRoundTrip(q: Quad, n: nat)
    requires n < ADDRESSES
    ensures IsQuad(QuadOf(n)) && Value(QuadOf(n)) == n
    ensures IsQuad(q) && Value(q) == n ==> q == QuadOf(n)
  {
    assert n / 0x1_0000 == n / 256 / 256 && n / 0x100_0000 == n / 256 / 256 / 256;
    if IsQuad(q) && Value(q) == n {
      assert n / 256 == (q.a * 256 + q.b) * 256 + q.c && n % 256 == q.d;
      assert n / 256 / 256 == q.a * 256 + q.b && n / 256 % 256 == q.c;
    }
  }

  lemma NoDots(n: nat)
    ensures '.' !in Digits(n) && '/' !in Digits(n)
  {
    DigitsBack(n);
    assert !IsDigit('.') && !IsDigit('/');
  }

  lemma SplitQuad(q: Quad)
    ensures Split(QuadText(q), '.') == [Digits(q.a), Digits(q.b), Digits(q.c), Digits(q.d)]
  {
    NoDots(q.a);
    NoDots(q.b);
    NoDots(q.c);
    NoDots(q.d);
    SplitOne(Digits(q.d), '.');
    SplitFirst(Digits(q.c), Digits(q.d), '.');
    SplitFirst(Digits(q.b), Digits(q.c) + "." + Digits(q.d), '.');
    SplitFirst(Digits(q.a), Digits(q.b) + "." + (Digits(q.c) + "." + Digits(q.d)), '.');
  }

  /** An address has exactly one text. */
  lemma AddressRoundTrip(s: string, n: nat)
    requires n < ADDRESSES
    ensures ParseAddress(s) == Some(n) <==> s == AddressText(n)
  {
    var q := QuadOf(n);
    QuadRoundTrip(q, n);
    SplitQuad(q);
    OctetRoundTrip(Digits(q.a), q.a);
    OctetRoundTrip(Digits(q.b), q.b);
    OctetRoundTrip(Digits(q.c), q.c);
    OctetRoundTrip(Digits(q.d), q.d);
    if ParseAddress(s) == Some(n) {
      ParsedIsText(s, n);
    }
  }

  lemma ParsedOctets(s: string) returns (q: Quad)
    requires ParseAddress(s).Some?
    ensures IsQuad(q) && Value(q) == ParseAddress(s).value
    ensures Split(s, '.') == [Digits(q.a), Digits(q.b), Digits(q.c), Digits(q.d)]
  {
    var octets := Split(s, '.');
    var a, b := ParseOctet(octets[0]).value, ParseOctet(octets[1]).value;
    var c, d := ParseOctet(octets[2]).value, ParseOctet(octets[3]).value;
    OctetRoundTrip(octets[0], a);
    OctetRoundTrip(octets[1], b);
    OctetRoundTrip(octets[2], c);
    OctetRoundTrip(octets[3], d);
    q := Quad(a, b, c, d);
  }

  lemma ParsedIsText(s: string, n: nat)
    requires n < ADDRESSES && ParseAddress(s) == Some(n)
    ensures s == AddressText(n)
  {
    var q := ParsedOctets(s);
    QuadRoundTrip(q, n);
    SplitQuad(q);
    JoinSplit(s, '.');
    JoinSplit(QuadText(q), '.');
  }

  /* ---------- networks (section 3.1 of RFC 4632) ---------- */

  /** How many addresses a network of this prefix length has. */
  function Size(prefix: nat): (r: nat)
    requires prefix <= BITS
    ensures 0 < r
  {
    PowerOf2(BITS - prefix)
  }

  function Netmask(prefix: nat): int
    requires prefix <= BITS
  {
    ADDRESSES - Size(prefix)
  }

  /** The first address of the network of this prefix length around an address. */
  function NetworkOf(n: nat, prefix: nat): int
    requires prefix <= BITS
  {
    n - n % Size(prefix)
  }

  /** The prefix length of a netmask. */
  function PrefixOf(mask: nat, prefix: nat): (r: Option<nat>)
    requires prefix <= BITS
    ensures r.Some? ==> r.value <= BITS && Netmask(r.value) == mask
    decreases BITS - prefix, mask
  {
    if mask == Netmask(prefix) then Some(prefix)
    else if prefix == BITS then None
    else PrefixOf(mask, prefix + 1)
  }

  /** A prefix length, a netmask, or a host mask. */
  function ParseMask(s: string): (r: Option<nat>)
    ensures r.Some? ==> r.value <= BITS
  {
    if AreDigits(s) && Number(s) <= BITS then Some(Number(s))
    else
      var mask :- ParseAddress(s);
      if PrefixOf(mask, 0).Some? then PrefixOf(mask, 0) else PrefixOf(ADDRESSES - 1 - mask, 0)
  }

  datatype Interface = Interface(ip: nat, prefix: nat)

  function ParseInterface(s: string): (r: Option<Interface>)
    ensures r.Some? ==> r.value.ip < ADDRESSES && r.value.prefix <= BITS
  {
    var parts := Split(s, '/');
    if |parts| > 2 then None
    else
      var ip :- ParseAddress(parts[0]);
      var prefix :- if |parts| == 2 then ParseMask(parts[1]) else Some(BITS);
      Some(Interface(ip, prefix))
  }

  /** A network's address must have no host bits set. */
  function ParseNetwork(s: string): Option<Interface> {
    var i :- ParseInterface(s);
    if NetworkOf(i.ip, i.prefix) == i.ip then Some(i) else None
  }

  function InterfaceText(i: Interface): string {
    AddressText(i.ip) + "/" + Digits(i.prefix)
  }

  lemma {:induction false} PowersGrow(m: nat, n: nat)
    requires m < n
    ensures PowerOf2(m) < PowerOf2(n)
  {
    if m < n - 1 {
      PowersGrow(m, n - 1);
    }
  }

  lemma Powers()
    ensures PowerOf2(BITS) == ADDRESSES
  {
    assert PowerOf2(8) == 0x100;
    assert PowerOf2(16) == 0x1_0000;
    assert PowerOf2(24) == 0x100_0000;
  }

  /** A prefix length of 32 leaves one address, and each bit less twice as many. */
  lemma SizeMeans(prefix: nat)
    requires prefix <= BITS
    ensures Size(32) == 1 && Size(0) == 0x1_0000_0000
    ensures prefix < 32 ==> Size(prefix) == 2 * Size(prefix + 1)
  {
    Powers();
  }

  lemma MaskIsAddress(prefix: nat)
    requires prefix <= BITS
    ensures 0 <= Netmask(prefix) < ADDRESSES
  {
    Powers();
    if prefix > 0 {
      PowersGrow(BITS - prefix, BITS);
    }
  }

  lemma {:induction false} PrefixOfMask(prefix: nat, from: nat)
    requires from <= prefix <= BITS
    ensures 0 <= Netmask(prefix)
    ensures PrefixOf(Netmask(prefix), from) == Some(prefix)
    decreases prefix - from
  {
    MaskIsAddress(prefix);
    if from < prefix {
      PowersGrow(BITS - prefix, BITS - from);
      PrefixOfMask(prefix, from + 1);
    }
  }

  lemma MaskRoundTrip(prefix: nat)
    requires prefix <= BITS
    ensures ParseMask(Digits(prefix)) == Some(prefix)
    ensures 0 <= Netmask(prefix) && ParseMask(AddressText(Netmask(prefix))) == Some(prefix)
  {
    DigitsBack(prefix);
    MaskIsAddress(prefix);
    AddressRoundTrip(AddressText(Netmask(prefix)), Netmask(prefix));
    PrefixOfMask(prefix, 0);
    HasDot(QuadOf(Netmask(prefix)));
  }

  /** An address alone is a network of one address. */
  lemma PlainAddress(n: nat)
    requires n < ADDRESSES
    ensures ParseInterface(AddressText(n)) == Some(Interface(n, 32))
  {
    NoSlash(QuadOf(n));
    SplitOne(AddressText(n), '/');
    AddressRoundTrip(AddressText(n), n);
  }

  /** A host mask reads back too, unless it is also a netmask. */
  lemma HostMaskRoundTrip(prefix: nat)
    requires 0 < prefix < BITS
    ensures Size(prefix) <= ADDRESSES && ParseMask(AddressText(Size(prefix) - 1)) == Some(prefix)
  {
    MaskIsAddress(prefix);
    var mask := Size(prefix) - 1;
    AddressRoundTrip(AddressText(mask), mask);
    HasDot(QuadOf(mask));
    HostMaskParses(AddressText(mask), prefix);
  }

  lemma HostMaskParses(s: string, prefix: nat)
    requires 0 < prefix < BITS && !AreDigits(s)
    requires ParseAddress(s) == Some(Size(prefix) - 1)
    ensures ParseMask(s) == Some(prefix)
  {
    HostMaskIsNoNetmask(prefix, 0);
    PrefixOfMask(prefix, 0);
  }

  lemma HostMaskIsNoNetmask(prefix: nat, from: nat)
    requires 0 < prefix < BITS && from <= BITS
    ensures PrefixOf(Size(prefix) - 1, from).None?
  {
    var found := PrefixOf(Size(prefix) - 1, from);
    if found.Some? {
      OnlyOneIsOdd(prefix, found.value);
    }
  }

  lemma OnlyOneIsOdd(m: nat, n: nat)
    requires 0 < m < BITS && n <= BITS
    ensures Size(m) + Size(n) != ADDRESSES + 1
  {
    SizeMeans(m);
    SizeMeans(n);
    PowersGrow(BITS - m, BITS);
    Powers();
  }

  lemma HasDot(q: Quad)
    ensures !AreDigits(QuadText(q))
  {
    var n := |Digits(q.a)|;
    assert QuadText(q)[n] == '.' && '.' in QuadText(q) && !IsDigit('.');
  }

  lemma NoSlash(q: Quad)
    ensures '/' !in QuadText(q)
  {
    NoDots(q.a);
    NoDots(q.b);
    NoDots(q.c);
    NoDots(q.d);
  }

  lemma InterfaceRoundTrip(i: Interface)
    requires i.ip < ADDRESSES && i.prefix <= BITS
    ensures ParseInterface(InterfaceText(i)) == Some(i)
  {
    NoSlash(QuadOf(i.ip));
    NoDots(i.prefix);
    SplitOne(Digits(i.prefix), '/');
    SplitFirst(AddressText(i.ip), Digits(i.prefix), '/');
    AddressRoundTrip(AddressText(i.ip), i.ip);
    MaskRoundTrip(i.prefix);
  }
}
