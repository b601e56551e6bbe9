/** LAN addresses: what the provisioning loader emits and what the gateway script accepts. */
module Lan {
  import opened Outcomes
  import opened Texts
  import opened Ipv4

  /** The address fields of the LAN settings, as texts. */
  datatype Settings = Settings(
    gatewayCidr: string,
    gatewayIp: string,
    subnetCidr: string,
    netmask: string,
    dhcpStart: string,
    dhcpEnd: string)

  /* ---------- the provisioning loader ---------- */

  predicate IsIn(n: nat, network: int, prefix: nat)
    requires prefix <= BITS
  {
    NetworkOf(n, prefix) == network
  }

  /** The loader's addresses, the texts given stripped of white space. */
  function LoadLanSettings(gatewayCidr: string, dhcpStart: string, dhcpEnd: string): Option<Settings> {
    var gateway :- ParseInterface(Stripped(gatewayCidr));
    var first :- ParseAddress(Stripped(dhcpStart));
    var last :- ParseAddress(Stripped(dhcpEnd));
    if !(16 <= gateway.prefix <= 30) then None
    else
      var network := NetworkOf(gateway.ip, gateway.prefix);
      if !IsIn(first, network, gateway.prefix) || !IsIn(last, network, gateway.prefix) then None
      else if first > last || first <= gateway.ip <= last then None
      else Some(SettingsOf(gateway, first, last))
  }

  function SettingsOf(gateway: Interface, first: nat, last: nat): Settings
    requires gateway.prefix <= BITS
  {
    Settings(InterfaceText(gateway), AddressText(gateway.ip),
             InterfaceText(Interface(NetworkAddress(gateway), gateway.prefix)),
             AddressText(NetmaskAddress(gateway.prefix)), AddressText(first), AddressText(last))
  }

  function NetworkAddress(i: Interface): nat
    requires i.prefix <= BITS
  {
    NetworkIsAddress(i.ip, i.prefix);
    NetworkOf(i.ip, i.prefix)
  }

  function NetmaskAddress(prefix: nat): nat
    requires prefix <= BITS
  {
    MaskIsAddress(prefix);
    Netmask(prefix)
  }

  /** Every network address is the first multiple of its size. */
  lemma NetworkIsAddress(n: nat, prefix: nat)
    requires prefix <= BITS
    ensures 0 <= NetworkOf(n, prefix) <= n
    ensures NetworkOf(n, prefix) % Size(prefix) == 0
    ensures NetworkOf(NetworkOf(n, prefix), prefix) == NetworkOf(n, prefix)
  {
    Multiple(n, Size(prefix));
  }

  lemma Multiple(n: nat, size: nat)
    requires 0 < size
    ensures 0 <= n - n % size && (n - n % size) % size == 0
  {
    var m := n - n % size;
    var k, j := n / size, m / size;
    assert m == size * k;
    assert m == size * j + m % size;
    Distribute(size, k, j);
    if k > j {
      AtLeastOnce(size, k - j);
    } else if k < j {
      AtLeastOnce(size, j - k);
      Distribute(size, j, k);
    }
  }

  lemma Distribute(size: nat, k: int, j: int)
    ensures size * k - size * j == size * (k - j)
  {
  }

  lemma AtLeastOnce(size: nat, d: int)
    requires 1 <= d
    ensures size <= size * d
  {
  }

  /** A network holds the addresses from a multiple of its size up to the next one, and two
      addresses share a network exactly if they lie between the same two multiples. */
  lemma NetworkMeans(m: nat, n: nat, prefix: nat)
    requires prefix <= BITS
    ensures NetworkOf(n, prefix) <= n < NetworkOf(n, prefix) + PowerOf2(32 - prefix)
    ensures NetworkOf(n, prefix) % PowerOf2(32 - prefix) == 0
    ensures NetworkOf(m, prefix) == NetworkOf(n, prefix) <==> m / PowerOf2(32 - prefix) == n / PowerOf2(32 - prefix)
  {
    var size := PowerOf2(32 - prefix);
    Multiple(n, size);
    Quotients(m, n, size);
  }

  lemma Quotients(m: nat, n: nat, size: nat)
    requires 0 < size
    ensures m - m % size == n - n % size <==> m / size == n / size
  {
    var j, k := m / size, n / size;
    assert m - m % size == size * j && n - n % size == size * k;
    SameMultiple(size, j, k);
  }

  lemma SameMultiple(size: nat, j: int, k: int)
    requires 0 < size
    ensures size * j == size * k <==> j == k
  {
    Distribute(size, j, k);
    if j > k {
      AtLeastOnce(size, j - k);
    } else if j < k {
      AtLeastOnce(size, k - j);
      Distribute(size, k, j);
    }
  }

  /** A prefix length from 16 to 30, and a range of addresses, in order, between the same two
      multiples of the network's size as the gateway, which it leaves out. */
  predicate IsServable(gateway: Interface, first: nat, last: nat)
    requires gateway.prefix <= BITS
  {
    && 16 <= gateway.prefix <= 30
    && first / PowerOf2(32 - gateway.prefix) == gateway.ip / PowerOf2(32 - gateway.prefix)
    && last / PowerOf2(32 - gateway.prefix) == gateway.ip / PowerOf2(32 - gateway.prefix)
    && (gateway.ip < first <= last || first <= last < gateway.ip)
  }

  /** The loader accepts exactly three texts that parse as a servable range. */
  lemma LoaderMeans(gatewayCidr: string, dhcpStart: string, dhcpEnd: string)
    ensures var gateway := ParseInterface(Stripped(gatewayCidr));
            var first, last := ParseAddress(Stripped(dhcpStart)), ParseAddress(Stripped(dhcpEnd));
      LoadLanSettings(gatewayCidr, dhcpStart, dhcpEnd).Some? <==>
        gateway.Some? && first.Some? && last.Some? && IsServable(gateway.value, first.value, last.value)
  {
    var gateway := ParseInterface(Stripped(gatewayCidr));
    var first, last := ParseAddress(Stripped(dhcpStart)), ParseAddress(Stripped(dhcpEnd));
    if gateway.Some? && first.Some? && last.Some? {
      NetworkMeans(first.value, gateway.value.ip, gateway.value.prefix);
      NetworkMeans(last.value, gateway.value.ip, gateway.value.prefix);
    }
  }

  /** What it emits: texts of the gateway, of a network that holds it and the whole range, of the
      netmask of this network, and of the range. */
  lemma EmittedMeans(gatewayCidr: string, dhcpStart: string, dhcpEnd: string)
    requires LoadLanSettings(gatewayCidr, dhcpStart, dhcpEnd).Some?
    ensures var settings := LoadLanSettings(gatewayCidr, dhcpStart, dhcpEnd).value;
            var gateway, subnet := ParseInterface(settings.gatewayCidr), ParseNetwork(settings.subnetCidr);
            var first, last := ParseAddress(settings.dhcpStart), ParseAddress(settings.dhcpEnd);
      && gateway == ParseInterface(Stripped(gatewayCidr)) && gateway.Some?
      && first == ParseAddress(Stripped(dhcpStart)) && first.Some?
      && last == ParseAddress(Stripped(dhcpEnd)) && last.Some?
      && ParseAddress(settings.gatewayIp) == Some(gateway.value.ip)
      && subnet.Some? && subnet.value.prefix == gateway.value.prefix <= BITS
      && IsAround(subnet.value, gateway.value.ip, first.value, last.value)
      && ParseAddress(settings.netmask) == Some(0x1_0000_0000 - PowerOf2(32 - subnet.value.prefix))
  {
    var gateway := ParseInterface(Stripped(gatewayCidr)).value;
    var first, last := ParseAddress(Stripped(dhcpStart)).value, ParseAddress(Stripped(dhcpEnd)).value;
    EmittedTexts(gateway, first, last);
    NetworkHolds(gateway, first, last);
  }

  /** A network that starts at a multiple of its size and holds the gateway and the range. */
  predicate IsAround(network: Interface, gateway: nat, first: nat, last: nat)
    requires network.prefix <= BITS
  {
    && network.ip % PowerOf2(32 - network.prefix) == 0
    && network.ip <= gateway < network.ip + PowerOf2(32 - network.prefix)
    && network.ip <= first <= last < network.ip + PowerOf2(32 - network.prefix)
  }

  lemma NetworkHolds(gateway: Interface, first: nat, last: nat)
    requires gateway.prefix <= BITS && first <= last
    requires IsIn(first, NetworkOf(gateway.ip, gateway.prefix), gateway.prefix)
    requires IsIn(last, NetworkOf(gateway.ip, gateway.prefix), gateway.prefix)
    ensures IsAround(Interface(NetworkAddress(gateway), gateway.prefix), gateway.ip, first, last)
  {
    NetworkMeans(gateway.ip, gateway.ip, gateway.prefix);
    NetworkMeans(first, first, gateway.prefix);
    NetworkMeans(last, last, gateway.prefix);
  }

  lemma EmittedTexts(gateway: Interface, first: nat, last: nat)
    requires gateway.ip < ADDRESSES && gateway.prefix <= BITS && first < ADDRESSES && last < ADDRESSES
    ensures var settings := SettingsOf(gateway, first, last);
      && ParseInterface(settings.gatewayCidr) == Some(gateway)
      && ParseAddress(settings.gatewayIp) == Some(gateway.ip)
      && ParseNetwork(settings.subnetCidr) == Some(Interface(NetworkAddress(gateway), gateway.prefix))
      && ParseAddress(settings.netmask) == Some(NetmaskAddress(gateway.prefix))
      && ParseAddress(settings.dhcpStart) == Some(first) && ParseAddress(settings.dhcpEnd) == Some(last)
  {
    InterfaceRoundTrip(gateway);
    NetworkIsAddress(gateway.ip, gateway.prefix);
    InterfaceRoundTrip(Interface(NetworkAddress(gateway), gateway.prefix));
    AddressRoundTrip(AddressText(gateway.ip), gateway.ip);
    AddressRoundTrip(AddressText(NetmaskAddress(gateway.prefix)), NetmaskAddress(gateway.prefix));
    AddressRoundTrip(AddressText(first), first);
    AddressRoundTrip(AddressText(last), last);
  }

  /* ---------- the gateway script ---------- */

  function LoadSettings(payload: Settings): Option<Settings> {
    var gateway :- ParseInterface(payload.gatewayCidr);
    var gatewayIp :- ParseAddress(payload.gatewayIp);
    var subnet :- ParseNetwork(payload.subnetCidr);
    var first :- ParseAddress(payload.dhcpStart);
    var last :- ParseAddress(payload.dhcpEnd);
    var mask :- ParseNetwork("0.0.0.0/" + payload.netmask);
    if gateway.ip != gatewayIp then None
    else if Interface(NetworkAddress(gateway), gateway.prefix) != subnet then None
    else if AddressText(NetmaskAddress(gateway.prefix)) != payload.netmask then None
    else if !IsIn(first, subnet.ip, subnet.prefix) || !IsIn(last, subnet.ip, subnet.prefix) then None
    else if first > last || first <= gatewayIp <= last then None
    else
      Some(SettingsOf(gateway, first, last).(gatewayIp := AddressText(gatewayIp), subnetCidr := InterfaceText(subnet)))
  }

  /** The texts parse, the addresses repeat the gateway's and its network's, the netmask is the one
      of this network, and the range, in order, lies in the network and leaves the gateway out. */
  predicate IsConsistent(payload: Settings) {
    var gateway, subnet := ParseInterface(payload.gatewayCidr), ParseNetwork(payload.subnetCidr);
    var first, last := ParseAddress(payload.dhcpStart), ParseAddress(payload.dhcpEnd);
    && gateway.Some? && subnet.Some? && first.Some? && last.Some?
    && ParseAddress(payload.gatewayIp) == Some(gateway.value.ip)
    && gateway.value.prefix == subnet.value.prefix <= BITS
    && IsAround(subnet.value, gateway.value.ip, first.value, last.value)
    && !(first.value <= gateway.value.ip <= last.value)
    && payload.netmask == AddressText(NetmaskAddress(subnet.value.prefix))
  }

  /** The script accepts exactly the consistent payloads. */
  lemma ScriptMeans(payload: Settings)
    ensures LoadSettings(payload).Some? <==> IsConsistent(payload)
  {
    if LoadSettings(payload).Some? {
      AcceptedIsConsistent(payload);
    }
    if IsConsistent(payload) {
      ConsistentIsAccepted(payload);
    }
  }

  lemma AcceptedIsConsistent(payload: Settings)
    requires LoadSettings(payload).Some?
    ensures IsConsistent(payload)
  {
    Accepted(payload);
    AroundMeans(ParseNetwork(payload.subnetCidr).value, ParseInterface(payload.gatewayCidr).value.ip,
                ParseAddress(payload.dhcpStart).value, ParseAddress(payload.dhcpEnd).value);
  }

  lemma ConsistentIsAccepted(payload: Settings)
    requires IsConsistent(payload)
    ensures LoadSettings(payload).Some?
  {
    var subnet := ParseNetwork(payload.subnetCidr).value;
    AroundMeans(subnet, ParseInterface(payload.gatewayCidr).value.ip,
                ParseAddress(payload.dhcpStart).value, ParseAddress(payload.dhcpEnd).value);
    MaskParses(subnet.prefix);
  }

  lemma AroundMeans(network: Interface, gateway: nat, first: nat, last: nat)
    requires network.prefix <= BITS
    ensures IsAround(network, gateway, first, last) <==>
      (&& NetworkOf(gateway, network.prefix) == network.ip
       && IsIn(first, network.ip, network.prefix) && IsIn(last, network.ip, network.prefix)
       && first <= last)
  {
    NetworkIs(gateway, network);
    NetworkIs(first, network);
    NetworkIs(last, network);
  }

  /** The network of an address is the aligned one that holds it. */
  lemma NetworkIs(n: nat, network: Interface)
    requires network.prefix <= BITS
    ensures var size := PowerOf2(32 - network.prefix);
      NetworkOf(n, network.prefix) == network.ip <==>
        network.ip % size == 0 && network.ip <= n < network.ip + size
  {
    NetworkMeans(n, n, network.prefix);
    var size := PowerOf2(32 - network.prefix);
    if network.ip % size == 0 && network.ip <= n < network.ip + size {
      Aligned(n, network.ip, size);
    }
  }

  lemma Aligned(n: nat, start: nat, size: nat)
    requires 0 < size && start % size == 0 && start <= n < start + size
    ensures n - n % size == start
  {
    var j, k := n / size, start / size;
    assert n == size * j + n % size && start == size * k;
    Distribute(size, j, k);
    if j > k {
      AtLeastOnce(size, j - k);
    } else if j < k {
      AtLeastOnce(size, k - j);
      Distribute(size, k, j);
    }
  }

  /* ---------- agreement ---------- */

  /** What the loader emits, the script accepts and returns unchanged. */
  lemma Agreement(gatewayCidr: string, dhcpStart: string, dhcpEnd: string)
    ensures var settings := LoadLanSettings(gatewayCidr, dhcpStart, dhcpEnd);
      settings.Some? ==>
        && LoadSettings(settings.value) == settings
        && var gateway := ParseInterface(settings.value.gatewayCidr);
           gateway.Some? && 16 <= gateway.value.prefix <= 30
  {
    if LoadLanSettings(gatewayCidr, dhcpStart, dhcpEnd).Some? {
      var gateway := ParseInterface(Stripped(gatewayCidr)).value;
      var first, last := ParseAddress(Stripped(dhcpStart)).value, ParseAddress(Stripped(dhcpEnd)).value;
      AcceptsText(gateway, first, last);
      InterfaceRoundTrip(gateway);
    }
  }

  lemma AcceptsText(gateway: Interface, first: nat, last: nat)
    requires gateway.ip < ADDRESSES && first < ADDRESSES && last < ADDRESSES && gateway.prefix <= BITS
    requires IsIn(first, NetworkOf(gateway.ip, gateway.prefix), gateway.prefix)
    requires IsIn(last, NetworkOf(gateway.ip, gateway.prefix), gateway.prefix)
    requires first <= last && !(first <= gateway.ip <= last)
    ensures LoadSettings(SettingsOf(gateway, first, last)) == Some(SettingsOf(gateway, first, last))
  {
    InterfaceRoundTrip(gateway);
    AddressRoundTrip(AddressText(gateway.ip), gateway.ip);
    AddressRoundTrip(AddressText(first), first);
    AddressRoundTrip(AddressText(last), last);
    NetworkIsAddress(gateway.ip, gateway.prefix);
    InterfaceRoundTrip(Interface(NetworkAddress(gateway), gateway.prefix));
    MaskParses(gateway.prefix);
  }

  /** A netmask is also the mask of the network at address zero. */
  lemma MaskParses(prefix: nat)
    requires prefix <= BITS
    ensures ParseNetwork("0.0.0.0/" + AddressText(NetmaskAddress(prefix))) == Some(Interface(0, prefix))
  {
    var text := AddressText(NetmaskAddress(prefix));
    assert AddressText(0) == "0.0.0.0";
    NoSlash(QuadOf(0));
    NoSlash(QuadOf(NetmaskAddress(prefix)));
    SplitOne(text, '/');
    SplitFirst("0.0.0.0", text, '/');
    assert "0.0.0.0/" + text == "0.0.0.0" + "/" + text;
    AddressRoundTrip("0.0.0.0", 0);
    MaskRoundTrip(prefix);
    NetworkIsAddress(0, prefix);
  }

  /* Texts that parse have no white space around them. */

  lemma DigitsAreNeat(s: string)
    requires AreDigits(s)
    ensures IsNeat(s)
  {
    assert s[0] in s && s[|s| - 1] in s;
  }

  lemma AddressIsNeat(s: string)
    requires ParseAddress(s).Some?
    ensures IsNeat(s)
  {
    AddressRoundTrip(s, ParseAddress(s).value);
    var q := QuadOf(ParseAddress(s).value);
    DigitsBack(q.a);
    DigitsBack(q.d);
    DigitsAreNeat(Digits(q.a));
    DigitsAreNeat(Digits(q.d));
    assert s[0] == Digits(q.a)[0];
    assert s[|s| - 1] == Digits(q.d)[|Digits(q.d)| - 1];
  }

  lemma InterfaceIsNeat(s: string)
    requires ParseInterface(s).Some?
    ensures IsNeat(s)
  {
    var parts := Split(s, '/');
    AddressIsNeat(parts[0]);
    JoinSplit(s, '/');
    if |parts| == 2 {
      if AreDigits(parts[1]) {
        DigitsAreNeat(parts[1]);
      } else {
        AddressIsNeat(parts[1]);
      }
      assert s == parts[0] + "/" + parts[1];
    }
  }

  /** What the script has checked. */
  lemma Accepted(payload: Settings)
    requires LoadSettings(payload).Some?
    ensures var gateway := ParseInterface(payload.gatewayCidr);
            var first, last := ParseAddress(payload.dhcpStart), ParseAddress(payload.dhcpEnd);
      && gateway.Some? && first.Some? && last.Some?
      && var network := NetworkOf(gateway.value.ip, gateway.value.prefix);
      && IsIn(first.value, network, gateway.value.prefix) && IsIn(last.value, network, gateway.value.prefix)
      && first.value <= last.value && !(first.value <= gateway.value.ip <= last.value)
      && LoadSettings(payload).value == SettingsOf(gateway.value, first.value, last.value)
    ensures ParseAddress(payload.gatewayIp) == Some(ParseInterface(payload.gatewayCidr).value.ip)
    ensures LoadSettings(payload).value.netmask == payload.netmask
  {
  }

  /** Within the prefix lengths that the loader admits, it emits whatever the script returns.  The
      script changes at most the spelling of the two prefix lengths. */
  lemma Converse(payload: Settings)
    ensures LoadSettings(payload).Some? ==>
              && LoadSettings(payload).value ==
                 payload.(gatewayCidr := LoadSettings(payload).value.gatewayCidr,
                          subnetCidr := LoadSettings(payload).value.subnetCidr)
              && (16 <= ParseInterface(payload.gatewayCidr).value.prefix <= 30 ==>
                    LoadLanSettings(payload.gatewayCidr, payload.dhcpStart, payload.dhcpEnd) == LoadSettings(payload))
  {
    if LoadSettings(payload).Some? {
      Accepted(payload);
      AddressRoundTrip(payload.gatewayIp, ParseAddress(payload.gatewayIp).value);
      AddressRoundTrip(payload.dhcpStart, ParseAddress(payload.dhcpStart).value);
      AddressRoundTrip(payload.dhcpEnd, ParseAddress(payload.dhcpEnd).value);
      InterfaceIsNeat(payload.gatewayCidr);
      AddressIsNeat(payload.dhcpStart);
      AddressIsNeat(payload.dhcpEnd);
      NeatIsStripped(payload.gatewayCidr);
      NeatIsStripped(payload.dhcpStart);
      NeatIsStripped(payload.dhcpEnd);
    }
  }
}
