/**
 * The hub-and-spoke generator (cmd/fire/wireguard/generate.go): Build
 * normalises the options and parses the address texts, bindInterface and
 * bindPeer copy the shared options into a configuration, and
 * generateRandom grows a hub by one spoke per count, handing out the
 * addresses of the configured prefixes in order.
 *
 * As written, bindPeer tests the peer's own (empty) endpoint instead of the
 * configured one, so no endpoint is ever written; the spoke's peer gets
 * the configured AllowIPs only; and the capacity Build computes for a
 * prefix does not reserve the hub's address, so when the count reaches it
 * the last spoke gets no address of that family.
 */
module Generate {
  import opened Wrappers
  import opened Text
  import opened Keys
  import opened NetAddr
  import opened PrefixIter
  import opened WireguardConf
  import opened Combine
  import ConfParse

  const MaxPeerCount := 4096

  /**
   * The options. allowIPs and dns are the texts given; v4Prefix, v6Prefix,
   * allowPrefixes and dnsAddrs are what Build parses out of them.
   */
  datatype GenerateConfig = GenerateConfig(
    count: int64,
    setupAllPeersInterface: bool,
    ipv4Cidr: string,
    ipv6Cidr: string,
    ipv4: bool,
    ipv6: bool,
    dns: seq<string>,
    enablePreshared: bool,
    interfaceListenPort: uint16,
    preUp: seq<string>,
    postUp: seq<string>,
    preDown: seq<string>,
    postDown: seq<string>,
    table: int64,
    mtu: int64,
    allowIPs: seq<string>,
    persistentKeepalive: int64,
    endpoint: string,
    endpointPort: uint16,
    v4Prefix: Prefix,
    v6Prefix: Prefix,
    allowPrefixes: seq<Prefix>,
    dnsAddrs: seq<Addr>)

  function Min(a: int, b: int): int { if a <= b then a else b }

  // ---------------------------------------------------------------------
  // bindInterface and bindPeer

  /** bindInterface: the shared interface options replace the Interface's own. */
  function BindInterface(c: GenerateConfig, iif: Interface): (r: Interface)
    ensures r.privateKey == iif.privateKey && r.addresses == iif.addresses
    ensures r.saveConfig == iif.saveConfig && r.ready == iif.ready
    ensures r.preUp == c.preUp && r.postUp == c.postUp && r.preDown == c.preDown && r.postDown == c.postDown
    ensures r.mtu == c.mtu && r.dns == c.dnsAddrs && r.listenPort == c.interfaceListenPort && r.table == c.table
  {
    iif.(preUp := c.preUp, preDown := c.preDown, postUp := c.postUp, postDown := c.postDown,
         mtu := c.mtu, dns := c.dnsAddrs, listenPort := c.interfaceListenPort, table := c.table)
  }

  /** Binding twice is binding once. */
  lemma BindInterfaceIdempotent(c: GenerateConfig, iif: Interface)
    ensures BindInterface(c, BindInterface(c, iif)) == BindInterface(c, iif)
  {
  }

  /** net.JoinHostPort: a host holding a colon is bracketed. */
  function JoinHostPort(host: string, port: string): string {
    if ':' in host then "[" + host + "]:" + port else host + ":" + port
  }

  /**
   * bindPeer: the configured AllowIPs, the keepalive when positive, and the
   * endpoint only when the peer already has one.
   */
  function BindPeer(c: GenerateConfig, peer: Peer): (r: Peer)
    ensures r.publicKey == peer.publicKey && r.presharedKey == peer.presharedKey && r.ready == peer.ready
    ensures r.allowedIPs == c.allowPrefixes
    ensures r.persistentKeepalive == if c.persistentKeepalive > 0 then c.persistentKeepalive else peer.persistentKeepalive
    ensures peer.endpoint == "" ==> r.endpoint == ""
    ensures peer.endpoint != "" ==> r.endpoint == JoinHostPort(c.endpoint, FormatNat(c.endpointPort))
  {
    var p := peer.(allowedIPs := c.allowPrefixes);
    var p := if c.persistentKeepalive > 0 then p.(persistentKeepalive := c.persistentKeepalive) else p;
    if p.endpoint != "" then p.(endpoint := JoinHostPort(c.endpoint, FormatNat(c.endpointPort))) else p
  }

  /**
   * The endpoint is never set on a fresh peer: whatever endpoint and port
   * are configured, binding a peer without an endpoint leaves it without one.
   */
  lemma EndpointNeverSet(c: GenerateConfig, c': GenerateConfig, peer: Peer)
    requires peer.endpoint == ""
    ensures BindPeer(c, peer).endpoint == BindPeer(c', peer).endpoint == ""
  {
  }

  // ---------------------------------------------------------------------
  // Build

  /** The defaults Build applies before parsing anything. */
  function Defaults(c: GenerateConfig): (r: GenerateConfig)
    ensures r == c.(ipv4 := r.ipv4, persistentKeepalive := r.persistentKeepalive, mtu := r.mtu, table := r.table)
  {
    var c := if !c.ipv4 && !c.ipv6 then c.(ipv4 := true) else c;
    var c := if c.persistentKeepalive <= -1 then c.(persistentKeepalive := 0) else c;
    var c := if c.mtu <= 0 then c.(mtu := 1420) else c;
    if c.table <= 0 then c.(table := 0) else c
  }

  /**
   * The defaults put every option in range and leave an option already in
   * range alone: at least one family, IPv4 when none was asked for, a
   * positive MTU (1420 by default), no negative keepalive or table.
   */
  lemma DefaultsNormalise(c: GenerateConfig)
    ensures Defaults(c).ipv4 == (c.ipv4 || !c.ipv6) && Defaults(c).ipv6 == c.ipv6
    ensures Defaults(c).mtu > 0 && (c.mtu > 0 ==> Defaults(c).mtu == c.mtu) && (c.mtu <= 0 ==> Defaults(c).mtu == 1420)
    ensures Defaults(c).persistentKeepalive >= 0 && (c.persistentKeepalive >= 0 ==> Defaults(c).persistentKeepalive == c.persistentKeepalive)
    ensures Defaults(c).table >= 0 && (c.table >= 0 ==> Defaults(c).table == c.table)
    ensures c.persistentKeepalive <= -1 ==> Defaults(c).persistentKeepalive == 0
    ensures c.table <= 0 ==> Defaults(c).table == 0
    ensures Defaults(Defaults(c)) == Defaults(c)
  {
    DefaultsIdempotent(c);
  }

  /** A configuration already in range is a fixed point of the defaults. */
  lemma DefaultsIdempotent(c: GenerateConfig)
    ensures Defaults(Defaults(c)) == Defaults(c)
  {
    var d := Defaults(c);
    assert d.ipv4 || d.ipv6;
    assert d.persistentKeepalive > -1 && d.mtu > 0 && d.table >= 0;
  }

  /**
   * What Go's shifts need: an enabled IPv4 CIDR text parses to at most 32
   * bits (`1 << (32 - bits)` panics on a negative count), and an IPv6 one
   * to at most 128.
   */
  predicate ShiftsDefined(nt: NetText, c: GenerateConfig) {
    ((c.ipv4 || !c.ipv6) && nt.parsePrefix(c.ipv4Cidr).Ok? ==> 0 <= nt.parsePrefix(c.ipv4Cidr).value.bits <= 32)
    && (c.ipv6 && nt.parsePrefix(c.ipv6Cidr).Ok? ==> nt.parsePrefix(c.ipv6Cidr).value.bits <= 128)
  }

  /** `1<<(32-bits)-1`: the addresses an IPv4 prefix offers after its network address. */
  function V4Cap(p: Prefix): (n: nat)
    requires 0 <= p.bits <= 32
    ensures p.IsValid() && p.addr.width == 32 ==> n == HostCount(p)
  {
    Pow2(32 - p.bits) - 1
  }

  /** `1<<min(128-bits, 32)-1`: the IPv6 capacity, cut at 2^32 - 1. */
  function V6Cap(p: Prefix): (n: nat)
    requires p.bits <= 128
    ensures n < Pow2(32)
  {
    Pow2Mono(Min(128 - p.bits, 32), 32);
    Pow2(Min(128 - p.bits, 32)) - 1
  }

  lemma {:induction false} Pow2Mono(a: nat, b: nat)
    requires a <= b
    ensures Pow2(a) <= Pow2(b)
    decreases b
  {
    if a < b {
      Pow2Mono(a, b - 1);
    }
  }

  /** The AllowIPs texts Build parses: the given ones, or the masked enabled prefixes, IPv4 first. */
  function AllowTexts(nt: NetText, c: GenerateConfig, p4: Prefix, p6: Prefix): seq<string> {
    if |c.allowIPs| > 0 then c.allowIPs
    else (if c.ipv4 then [nt.formatPrefix(p4.Masked())] else [])
         + (if c.ipv6 then [nt.formatPrefix(p6.Masked())] else [])
  }

  /** The prefixes of the enabled families as parsed, and the count bounded by each. */
  function ParseCidrs(nt: NetText, d: GenerateConfig): (r: Result<GenerateConfig>)
    requires ShiftsDefined(nt, d) && (d.ipv4 || d.ipv6)
    ensures r.Err? ==> (d.ipv4 && nt.parsePrefix(d.ipv4Cidr).Err? && r.error == nt.parsePrefix(d.ipv4Cidr).error)
                       || (d.ipv6 && nt.parsePrefix(d.ipv6Cidr).Err? && r.error == nt.parsePrefix(d.ipv6Cidr).error)
    ensures d.ipv4 && nt.parsePrefix(d.ipv4Cidr).Err? ==> r == Err(nt.parsePrefix(d.ipv4Cidr).error)
    ensures r.Ok? ==> r.value == d.(v4Prefix := r.value.v4Prefix, v6Prefix := r.value.v6Prefix, count := r.value.count)
    ensures r.Ok? ==> r.value.count <= d.count
    ensures r.Ok? && d.ipv4 ==> Ok(r.value.v4Prefix) == nt.parsePrefix(d.ipv4Cidr) && r.value.count <= V4Cap(r.value.v4Prefix)
    ensures r.Ok? && d.ipv6 ==> Ok(r.value.v6Prefix) == nt.parsePrefix(d.ipv6Cidr) && r.value.count <= V6Cap(r.value.v6Prefix)
  {
    var p4 := if d.ipv4 then nt.parsePrefix(d.ipv4Cidr) else Ok(d.v4Prefix);
    if p4.Err? then Err(p4.error)
    else
      var n4: int64 := if d.ipv4 then Min(d.count, V4Cap(p4.value)) else d.count;
      var p6 := if d.ipv6 then nt.parsePrefix(d.ipv6Cidr) else Ok(d.v6Prefix);
      if p6.Err? then Err(p6.error)
      else
        var n6: int64 := if d.ipv6 then Min(n4, V6Cap(p6.value)) else n4;
        Ok(d.(v4Prefix := p4.value, v6Prefix := p6.value, count := n6))
  }

  /** The count Build keeps, then the AllowIPs texts it is going to parse. */
  function WithAllowTexts(nt: NetText, d: GenerateConfig): (r: GenerateConfig)
    ensures r == d.(count := r.count, allowIPs := r.allowIPs)
  {
    d.(count := Min(d.count, MaxPeerCount), allowIPs := AllowTexts(nt, d, d.v4Prefix, d.v6Prefix))
  }

  /** Every text of a list parses, each to the entry at its position after acc. */
  ghost predicate ParsedAll<T>(parse: string -> Result<T>, acc: seq<T>, items: seq<string>, out: seq<T>) {
    |out| == |acc| + |items| && out[..|acc|] == acc
    && forall k :: 0 <= k < |items| ==> parse(items[k]) == Ok(out[|acc| + k])
  }

  /** AppendParsed succeeds exactly when every text parses. */
  lemma AppendParsedAll<T>(parse: string -> Result<T>, acc: seq<T>, items: seq<string>)
    ensures var r := ConfParse.AppendParsed(parse, acc, items);
      (r.1.None? ==> ParsedAll(parse, acc, items, r.0))
      && (r.1.Some? <==> exists k :: 0 <= k < |items| && parse(items[k]).Err?)
  {
    var r := ConfParse.AppendParsed(parse, acc, items);
    if r.1.Some? {
      var k := |r.0| - |acc|;
      assert parse(items[k]).Err?;
    }
  }

  /** The two parse loops of Build: AllowIPs, then DNS, each stopping at the first bad text. */
  function ParseLists(nt: NetText, d: GenerateConfig): (r: Result<GenerateConfig>)
    ensures r.Ok? ==> r.value == d.(allowPrefixes := r.value.allowPrefixes, dnsAddrs := r.value.dnsAddrs)
  {
    var allow := ConfParse.AppendParsed(nt.parsePrefix, d.allowPrefixes, d.allowIPs);
    if allow.1.Some? then Err(allow.1.value)
    else
      var dns := ConfParse.AppendParsed(nt.parseAddr, d.dnsAddrs, d.dns);
      if dns.1.Some? then Err(dns.1.value)
      else Ok(d.(allowPrefixes := allow.0, dnsAddrs := dns.0))
  }

  /** The parse loops succeed exactly when every text parses, and then hold every parsed value in order. */
  lemma ParseListsAll(nt: NetText, d: GenerateConfig)
    ensures ParseLists(nt, d).Ok? <==>
              (forall k :: 0 <= k < |d.allowIPs| ==> nt.parsePrefix(d.allowIPs[k]).Ok?)
              && (forall k :: 0 <= k < |d.dns| ==> nt.parseAddr(d.dns[k]).Ok?)
    ensures ParseLists(nt, d).Ok? ==>
              ParsedAll(nt.parsePrefix, d.allowPrefixes, d.allowIPs, ParseLists(nt, d).value.allowPrefixes)
              && ParsedAll(nt.parseAddr, d.dnsAddrs, d.dns, ParseLists(nt, d).value.dnsAddrs)
  {
    AppendParsedAll(nt.parsePrefix, d.allowPrefixes, d.allowIPs);
    AppendParsedAll(nt.parseAddr, d.dnsAddrs, d.dns);
  }

  /**
   * GenerateConfig.Build. Errors come from the CIDRs, then the AllowIPs,
   * then the DNS entries, and return no configuration.
   */
  function BuildOf(nt: NetText, c: GenerateConfig): (r: Result<GenerateConfig>)
    requires ShiftsDefined(nt, c)
  {
    match ParseCidrs(nt, Defaults(c))
    case Err(e) => Err(e)
    case Ok(d) => ParseLists(nt, WithAllowTexts(nt, d))
  }

  /**
   * A built configuration has its defaults applied, at least one family,
   * and a count within every family's capacity and the peer limit.
   */
  lemma BuildBounds(nt: NetText, c: GenerateConfig)
    requires ShiftsDefined(nt, c) && BuildOf(nt, c).Ok?
    ensures var b := BuildOf(nt, c).value;
      b.ipv4 == (c.ipv4 || !c.ipv6) && b.ipv6 == c.ipv6
      && b.mtu == Defaults(c).mtu && b.persistentKeepalive == Defaults(c).persistentKeepalive
      && b.table == Defaults(c).table
      && b.count <= c.count && b.count <= MaxPeerCount
      && (b.ipv4 ==> Ok(b.v4Prefix) == nt.parsePrefix(c.ipv4Cidr) && b.count <= V4Cap(b.v4Prefix))
      && (b.ipv6 ==> Ok(b.v6Prefix) == nt.parsePrefix(c.ipv6Cidr) && b.count <= V6Cap(b.v6Prefix))
  {
    DefaultsNormalise(c);
    var d := ParseCidrs(nt, Defaults(c)).value;
    var w := WithAllowTexts(nt, d);
    assert BuildOf(nt, c) == ParseLists(nt, w);
  }

  /**
   * The parsed lists extend the configuration's own, element by element
   * in order: each AllowIPs text and each DNS text parses to the entry at
   * its position. Given AllowIPs texts are kept as they are.
   */
  lemma BuildParsesAll(nt: NetText, c: GenerateConfig)
    requires ShiftsDefined(nt, c) && BuildOf(nt, c).Ok?
    ensures var b := BuildOf(nt, c).value;
      ParsedAll(nt.parsePrefix, c.allowPrefixes, b.allowIPs, b.allowPrefixes)
      && ParsedAll(nt.parseAddr, c.dnsAddrs, c.dns, b.dnsAddrs)
      && (|c.allowIPs| > 0 ==> b.allowIPs == c.allowIPs)
  {
    DefaultsNormalise(c);
    var d := ParseCidrs(nt, Defaults(c)).value;
    var w := WithAllowTexts(nt, d);
    assert BuildOf(nt, c) == ParseLists(nt, w);
    ParseListsAll(nt, w);
  }

  /** Any CIDR, AllowIPs entry or DNS entry that does not parse makes Build fail. */
  lemma BuildFailsOnBadText(nt: NetText, c: GenerateConfig)
    requires ShiftsDefined(nt, c)
    ensures (c.ipv4 || !c.ipv6) && nt.parsePrefix(c.ipv4Cidr).Err? ==> BuildOf(nt, c) == Err(nt.parsePrefix(c.ipv4Cidr).error)
    ensures c.ipv6 && nt.parsePrefix(c.ipv6Cidr).Err? ==> BuildOf(nt, c).Err?
    ensures (exists k :: 0 <= k < |c.allowIPs| && nt.parsePrefix(c.allowIPs[k]).Err?) ==> BuildOf(nt, c).Err?
    ensures (exists k :: 0 <= k < |c.dns| && nt.parseAddr(c.dns[k]).Err?) ==> BuildOf(nt, c).Err?
  {
    DefaultsNormalise(c);
    if BuildOf(nt, c).Ok? {
      BuildParsesAll(nt, c);
    }
  }

  /**
   * With no AllowIPs given, and a library whose parse undoes its print,
   * the peers are allowed exactly the masked prefixes of the enabled
   * families, IPv4 first.
   */
  lemma BuildAllowDefault(nt: NetText, c: GenerateConfig)
    requires nt.Lawful() && ShiftsDefined(nt, c) && BuildOf(nt, c).Ok?
    requires c.allowIPs == []
    ensures var b := BuildOf(nt, c).value;
      b.allowPrefixes == c.allowPrefixes + (if b.ipv4 then [b.v4Prefix.Masked()] else [])
                                          + (if b.ipv6 then [b.v6Prefix.Masked()] else [])
  {
    var b := BuildOf(nt, c).value;
    BuildBounds(nt, c);
    BuildParsesAll(nt, c);
    DefaultPrefixesParse(nt, b.ipv4, b.ipv6, b.v4Prefix, b.v6Prefix, b.allowIPs, c.allowPrefixes, b.allowPrefixes);
  }

  /** The masked prefixes' texts parse back to the masked prefixes. */
  lemma DefaultPrefixesParse(nt: NetText, ipv4: bool, ipv6: bool, p4: Prefix, p6: Prefix,
                             texts: seq<string>, acc: seq<Prefix>, out: seq<Prefix>)
    requires nt.Lawful()
    requires ipv4 ==> p4.IsValid() && p4.WellFormed()
    requires ipv6 ==> p6.IsValid() && p6.WellFormed()
    requires texts == (if ipv4 then [nt.formatPrefix(p4.Masked())] else []) + (if ipv6 then [nt.formatPrefix(p6.Masked())] else [])
    requires ParsedAll(nt.parsePrefix, acc, texts, out)
    ensures out == acc + (if ipv4 then [p4.Masked()] else []) + (if ipv6 then [p6.Masked()] else [])
  {
    var ps := (if ipv4 then [p4.Masked()] else []) + (if ipv6 then [p6.Masked()] else []);
    assert |ps| == |texts|;
    forall k | 0 <= k < |ps|
      ensures out[|acc| + k] == ps[k]
    {
      assert texts[k] == nt.formatPrefix(ps[k]);
      assert nt.parsePrefix(nt.formatPrefix(ps[k])) == Ok(ps[k]);
    }
    assert out[|acc|..] == ps;
    assert out == out[..|acc|] + out[|acc|..];
  }

  /** One of Build's `for _, v := range` loops: parse each text and append it, or stop at the first error. */
  method ParseAll<T>(parse: string -> Result<T>, acc: seq<T>, items: seq<string>) returns (out: seq<T>, err: Option<Error>)
    ensures (out, err) == ConfParse.AppendParsed(parse, acc, items)
  {
    out := acc;
    for i := 0 to |items|
      invariant ConfParse.AppendParsed(parse, acc, items) == ConfParse.AppendParsed(parse, out, items[i..])
    {
      assert items[i..][1..] == items[i + 1..];
      var x := parse(items[i]);
      if x.Err? {
        return out, Some(x.error);
      }
      out := out + [x.value];
    }
    assert items[|items|..] == [];
    return out, None;
  }

  /** The CIDR part of Build: parse each enabled family's prefix and bound the count by its capacity. */
  method BuildCidrs(nt: NetText, d: GenerateConfig) returns (r: Result<GenerateConfig>)
    requires ShiftsDefined(nt, d) && (d.ipv4 || d.ipv6)
    ensures r == ParseCidrs(nt, d)
  {
    var c := d;
    if c.ipv4 {
      var p := nt.parsePrefix(c.ipv4Cidr);
      if p.Err? {
        return Err(p.error);
      }
      c := c.(v4Prefix := p.value);
      c := c.(count := Min(c.count, V4Cap(c.v4Prefix)));
    }
    if c.ipv6 {
      var p := nt.parsePrefix(c.ipv6Cidr);
      if p.Err? {
        return Err(p.error);
      }
      c := c.(v6Prefix := p.value);
      c := c.(count := Min(c.count, V6Cap(c.v6Prefix)));
    }
    return Ok(c);
  }

  /** The rest of Build: the count limit, the default AllowIPs texts, then the two parse loops. */
  method BuildLists(nt: NetText, d: GenerateConfig) returns (r: Result<GenerateConfig>)
    ensures r == ParseLists(nt, WithAllowTexts(nt, d))
  {
    var allowIPs := d.allowIPs;
    if |allowIPs| == 0 {
      if d.ipv4 {
        allowIPs := allowIPs + [nt.formatPrefix(d.v4Prefix.Masked())];
      }
      if d.ipv6 {
        allowIPs := allowIPs + [nt.formatPrefix(d.v6Prefix.Masked())];
      }
    }
    assert allowIPs == AllowTexts(nt, d, d.v4Prefix, d.v6Prefix);
    var c := d.(count := Min(d.count, MaxPeerCount), allowIPs := allowIPs);
    var prefixes, err := ParseAll(nt.parsePrefix, c.allowPrefixes, c.allowIPs);
    if err.Some? {
      return Err(err.value);
    }
    c := c.(allowPrefixes := prefixes);
    var dns, err' := ParseAll(nt.parseAddr, c.dnsAddrs, c.dns);
    if err'.Some? {
      return Err(err'.value);
    }
    c := c.(dnsAddrs := dns);
    return Ok(c);
  }

  /** BuildOf as its three stages: defaults, CIDRs, lists. */
  lemma BuildOfSteps(nt: NetText, c: GenerateConfig)
    requires ShiftsDefined(nt, c)
    ensures ParseCidrs(nt, Defaults(c)).Err? ==> BuildOf(nt, c) == Err(ParseCidrs(nt, Defaults(c)).error)
    ensures ParseCidrs(nt, Defaults(c)).Ok? ==> BuildOf(nt, c) == ParseLists(nt, WithAllowTexts(nt, ParseCidrs(nt, Defaults(c)).value))
  {
  }

  /** The first part of Build: each default applied in turn. */
  method ApplyDefaults(c0: GenerateConfig) returns (c: GenerateConfig)
    ensures c == Defaults(c0)
  {
    c := c0;
    if !c.ipv4 && !c.ipv6 {
      c := c.(ipv4 := true);
    }
    if c.persistentKeepalive <= -1 {
      c := c.(persistentKeepalive := 0);
    }
    if c.mtu <= 0 {
      c := c.(mtu := 1420);
    }
    if c.table <= 0 {
      c := c.(table := 0);
    }
  }

  /** Build: the defaults, the two CIDRs with the counts, then the AllowIPs and DNS lists. */
  method Build(nt: NetText, c0: GenerateConfig) returns (r: Result<GenerateConfig>)
    requires ShiftsDefined(nt, c0)
    ensures r == BuildOf(nt, c0)
  {
    var c := ApplyDefaults(c0);
    BuildOfSteps(nt, c0);
    var cidrs := BuildCidrs(nt, c);
    if cidrs.Err? {
      return Err(cidrs.error);
    }
    r := BuildLists(nt, cidrs.value);
  }

  // ---------------------------------------------------------------------
  // generateRandom

  /** PrefixIter panics on an invalid prefix: every enabled family needs a valid one. */
  predicate Iterable(gc: GenerateConfig) {
    (gc.ipv4 ==> gc.v4Prefix.IsValid() && gc.v4Prefix.WellFormed())
    && (gc.ipv6 ==> gc.v6Prefix.IsValid() && gc.v6Prefix.WellFormed())
  }

  /** A built configuration, with a well-behaved library, can be iterated. */
  lemma BuildIterable(nt: NetText, c: GenerateConfig)
    requires nt.Lawful() && ShiftsDefined(nt, c) && BuildOf(nt, c).Ok?
    ensures Iterable(BuildOf(nt, c).value)
  {
    BuildBounds(nt, c);
  }

  /** The k-th address a family's iterator hands out, if it has one. */
  function FamilyAddr(enabled: bool, p: Prefix, k: nat): (r: seq<Addr>)
    requires enabled ==> p.IsValid()
    ensures |r| <= 1
  {
    if enabled && k < HostCount(p.Masked()) then [Cursor(p.Masked(), k)] else []
  }

  /** The addresses handed out at position k: the hub takes position 0, spoke i position i + 1. */
  function AddrsAt(gc: GenerateConfig, k: nat): seq<Addr>
    requires Iterable(gc)
  {
    FamilyAddr(gc.ipv4, gc.v4Prefix, k) + FamilyAddr(gc.ipv6, gc.v6Prefix, k)
  }

  /** Each address as a full-length prefix, `netip.PrefixFrom(addr, addr.BitLen())`. */
  function HostRoutes(xs: seq<Addr>): (r: seq<Prefix>)
    ensures |r| == |xs| && forall i :: 0 <= i < |xs| ==> r[i] == PrefixFrom(xs[i], xs[i].BitLen())
  {
    seq(|xs|, i requires 0 <= i < |xs| => PrefixFrom(xs[i], xs[i].BitLen()))
  }

  lemma HostRoutesAppend(xs: seq<Addr>, a: Addr)
    ensures HostRoutes(xs + [a]) == HostRoutes(xs) + [PrefixFrom(a, a.BitLen())]
  {
  }

  /** The hub's Interface before the shared options are bound. */
  function HubInterface(gc: GenerateConfig, priv: PrivateKey): Interface
    requires Iterable(gc)
  {
    ZeroInterface.(privateKey := priv, addresses := AddrsAt(gc, 0))
  }

  /** Spoke k with its private key, the hub's public key and the preshared key. */
  function SpokeOf(gc: GenerateConfig, k: nat, priv: PrivateKey, hubPub: PublicKey, psk: PresharedKey): InterfaceWithPeers
    requires Iterable(gc)
  {
    var iif := ZeroInterface.(privateKey := priv, addresses := AddrsAt(gc, k + 1));
    InterfaceWithPeers(if gc.setupAllPeersInterface then BindInterface(gc, iif) else iif,
                       [BindPeer(gc, ZeroPeer.(publicKey := hubPub, presharedKey := psk))])
  }

  /** The hub's entry for spoke k: its public key and exactly its addresses as host routes. */
  function HubEntryOf(gc: GenerateConfig, k: nat, pub: PublicKey, psk: PresharedKey): Peer
    requires Iterable(gc)
  {
    ZeroPeer.(publicKey := pub, presharedKey := psk, allowedIPs := HostRoutes(AddrsAt(gc, k + 1)))
  }

  /**
   * Spoke k of the mesh and the hub's entry for it, up to the random keys:
   * the spoke's private key and the entry's public key are a pair, the
   * spoke's peer names the hub, and both carry the same preshared key,
   * which is unset unless preshared keys are enabled.
   */
  predicate SpokeAt(e: KeyEngine, gc: GenerateConfig, hubPriv: PrivateKey, spoke: InterfaceWithPeers, entry: Peer, k: nat)
    requires Iterable(gc)
  {
    e.Derive(hubPriv).Ok?
    && e.Derive(spoke.iface.privateKey) == Ok(entry.publicKey)
    && (!gc.enablePreshared ==> entry.presharedKey == NoPresharedKey)
    && spoke == SpokeOf(gc, k, spoke.iface.privateKey, e.Derive(hubPriv).value, entry.presharedKey)
    && entry == HubEntryOf(gc, k, entry.publicKey, entry.presharedKey)
  }

  /** SpokeAt for every position below |spokes|, built one spoke at a time. */
  ghost predicate AllSpokes(e: KeyEngine, gc: GenerateConfig, hubPriv: PrivateKey,
                            spokes: seq<InterfaceWithPeers>, entries: seq<Peer>)
    requires Iterable(gc)
    decreases |spokes|
  {
    |spokes| == |entries|
    && (|spokes| > 0 ==>
          AllSpokes(e, gc, hubPriv, spokes[..|spokes| - 1], entries[..|entries| - 1])
          && SpokeAt(e, gc, hubPriv, spokes[|spokes| - 1], entries[|entries| - 1], |spokes| - 1))
  }

  lemma AllSpokesSnoc(e: KeyEngine, gc: GenerateConfig, hubPriv: PrivateKey,
                      spokes: seq<InterfaceWithPeers>, entries: seq<Peer>,
                      spoke: InterfaceWithPeers, entry: Peer)
    requires Iterable(gc) && AllSpokes(e, gc, hubPriv, spokes, entries)
    requires SpokeAt(e, gc, hubPriv, spoke, entry, |spokes|)
    ensures AllSpokes(e, gc, hubPriv, spokes + [spoke], entries + [entry])
  {
    assert (spokes + [spoke])[..|spokes|] == spokes;
    assert (entries + [entry])[..|entries|] == entries;
  }

  lemma {:induction false} AllSpokesAt(e: KeyEngine, gc: GenerateConfig, hubPriv: PrivateKey,
                                       spokes: seq<InterfaceWithPeers>, entries: seq<Peer>, k: nat)
    requires Iterable(gc) && AllSpokes(e, gc, hubPriv, spokes, entries) && k < |spokes|
    ensures SpokeAt(e, gc, hubPriv, spokes[k], entries[k], k)
    decreases |spokes|
  {
    var n := |spokes| - 1;
    if k < n {
      AllSpokesAt(e, gc, hubPriv, spokes[..n], entries[..n], k);
      assert spokes[..n][k] == spokes[k] && entries[..n][k] == entries[k];
    }
  }

  /** How many spokes generateRandom makes: Count, or none for a negative Count. */
  function SpokeCount(gc: GenerateConfig): nat {
    if gc.count > 0 then gc.count as nat else 0
  }

  /** A pull cursor standing after `taken` pulls, of which all but a final miss yielded. */
  ghost predicate PulledFrom(v: PrefixCursor?, enabled: bool, p: Prefix, taken: nat)
    reads v
  {
    (enabled <==> v != null)
    && (v != null ==>
          v.Valid() && v.prefix == p.Masked()
          && (!v.finished ==> |v.yielded| == taken)
          && (v.finished ==> HostCount(v.prefix) <= taken))
  }

  /**
   * One pull of a family's cursor after `taken` pulls: the family's address
   * at position `taken` and true, or false once the prefix has run out.
   */
  method PullNext(v: PrefixCursor, p: Prefix, taken: nat) returns (addr: Addr, ok: bool)
    requires p.IsValid() && PulledFrom(v, true, p, taken)
    modifies v
    ensures PulledFrom(v, true, p, taken + 1)
    ensures (if ok then [addr] else []) == FamilyAddr(true, p, taken)
  {
    addr, ok := v.Next();
  }

  /**
   * The configure step for one pulled address: the spoke's Interface takes
   * it, and the hub's newest entry routes it as a host route.
   */
  function Configure(hub: InterfaceWithPeers, spoke: InterfaceWithPeers, addr: Addr)
    : (InterfaceWithPeers, InterfaceWithPeers)
    requires |hub.peers| > 0
  {
    var last := |hub.peers| - 1;
    (hub.(peers := hub.peers[last := hub.peers[last].(allowedIPs := hub.peers[last].allowedIPs + [PrefixFrom(addr, addr.BitLen())])]),
     spoke.(iface := spoke.iface.(addresses := spoke.iface.addresses + [addr])))
  }

  /**
   * Configure with a family's address at this position, if it has one: the
   * hub's newest entry gains its host route, the spoke's Interface the address.
   */
  function ConfigureWith(pair: (InterfaceWithPeers, InterfaceWithPeers), addrs: seq<Addr>)
    : (r: (InterfaceWithPeers, InterfaceWithPeers))
    requires |pair.0.peers| > 0 && |addrs| <= 1
    ensures var last := |pair.0.peers| - 1;
      r.0.iface == pair.0.iface && |r.0.peers| == |pair.0.peers| && r.0.peers[..last] == pair.0.peers[..last]
      && r.0.peers[last] == pair.0.peers[last].(allowedIPs := pair.0.peers[last].allowedIPs + HostRoutes(addrs))
    ensures r.1.peers == pair.1.peers && r.1.iface == pair.1.iface.(addresses := pair.1.iface.addresses + addrs)
  {
    if |addrs| == 1 then
      assert addrs == [] + [addrs[0]];
      HostRoutesAppend([], addrs[0]);
      Configure(pair.0, pair.1, addrs[0])
    else
      assert HostRoutes(addrs) == [];
      pair
  }

  /** The spoke's shared options: its peer always, its Interface when every spoke is set up. */
  function BindSpoke(gc: GenerateConfig, spoke: InterfaceWithPeers): InterfaceWithPeers
    requires |spoke.peers| > 0
  {
    var s := spoke.(peers := spoke.peers[0 := BindPeer(gc, spoke.peers[0])]);
    if gc.setupAllPeersInterface then s.(iface := BindInterface(gc, s.iface)) else s
  }

  lemma HostRoutesConcat(xs: seq<Addr>, ys: seq<Addr>)
    ensures HostRoutes(xs + ys) == HostRoutes(xs) + HostRoutes(ys)
  {
    var l, r := HostRoutes(xs + ys), HostRoutes(xs) + HostRoutes(ys);
    assert |l| == |r|;
    forall i | 0 <= i < |l| ensures l[i] == r[i] {
      if i < |xs| {
        assert (xs + ys)[i] == xs[i];
      } else {
        assert (xs + ys)[i] == ys[i - |xs|];
      }
    }
  }

  /** The hub's side of the configure steps: its newest entry gains the host routes, in order. */
  lemma ConfiguredHub(root: InterfaceWithPeers, x: Peer, spoke: InterfaceWithPeers, a4: seq<Addr>, a6: seq<Addr>)
    requires |a4| <= 1 && |a6| <= 1
    ensures var p := ConfigureWith(ConfigureWith((root.(peers := root.peers + [x]), spoke), a4), a6);
      p.0 == root.(peers := root.peers + [x.(allowedIPs := x.allowedIPs + HostRoutes(a4 + a6))])
  {
    var p := ConfigureWith(ConfigureWith((root.(peers := root.peers + [x]), spoke), a4), a6);
    var m := |root.peers|;
    HostRoutesConcat(a4, a6);
    assert (root.peers + [x])[..m] == root.peers;
    assert p.0.peers[m].allowedIPs == x.allowedIPs + HostRoutes(a4 + a6);
    assert p.0.peers == p.0.peers[..m] + [p.0.peers[m]];
  }

  /** The hub's new entry ends up as HubEntryOf. */
  lemma ConfiguredEntry(gc: GenerateConfig, root: InterfaceWithPeers, i: nat, pub: PublicKey, q: PresharedKey,
                        spoke: InterfaceWithPeers)
    requires Iterable(gc)
    ensures var hub := root.(peers := root.peers + [ZeroPeer.(publicKey := pub, presharedKey := q)]);
      var p := ConfigureWith(ConfigureWith((hub, spoke), FamilyAddr(gc.ipv4, gc.v4Prefix, i + 1)),
                             FamilyAddr(gc.ipv6, gc.v6Prefix, i + 1));
      p.0 == root.(peers := root.peers + [HubEntryOf(gc, i, pub, q)])
  {
    var x := ZeroPeer.(publicKey := pub, presharedKey := q);
    ConfiguredHub(root, x, spoke, FamilyAddr(gc.ipv4, gc.v4Prefix, i + 1), FamilyAddr(gc.ipv6, gc.v6Prefix, i + 1));
    assert x.allowedIPs + HostRoutes(AddrsAt(gc, i + 1)) == HostRoutes(AddrsAt(gc, i + 1));
  }

  /** The spoke's side of the configure steps: its Interface gains the addresses, in order. */
  lemma ConfiguredAddresses(hub: InterfaceWithPeers, spoke: InterfaceWithPeers, a4: seq<Addr>, a6: seq<Addr>)
    requires |hub.peers| > 0 && |a4| <= 1 && |a6| <= 1
    ensures var p := ConfigureWith(ConfigureWith((hub, spoke), a4), a6);
      p.1 == spoke.(iface := spoke.iface.(addresses := spoke.iface.addresses + (a4 + a6)))
  {
    assert spoke.iface.addresses + a4 + a6 == spoke.iface.addresses + (a4 + a6);
  }

  /** The spoke, once configured and bound, is SpokeOf. */
  lemma ConfiguredSpoke(gc: GenerateConfig, i: nat, priv: PrivateKey, hubPub: PublicKey, q: PresharedKey,
                        hub: InterfaceWithPeers)
    requires Iterable(gc) && |hub.peers| > 0
    ensures var spoke := InterfaceWithPeers(ZeroInterface.(privateKey := priv), [ZeroPeer.(publicKey := hubPub, presharedKey := q)]);
      var p := ConfigureWith(ConfigureWith((hub, spoke), FamilyAddr(gc.ipv4, gc.v4Prefix, i + 1)),
                             FamilyAddr(gc.ipv6, gc.v6Prefix, i + 1));
      |p.1.peers| == 1 && BindSpoke(gc, p.1) == SpokeOf(gc, i, priv, hubPub, q)
  {
    var spoke := InterfaceWithPeers(ZeroInterface.(privateKey := priv), [ZeroPeer.(publicKey := hubPub, presharedKey := q)]);
    ConfiguredAddresses(hub, spoke, FamilyAddr(gc.ipv4, gc.v4Prefix, i + 1), FamilyAddr(gc.ipv6, gc.v6Prefix, i + 1));
    assert [] + AddrsAt(gc, i + 1) == AddrsAt(gc, i + 1);
  }

  /**
   * Spoke i as the loop body builds it from the spoke's key pair and the
   * preshared key Extend uses: the hub gains exactly one entry, and that
   * entry and the bound spoke are SpokeAt i.
   */
  lemma SpokeFromExtend(e: KeyEngine, gc: GenerateConfig, root: InterfaceWithPeers, i: nat,
                        priv: PrivateKey, pub: PublicKey, psk: PresharedKey)
    requires Iterable(gc) && root.iface.privateKey.IsValid() && e.Derive(priv) == Ok(pub)
    ensures var r := ExtendWith(e, root, gc.enablePreshared, priv, pub, psk);
      r.Ok? && |r.value.0.peers| == |root.peers| + 1
      && var p := ConfigureWith(ConfigureWith(r.value, FamilyAddr(gc.ipv4, gc.v4Prefix, i + 1)),
                                FamilyAddr(gc.ipv6, gc.v6Prefix, i + 1));
      p.0.peers == root.peers + [p.0.peers[|root.peers|]] && |p.1.peers| == 1
      && SpokeAt(e, gc, root.iface.privateKey, BindSpoke(gc, p.1), p.0.peers[|root.peers|], i)
  {
    var hubPub := e.Derive(root.iface.privateKey).value;
    var q := if gc.enablePreshared then psk else NoPresharedKey;
    var r0 := root.(peers := root.peers + [ZeroPeer.(publicKey := pub, presharedKey := q)]);
    var r1 := InterfaceWithPeers(ZeroInterface.(privateKey := priv), [ZeroPeer.(publicKey := hubPub, presharedKey := q)]);
    assert ExtendWith(e, root, gc.enablePreshared, priv, pub, psk) == Ok((r0, r1));
    ConfiguredEntry(gc, root, i, pub, q, r1);
    ConfiguredSpoke(gc, i, priv, hubPub, q, r0);
  }

  /**
   * One family's part of the loop body: when the family is enabled, pull
   * its next address and, when there is one, configure the hub and the
   * spoke with it.
   */
  method ConfigureFamily(v: PrefixCursor?, enabled: bool, p: Prefix, taken: nat,
                         hub: InterfaceWithPeers, spoke: InterfaceWithPeers)
    returns (hub': InterfaceWithPeers, spoke': InterfaceWithPeers)
    requires (enabled ==> p.IsValid()) && PulledFrom(v, enabled, p, taken) && |hub.peers| > 0
    modifies v
    ensures PulledFrom(v, enabled, p, taken + 1)
    ensures (hub', spoke') == ConfigureWith((hub, spoke), FamilyAddr(enabled, p, taken))
  {
    hub', spoke' := hub, spoke;
    if enabled {
      var addr, ok := PullNext(v, p, taken);
      if ok {
        var configured := Configure(hub, spoke, addr);
        hub', spoke' := configured.0, configured.1;
      }
    }
  }

  /** The configure and bind steps of the loop body for spoke i. */
  method ConfigureSpoke(gc: GenerateConfig, v4Next: PrefixCursor?, v6Next: PrefixCursor?, i: nat,
                        hub: InterfaceWithPeers, spoke: InterfaceWithPeers)
    returns (hub': InterfaceWithPeers, spoke': InterfaceWithPeers)
    requires Iterable(gc) && |hub.peers| > 0 && |spoke.peers| > 0
    requires PulledFrom(v4Next, gc.ipv4, gc.v4Prefix, i + 1)
    requires PulledFrom(v6Next, gc.ipv6, gc.v6Prefix, i + 1)
    requires v4Next != null && v6Next != null ==> v4Next != v6Next
    modifies v4Next, v6Next
    ensures PulledFrom(v4Next, gc.ipv4, gc.v4Prefix, i + 2)
    ensures PulledFrom(v6Next, gc.ipv6, gc.v6Prefix, i + 2)
    ensures var p := ConfigureWith(ConfigureWith((hub, spoke), FamilyAddr(gc.ipv4, gc.v4Prefix, i + 1)),
                                   FamilyAddr(gc.ipv6, gc.v6Prefix, i + 1));
      hub' == p.0 && |p.1.peers| > 0 && spoke' == BindSpoke(gc, p.1)
  {
    hub', spoke' := ConfigureFamily(v4Next, gc.ipv4, gc.v4Prefix, i + 1, hub, spoke);
    hub', spoke' := ConfigureFamily(v6Next, gc.ipv6, gc.v6Prefix, i + 1, hub', spoke');
    spoke' := BindSpoke(gc, spoke');
  }

  /**
   * The body of generateRandom's loop for spoke i: Extend the hub, give
   * the spoke the next address of each enabled family and route those
   * addresses to it from the hub, then bind the shared options.
   */
  method AddSpoke(e: KeyEngine, gc: GenerateConfig, root: InterfaceWithPeers,
                  v4Next: PrefixCursor?, v6Next: PrefixCursor?, i: nat)
    returns (extended: InterfaceWithPeers, extendedIf: InterfaceWithPeers)
    requires Iterable(gc) && root.iface.privateKey.IsValid()
    requires PulledFrom(v4Next, gc.ipv4, gc.v4Prefix, i + 1)
    requires PulledFrom(v6Next, gc.ipv6, gc.v6Prefix, i + 1)
    requires v4Next != null && v6Next != null ==> v4Next != v6Next
    modifies e, v4Next, v6Next
    ensures PulledFrom(v4Next, gc.ipv4, gc.v4Prefix, i + 2)
    ensures PulledFrom(v6Next, gc.ipv6, gc.v6Prefix, i + 2)
    ensures |extended.peers| == |root.peers| + 1
    ensures extended == root.(peers := root.peers + [extended.peers[|root.peers|]])
    ensures SpokeAt(e, gc, root.iface.privateKey, extendedIf, extended.peers[|root.peers|], i)
  {
    ghost var n := e.draws;
    SpokeFromExtend(e, gc, root, i, DrawnPriv(e, n), DrawnPub(e, n), DrawnPsk(e, n));
    var err0;
    extended, extendedIf, err0 := Extend(e, root, gc.enablePreshared);
    if err0.Some? {
      // Not reached: the hub's key is clamped, so its public key exists.
      assert false;
    }
    extended, extendedIf := ConfigureSpoke(gc, v4Next, v6Next, i, extended, extendedIf);
  }

  /** `iter.Pull(ip.PrefixIter(p))` followed by the first pull. */
  method PullFirst(p: Prefix) returns (v: PrefixCursor, addr: Addr, ok: bool)
    requires p.IsValid() && p.WellFormed()
    ensures fresh(v) && PulledFrom(v, true, p, 1)
    ensures (if ok then [addr] else []) == FamilyAddr(true, p, 0)
  {
    v := new PrefixCursor(p);
    addr, ok := PullNext(v, p, 0);
  }

  /**
   * The start of generateRandom: the hub's key, a pull cursor per enabled
   * family, and the first address of each family for the hub.
   */
  method NewHub(e: KeyEngine, gc: GenerateConfig)
    returns (root: InterfaceWithPeers, v4Next: PrefixCursor?, v6Next: PrefixCursor?)
    requires Iterable(gc)
    modifies e
    ensures root.iface.privateKey.IsValid() && root == InterfaceWithPeers(HubInterface(gc, root.iface.privateKey), [])
    ensures PulledFrom(v4Next, gc.ipv4, gc.v4Prefix, 1) && (v4Next != null ==> fresh(v4Next))
    ensures PulledFrom(v6Next, gc.ipv6, gc.v6Prefix, 1) && (v6Next != null ==> fresh(v6Next))
    ensures v4Next != null && v6Next != null ==> v4Next != v6Next
  {
    var rootPriv := e.GenPrivateKey();
    root := InterfaceWithPeers(ZeroInterface.(privateKey := rootPriv), []);
    v4Next, v6Next := null, null;
    if gc.ipv4 {
      var addr, ok;
      v4Next, addr, ok := PullFirst(gc.v4Prefix);
      if ok {
        root := root.(iface := root.iface.(addresses := root.iface.addresses + [addr]));
      }
    }
    assert root.iface.addresses == FamilyAddr(gc.ipv4, gc.v4Prefix, 0);
    if gc.ipv6 {
      var addr, ok;
      v6Next, addr, ok := PullFirst(gc.v6Prefix);
      if ok {
        root := root.(iface := root.iface.(addresses := root.iface.addresses + [addr]));
      }
    }
    assert root.iface.addresses == AddrsAt(gc, 0);
    assert root.iface == ZeroInterface.(privateKey := rootPriv, addresses := root.iface.addresses);
  }

  /**
   * generateRandom, without the final JSON encoding. The hub gets the
   * first address of each enabled family; spoke i gets the (i + 1)-th,
   * while one is left; the hub's entries are in spoke order.
   */
  method GenerateRandom(e: KeyEngine, gc: GenerateConfig) returns (result: MeshPair, err: Option<Error>)
    requires Iterable(gc)
    modifies e
    ensures err.None?
    ensures result.root.iface.privateKey.IsValid()
    ensures result.root.iface == BindInterface(gc, HubInterface(gc, result.root.iface.privateKey))
    ensures |result.peers| == |result.root.peers| == SpokeCount(gc)
    ensures forall k :: 0 <= k < |result.peers| ==>
              SpokeAt(e, gc, result.root.iface.privateKey, result.peers[k], result.root.peers[k], k)
  {
    var root, v4Next, v6Next := NewHub(e, gc);
    var rootPriv := root.iface.privateKey;
    var peers: seq<InterfaceWithPeers> := [];
    for i := 0 to SpokeCount(gc)
      invariant PulledFrom(v4Next, gc.ipv4, gc.v4Prefix, i + 1)
      invariant PulledFrom(v6Next, gc.ipv6, gc.v6Prefix, i + 1)
      invariant v4Next != null && v6Next != null ==> v4Next != v6Next
      invariant rootPriv.IsValid() && root.iface == HubInterface(gc, rootPriv)
      invariant |peers| == |root.peers| == i
      invariant AllSpokes(e, gc, rootPriv, peers, root.peers)
    {
      var extended, extendedIf := AddSpoke(e, gc, root, v4Next, v6Next, i);
      AllSpokesSnoc(e, gc, rootPriv, peers, root.peers, extendedIf, extended.peers[i]);
      root := extended;
      peers := peers + [extendedIf];
    }
    if gc.ipv4 {
      v4Next.Stop();
    }
    if gc.ipv6 {
      v6Next.Stop();
    }
    root := root.(iface := BindInterface(gc, root.iface));
    result := MeshPair(root, peers);
    err := None;
    forall k | 0 <= k < |result.peers|
      ensures SpokeAt(e, gc, result.root.iface.privateKey, result.peers[k], result.root.peers[k], k)
    {
      AllSpokesAt(e, gc, rootPriv, peers, root.peers, k);
    }
  }

  // ---------------------------------------------------------------------
  // Properties of the mesh

  /** An address a family hands out lies in its prefix and is not the network address. */
  lemma FamilyAddrInside(enabled: bool, p: Prefix, k: nat, a: Addr)
    requires enabled ==> p.IsValid() && p.WellFormed()
    requires a in FamilyAddr(enabled, p, k)
    ensures a.IsValid() && p.Contains(a) && a != p.Masked().addr
  {
    var m := p.Masked();
    CursorInside(m, k);
    MaskedIdempotent(p);
    MaskedContains(p, a);
  }

  /** Every address handed out lies in its family's prefix and is not the network address. */
  lemma AddrsInside(gc: GenerateConfig, k: nat, a: Addr)
    requires Iterable(gc) && a in AddrsAt(gc, k)
    ensures a.IsValid()
    ensures a in FamilyAddr(gc.ipv4, gc.v4Prefix, k) ==>
              gc.v4Prefix.Contains(a) && a != gc.v4Prefix.Masked().addr
    ensures a in FamilyAddr(gc.ipv6, gc.v6Prefix, k) ==>
              gc.v6Prefix.Contains(a) && a != gc.v6Prefix.Masked().addr
  {
    if a in FamilyAddr(gc.ipv4, gc.v4Prefix, k) {
      FamilyAddrInside(gc.ipv4, gc.v4Prefix, k, a);
    }
    if a in FamilyAddr(gc.ipv6, gc.v6Prefix, k) {
      FamilyAddrInside(gc.ipv6, gc.v6Prefix, k, a);
    }
  }

  /** Positions j < k of one family hand out different addresses, k - j apart. */
  lemma FamilyAddrsDistinct(enabled: bool, p: Prefix, j: nat, k: nat)
    requires enabled ==> p.IsValid() && p.WellFormed()
    requires j < k && |FamilyAddr(enabled, p, k)| == 1
    ensures |FamilyAddr(enabled, p, j)| == 1
    ensures FamilyAddr(enabled, p, j)[0].IsValid() && FamilyAddr(enabled, p, k)[0].IsValid()
    ensures FamilyAddr(enabled, p, j)[0].value < FamilyAddr(enabled, p, k)[0].value
    ensures FamilyAddr(enabled, p, j)[0] != FamilyAddr(enabled, p, k)[0]
  {
    MaskedIdempotent(p);
    HostsAscending(p.Masked(), j, k);
    CursorInside(p.Masked(), j);
    CursorInside(p.Masked(), k);
  }

  /** An address a family hands out is valid and of the family's width. */
  lemma FamilyAddrShape(enabled: bool, p: Prefix, k: nat, a: Addr)
    requires enabled ==> p.IsValid() && p.WellFormed()
    requires a in FamilyAddr(enabled, p, k)
    ensures a.IsValid() && a.width == p.addr.width && a == Cursor(p.Masked(), k)
  {
    CursorInside(p.Masked(), k);
  }

  /** One family never hands out the same address at two positions. */
  lemma WithinFamily(enabled: bool, p: Prefix, j: nat, k: nat, a: Addr)
    requires enabled ==> p.IsValid() && p.WellFormed()
    requires j < k && a in FamilyAddr(enabled, p, j)
    ensures a !in FamilyAddr(enabled, p, k)
  {
    if |FamilyAddr(enabled, p, k)| == 1 {
      FamilyAddrsDistinct(enabled, p, j, k);
    }
  }

  /** Families of different widths never hand out the same address. */
  lemma AcrossFamilies(e1: bool, p1: Prefix, e2: bool, p2: Prefix, j: nat, k: nat, a: Addr)
    requires e1 ==> p1.IsValid() && p1.WellFormed()
    requires e2 ==> p2.IsValid() && p2.WellFormed()
    requires e1 && e2 ==> p1.addr.width != p2.addr.width
    requires a in FamilyAddr(e1, p1, j)
    ensures a !in FamilyAddr(e2, p2, k)
  {
    FamilyAddrShape(e1, p1, j, a);
    if a in FamilyAddr(e2, p2, k) {
      FamilyAddrShape(e2, p2, k, a);
    }
  }

  /**
   * The hub and the spokes never share an address: what position j hands
   * out is not handed out again at any later position, provided the two
   * families are of different widths.
   */
  lemma AddrsDistinct(gc: GenerateConfig, j: nat, k: nat, a: Addr)
    requires Iterable(gc) && j < k
    requires gc.ipv4 && gc.ipv6 ==> gc.v4Prefix.addr.width != gc.v6Prefix.addr.width
    requires a in AddrsAt(gc, j)
    ensures a !in AddrsAt(gc, k)
  {
    if a in FamilyAddr(gc.ipv4, gc.v4Prefix, j) {
      WithinFamily(gc.ipv4, gc.v4Prefix, j, k, a);
      AcrossFamilies(gc.ipv4, gc.v4Prefix, gc.ipv6, gc.v6Prefix, j, k, a);
    } else {
      WithinFamily(gc.ipv6, gc.v6Prefix, j, k, a);
      AcrossFamilies(gc.ipv6, gc.v6Prefix, gc.ipv4, gc.v4Prefix, j, k, a);
    }
  }

  /** Host routes of valid addresses cover exactly those addresses. */
  lemma HostRoutesCover(xs: seq<Addr>, a: Addr)
    requires a.IsValid() && forall i :: 0 <= i < |xs| ==> xs[i].IsValid()
    ensures (exists r :: r in HostRoutes(xs) && r.Contains(a)) <==> a in xs
  {
    var rs := HostRoutes(xs);
    if a in xs {
      var i :| 0 <= i < |xs| && xs[i] == a;
      HostPrefixContains(a, a);
      assert rs[i].Contains(a);
    }
    if r :| r in rs && r.Contains(a) {
      var i :| 0 <= i < |rs| && rs[i] == r;
      HostPrefixContains(xs[i], a);
    }
  }

  /** The hub's entry for a spoke routes exactly that spoke's addresses. */
  lemma HubEntryRoutesSpoke(gc: GenerateConfig, k: nat, pub: PublicKey, psk: PresharedKey, a: Addr)
    requires Iterable(gc) && a.IsValid()
    ensures (exists r :: r in HubEntryOf(gc, k, pub, psk).allowedIPs && r.Contains(a))
            <==> a in AddrsAt(gc, k + 1)
  {
    var xs := AddrsAt(gc, k + 1);
    forall i | 0 <= i < |xs|
      ensures xs[i].IsValid()
    {
      AddrsInside(gc, k + 1, xs[i]);
    }
    HostRoutesCover(xs, a);
  }

  /**
   * The last spoke can miss an address: when Count equals the capacity
   * Build allows for an IPv4 prefix, the spoke at position Count - 1 gets
   * no IPv4 address, because the hub took the first one.
   */
  lemma LastSpokeMissesAddress(gc: GenerateConfig)
    requires Iterable(gc) && gc.ipv4 && gc.v4Prefix.addr.width == 32 && 0 <= gc.v4Prefix.bits <= 32
    requires gc.count as int == V4Cap(gc.v4Prefix) > 0
    ensures FamilyAddr(gc.ipv4, gc.v4Prefix, SpokeCount(gc)) == []
    ensures forall k :: 1 <= k < SpokeCount(gc) ==> |FamilyAddr(gc.ipv4, gc.v4Prefix, k)| == 1
  {
  }
}
