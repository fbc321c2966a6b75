/**
 * The WireGuard configuration records and their line-oriented rendering
 * (common/wireguard/conf.go): Interface and Peer, their MarshalText, and
 * MarshalWireguardConf. Each rendering is specified as a list of fields;
 * the methods build the same text step by step in a buffer.
 */
module WireguardConf {
  import opened Wrappers
  import opened Text
  import opened Keys
  import opened NetAddr
  import opened ConfFields
  import K = ConfKeys

  type uint16 = x: int | 0 <= x <= 0xFFFF
  type int64 = x: int | -0x8000_0000_0000_0000 <= x <= 0x7FFF_FFFF_FFFF_FFFF

  datatype Interface = Interface(
    privateKey: PrivateKey,
    addresses: seq<Addr>,
    listenPort: uint16,
    dns: seq<Addr>,
    mtu: int64,
    table: int64,
    preUp: seq<string>,
    postUp: seq<string>,
    preDown: seq<string>,
    postDown: seq<string>,
    saveConfig: bool,
    ready: bool)

  /** The zero Interface. */
  const ZeroInterface := Interface(NoPrivateKey, [], 0, [], 0, 0, [], [], [], [], false, false)

  datatype Peer = Peer(
    publicKey: PublicKey,
    presharedKey: PresharedKey,
    allowedIPs: seq<Prefix>,
    endpoint: string,
    persistentKeepalive: int64,
    ready: bool)

  /** The zero Peer. */
  const ZeroPeer := Peer(NoPublicKey, NoPresharedKey, [], "", 0, false)

  /** The text of each address, in order. */
  function AddrTexts(nt: NetText, xs: seq<Addr>): (r: seq<string>)
    ensures |r| == |xs|
  {
    if xs == [] then [] else [nt.formatAddr(xs[0])] + AddrTexts(nt, xs[1..])
  }

  lemma {:induction false} AddrTextsSnoc(nt: NetText, xs: seq<Addr>, x: Addr)
    ensures AddrTexts(nt, xs + [x]) == AddrTexts(nt, xs) + [nt.formatAddr(x)]
    decreases |xs|
  {
    if xs == [] {
      assert xs + [x] == [x];
      assert [x][1..] == [];
    } else {
      assert (xs + [x])[1..] == xs[1..] + [x];
      AddrTextsSnoc(nt, xs[1..], x);
    }
  }

  /** The text of each prefix, in order. */
  function PrefixTexts(nt: NetText, xs: seq<Prefix>): (r: seq<string>)
    ensures |r| == |xs|
  {
    if xs == [] then [] else [nt.formatPrefix(xs[0])] + PrefixTexts(nt, xs[1..])
  }

  lemma {:induction false} PrefixTextsSnoc(nt: NetText, xs: seq<Prefix>, x: Prefix)
    ensures PrefixTexts(nt, xs + [x]) == PrefixTexts(nt, xs) + [nt.formatPrefix(x)]
    decreases |xs|
  {
    if xs == [] {
      assert xs + [x] == [x];
      assert [x][1..] == [];
    } else {
      assert (xs + [x])[1..] == xs[1..] + [x];
      PrefixTextsSnoc(nt, xs[1..], x);
    }
  }

  /** `for _, addr := range xs { out = append(out, addr.String()) }` */
  method FormatAddrs(nt: NetText, xs: seq<Addr>) returns (out: seq<string>)
    ensures out == AddrTexts(nt, xs)
  {
    out := [];
    for i := 0 to |xs|
      invariant out == AddrTexts(nt, xs[..i])
    {
      AddrTextsSnoc(nt, xs[..i], xs[i]);
      assert xs[..i + 1] == xs[..i] + [xs[i]];
      out := out + [nt.formatAddr(xs[i])];
    }
    assert xs[..|xs|] == xs;
  }

  /** `for _, prefix := range xs { out = append(out, prefix.String()) }` */
  method FormatPrefixes(nt: NetText, xs: seq<Prefix>) returns (out: seq<string>)
    ensures out == PrefixTexts(nt, xs)
  {
    out := [];
    for i := 0 to |xs|
      invariant out == PrefixTexts(nt, xs[..i])
    {
      PrefixTextsSnoc(nt, xs[..i], xs[i]);
      assert xs[..i + 1] == xs[..i] + [xs[i]];
      out := out + [nt.formatPrefix(xs[i])];
    }
    assert xs[..|xs|] == xs;
  }

  // ---------------------------------------------------------------------
  // Interface.MarshalText

  /** The text forms of an Interface's values, before the section is laid out. */
  datatype InterfaceTexts = InterfaceTexts(
    privateKey: string,
    addresses: string,
    listenPort: string,
    dns: string,
    mtu: string,
    table: string)

  /**
   * The private key in base64, the addresses joined by ",", the port in
   * decimal, the DNS servers joined by ", ", and MTU and Table in decimal.
   */
  function InterfaceTextsOf(nt: NetText, c: Interface): InterfaceTexts {
    InterfaceTexts(
      c.privateKey.String(),
      Join(AddrTexts(nt, c.addresses), ","),
      FormatNat(c.listenPort),
      Join(AddrTexts(nt, c.dns), ", "),
      FormatInt(c.mtu),
      FormatInt(c.table))
  }

  /**
   * The values Interface.MarshalText writes for its keys, in key order: the
   * private key; the addresses when there are any; the port only when
   * positive; the DNS servers when there are any; MTU only when positive;
   * Table only when non-zero; every PreUp, PostUp, PreDown and PostDown
   * command; and "true" when SaveConfig is set.
   */
  function InterfaceValueLists(c: Interface, t: InterfaceTexts): (r: seq<seq<string>>)
    ensures |r| == 11
  {
    [ [t.privateKey],
      if |c.addresses| > 0 then [t.addresses] else [],
      if c.listenPort > 0 then [t.listenPort] else [],
      if |c.dns| > 0 then [t.dns] else [],
      if c.mtu > 0 then [t.mtu] else [],
      if c.table != 0 then [t.table] else [],
      c.preUp,
      c.postUp,
      c.preDown,
      c.postDown,
      if c.saveConfig then ["true"] else [] ]
  }

  /** The fields of an Interface section: keys PrivateKey to SaveConfig. */
  function InterfaceFields(c: Interface, t: InterfaceTexts): seq<Field> {
    Group(K.Key.PrivateKey.Rank(), InterfaceValueLists(c, t))
  }

  /** Interface.MarshalText: no bytes at all unless the private key is valid. */
  function InterfaceText(nt: NetText, c: Interface): (r: Result<string>)
    ensures r.Ok? <==> c.privateKey.IsValid()
    ensures r.Err? ==> r.error == MissingField("PrivateKey")
  {
    if c.privateKey.IsValid() then Ok(Render(InterfaceFields(c, InterfaceTextsOf(nt, c))))
    else Err(MissingField("PrivateKey"))
  }

  /** An Interface section holds only Interface keys, in the fixed key order. */
  lemma InterfaceFieldsOrdered(c: Interface, t: InterfaceTexts)
    ensures Ordered(InterfaceFields(c, t))
    ensures RanksWithin(InterfaceFields(c, t), K.Key.PrivateKey.Rank(), K.Key.SaveConfig.Rank())
  {
    GroupOrdered(0, InterfaceValueLists(c, t));
  }

  /** What an Interface section says under each key. */
  function InterfaceValues(c: Interface, t: InterfaceTexts, k: K.Key): seq<string> {
    match k
    case PrivateKey => [t.privateKey]
    case Address => if |c.addresses| > 0 then [t.addresses] else []
    case ListenPort => if c.listenPort > 0 then [t.listenPort] else []
    case DNS => if |c.dns| > 0 then [t.dns] else []
    case MTU => if c.mtu > 0 then [t.mtu] else []
    case Table => if c.table != 0 then [t.table] else []
    case PreUp => c.preUp
    case PostUp => c.postUp
    case PreDown => c.preDown
    case PostDown => c.postDown
    case SaveConfig => if c.saveConfig then ["true"] else []
    case _ => []
  }

  /** Each key of the section carries exactly those values, and a Peer key none. */
  lemma InterfaceFieldValues(c: Interface, t: InterfaceTexts, k: K.Key)
    ensures Values(InterfaceFields(c, t), k) == InterfaceValues(c, t, k)
  {
    GroupValues(0, InterfaceValueLists(c, t), k);
  }

  method MarshalInterfaceText(nt: NetText, c: Interface) returns (text: Result<string>)
    ensures text == InterfaceText(nt, c)
  {
    if !c.privateKey.IsValid() {
      return Err(MissingField("PrivateKey"));
    }
    var addresses := FormatAddrs(nt, c.addresses);
    var dnsAddresses := FormatAddrs(nt, c.dns);
    var t := InterfaceTexts(
      c.privateKey.String(),
      Join(addresses, ","),
      FormatNat(c.listenPort),
      Join(dnsAddresses, ", "),
      FormatInt(c.mtu),
      FormatInt(c.table));
    var buf := WriteInterface(c, t);
    return Ok(buf);
  }

  /** The writes of Interface.MarshalText, key by key in the fixed order. */
  method WriteInterface(c: Interface, t: InterfaceTexts) returns (buf: string)
    ensures buf == Render(InterfaceFields(c, t))
  {
    var values := [
      [t.privateKey],
      if |c.addresses| > 0 then [t.addresses] else [],
      if c.listenPort > 0 then [t.listenPort] else [],
      if |c.dns| > 0 then [t.dns] else [],
      if c.mtu > 0 then [t.mtu] else [],
      if c.table != 0 then [t.table] else [],
      c.preUp,
      c.postUp,
      c.preDown,
      c.postDown,
      if c.saveConfig then ["true"] else [] ];
    buf := WriteSection(0, values);
  }

  // ---------------------------------------------------------------------
  // Peer.MarshalText

  /** The text forms of a Peer's values, before the section is laid out. */
  datatype PeerTexts = PeerTexts(
    publicKey: string,
    presharedKey: string,
    allowedIPs: string,
    persistentKeepalive: string)

  /** Both keys in base64, the allowed prefixes joined by ", ", the keepalive in decimal. */
  function PeerTextsOf(nt: NetText, p: Peer): PeerTexts {
    PeerTexts(
      p.publicKey.String(),
      p.presharedKey.String(),
      Join(PrefixTexts(nt, p.allowedIPs), ", "),
      FormatInt(p.persistentKeepalive))
  }

  /**
   * The values Peer.MarshalText writes for its keys, in key order: the
   * public key; the preshared key only when it is set; the allowed
   * prefixes; the endpoint only when non-empty; and the keepalive only when
   * non-zero.
   */
  function PeerValueLists(p: Peer, t: PeerTexts): (r: seq<seq<string>>)
    ensures |r| == 5
  {
    [ [t.publicKey],
      if p.presharedKey.IsValid() then [t.presharedKey] else [],
      [t.allowedIPs],
      if p.endpoint != "" then [p.endpoint] else [],
      if p.persistentKeepalive != 0 then [t.persistentKeepalive] else [] ]
  }

  /** The fields of a Peer section: keys PublicKey to PersistentKeepalive. */
  function PeerFields(p: Peer, t: PeerTexts): seq<Field> {
    Group(K.Key.PublicKey.Rank(), PeerValueLists(p, t))
  }

  /**
   * Peer.MarshalText: no bytes unless the public key is valid and there is
   * at least one allowed prefix.
   */
  function PeerText(nt: NetText, p: Peer): (r: Result<string>)
    ensures r.Ok? <==> p.publicKey.IsValid() && |p.allowedIPs| > 0
    ensures !p.publicKey.IsValid() ==> r == Err(MissingField("PublicKey"))
    ensures p.publicKey.IsValid() && |p.allowedIPs| == 0 ==> r == Err(MissingField("AllowedIPs"))
  {
    if !p.publicKey.IsValid() then Err(MissingField("PublicKey"))
    else if |p.allowedIPs| == 0 then Err(MissingField("AllowedIPs"))
    else Ok(Render(PeerFields(p, PeerTextsOf(nt, p))))
  }

  /** A Peer section holds only Peer keys, in the fixed key order. */
  lemma PeerFieldsOrdered(p: Peer, t: PeerTexts)
    ensures Ordered(PeerFields(p, t))
    ensures RanksWithin(PeerFields(p, t), K.Key.PublicKey.Rank(), K.Key.PersistentKeepalive.Rank())
  {
    GroupOrdered(11, PeerValueLists(p, t));
  }

  /** What a Peer section says under each key. */
  function PeerValues(p: Peer, t: PeerTexts, k: K.Key): seq<string> {
    match k
    case PublicKey => [t.publicKey]
    case PresharedKey => if p.presharedKey.IsValid() then [t.presharedKey] else []
    case AllowedIPs => [t.allowedIPs]
    case Endpoint => if p.endpoint != "" then [p.endpoint] else []
    case PersistentKeepalive => if p.persistentKeepalive != 0 then [t.persistentKeepalive] else []
    case _ => []
  }

  /** Each key of the section carries exactly those values, and an Interface key none. */
  lemma PeerFieldValues(p: Peer, t: PeerTexts, k: K.Key)
    ensures Values(PeerFields(p, t), k) == PeerValues(p, t, k)
  {
    GroupValues(11, PeerValueLists(p, t), k);
  }

  method MarshalPeerText(nt: NetText, p: Peer) returns (text: Result<string>)
    ensures text == PeerText(nt, p)
  {
    if !p.publicKey.IsValid() {
      return Err(MissingField("PublicKey"));
    }
    if |p.allowedIPs| == 0 {
      return Err(MissingField("AllowedIPs"));
    }
    var allowedIPs := FormatPrefixes(nt, p.allowedIPs);
    var t := PeerTexts(
      p.publicKey.String(),
      p.presharedKey.String(),
      Join(allowedIPs, ", "),
      FormatInt(p.persistentKeepalive));
    var buf := WritePeer(p, t);
    return Ok(buf);
  }

  /** The writes of Peer.MarshalText, key by key in the fixed order. */
  method WritePeer(p: Peer, t: PeerTexts) returns (buf: string)
    ensures buf == Render(PeerFields(p, t))
  {
    var values := [
      [t.publicKey],
      if p.presharedKey.IsValid() then [t.presharedKey] else [],
      [t.allowedIPs],
      if p.endpoint != "" then [p.endpoint] else [],
      if p.persistentKeepalive != 0 then [t.persistentKeepalive] else [] ];
    buf := WriteSection(11, values);
  }

  // ---------------------------------------------------------------------
  // MarshalWireguardConf

  /**
   * The `[Peer]` blocks written from a list of peer texts: each a header,
   * the text and a blank line, or the first error in the list.
   */
  function Blocks(rs: seq<Result<string>>): Result<string> {
    if rs == [] then Ok("")
    else
      var before := Blocks(rs[..|rs| - 1]);
      var last := rs[|rs| - 1];
      if before.Err? then before
      else if last.Err? then last
      else Ok(before.value + "[Peer]\n" + last.value + "\n")
  }

  /** Blocks grows by one block per text, or stops at the first error. */
  lemma BlocksSnoc(rs: seq<Result<string>>, r: Result<string>)
    ensures Blocks(rs + [r])
      == if Blocks(rs).Err? then Blocks(rs)
         else if r.Err? then r
         else Ok(Blocks(rs).value + "[Peer]\n" + r.value + "\n")
  {
    assert (rs + [r])[..|rs|] == rs;
  }

  /** The blocks are written exactly when every text is. */
  lemma {:induction false} BlocksOk(rs: seq<Result<string>>)
    ensures Blocks(rs).Ok? <==> forall i :: 0 <= i < |rs| ==> rs[i].Ok?
    decreases |rs|
  {
    if rs != [] {
      var init := rs[..|rs| - 1];
      BlocksOk(init);
      assert forall i :: 0 <= i < |init| ==> init[i] == rs[i];
    }
  }

  /** A failure is the first error in the list. */
  lemma {:induction false} BlocksErr(rs: seq<Result<string>>)
    requires Blocks(rs).Err?
    ensures exists i :: 0 <= i < |rs| && rs[i] == Blocks(rs) && (forall j :: 0 <= j < i ==> rs[j].Ok?)
    decreases |rs|
  {
    var n := |rs|;
    var init := rs[..n - 1];
    assert forall i :: 0 <= i < |init| ==> init[i] == rs[i];
    if Blocks(init).Err? {
      BlocksErr(init);
      var i :| 0 <= i < |init| && init[i] == Blocks(init) && (forall j :: 0 <= j < i ==> init[j].Ok?);
      assert rs[i] == Blocks(rs);
    } else {
      BlocksOk(init);
      assert rs[n - 1] == Blocks(rs);
    }
  }

  /** An error among the first n texts is the error of the whole list. */
  lemma {:induction false} BlocksPrefixErr(rs: seq<Result<string>>, n: nat)
    requires n <= |rs| && Blocks(rs[..n]).Err?
    ensures Blocks(rs) == Blocks(rs[..n])
    decreases |rs| - n
  {
    if n < |rs| {
      var m := n + 1;
      assert rs[..m][..m - 1] == rs[..n];
      assert Blocks(rs[..m]) == Blocks(rs[..n]);
      BlocksPrefixErr(rs, m);
    } else {
      assert rs[..n] == rs;
    }
  }

  /** The text of every peer, in order. */
  function PeerTextList(nt: NetText, peers: seq<Peer>): (rs: seq<Result<string>>)
    ensures |rs| == |peers|
  {
    seq(|peers|, i requires 0 <= i < |peers| => PeerText(nt, peers[i]))
  }

  /** The `[Peer]` blocks of a configuration. */
  function PeersText(nt: NetText, peers: seq<Peer>): Result<string> {
    Blocks(PeerTextList(nt, peers))
  }

  /** The peer blocks are written exactly when every peer can be. */
  lemma PeersTextOk(nt: NetText, peers: seq<Peer>)
    ensures PeersText(nt, peers).Ok? <==> forall i :: 0 <= i < |peers| ==> PeerText(nt, peers[i]).Ok?
  {
    var rs := PeerTextList(nt, peers);
    assert forall i :: 0 <= i < |peers| ==> rs[i] == PeerText(nt, peers[i]);
    BlocksOk(rs);
  }

  /** A failure is the error of the first peer that cannot be written. */
  lemma PeersTextErr(nt: NetText, peers: seq<Peer>)
    requires PeersText(nt, peers).Err?
    ensures exists i :: 0 <= i < |peers| && PeerText(nt, peers[i]) == PeersText(nt, peers)
                        && (forall j :: 0 <= j < i ==> PeerText(nt, peers[j]).Ok?)
  {
    var rs := PeerTextList(nt, peers);
    assert forall i :: 0 <= i < |peers| ==> rs[i] == PeerText(nt, peers[i]);
    BlocksErr(rs);
    var i :| 0 <= i < |rs| && rs[i] == Blocks(rs) && (forall j :: 0 <= j < i ==> rs[j].Ok?);
    assert PeerText(nt, peers[i]) == PeersText(nt, peers);
  }

  /**
   * MarshalWireguardConf: `[Interface]`, its text and a blank line, then
   * the peer blocks in order; nothing at all if any part fails.
   */
  function ConfText(nt: NetText, iface: Interface, peers: seq<Peer>): (r: Result<string>)
    ensures !iface.privateKey.IsValid() ==> r == Err(MissingField("PrivateKey"))
    ensures iface.privateKey.IsValid() ==> r.Ok? == PeersText(nt, peers).Ok?
  {
    match InterfaceText(nt, iface)
    case Err(e) => Err(e)
    case Ok(it) =>
      match PeersText(nt, peers)
      case Err(e) => Err(e)
      case Ok(pt) => Ok("[Interface]\n" + it + "\n" + pt)
  }

  /** A configuration is written exactly when its key is valid and every peer can be. */
  lemma ConfTextOk(nt: NetText, iface: Interface, peers: seq<Peer>)
    ensures ConfText(nt, iface, peers).Ok?
        <==> iface.privateKey.IsValid() && forall i :: 0 <= i < |peers| ==> PeerText(nt, peers[i]).Ok?
  {
    PeersTextOk(nt, peers);
  }

  method MarshalWireguardConf(nt: NetText, iface: Interface, peers: seq<Peer>) returns (text: Result<string>)
    ensures text == ConfText(nt, iface, peers)
  {
    var buf := "[Interface]\n";
    var ifaceText := MarshalInterfaceText(nt, iface);
    if ifaceText.Err? {
      return Err(ifaceText.error);
    }
    buf := buf + ifaceText.value + "\n";
    text := WritePeers(buf, nt, peers);
  }

  /** The loop over the peers of MarshalWireguardConf, appending to buf. */
  method WritePeers(buf: string, nt: NetText, peers: seq<Peer>) returns (text: Result<string>)
    ensures PeersText(nt, peers).Err? ==> text == PeersText(nt, peers)
    ensures PeersText(nt, peers).Ok? ==> text == Ok(buf + PeersText(nt, peers).value)
  {
    var out := buf;
    ghost var rs := PeerTextList(nt, peers);
    assert rs[..0] == [];
    for i := 0 to |peers|
      invariant Blocks(rs[..i]).Ok?
      invariant out == buf + Blocks(rs[..i]).value
    {
      out := out + "[Peer]\n";
      var peerText := MarshalPeerText(nt, peers[i]);
      assert peerText == rs[i];
      if peerText.Err? {
        BlocksStopAt(rs, i);
        return Err(peerText.error);
      }
      BlocksStep(rs, i, buf);
      out := out + peerText.value + "\n";
    }
    assert rs[..|peers|] == rs;
    return Ok(out);
  }

  /** One more text that can be written adds its block after the others. */
  lemma BlocksStep(rs: seq<Result<string>>, i: nat, buf: string)
    requires i < |rs| && Blocks(rs[..i]).Ok? && rs[i].Ok?
    ensures Blocks(rs[..i + 1]).Ok?
    ensures buf + Blocks(rs[..i]).value + "[Peer]\n" + rs[i].value + "\n" == buf + Blocks(rs[..i + 1]).value
  {
    assert rs[..i + 1] == rs[..i] + [rs[i]];
    BlocksSnoc(rs[..i], rs[i]);
  }

  /** The first text that cannot be written is the error of the whole list. */
  lemma BlocksStopAt(rs: seq<Result<string>>, i: nat)
    requires i < |rs| && Blocks(rs[..i]).Ok? && rs[i].Err?
    ensures Blocks(rs) == rs[i]
  {
    assert rs[..i + 1] == rs[..i] + [rs[i]];
    BlocksSnoc(rs[..i], rs[i]);
    BlocksPrefixErr(rs, i + 1);
  }
}
