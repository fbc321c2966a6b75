/**
 * Reading a WireGuard configuration file (common/wireguard/conf.go): the
 * split of a section line into a key and a value, parseInterfaceKeyValue
 * and parsePeerKeyValue, the UnmarshalText scans of a section body and the
 * section scanner ParseWireguardConf.
 *
 * Go's pointer receivers are modelled by passing the receiver's value in
 * and returning its new value beside the error. Each operation is a
 * function stating what the code computes and a method doing it step by
 * step, proved equal to the function.
 *
 * As written, both UnmarshalText methods write the parsed values into the
 * receiver but check the untouched zero-valued local they started with, so
 * they never succeed; ParseWireguardConf therefore never succeeds either
 * and never keeps a peer. The model keeps that behaviour and proves it.
 */
module ConfParse {
  import opened Wrappers
  import opened Text
  import Keys
  import opened NetAddr
  import opened ConfFields
  import opened WireguardConf
  import K = ConfKeys

  // ---------------------------------------------------------------------
  // Section lines

  /** A trimmed line that carries no field: blank, a `#` or `;` comment, or a `[...]` header. */
  predicate Skipped(tl: string) {
    tl == "" || HasPrefix(tl, "#") || HasPrefix(tl, ";") || (HasPrefix(tl, "[") && HasSuffix(tl, "]"))
  }

  /**
   * The key and the value of a section line: the trimmed line is cut at its
   * first `=` and both halves are trimmed; skipped lines and lines without
   * `=` give nothing.
   */
  function LineKV(line: string): (r: Option<(string, string)>)
    ensures r.None? <==> Skipped(TrimSpace(line)) || '=' !in TrimSpace(line)
    ensures r.Some? ==> Trimmed(r.value.0) && Trimmed(r.value.1)
  {
    var tl := TrimSpace(line);
    if Skipped(tl) then None
    else
      var parts := SplitN2(tl, '=');
      if |parts| != 2 then None
      else Some((TrimSpace(parts[0]), TrimSpace(parts[1])))
  }

  /** How a key name looks: a non-empty word with no `=`, no surrounding space, and no comment or header mark first. */
  predicate NameLike(name: string) {
    |name| > 0 && '=' !in name && Trimmed(name) && name[0] != '#' && name[0] != ';' && name[0] != '['
  }

  lemma NameShape(k: K.Key)
    ensures NameLike(k.Name())
  {
  }

  /** Trimming a `name = value` line removes at most the space a missing value leaves. */
  lemma TrimFieldLine(name: string, v: string)
    requires NameLike(name) && Trimmed(v)
    ensures TrimSpace(name + " = " + v) == name + " =" + (if v == [] then "" else " " + v)
  {
    if v == [] {
      assert name + " = " + v == name + " = ";
      assert name + " =" + "" == name + " =";
      TrimBareLine(name);
    } else {
      var line := name + " = " + v;
      assert line[0] == name[0] && line[|line| - 1] == v[|v| - 1];
      assert Trimmed(line);
      TrimSpaceTrimmed(line);
    }
  }

  lemma TrimBareLine(name: string)
    requires NameLike(name)
    ensures TrimSpace(name + " = ") == name + " ="
  {
    var core := name + " =";
    assert core[0] == name[0] && core[|core| - 1] == '=';
    assert Trimmed(core);
    assert AllSpace(" ");
    assert name + " = " == [] + core + " ";
    TrimSpaceAround([], core, " ");
  }

  /** Cutting at the first `=` separates the name (with its space) from the rest. */
  lemma SplitFieldLine(name: string, tail: string)
    requires NameLike(name)
    ensures SplitN2(name + " =" + tail, '=') == [name + " ", tail]
  {
    var tl := name + " =" + tail;
    assert tl == (name + " ") + ['='] + tail;
    assert '=' !in name + " ";
    IndexOfFirst(name + " ", '=', tail);
    assert tl[..|name| + 1] == name + " ";
    assert tl[|name| + 2..] == tail;
  }

  /** A `name = value` line reads back as that name and value. */
  lemma LineKVOf(name: string, v: string)
    requires NameLike(name) && Trimmed(v)
    ensures LineKV(name + " = " + v) == Some((name, v))
  {
    TrimFieldLine(name, v);
    var tail := if v == [] then "" else " " + v;
    var tl := name + " =" + tail;
    assert tl[0] == name[0];
    assert !Skipped(tl);
    SplitFieldLine(name, tail);
    assert name + " " == [] + name + " ";
    TrimSpaceAround([], name, " ");
    if v != [] {
      assert tail == " " + v + [];
      TrimSpaceAround(" ", v, []);
    }
  }

  /**
   * A rendered `Key = Value` line reads back as its key and value, even
   * when the value itself holds `=` (as base64 padding does).
   */
  lemma LineKVField(f: Field)
    requires Trimmed(f.value)
    ensures LineKV(FieldLine(f)) == Some((f.key.Name(), f.value))
  {
    NameShape(f.key);
    LineKVOf(f.key.Name(), f.value);
  }

  // ---------------------------------------------------------------------
  // Comma-separated lists: Address, DNS, AllowedIPs

  /** Each piece of a list, trimmed. */
  function TrimEach(xs: seq<string>): (r: seq<string>)
    ensures |r| == |xs| && forall i :: 0 <= i < |xs| ==> r[i] == TrimSpace(xs[i])
  {
    seq(|xs|, i requires 0 <= i < |xs| => TrimSpace(xs[i]))
  }

  /** The trimmed elements of a comma-separated value. */
  function Elements(value: string): seq<string> {
    TrimEach(Split(value, ','))
  }

  /**
   * The element loop of the Address, DNS and AllowedIPs cases over the
   * trimmed elements: each is parsed and appended in order; the first that
   * fails stops the loop with its error, and what was appended before it
   * stays.
   */
  function AppendParsed<T>(parse: string -> Result<T>, acc: seq<T>, items: seq<string>): (r: (seq<T>, Option<Error>))
    ensures |acc| <= |r.0| <= |acc| + |items| && r.0[..|acc|] == acc
    ensures forall k :: 0 <= k < |r.0| - |acc| ==> parse(items[k]) == Ok(r.0[|acc| + k])
    ensures r.1.None? <==> |r.0| == |acc| + |items|
    ensures r.1.Some? ==> parse(items[|r.0| - |acc|]) == Err(r.1.value)
    decreases |items|
  {
    if items == [] then (acc, None)
    else match parse(items[0])
      case Err(e) => (acc, Some(e))
      case Ok(x) =>
        var r := AppendParsed(parse, acc + [x], items[1..]);
        var n := |acc|;
        assert r.0[..n + 1] == acc + [x];
        assert r.0[..n] == (acc + [x])[..n] == acc;
        assert r.0[n] == x;
        r
  }

  /** The element loop itself, over the pieces of `strings.Split(value, ",")`. */
  method ParseElements<T>(parse: string -> Result<T>, acc: seq<T>, value: string) returns (out: seq<T>, err: Option<Error>)
    ensures (out, err) == AppendParsed(parse, acc, Elements(value))
  {
    var elems := Split(value, ',');
    ghost var items := Elements(value);
    out := acc;
    for i := 0 to |elems|
      invariant AppendParsed(parse, acc, items) == AppendParsed(parse, out, items[i..])
    {
      assert items[i..][1..] == items[i + 1..];
      var x := parse(TrimSpace(elems[i]));
      if x.Err? {
        return out, Some(x.error);
      }
      out := out + [x.value];
    }
    return out, None;
  }

  // ---------------------------------------------------------------------
  // parseInterfaceKeyValue

  /** b is a with at most the field that Interface key k names replaced. */
  predicate OnlyInterfaceField(a: Interface, b: Interface, k: K.Key) {
    match k
    case PrivateKey => b == a.(privateKey := b.privateKey)
    case Address => b == a.(addresses := b.addresses)
    case ListenPort => b == a.(listenPort := b.listenPort)
    case DNS => b == a.(dns := b.dns)
    case MTU => b == a.(mtu := b.mtu)
    case Table => b == a.(table := b.table)
    case PreUp => b == a.(preUp := b.preUp)
    case PostUp => b == a.(postUp := b.postUp)
    case PreDown => b == a.(preDown := b.preDown)
    case PostDown => b == a.(postDown := b.postDown)
    case SaveConfig => b == a.(saveConfig := b.saveConfig)
    case _ => b == a
  }

  /**
   * parseInterfaceKeyValue: the exact, case-sensitive key picks the field;
   * an unknown key changes nothing.
   */
  function InterfaceKV(nt: NetText, c: Interface, key: string, value: string): (r: (Interface, Option<Error>))
    ensures K.InterfaceKeyOf(key).None? ==> r == (c, None)
  {
    match K.InterfaceKeyOf(key)
    case None => (c, None)
    case Some(k) => SetInterfaceKey(nt, c, k, value)
  }

  /** The case of parseInterfaceKeyValue for an Interface key; a failed parse returns its error. */
  function SetInterfaceKey(nt: NetText, c: Interface, k: K.Key, value: string): (r: (Interface, Option<Error>))
    ensures OnlyInterfaceField(c, r.0, k)
  {
    match k
    case PrivateKey =>
      (match Keys.ParseKey(value)
       case Ok(b) => (c.(privateKey := Keys.PrivateKey.PrivateKey(b)), None)
       case Err(e) => (c, Some(e)))
    case Address =>
      var l := AppendParsed(nt.parseAddr, c.addresses, Elements(value));
      (c.(addresses := l.0), l.1)
    case ListenPort =>
      (match ParseUint(value, MaxUint16)
       case Ok(n) => (c.(listenPort := n), None)
       case Err(e) => (c, Some(e)))
    case DNS =>
      var l := AppendParsed(nt.parseAddr, c.dns, Elements(value));
      (c.(dns := l.0), l.1)
    case MTU =>
      (match ParseInt64(value)
       case Ok(n) => (c.(mtu := n), None)
       case Err(e) => (c, Some(e)))
    case Table =>
      (match ParseInt64(value)
       case Ok(n) => (c.(table := n), None)
       case Err(e) => (c, Some(e)))
    case PreUp => (c.(preUp := c.preUp + [value]), None)
    case PostUp => (c.(postUp := c.postUp + [value]), None)
    case PreDown => (c.(preDown := c.preDown + [value]), None)
    case PostDown => (c.(postDown := c.postDown + [value]), None)
    case SaveConfig => (if ToLower(value) == "true" then c.(saveConfig := true) else c, None)
    case _ => (c, None)
  }

  /** Every Interface key, spelled exactly, selects its own case. */
  lemma InterfaceKVByName(nt: NetText, c: Interface, k: K.Key, value: string)
    requires k.InInterface()
    ensures InterfaceKV(nt, c, k.Name(), value) == SetInterfaceKey(nt, c, k, value)
  {
    K.InterfaceKeyOfName(k);
  }

  /** Hook keys append their value in order of occurrence and never fail. */
  lemma InterfaceKeyHooks(nt: NetText, c: Interface, value: string)
    ensures SetInterfaceKey(nt, c, K.PreUp, value) == (c.(preUp := c.preUp + [value]), None)
    ensures SetInterfaceKey(nt, c, K.PostUp, value) == (c.(postUp := c.postUp + [value]), None)
    ensures SetInterfaceKey(nt, c, K.PreDown, value) == (c.(preDown := c.preDown + [value]), None)
    ensures SetInterfaceKey(nt, c, K.PostDown, value) == (c.(postDown := c.postDown + [value]), None)
  {
  }

  /** SaveConfig is set by `true` in any letter case and otherwise left as it was. */
  lemma InterfaceKeySaveConfig(nt: NetText, c: Interface, value: string)
    ensures SetInterfaceKey(nt, c, K.SaveConfig, value).1 == None
    ensures SetInterfaceKey(nt, c, K.SaveConfig, value).0.saveConfig == (c.saveConfig || ToLower(value) == "true")
  {
  }

  /** ListenPort takes a decimal number up to 65535; anything else is an error. */
  lemma InterfaceKeyListenPort(nt: NetText, c: Interface, value: string)
    ensures SetInterfaceKey(nt, c, K.ListenPort, value).1.None?
        <==> value != [] && AllDigits(value) && Value(value) <= 0xFFFF
    ensures SetInterfaceKey(nt, c, K.ListenPort, value).1.None?
        ==> SetInterfaceKey(nt, c, K.ListenPort, value).0.listenPort == Value(value)
  {
  }

  /** Address runs the element loop on the addresses already there. */
  lemma InterfaceKeyAddress(nt: NetText, c: Interface, value: string)
    ensures SetInterfaceKey(nt, c, K.Address, value).0.addresses == AppendParsed(nt.parseAddr, c.addresses, Elements(value)).0
    ensures SetInterfaceKey(nt, c, K.Address, value).1 == AppendParsed(nt.parseAddr, c.addresses, Elements(value)).1
  {
    var l := AppendParsed(nt.parseAddr, c.addresses, Elements(value));
    assert SetInterfaceKey(nt, c, K.Address, value) == (c.(addresses := l.0), l.1);
  }

  /** DNS runs the element loop on the servers already there. */
  lemma InterfaceKeyDNS(nt: NetText, c: Interface, value: string)
    ensures SetInterfaceKey(nt, c, K.DNS, value).0.dns == AppendParsed(nt.parseAddr, c.dns, Elements(value)).0
    ensures SetInterfaceKey(nt, c, K.DNS, value).1 == AppendParsed(nt.parseAddr, c.dns, Elements(value)).1
  {
    var l := AppendParsed(nt.parseAddr, c.dns, Elements(value));
    assert SetInterfaceKey(nt, c, K.DNS, value) == (c.(dns := l.0), l.1);
  }

  method ParseInterfaceKeyValue(nt: NetText, c: Interface, key: string, value: string)
    returns (c': Interface, err: Option<Error>)
    ensures (c', err) == InterfaceKV(nt, c, key, value)
  {
    c', err := c, None;
    match K.InterfaceKeyOf(key)
    case None =>
    case Some(k) =>
      match k
      case PrivateKey =>
        var b := Keys.ParseKey(value);
        if b.Err? {
          return c, Some(b.error);
        }
        c' := c.(privateKey := Keys.PrivateKey.PrivateKey(b.value));
      case Address =>
        var xs;
        xs, err := ParseElements(nt.parseAddr, c.addresses, value);
        c' := c.(addresses := xs);
      case ListenPort =>
        var n := ParseUint(value, MaxUint16);
        if n.Err? {
          return c, Some(n.error);
        }
        c' := c.(listenPort := n.value);
      case DNS =>
        var xs;
        xs, err := ParseElements(nt.parseAddr, c.dns, value);
        c' := c.(dns := xs);
      case MTU =>
        var n := ParseInt64(value);
        if n.Err? {
          return c, Some(n.error);
        }
        c' := c.(mtu := n.value);
      case Table =>
        var n := ParseInt64(value);
        if n.Err? {
          return c, Some(n.error);
        }
        c' := c.(table := n.value);
      case PreUp => c' := c.(preUp := c.preUp + [value]);
      case PostUp => c' := c.(postUp := c.postUp + [value]);
      case PreDown => c' := c.(preDown := c.preDown + [value]);
      case PostDown => c' := c.(postDown := c.postDown + [value]);
      case SaveConfig =>
        if ToLower(value) == "true" {
          c' := c.(saveConfig := true);
        }
      case _ =>
  }

  // ---------------------------------------------------------------------
  // parsePeerKeyValue

  /** b is a with at most the field that Peer key k names replaced. */
  predicate OnlyPeerField(a: Peer, b: Peer, k: K.Key) {
    match k
    case PublicKey => b == a.(publicKey := b.publicKey)
    case PresharedKey => b == a.(presharedKey := b.presharedKey)
    case AllowedIPs => b == a.(allowedIPs := b.allowedIPs)
    case Endpoint => b == a.(endpoint := b.endpoint)
    case PersistentKeepalive => b == a.(persistentKeepalive := b.persistentKeepalive)
    case _ => b == a
  }

  /** parsePeerKeyValue: the exact key picks the field; an unknown key changes nothing. */
  function PeerKV(nt: NetText, p: Peer, key: string, value: string): (r: (Peer, Option<Error>))
    ensures K.PeerKeyOf(key).None? ==> r == (p, None)
  {
    match K.PeerKeyOf(key)
    case None => (p, None)
    case Some(k) => SetPeerKey(nt, p, k, value)
  }

  /** The case of parsePeerKeyValue for a Peer key; a failed parse returns its error. */
  function SetPeerKey(nt: NetText, p: Peer, k: K.Key, value: string): (r: (Peer, Option<Error>))
    ensures OnlyPeerField(p, r.0, k)
  {
    match k
    case PublicKey =>
      (match Keys.ParseKey(value)
       case Ok(b) => (p.(publicKey := Keys.PublicKey.PublicKey(b)), None)
       case Err(e) => (p, Some(e)))
    case PresharedKey =>
      (match Keys.ParseKey(value)
       case Ok(b) => (p.(presharedKey := Keys.PresharedKey.PresharedKey(b)), None)
       case Err(e) => (p, Some(e)))
    case AllowedIPs =>
      var l := AppendParsed(nt.parsePrefix, p.allowedIPs, Elements(value));
      (p.(allowedIPs := l.0), l.1)
    case Endpoint => (p.(endpoint := value), None)
    case PersistentKeepalive =>
      (match ParseInt64(value)
       case Ok(n) => (p.(persistentKeepalive := n), None)
       case Err(e) => (p, Some(e)))
    case _ => (p, None)
  }

  /** Every Peer key, spelled exactly, selects its own case. */
  lemma PeerKVByName(nt: NetText, p: Peer, k: K.Key, value: string)
    requires k.InPeer()
    ensures PeerKV(nt, p, k.Name(), value) == SetPeerKey(nt, p, k, value)
  {
    K.PeerKeyOfName(k);
  }

  /** Endpoint takes the value as it is. */
  lemma PeerKeyEndpoint(nt: NetText, p: Peer, value: string)
    ensures SetPeerKey(nt, p, K.Endpoint, value) == (p.(endpoint := value), None)
  {
  }

  /** AllowedIPs runs the element loop on the prefixes already there. */
  lemma PeerKeyAllowedIPs(nt: NetText, p: Peer, value: string)
    ensures var r := SetPeerKey(nt, p, K.AllowedIPs, value);
      (r.0.allowedIPs, r.1) == AppendParsed(nt.parsePrefix, p.allowedIPs, Elements(value))
  {
    var l := AppendParsed(nt.parsePrefix, p.allowedIPs, Elements(value));
    assert SetPeerKey(nt, p, K.AllowedIPs, value) == (p.(allowedIPs := l.0), l.1);
  }

  method ParsePeerKeyValue(nt: NetText, p: Peer, key: string, value: string)
    returns (p': Peer, err: Option<Error>)
    ensures (p', err) == PeerKV(nt, p, key, value)
  {
    p', err := p, None;
    match K.PeerKeyOf(key)
    case None =>
    case Some(k) =>
      match k
      case PublicKey =>
        var b := Keys.ParseKey(value);
        if b.Err? {
          return p, Some(b.error);
        }
        p' := p.(publicKey := Keys.PublicKey.PublicKey(b.value));
      case PresharedKey =>
        var b := Keys.ParseKey(value);
        if b.Err? {
          return p, Some(b.error);
        }
        p' := p.(presharedKey := Keys.PresharedKey.PresharedKey(b.value));
      case AllowedIPs =>
        var xs;
        xs, err := ParseElements(nt.parsePrefix, p.allowedIPs, value);
        p' := p.(allowedIPs := xs);
      case Endpoint => p' := p.(endpoint := value);
      case PersistentKeepalive =>
        var n := ParseInt64(value);
        if n.Err? {
          return p, Some(n.error);
        }
        p' := p.(persistentKeepalive := n.value);
      case _ =>
  }

  // ---------------------------------------------------------------------
  // UnmarshalText

  /**
   * The line loop of Interface.UnmarshalText: each line that carries a key
   * is applied to the receiver; the first error stops the loop with the
   * receiver as it then is.
   */
  function InterfaceLines(nt: NetText, c: Interface, lines: seq<string>): (r: (Interface, Option<Error>))
    decreases |lines|
  {
    if lines == [] then (c, None)
    else match LineKV(lines[0])
      case None => InterfaceLines(nt, c, lines[1..])
      case Some(kv) =>
        var (c1, e) := InterfaceKV(nt, c, kv.0, kv.1);
        if e.Some? then (c1, e) else InterfaceLines(nt, c1, lines[1..])
  }

  /**
   * Interface.UnmarshalText. The receiver ends as the lines left it, but
   * the final check reads the zero-valued local, whose key is never valid,
   * so the call always fails: with the first key error, or else with
   * "PrivateKey is not valid".
   */
  function UnmarshalInterface(nt: NetText, c: Interface, text: string): (r: (Interface, Option<Error>))
    ensures r.0 == InterfaceLines(nt, c, ScanLines(text)).0
    ensures r.1.Some?
    ensures InterfaceLines(nt, c, ScanLines(text)).1.Some? ==> r.1 == InterfaceLines(nt, c, ScanLines(text)).1
    ensures InterfaceLines(nt, c, ScanLines(text)).1.None? ==> r.1 == Some(NotValid("PrivateKey"))
  {
    Keys.ZeroKeysInvalid();
    var (c1, e) := InterfaceLines(nt, c, ScanLines(text));
    var newInterface := ZeroInterface;
    if e.Some? then (c1, e)
    else if !newInterface.privateKey.IsValid() then (c1, Some(NotValid("PrivateKey")))
    else (newInterface.(ready := true), None)
  }

  method UnmarshalInterfaceText(nt: NetText, c: Interface, text: string) returns (c': Interface, err: Option<Error>)
    ensures (c', err) == UnmarshalInterface(nt, c, text)
  {
    var newInterface := ZeroInterface;
    var lines := ScanLines(text);
    c', err := c, None;
    for i := 0 to |lines|
      invariant InterfaceLines(nt, c, lines) == InterfaceLines(nt, c', lines[i..])
    {
      assert lines[i..][1..] == lines[i + 1..];
      var tl := TrimSpace(lines[i]);
      if Skipped(tl) {
        continue;
      }
      var parts := SplitN2(tl, '=');
      if |parts| != 2 {
        continue;
      }
      var key, value := TrimSpace(parts[0]), TrimSpace(parts[1]);
      c', err := ParseInterfaceKeyValue(nt, c', key, value);
      if err.Some? {
        return;
      }
    }
    assert lines[|lines|..] == [];
    Keys.ZeroKeysInvalid();
    if !newInterface.privateKey.IsValid() {
      return c', Some(NotValid("PrivateKey"));
    }
    // The zero Interface's key is not valid, so the rest of the method
    // (marking the local ready and copying it into the receiver) is never
    // reached.
    assert false;
  }

  /** The line loop of Peer.UnmarshalText. */
  function PeerLines(nt: NetText, p: Peer, lines: seq<string>): (r: (Peer, Option<Error>))
    decreases |lines|
  {
    if lines == [] then (p, None)
    else match LineKV(lines[0])
      case None => PeerLines(nt, p, lines[1..])
      case Some(kv) =>
        var (p1, e) := PeerKV(nt, p, kv.0, kv.1);
        if e.Some? then (p1, e) else PeerLines(nt, p1, lines[1..])
  }

  /**
   * Peer.UnmarshalText: like Interface.UnmarshalText its checks read the
   * zero-valued local, so it always fails, with the first key error or
   * with "PublicKey is not valid".
   */
  function UnmarshalPeer(nt: NetText, p: Peer, text: string): (r: (Peer, Option<Error>))
    ensures r.0 == PeerLines(nt, p, ScanLines(text)).0
    ensures r.1.Some?
    ensures PeerLines(nt, p, ScanLines(text)).1.Some? ==> r.1 == PeerLines(nt, p, ScanLines(text)).1
    ensures PeerLines(nt, p, ScanLines(text)).1.None? ==> r.1 == Some(NotValid("PublicKey"))
  {
    Keys.ZeroKeysInvalid();
    var (p1, e) := PeerLines(nt, p, ScanLines(text));
    var newPeer := ZeroPeer;
    if e.Some? then (p1, e)
    else if !newPeer.publicKey.IsValid() then (p1, Some(NotValid("PublicKey")))
    else if |newPeer.allowedIPs| == 0 then (p1, Some(MissingField("AllowedIPs")))
    else (newPeer.(ready := true), None)
  }

  method UnmarshalPeerText(nt: NetText, p: Peer, text: string) returns (p': Peer, err: Option<Error>)
    ensures (p', err) == UnmarshalPeer(nt, p, text)
  {
    var newPeer := ZeroPeer;
    var lines := ScanLines(text);
    p', err := p, None;
    for i := 0 to |lines|
      invariant PeerLines(nt, p, lines) == PeerLines(nt, p', lines[i..])
    {
      assert lines[i..][1..] == lines[i + 1..];
      var tl := TrimSpace(lines[i]);
      if Skipped(tl) {
        continue;
      }
      var parts := SplitN2(tl, '=');
      if |parts| != 2 {
        continue;
      }
      var key, value := TrimSpace(parts[0]), TrimSpace(parts[1]);
      p', err := ParsePeerKeyValue(nt, p', key, value);
      if err.Some? {
        return;
      }
    }
    assert lines[|lines|..] == [];
    Keys.ZeroKeysInvalid();
    if !newPeer.publicKey.IsValid() {
      return p', Some(NotValid("PublicKey"));
    }
    // Not reached: the zero Peer's public key is not valid.
    assert false;
  }

  // ---------------------------------------------------------------------
  // ParseWireguardConf

  /** The section the scanner is in: none yet, `[Interface]` or `[Peer]`. */
  datatype Section = NoSection | InterfaceSection | PeerSection

  /**
   * What the scan has gathered so far: the current section, the text of the
   * open `[Peer]` block, the Interface text and the peers kept.
   */
  datatype ScanState = ScanState(section: Section, peerText: string, ifaceText: string, peers: seq<Peer>)

  const StartState := ScanState(NoSection, "", "", [])

  /**
   * The end of a `[Peer]` block: its text is parsed into a fresh Peer, kept
   * only if that succeeded and the peer is ready, and the block is emptied.
   * Since Peer.UnmarshalText never succeeds, nothing is ever kept.
   */
  function FlushPeer(nt: NetText, st: ScanState): (r: ScanState)
    ensures r == st.(peerText := "")
  {
    var (p, e) := UnmarshalPeer(nt, ZeroPeer, st.peerText);
    st.(peers := if e.None? && p.ready then st.peers + [p] else st.peers, peerText := "")
  }

  predicate IsHeader(tl: string) {
    HasPrefix(tl, "[") && HasSuffix(tl, "]")
  }

  /** The section name of a header line `[name]`. */
  function HeaderName(tl: string): string {
    TrimSuffix(TrimPrefix(tl, "["), "]")
  }

  /**
   * One pass of ParseWireguardConf's loop. A header closes the open
   * `[Peer]` block and opens a section; a second `[Interface]` is refused
   * only when the current section is `[Interface]`; any other name is an
   * unknown section. A body line is added, untrimmed, to the current
   * section's text.
   */
  function ScanStep(nt: NetText, st: ScanState, line: string): (r: Result<ScanState>)
    ensures r.Err? <==> var tl := TrimSpace(line);
      !(tl == "" || HasPrefix(tl, "#") || HasPrefix(tl, ";")) && IsHeader(tl)
      && ((HeaderName(tl) != "Interface" && HeaderName(tl) != "Peer")
          || (HeaderName(tl) == "Interface" && st.section == InterfaceSection))
    ensures r.Err? ==> r.error == DuplicateSection || r.error == UnknownSection(HeaderName(TrimSpace(line)))
    ensures r.Ok? ==> r.value.peers == st.peers
  {
    var tl := TrimSpace(line);
    if tl == "" || HasPrefix(tl, "#") || HasPrefix(tl, ";") then Ok(st)
    else if IsHeader(tl) then
      var name := HeaderName(tl);
      var st1 := if st.section == PeerSection && |st.peerText| > 0 then FlushPeer(nt, st) else st;
      if name == "Interface" then
        if st.section == InterfaceSection then Err(DuplicateSection)
        else Ok(st1.(section := InterfaceSection))
      else if name == "Peer" then Ok(st1.(section := PeerSection))
      else Err(UnknownSection(name))
    else if st.section == InterfaceSection then Ok(st.(ifaceText := st.ifaceText + line + "\n"))
    else if st.section == PeerSection then Ok(st.(peerText := st.peerText + line + "\n"))
    else Ok(st)
  }

  /** The loop of ParseWireguardConf over the scanned lines, stopping at the first error. */
  function Scan(nt: NetText, st: ScanState, lines: seq<string>): Result<ScanState>
    decreases |lines|
  {
    if lines == [] then Ok(st)
    else match ScanStep(nt, st, lines[0])
      case Err(e) => Err(e)
      case Ok(st1) => Scan(nt, st1, lines[1..])
  }

  /** No scan keeps a peer: the list of peers never grows. */
  lemma {:induction false} ScanKeepsNoPeer(nt: NetText, st: ScanState, lines: seq<string>)
    ensures Scan(nt, st, lines).Ok? ==> Scan(nt, st, lines).value.peers == st.peers
    decreases |lines|
  {
    if lines != [] && ScanStep(nt, st, lines[0]).Ok? {
      ScanKeepsNoPeer(nt, ScanStep(nt, st, lines[0]).value, lines[1..]);
    }
  }

  /** A scan fails only on a section header: a duplicate `[Interface]` or an unknown name. */
  lemma {:induction false} ScanErrors(nt: NetText, st: ScanState, lines: seq<string>)
    ensures Scan(nt, st, lines).Err? ==>
      Scan(nt, st, lines).error == DuplicateSection || Scan(nt, st, lines).error.UnknownSection?
    decreases |lines|
  {
    if lines != [] && ScanStep(nt, st, lines[0]).Ok? {
      ScanErrors(nt, ScanStep(nt, st, lines[0]).value, lines[1..]);
    }
  }

  /** A header line as ScanStep sees it: trimmed, not a comment, and naming `name`. */
  predicate HeaderLine(line: string, name: string) {
    TrimSpace(line) == line && line != "" && !HasPrefix(line, "#") && !HasPrefix(line, ";")
    && IsHeader(line) && HeaderName(line) == name
  }

  lemma InterfaceHeaderLine()
    ensures HeaderLine("[Interface]", "Interface")
  {
    TrimSpaceTrimmed("[Interface]");
    assert "[Interface]"[..1] == "[";
    assert "[Interface]"[1..][..|"[Interface]"[1..]| - 1] == "Interface";
  }

  lemma PeerHeaderLine()
    ensures HeaderLine("[Peer]", "Peer")
  {
    TrimSpaceTrimmed("[Peer]");
    assert "[Peer]"[..1] == "[";
    assert "[Peer]"[1..][..|"[Peer]"[1..]| - 1] == "Peer";
  }

  /** A scan of a single header line is that line's step. */
  lemma ScanOne(nt: NetText, st: ScanState, line: string)
    ensures Scan(nt, st, [line]) == ScanStep(nt, st, [line][0])
  {
    assert [line][1..] == [];
  }

  /**
   * The duplicate check is narrow: `[Interface]` directly after an
   * `[Interface]` section is refused, but a `[Peer]` header in between
   * lets a second `[Interface]` through.
   */
  lemma DuplicateCheckIsNarrow(nt: NetText)
    ensures Scan(nt, StartState, ["[Interface]", "[Interface]"]) == Err(DuplicateSection)
    ensures Scan(nt, StartState, ["[Interface]", "[Peer]", "[Interface]"]).Ok?
  {
    InterfaceHeaderLine();
    PeerHeaderLine();
    var s1 := ScanState(InterfaceSection, "", "", []);
    var s2 := ScanState(PeerSection, "", "", []);
    assert ScanStep(nt, StartState, "[Interface]") == Ok(s1);
    assert ScanStep(nt, s1, "[Interface]") == Err(DuplicateSection);
    assert ScanStep(nt, s1, "[Peer]") == Ok(s2);
    assert ScanStep(nt, s2, "[Interface]") == Ok(s1);
    ScanOne(nt, s1, "[Interface]");
    assert ["[Interface]", "[Interface]"][1..] == ["[Interface]"];
    assert ["[Interface]", "[Peer]", "[Interface]"][1..] == ["[Peer]", "[Interface]"];
    assert ["[Peer]", "[Interface]"][1..] == ["[Interface]"];
  }

  /**
   * ParseWireguardConf. Every outcome is an error with the zero Interface
   * and no peers: a scan error, a missing `[Interface]` body, or the error
   * Interface.UnmarshalText always returns.
   */
  function ParseConf(nt: NetText, text: string): (r: (Interface, seq<Peer>, Option<Error>))
    ensures r.2.Some? && r.0 == ZeroInterface && r.1 == []
    ensures Scan(nt, StartState, ScanLines(text)).Err? ==> r.2 == Some(Scan(nt, StartState, ScanLines(text)).error)
    ensures Scan(nt, StartState, ScanLines(text)).Ok? && Scan(nt, StartState, ScanLines(text)).value.ifaceText == ""
      ==> r.2 == Some(MissingSection)
    ensures Scan(nt, StartState, ScanLines(text)).Ok? && Scan(nt, StartState, ScanLines(text)).value.ifaceText != ""
      ==> r.2 == UnmarshalInterface(nt, ZeroInterface, Scan(nt, StartState, ScanLines(text)).value.ifaceText).1
  {
    match Scan(nt, StartState, ScanLines(text))
    case Err(e) => (ZeroInterface, [], Some(e))
    case Ok(st) =>
      var st1 := if st.section == PeerSection && |st.peerText| > 0 then FlushPeer(nt, st) else st;
      if |st1.ifaceText| > 0 then
        var (iif, e) := UnmarshalInterface(nt, ZeroInterface, st1.ifaceText);
        if e.Some? then (ZeroInterface, [], e) else (iif, st1.peers, None)
      else (ZeroInterface, [], Some(MissingSection))
  }

  method ParseWireguardConf(nt: NetText, text: string) returns (iif: Interface, peers: seq<Peer>, err: Option<Error>)
    ensures (iif, peers, err) == ParseConf(nt, text)
  {
    iif, peers, err := ZeroInterface, [], None;
    var lines := ScanLines(text);
    var currentSection := NoSection;
    var currentPeerText, currentInterfaceText := "", "";
    for i := 0 to |lines|
      invariant Scan(nt, StartState, lines)
        == Scan(nt, ScanState(currentSection, currentPeerText, currentInterfaceText, peers), lines[i..])
    {
      assert lines[i..][1..] == lines[i + 1..];
      ghost var st := ScanState(currentSection, currentPeerText, currentInterfaceText, peers);
      var line := lines[i];
      var tl := TrimSpace(line);
      if tl == "" || HasPrefix(tl, "#") || HasPrefix(tl, ";") {
        continue;
      }
      if HasPrefix(tl, "[") && HasSuffix(tl, "]") {
        var sectionName := TrimSuffix(TrimPrefix(tl, "["), "]");
        if currentSection == PeerSection && |currentPeerText| > 0 {
          var peer, e := UnmarshalPeerText(nt, ZeroPeer, currentPeerText);
          if e.None? && peer.ready {
            peers := peers + [peer];
          }
          currentPeerText := "";
        }
        if sectionName == "Interface" {
          if currentSection == InterfaceSection {
            return ZeroInterface, [], Some(DuplicateSection);
          }
          currentSection := InterfaceSection;
        } else if sectionName == "Peer" {
          currentSection := PeerSection;
        } else {
          return ZeroInterface, [], Some(UnknownSection(sectionName));
        }
        continue;
      }
      if currentSection == InterfaceSection {
        currentInterfaceText := currentInterfaceText + line + "\n";
      } else if currentSection == PeerSection {
        currentPeerText := currentPeerText + line + "\n";
      }
    }
    assert lines[|lines|..] == [];
    if currentSection == PeerSection && |currentPeerText| > 0 {
      var peer, e := UnmarshalPeerText(nt, ZeroPeer, currentPeerText);
      if e.None? && peer.ready {
        peers := peers + [peer];
      }
    }
    if |currentInterfaceText| > 0 {
      var e;
      iif, e := UnmarshalInterfaceText(nt, iif, currentInterfaceText);
      if e.Some? {
        return ZeroInterface, [], e;
      }
    } else {
      return ZeroInterface, [], Some(MissingSection);
    }
    // The final `return iif, peers, nil` is never reached: the Interface's
    // UnmarshalText always fails.
    assert false;
  }
}
