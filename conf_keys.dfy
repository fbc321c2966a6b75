/**
 * The keys of a WireGuard configuration file. Interface sections use the
 * first eleven, Peer sections the last five; the rendering writes them in
 * the order declared here. Matching a key is exact and case-sensitive.
 */
module ConfKeys {
  import opened Wrappers

  datatype Key =
    | PrivateKey | Address | ListenPort | DNS | MTU | Table
    | PreUp | PostUp | PreDown | PostDown | SaveConfig
    | PublicKey | PresharedKey | AllowedIPs | Endpoint | PersistentKeepalive
  {
    /** The key as it is spelled in the file. */
    function Name(): string {
      match this
      case PrivateKey => "PrivateKey"
      case Address => "Address"
      case ListenPort => "ListenPort"
      case DNS => "DNS"
      case MTU => "MTU"
      case Table => "Table"
      case PreUp => "PreUp"
      case PostUp => "PostUp"
      case PreDown => "PreDown"
      case PostDown => "PostDown"
      case SaveConfig => "SaveConfig"
      case PublicKey => "PublicKey"
      case PresharedKey => "PresharedKey"
      case AllowedIPs => "AllowedIPs"
      case Endpoint => "Endpoint"
      case PersistentKeepalive => "PersistentKeepalive"
    }

    /** Position in the rendering order. */
    function Rank(): nat {
      match this
      case PrivateKey => 0
      case Address => 1
      case ListenPort => 2
      case DNS => 3
      case MTU => 4
      case Table => 5
      case PreUp => 6
      case PostUp => 7
      case PreDown => 8
      case PostDown => 9
      case SaveConfig => 10
      case PublicKey => 11
      case PresharedKey => 12
      case AllowedIPs => 13
      case Endpoint => 14
      case PersistentKeepalive => 15
    }

    predicate InInterface() { Rank() <= 10 }
    predicate InPeer() { Rank() >= 11 }
  }

  /** The key of rank n. */
  function KeyAt(n: nat): (k: Key)
    requires n < 16
    ensures k.Rank() == n
  {
    if n == 0 then PrivateKey
    else if n == 1 then Address
    else if n == 2 then ListenPort
    else if n == 3 then DNS
    else if n == 4 then MTU
    else if n == 5 then Table
    else if n == 6 then PreUp
    else if n == 7 then PostUp
    else if n == 8 then PreDown
    else if n == 9 then PostDown
    else if n == 10 then SaveConfig
    else if n == 11 then PublicKey
    else if n == 12 then PresharedKey
    else if n == 13 then AllowedIPs
    else if n == 14 then Endpoint
    else PersistentKeepalive
  }

  /** Rank is one-to-one: a key is the key of its rank. */
  lemma KeyAtRank(k: Key)
    ensures k.Rank() < 16 && KeyAt(k.Rank()) == k
  {
  }

  /** The `switch key` of parseInterfaceKeyValue: exact spelling only. */
  function InterfaceKeyOf(s: string): (r: Option<Key>)
    ensures r.Some? ==> r.value.InInterface() && r.value.Name() == s
  {
    if s == "PrivateKey" then Some(PrivateKey)
    else if s == "Address" then Some(Address)
    else if s == "ListenPort" then Some(ListenPort)
    else if s == "DNS" then Some(DNS)
    else if s == "MTU" then Some(MTU)
    else if s == "Table" then Some(Table)
    else if s == "PreUp" then Some(PreUp)
    else if s == "PostUp" then Some(PostUp)
    else if s == "PreDown" then Some(PreDown)
    else if s == "PostDown" then Some(PostDown)
    else if s == "SaveConfig" then Some(SaveConfig)
    else None
  }

  /** The `switch key` of parsePeerKeyValue. */
  function PeerKeyOf(s: string): (r: Option<Key>)
    ensures r.Some? ==> r.value.InPeer() && r.value.Name() == s
  {
    if s == "PublicKey" then Some(PublicKey)
    else if s == "PresharedKey" then Some(PresharedKey)
    else if s == "AllowedIPs" then Some(AllowedIPs)
    else if s == "Endpoint" then Some(Endpoint)
    else if s == "PersistentKeepalive" then Some(PersistentKeepalive)
    else None
  }

  /** Every interface key is recognised by its own name. */
  lemma InterfaceKeyOfName(k: Key)
    requires k.InInterface()
    ensures InterfaceKeyOf(k.Name()) == Some(k)
  {
  }

  /** Every peer key is recognised by its own name. */
  lemma PeerKeyOfName(k: Key)
    requires k.InPeer()
    ensures PeerKeyOf(k.Name()) == Some(k)
  {
  }
}
