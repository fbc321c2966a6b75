/**
 * InterfaceWithPeers.Extend (common/wireguard/combine.go): a hub
 * configuration gains one spoke. The hub gets a new peer entry carrying
 * the spoke's public key; the spoke gets an Interface holding only its
 * private key and a single peer carrying the hub's public key. With
 * preshared keys enabled both entries carry the same preshared key.
 *
 * Extend takes its receiver by value and returns new values; the key
 * material it draws comes from a Keys.KeyEngine, so the operation is a
 * method over that engine, specified by ExtendWith, which takes the drawn
 * keys as inputs.
 */
module Combine {
  import opened Wrappers
  import opened Crypto
  import opened Keys
  import opened WireguardConf

  datatype InterfaceWithPeers = InterfaceWithPeers(iface: Interface, peers: seq<Peer>)

  /** The hub and one configuration per spoke. */
  datatype MeshPair = MeshPair(root: InterfaceWithPeers, peers: seq<InterfaceWithPeers>)

  /** The zero InterfaceWithPeers, returned beside an error. */
  const EmptyIWP := InterfaceWithPeers(ZeroInterface, [])

  /** A peer entry holding only a public key and, when enabled, the preshared key. */
  function NewEntry(pub: PublicKey, enablePreshare: bool, psk: PresharedKey): Peer {
    ZeroPeer.(publicKey := pub, presharedKey := if enablePreshare then psk else NoPresharedKey)
  }

  /**
   * Extend for given drawn keys: the spoke's pair (peerPriv, peerPub) and
   * the preshared key psk (ignored unless enabled). It fails exactly when
   * the hub's own private key yields no public key.
   */
  function ExtendWith(e: KeyEngine, ifp: InterfaceWithPeers, enablePreshare: bool,
                      peerPriv: PrivateKey, peerPub: PublicKey, psk: PresharedKey)
    : (r: Result<(InterfaceWithPeers, InterfaceWithPeers)>)
    ensures r.Err? <==> e.Derive(ifp.iface.privateKey).Err?
    ensures r.Err? ==> r.error == e.Derive(ifp.iface.privateKey).error
    // the hub: one entry appended, everything else as it was
    ensures r.Ok? ==> var hub := r.value.0;
      hub.iface == ifp.iface && |hub.peers| == |ifp.peers| + 1 && hub.peers[..|ifp.peers|] == ifp.peers
      && hub.peers[|ifp.peers|].publicKey == peerPub
    // the spoke: only the private key set, one peer naming the hub
    ensures r.Ok? ==> var sub := r.value.1;
      sub.iface == ZeroInterface.(privateKey := peerPriv) && |sub.peers| == 1
      && Ok(sub.peers[0].publicKey) == e.Derive(ifp.iface.privateKey)
    // both new entries share the preshared key, or neither has one
    ensures r.Ok? ==> r.value.0.peers[|ifp.peers|].presharedKey == r.value.1.peers[0].presharedKey
                      == (if enablePreshare then psk else NoPresharedKey)
    ensures r.Ok? ==> r.value.0.peers[|ifp.peers|] == ZeroPeer.(publicKey := peerPub, presharedKey := r.value.0.peers[|ifp.peers|].presharedKey)
    ensures r.Ok? ==> r.value.1.peers[0] == ZeroPeer.(publicKey := r.value.1.peers[0].publicKey, presharedKey := r.value.1.peers[0].presharedKey)
  {
    match e.Derive(ifp.iface.privateKey)
    case Err(err) => Err(err)
    case Ok(pub) =>
      Ok((ifp.(peers := ifp.peers + [NewEntry(peerPub, enablePreshare, psk)]),
          InterfaceWithPeers(ZeroInterface.(privateKey := peerPriv), [NewEntry(pub, enablePreshare, psk)])))
  }

  /**
   * The two new entries point at each other: when the spoke's pair is a
   * real key pair, the hub's new entry carries the public half of the
   * spoke's private key, and the spoke's entry the public half of the hub's.
   */
  lemma ExtendPairsKeys(e: KeyEngine, ifp: InterfaceWithPeers, enablePreshare: bool,
                        peerPriv: PrivateKey, peerPub: PublicKey, psk: PresharedKey)
    requires e.Derive(peerPriv) == Ok(peerPub)
    requires ExtendWith(e, ifp, enablePreshare, peerPriv, peerPub, psk).Ok?
    ensures var r := ExtendWith(e, ifp, enablePreshare, peerPriv, peerPub, psk).value;
      e.Derive(r.1.iface.privateKey) == Ok(r.0.peers[|ifp.peers|].publicKey)
      && e.Derive(r.0.iface.privateKey) == Ok(r.1.peers[0].publicKey)
  {
  }

  /** Without preshared keys neither new entry has a valid preshared key. */
  lemma ExtendNoPreshare(e: KeyEngine, ifp: InterfaceWithPeers,
                         peerPriv: PrivateKey, peerPub: PublicKey, psk: PresharedKey)
    requires ExtendWith(e, ifp, false, peerPriv, peerPub, psk).Ok?
    ensures var r := ExtendWith(e, ifp, false, peerPriv, peerPub, psk).value;
      !r.0.peers[|ifp.peers|].presharedKey.IsValid() && !r.1.peers[0].presharedKey.IsValid()
  {
    ZeroKeysInvalid();
  }

  /** The key material Extend draws, starting at draw n: the spoke's key pair, then the preshared key. */
  function DrawnPriv(e: KeyEngine, n: nat): PrivateKey { PrivateKey(Clamp(e.random(n))) }
  function DrawnPub(e: KeyEngine, n: nat): (pub: PublicKey)
    ensures e.Derive(DrawnPriv(e, n)) == Ok(pub)
  {
    PublicKey(e.scalarBaseMult(Clamp(e.random(n))))
  }
  function DrawnPsk(e: KeyEngine, n: nat): PresharedKey { PresharedKey(e.random(n + 1)) }

  /** How many random reads Extend takes once the hub key is accepted. */
  function ExtendDraws(enablePreshare: bool): nat { if enablePreshare then 2 else 1 }

  /**
   * Extend. On failure nothing is drawn and both results are empty;
   * otherwise the results are ExtendWith of the keys drawn.
   */
  method Extend(e: KeyEngine, ifp: InterfaceWithPeers, enablePreshare: bool)
    returns (extended: InterfaceWithPeers, sub: InterfaceWithPeers, err: Option<Error>)
    modifies e
    ensures err.Some? <==> e.Derive(ifp.iface.privateKey).Err?
    ensures err.Some? ==>
              err == Some(e.Derive(ifp.iface.privateKey).error)
              && extended == EmptyIWP && sub == EmptyIWP && e.draws == old(e.draws)
    ensures err.None? ==>
              e.draws == old(e.draws) + ExtendDraws(enablePreshare)
              && ExtendWith(e, ifp, enablePreshare, DrawnPriv(e, old(e.draws)), DrawnPub(e, old(e.draws)),
                            DrawnPsk(e, old(e.draws))) == Ok((extended, sub))
  {
    var pub := e.Derive(ifp.iface.privateKey);
    if pub.Err? {
      return EmptyIWP, EmptyIWP, Some(pub.error);
    }
    ghost var n := e.draws;
    var peerPriv, peerPub := e.GenKeyPair();
    assert peerPriv == DrawnPriv(e, n) && peerPub == DrawnPub(e, n);
    var root := ZeroPeer;
    sub := InterfaceWithPeers(ZeroInterface, [ZeroPeer]);
    root := root.(publicKey := peerPub);
    sub := sub.(iface := sub.iface.(privateKey := peerPriv));
    sub := sub.(peers := sub.peers[0 := sub.peers[0].(publicKey := pub.value)]);
    if enablePreshare {
      var preshare := e.GenPresharedKey();
      root := root.(presharedKey := preshare);
      sub := sub.(peers := sub.peers[0 := sub.peers[0].(presharedKey := preshare)]);
    }
    extended := ifp.(peers := ifp.peers + [root]);
    err := None;
    assert root == NewEntry(peerPub, enablePreshare, DrawnPsk(e, n));
    assert sub == InterfaceWithPeers(ZeroInterface.(privateKey := peerPriv), [NewEntry(pub.value, enablePreshare, DrawnPsk(e, n))]);
  }
}
