# fire: WireGuard mesh generator, configuration codec and nftables set text

This project models the core of `fire`, a command-line tool that has two jobs:

- it generates WireGuard hub-and-spoke meshes;
- it writes nftables set declarations.

The model is written in Dafny and comes with proofs. It covers these parts of the tool:

- **The WireGuard configuration codec** (`common/wireguard/conf.go`). It models:
  - the `Interface` and `Peer` records;
  - their line-oriented `MarshalText`, which writes fields in a fixed key order, and `MarshalWireguardConf`;
  - the readers: `parseInterfaceKeyValue`, `parsePeerKeyValue`, the two `UnmarshalText` methods and the section scanner `ParseWireguardConf`.
- **Key generation** (`common/wireguard/crypto.go`):
  - the X25519 clamping of a private key;
  - the base64 text of keys;
  - the error paths of `GenPrivateKey`, `GenPublicKey` and `GenKeyPair`.
- **Typed keys and the entropy they are drawn from** (module `Keys`). This is the version that `combine.go` and `generate.go` use.
- **The address iterator** (`common/networks/ip/iter.go`). It yields the host addresses of a prefix in ascending order, starting after the network address. It is modelled as a class with the state of a pulled iterator.
- **The mesh step `Extend`** (`common/wireguard/combine.go`). It adds one spoke to a hub, and the hub and the spoke each get an entry for the other.
- **The generator** (`cmd/fire/wireguard/generate.go`):
  - option normalisation and parsing (`Build`);
  - `bindInterface` and `bindPeer`;
  - the `generateRandom` loop, which hands out addresses family by family.
- **`NonNil`** (`common/error.go`). It compacts a slice in place, dropping its zero values.
- **The nftables set** (`common/nftables/set/set.go`, `builder.go`):
  - `Valid`, `flags2String`, `AsAnonymous` and `AsNamed`;
  - the clause builder `setBuilder`.
- **The converter's format names** (`common/convert/source.go`).

Three kinds of outside code become parameters:

- **Address text.** `netip` parsing and printing are the four functions of `NetAddr.NetText`. The lemmas that need "parsing what was printed gives it back" say so with `NetText.Lawful()`.
- **Random bytes.** They are a stream `nat -> Bytes32` held by `Keys.KeyEngine`, together with a draw counter.
- **X25519 scalar base multiplication.** It is a function parameter.

Base64 (section 4 of RFC 4648, Go's `StdEncoding`), `strings`, `strconv` and `bufio.ScanLines` are modelled in `base64.dfy` and `text.dfy`. Only the parts the core uses are modelled.

Several behaviours of the code are surprising. The model follows the code, and the proofs state each one:

- **The `UnmarshalText` methods never succeed.** Both the Interface and the Peer `UnmarshalText` fill in the receiver, but their validity test reads a zero-valued local (`common/wireguard/conf.go:138` and `:296`). So both always fail, `ParseWireguardConf` always fails, and no peer is ever kept.
- **The duplicate check is narrow.** A second `[Interface]` is refused only when it comes directly inside the `[Interface]` section. After a `[Peer]` section it is accepted.
- **`bindPeer` never sets an endpoint.** It tests the peer's own endpoint, which is always empty, instead of the configured one.
- **The spoke's peer entry for the hub gets only the configured AllowIPs.** It does not get the hub's host routes.
- **The capacity does not reserve the hub's address.** Build clamps the count to `2^(32-bits) - 1`, but the hub takes one host address first. So when the count reaches the capacity, the last spoke gets no address of that family.

## Model

| member | source | states |
|---|---|---|
| Crypto.ClearLow3 | common/wireguard/crypto.go:16 | the result is the byte rounded down to a multiple of 8 |
| Crypto.ClearTop | common/wireguard/crypto.go:17 | the result is below 128, equal to the byte when its top bit is clear, and the byte minus 128 otherwise |
| Crypto.SetBit6 | common/wireguard/crypto.go:18 | bit 6 is set; the low six bits and the top bit are kept |
| Crypto.Clamp | common/wireguard/crypto.go:16-18 | the result is clamped; bytes 1 to 30 are unchanged; byte 0 loses its low three bits; byte 31 keeps its low six bits |
| Crypto.ClampFixesClamped | common/wireguard/crypto.go:16-18 | clamping leaves a key unchanged exactly when it is already clamped |
| Crypto.ClampIdempotent | common/wireguard/crypto.go:16-18 | clamping twice is clamping once |
| Crypto.GenPrivateKey | common/wireguard/crypto.go:9-24 | a read error is returned with an empty key; otherwise the key is the 44-character base64 text of the clamped random bytes |
| Crypto.GenPublicKey | common/wireguard/crypto.go:26-47 | corrupt base64 is an error; a decoded key that is not 32 bytes gives an empty key and no error; otherwise the result is the base64 of scalar multiplication by the decoded key |
| Crypto.GenKeyPair | common/wireguard/crypto.go:49-61 | a read error is propagated with both keys empty; otherwise the private key is the clamped draw and the public key is derived from it |
| Base64.DecodeEncode | common/wireguard/crypto.go:20-28 | decoding the standard base64 text of any bytes gives the bytes back |
| Base64.EncodedLen32 | common/wireguard/crypto.go:20-27 | a 32-byte key encodes to 44 characters, and 44 characters leave room for 33 decoded bytes |
| Keys.ZeroKeysInvalid | common/wireguard/combine.go:9-12 | the zero private, public and preshared keys are all invalid |
| Keys.ParseKey | common/wireguard/crypto.go:27-36 | a key text is accepted exactly when it is base64 of 32 bytes, and then it gives those bytes; otherwise the error is InvalidKey |
| Keys.ParseKeyString | common/wireguard/crypto.go:20-36 | parsing a key's text gives the key back |
| Keys.KeyEngine.constructor | cmd/fire/wireguard/generate.go:179 | the engine holds the given entropy stream and scalar multiplication, with nothing drawn yet |
| Keys.KeyEngine.Derive | common/wireguard/combine.go:9-12 | derivation succeeds exactly for a valid (clamped) private key, giving its scalar product; otherwise the error is InvalidKey |
| Keys.KeyEngine.GenPrivateKey | cmd/fire/wireguard/generate.go:179 | the key is the next draw, clamped, and so valid; one draw is used |
| Keys.KeyEngine.GenKeyPair | common/wireguard/combine.go:13 | the private key is the next draw, clamped; the public key is its derivation; one draw is used |
| Keys.KeyEngine.GenPresharedKey | common/wireguard/combine.go:20 | the preshared key is the next draw, unclamped; one draw is used |
| NetAddr.Addr.Next | common/networks/ip/iter.go:14-19 | the successor is valid exactly below the family's last address, and then is the address plus one |
| NetAddr.Masked | common/networks/ip/iter.go:12 | a valid prefix keeps its length and family and gets its network address; an invalid one stays invalid |
| NetAddr.MaskedIdempotent | common/networks/ip/iter.go:12 | masking twice is masking once |
| NetAddr.MaskedContains | common/networks/ip/iter.go:12-15 | a masked prefix contains the same addresses as the prefix it came from |
| NetAddr.PrefixFrom | cmd/fire/wireguard/generate.go:211-222 | the prefix is valid exactly for a valid address and a length within its family, and keeps the address |
| NetAddr.HostPrefixContains | cmd/fire/wireguard/generate.go:211-222 | a full-length prefix around an address contains that address and no other |
| NetAddr.Cursor | common/networks/ip/iter.go:14-19 | the address reached after k steps is, when valid, the network address plus 1 + k in the same family |
| NetAddr.CursorNext | common/networks/ip/iter.go:19 | stepping the cursor once is taking the next address |
| NetAddr.CursorInside | common/networks/ip/iter.go:15 | every cursor position below the host count is a valid address inside the prefix |
| NetAddr.CursorOutside | common/networks/ip/iter.go:15 | at the host count, the cursor is invalid or outside the prefix, so the loop stops there |
| PrefixIter.HostsAscending | common/networks/ip/iter.go:14-20 | later addresses are larger, by exactly the number of steps between them |
| PrefixIter.FullLengthYieldsNothing | common/networks/ip/iter.go:14-15 | a full-length prefix (/32 or /128) has no host to yield |
| PrefixIter.LoopTest | common/networks/ip/iter.go:15 | the loop test holds exactly below the host count, and each address yielded is well formed and not the network address |
| PrefixIter.PrefixCursor.constructor | common/networks/ip/iter.go:8-13 | a valid prefix starts an iterator over its masked form with nothing yielded |
| PrefixIter.PrefixCursor.Next | common/networks/ip/iter.go:14-20 | while any remain, each pull yields the next host address in order, inside the prefix and not the network address; after that it reports exhaustion and yields nothing more |
| PrefixIter.PrefixCursor.Stop | common/networks/ip/iter.go:16-17 | stopping finishes the iterator and keeps what was yielded |
| Text.TrimSpace | common/wireguard/conf.go:114 | the result starts and ends with no white space and is no longer than the input |
| Text.TrimSpaceAround | common/wireguard/conf.go:126-127 | trimming a text surrounded by white space gives back the trimmed core |
| Text.SplitN2 | common/wireguard/conf.go:121-124 | splitting at the first separator gives one part when there is none, otherwise the text before it and the rest |
| Text.IndexOfFirst | common/wireguard/conf.go:121 | the index found is the first occurrence of the character |
| Text.Split | common/wireguard/conf.go:153 | there is at least one part, no part holds the separator, and joining the parts with it gives the text back |
| Text.SplitJoin | common/nftables/set/set.go:89-94 | splitting the join of separator-free parts gives the parts back |
| Text.JoinNoChar | common/wireguard/conf.go:67 | a character in neither the parts nor the separator is not in their join |
| Text.ParseUint | common/wireguard/conf.go:163-167 | accepted exactly when the text is a non-empty run of digits whose value is within the bound, and the result is that value; a failure is a syntax or range error, and always a range error for a run of digits |
| Text.ParseInt64 | common/wireguard/conf.go:185-189 | accepted exactly when an optional `+` or `-` is followed by at least one digit and the signed value lies in the 64-bit range, and the result is that signed value; a failure is a syntax or range error, and always a range error for well-formed text |
| Text.ParseFormatInt64 | common/wireguard/conf.go:83-87 | parsing the decimal text of any 64-bit integer gives it back |
| Text.ParseFormatUint16 | common/wireguard/conf.go:71 | parsing the decimal text of any port gives it back |
| Text.ToLower | common/wireguard/conf.go:199 | the result has the same length; ASCII upper-case letters are lowered and every other character is kept |
| Text.ScanLines | common/wireguard/conf.go:112-114 | no scanned line holds a newline, and only the empty text gives no lines |
| Text.ScanTerminated | common/wireguard/conf.go:112-114 | scanning lines written each with a newline gives those lines back, when none holds a newline or ends in a carriage return |
| ConfKeys.KeyAt | common/wireguard/conf.go:53-108 | the key written at each of the 16 output positions has that position as its rank |
| ConfKeys.KeyAtRank | common/wireguard/conf.go:53-108 | every key has a rank below 16, and the key at its rank is itself |
| ConfKeys.InterfaceKeyOf | common/wireguard/conf.go:148-204 | a name parseInterfaceKeyValue recognises is the name of an Interface key |
| ConfKeys.PeerKeyOf | common/wireguard/conf.go:309-335 | a name parsePeerKeyValue recognises is the name of a Peer key |
| ConfKeys.InterfaceKeyOfName | common/wireguard/conf.go:148-204 | each Interface key is recognised by its own name |
| ConfKeys.PeerKeyOfName | common/wireguard/conf.go:309-335 | each Peer key is recognised by its own name |
| ConfFields.Lines | common/wireguard/conf.go:53-108 | each field is written as one `Key = value` line, one line per field |
| ConfFields.LinesAppend | common/wireguard/conf.go:53-108 | the lines of two field lists in turn are the lines of their concatenation |
| ConfFields.RenderAppend | common/wireguard/conf.go:53-108 | rendering is additive over field lists |
| ConfFields.ValuesRepeated | common/wireguard/conf.go:90-101 | a repeated key's lines give back all its values, in order, and no value of any other key |
| ConfFields.OrderedAddRepeated | common/wireguard/conf.go:90-101 | appending the lines of a key whose rank is not below the others keeps the key order |
| ConfFields.GroupOrdered | common/wireguard/conf.go:53-108 | fields written group by group in ascending key rank are in key order, with ranks within the groups' range |
| ConfFields.GroupValues | common/wireguard/conf.go:53-108 | the values of one key in the grouped fields are exactly that key's group |
| ConfFields.WriteKey | common/wireguard/conf.go:53-108 | writing the next key's group extends the rendering of the groups written so far by that group |
| ConfFields.WriteSection | common/wireguard/conf.go:53-108 | the buffer holds the rendering of every key's group, in rank order |
| ConfFields.WriteField | common/wireguard/conf.go:70-88 | one field is added to the written list and its line to the buffer |
| ConfFields.WriteLines | common/wireguard/conf.go:90-101 | one field per hook command is added to the written list, in order, and the buffer holds their rendering |
| ConfFields.OrderedWithin | common/wireguard/conf.go:53-108 | in an ordered field list every earlier field's rank is at most every later one's, and all ranks lie in the range |
| WireguardConf.AddrTexts | common/wireguard/conf.go:63-66 | one address text per address |
| WireguardConf.FormatAddrs | common/wireguard/conf.go:63-66 | the loop collects the text of each address, in order |
| WireguardConf.FormatPrefixes | common/wireguard/conf.go:247-250 | the loop collects the text of each allowed prefix, in order |
| WireguardConf.InterfaceValueLists | common/wireguard/conf.go:53-108 | the Interface has one value list per section key, eleven in all |
| WireguardConf.InterfaceText | common/wireguard/conf.go:53-60 | rendering succeeds exactly when the private key is valid; otherwise the error names PrivateKey |
| WireguardConf.InterfaceFieldsOrdered | common/wireguard/conf.go:56-105 | the Interface's fields come in fixed key order, from PrivateKey to SaveConfig |
| WireguardConf.InterfaceFieldValues | common/wireguard/conf.go:56-105 | each key's lines in the output carry exactly that field's values |
| WireguardConf.MarshalInterfaceText | common/wireguard/conf.go:53-108 | the buffer-building method returns exactly the specified Interface text or error |
| WireguardConf.WriteInterface | common/wireguard/conf.go:62-105 | the buffer holds the rendering of the Interface's field list |
| WireguardConf.PeerValueLists | common/wireguard/conf.go:233-265 | the Peer has one value list per section key, five in all |
| WireguardConf.PeerText | common/wireguard/conf.go:233-254 | rendering succeeds exactly when the public key is valid and AllowedIPs is not empty; otherwise the error names the first missing field |
| WireguardConf.PeerFieldsOrdered | common/wireguard/conf.go:236-262 | the Peer's fields come in fixed key order, from PublicKey to PersistentKeepalive |
| WireguardConf.PeerFieldValues | common/wireguard/conf.go:236-262 | each key's lines in the output carry exactly that field's values |
| WireguardConf.MarshalPeerText | common/wireguard/conf.go:233-265 | the buffer-building method returns exactly the specified Peer text or error |
| WireguardConf.WritePeer | common/wireguard/conf.go:242-262 | the buffer holds the rendering of the Peer's field list |
| WireguardConf.BlocksOk | common/wireguard/conf.go:417-425 | the peer blocks are written exactly when every peer's text is |
| WireguardConf.BlocksErr | common/wireguard/conf.go:417-425 | a failure is the first failing peer's own error |
| WireguardConf.PeersTextOk | common/wireguard/conf.go:417-425 | the peers are written exactly when each of them can be |
| WireguardConf.PeersTextErr | common/wireguard/conf.go:417-425 | a failure is one of the peers' own errors |
| WireguardConf.ConfText | common/wireguard/conf.go:404-428 | an invalid private key fails with PrivateKey named; otherwise the file is written exactly when all peers are |
| WireguardConf.ConfTextOk | common/wireguard/conf.go:404-428 | the file is written exactly when the key is valid and every peer can be written |
| WireguardConf.MarshalWireguardConf | common/wireguard/conf.go:404-428 | the method returns exactly the specified file text or error |
| WireguardConf.WritePeers | common/wireguard/conf.go:417-425 | the loop appends each `[Peer]` block in turn and stops at, and returns, the first error |
| WireguardConf.BlocksStep | common/wireguard/conf.go:418-424 | one loop step appends one peer's header, text and blank line |
| WireguardConf.BlocksStopAt | common/wireguard/conf.go:419-421 | the first failing peer decides the result |
| ConfParse.LineKV | common/wireguard/conf.go:114-127 | a line gives a key and a value exactly when, trimmed, it is not blank, a comment or a header and it holds `=`; both parts are trimmed |
| ConfParse.TrimFieldLine | common/wireguard/conf.go:114 | trimming a written field line keeps its key, its `=` and its value |
| ConfParse.SplitFieldLine | common/wireguard/conf.go:121 | a written field line splits into its key part and its value part |
| ConfParse.LineKVOf | common/wireguard/conf.go:114-127 | reading a line `name = value` gives back the name and the value |
| ConfParse.LineKVField | common/wireguard/conf.go:114-127 | reading the line written for a field gives back its key name and value |
| ConfParse.TrimEach | common/wireguard/conf.go:155 | each element is trimmed, and the number of elements is kept |
| ConfParse.AppendParsed | common/wireguard/conf.go:152-161 | the parsed elements are appended in order; the first one that fails to parse stops the list and gives the error |
| ConfParse.ParseElements | common/wireguard/conf.go:152-161 | the loop appends the parsed elements of a comma-separated value, stopping at the first error |
| ConfParse.InterfaceKV | common/wireguard/conf.go:148-204 | an unknown key leaves the Interface unchanged, with no error |
| ConfParse.SetInterfaceKey | common/wireguard/conf.go:148-204 | setting a key changes only that key's field |
| ConfParse.InterfaceKVByName | common/wireguard/conf.go:148-204 | the name of an Interface key leads to that key's field |
| ConfParse.InterfaceKeyHooks | common/wireguard/conf.go:190-197 | each hook line appends its command to that hook's list |
| ConfParse.InterfaceKeySaveConfig | common/wireguard/conf.go:198-201 | SaveConfig becomes true on any spelling of `true` and otherwise keeps its value |
| ConfParse.InterfaceKeyListenPort | common/wireguard/conf.go:162-167 | a port text that parses sets the port; one that does not is an error |
| ConfParse.InterfaceKeyAddress | common/wireguard/conf.go:152-161 | Address appends its parsed addresses, in order |
| ConfParse.InterfaceKeyDNS | common/wireguard/conf.go:168-177 | DNS appends its parsed addresses, in order |
| ConfParse.ParseInterfaceKeyValue | common/wireguard/conf.go:148-204 | the method computes exactly the specified update and error |
| ConfParse.PeerKV | common/wireguard/conf.go:309-335 | an unknown key leaves the Peer unchanged, with no error |
| ConfParse.SetPeerKey | common/wireguard/conf.go:309-335 | setting a key changes only that key's field |
| ConfParse.PeerKVByName | common/wireguard/conf.go:309-335 | the name of a Peer key leads to that key's field |
| ConfParse.PeerKeyEndpoint | common/wireguard/conf.go:325-326 | Endpoint stores its text unchecked |
| ConfParse.PeerKeyAllowedIPs | common/wireguard/conf.go:315-324 | AllowedIPs appends its parsed prefixes, in order |
| ConfParse.ParsePeerKeyValue | common/wireguard/conf.go:309-335 | the method computes exactly the specified update and error |
| ConfParse.UnmarshalInterface | common/wireguard/conf.go:110-146 | the receiver takes the parsed values, but the result is always an error: the first parse error if there was one, otherwise a private-key error |
| ConfParse.UnmarshalInterfaceText | common/wireguard/conf.go:110-146 | the scanning method computes exactly the specified Interface and error |
| ConfParse.UnmarshalPeer | common/wireguard/conf.go:267-307 | the receiver takes the parsed values, but the result is always an error: the first parse error if there was one, otherwise a public-key error |
| ConfParse.UnmarshalPeerText | common/wireguard/conf.go:267-307 | the scanning method computes exactly the specified Peer and error |
| ConfParse.FlushPeer | common/wireguard/conf.go:354-360 | closing a `[Peer]` block empties its text and keeps no peer |
| ConfParse.ScanStep | common/wireguard/conf.go:344-380 | a line fails exactly when it is an unknown header, or a second `[Interface]` directly inside `[Interface]`; it never adds a peer |
| ConfParse.ScanKeepsNoPeer | common/wireguard/conf.go:344-380 | after any number of lines the list of peers is as it started |
| ConfParse.ScanErrors | common/wireguard/conf.go:362-370 | a scan fails only with DuplicateSection or UnknownSection |
| ConfParse.DuplicateCheckIsNarrow | common/wireguard/conf.go:362-366 | two `[Interface]` headers in a row are refused, but `[Interface]`, `[Peer]`, `[Interface]` is accepted |
| ConfParse.ParseConf | common/wireguard/conf.go:337-402 | every input ends in an error with the zero Interface and no peers: a scan error, MissingSection when there is no Interface body, or otherwise the error `UnmarshalInterface` gives for the Interface body |
| ConfParse.ParseWireguardConf | common/wireguard/conf.go:337-402 | the scanning method computes exactly the specified result |
| Combine.ExtendWith | common/wireguard/combine.go:8-27 | the hub's key fails exactly when Extend fails, with that error; on success the hub gains one entry for the new public key and the spoke has one entry for the hub's public key; both entries share the preshared key, and every other field is zero |
| Combine.ExtendPairsKeys | common/wireguard/combine.go:9-18 | the hub's entry names the spoke's public key, and the spoke's entry names the hub's |
| Combine.ExtendNoPreshare | common/wireguard/combine.go:19-23 | without presharing, both entries carry the zero preshared key |
| Combine.Extend | common/wireguard/combine.go:8-27 | the method returns the specified pair, or the hub's key error; it draws one key, and a second when presharing |
| Generate.BindInterface | cmd/fire/wireguard/generate.go:55-64 | the keys, addresses and flags are kept; hooks, MTU, DNS, port and table come from the options |
| Generate.BindInterfaceIdempotent | cmd/fire/wireguard/generate.go:55-64 | binding twice is binding once |
| Generate.BindPeer | cmd/fire/wireguard/generate.go:66-74 | the keys are kept; AllowedIPs come from the options; a positive keepalive is taken; an empty endpoint stays empty, and a non-empty one becomes the configured host and port |
| Generate.EndpointNeverSet | cmd/fire/wireguard/generate.go:71-73 | whatever the options, binding a peer with no endpoint sets none |
| Generate.Defaults | cmd/fire/wireguard/generate.go:77-88 | only the IPv4 flag, the keepalive, the MTU and the table change |
| Generate.DefaultsNormalise | cmd/fire/wireguard/generate.go:77-88 | IPv4 is on when no family is chosen; the MTU becomes 1420 when not positive; a negative keepalive and a non-positive table become 0; values already in range are kept; applying defaults twice is applying them once |
| Generate.V4Cap | cmd/fire/wireguard/generate.go:95 | the IPv4 capacity is the prefix's host count |
| Generate.V6Cap | cmd/fire/wireguard/generate.go:102 | the IPv6 capacity is below 2^32, because the exponent is capped at 32 |
| Generate.ParseCidrs | cmd/fire/wireguard/generate.go:89-105 | an enabled family's bad CIDR is the error; otherwise the prefixes are parsed and the count is clamped by each enabled family's capacity; nothing else changes |
| Generate.WithAllowTexts | cmd/fire/wireguard/generate.go:105-114 | only the count and the AllowIPs texts change |
| Generate.AppendParsedAll | cmd/fire/wireguard/generate.go:115-128 | a parse that succeeds appends one parsed value for each text |
| Generate.ParseLists | cmd/fire/wireguard/generate.go:115-128 | only the parsed AllowIPs and DNS lists change |
| Generate.ParseListsAll | cmd/fire/wireguard/generate.go:115-128 | the lists parse exactly when every AllowIPs and DNS text does, and then hold their parsed values in order |
| Generate.BuildBounds | cmd/fire/wireguard/generate.go:89-105 | after Build the count is at most the requested count, MaxPeerCount and each enabled family's capacity |
| Generate.BuildParsesAll | cmd/fire/wireguard/generate.go:89-128 | after Build every prefix and address comes from parsing its text |
| Generate.BuildFailsOnBadText | cmd/fire/wireguard/generate.go:89-128 | a bad CIDR of an enabled family, a bad AllowIPs text or a bad DNS text makes Build fail |
| Generate.BuildAllowDefault | cmd/fire/wireguard/generate.go:107-114 | with no AllowIPs given, AllowIPs are the masked prefixes of the enabled families |
| Generate.DefaultPrefixesParse | cmd/fire/wireguard/generate.go:107-121 | the printed masked prefixes parse back to themselves |
| Generate.ParseAll | cmd/fire/wireguard/generate.go:115-128 | the loop parses and appends each text, stopping at the first error |
| Generate.BuildCidrs | cmd/fire/wireguard/generate.go:89-105 | the method computes exactly the specified CIDR step |
| Generate.BuildLists | cmd/fire/wireguard/generate.go:105-128 | the method computes exactly the specified list step |
| Generate.BuildOfSteps | cmd/fire/wireguard/generate.go:76-130 | Build is defaults, then the CIDRs, then the lists, and the first error stops it |
| Generate.ApplyDefaults | cmd/fire/wireguard/generate.go:77-88 | the method applies exactly the specified defaults |
| Generate.Build | cmd/fire/wireguard/generate.go:76-130 | the method computes exactly the specified result |
| Generate.BuildIterable | cmd/fire/wireguard/generate.go:89-103 | a successful Build leaves valid, well-formed prefixes to iterate over |
| Generate.FamilyAddr | cmd/fire/wireguard/generate.go:211-222 | each family gives a spoke at most one address |
| Generate.HostRoutes | cmd/fire/wireguard/generate.go:213-219 | each address gives one full-length prefix around it |
| Generate.HostRoutesAppend | cmd/fire/wireguard/generate.go:213-219 | adding an address adds its host route |
| Generate.HostRoutesConcat | cmd/fire/wireguard/generate.go:211-222 | the host routes of two lists are the routes of each list, concatenated |
| Generate.PullNext | cmd/fire/wireguard/generate.go:211-222 | one pull yields the family's next address, or nothing when exhausted |
| Generate.PullFirst | cmd/fire/wireguard/generate.go:181-195 | a fresh iterator's first pull yields the family's first address |
| Generate.ConfigureWith | cmd/fire/wireguard/generate.go:211-222 | the spoke's address, or none, is added to the spoke and its host route to the hub's last entry |
| Generate.ConfiguredHub | cmd/fire/wireguard/generate.go:205-229 | after both families are configured, the hub's new entry has the spoke's host routes of both families |
| Generate.ConfiguredEntry | cmd/fire/wireguard/generate.go:206-222 | the configured entry is the entry the spoke is specified by |
| Generate.ConfiguredAddresses | cmd/fire/wireguard/generate.go:211-222 | the spoke gets its IPv4 address, then its IPv6 address |
| Generate.ConfiguredSpoke | cmd/fire/wireguard/generate.go:206-226 | the configured and bound spoke is the specified spoke |
| Generate.SpokeFromExtend | cmd/fire/wireguard/generate.go:206-226 | a spoke built through Extend meets the specification of that spoke |
| Generate.ConfigureFamily | cmd/fire/wireguard/generate.go:211-222 | one family's step pulls at most one address and configures the pair with it |
| Generate.ConfigureSpoke | cmd/fire/wireguard/generate.go:211-226 | both families' steps and the binding produce the specified spoke |
| Generate.AddSpoke | cmd/fire/wireguard/generate.go:205-229 | one loop iteration adds exactly one hub entry and one spoke, both as specified |
| Generate.NewHub | cmd/fire/wireguard/generate.go:178-204 | the hub gets a valid key and the first address of each enabled family, and each family's iterator is fresh and distinct |
| Generate.GenerateRandom | cmd/fire/wireguard/generate.go:177-233 | never an error; the hub is bound and valid; there are as many spokes as hub entries as the count; spoke k and hub entry k are as specified for address k |
| Generate.FamilyAddrInside | cmd/fire/wireguard/generate.go:211-222 | a spoke's address lies in its family's prefix and is not the network address |
| Generate.AddrsInside | cmd/fire/wireguard/generate.go:211-222 | every spoke address is valid and lies in its family's prefix |
| Generate.FamilyAddrsDistinct | cmd/fire/wireguard/generate.go:205-222 | later spokes get strictly larger addresses of a family |
| Generate.FamilyAddrShape | cmd/fire/wireguard/generate.go:211-222 | a family's address k is the k-th host of its prefix |
| Generate.WithinFamily | cmd/fire/wireguard/generate.go:205-222 | no two spokes share an address of one family |
| Generate.AcrossFamilies | cmd/fire/wireguard/generate.go:211-222 | an IPv4 address is never an IPv6 one |
| Generate.AddrsDistinct | cmd/fire/wireguard/generate.go:205-222 | no address is handed to two spokes |
| Generate.HostRoutesCover | cmd/fire/wireguard/generate.go:213-219 | an address is routed by the host routes exactly when it is one of the listed addresses |
| Generate.HubEntryRoutesSpoke | cmd/fire/wireguard/generate.go:213-219 | the hub's entry for a spoke routes exactly that spoke's addresses |
| Generate.LastSpokeMissesAddress | cmd/fire/wireguard/generate.go:95 | when the count equals the IPv4 capacity, the last spoke gets no IPv4 address and all the others get one |
| NonNil.NonZero | common/error.go:3-21 | the result is no longer than the input |
| NonNil.NonZeroAppend | common/error.go:13-20 | compacting distributes over concatenation |
| NonNil.NonZeroCounts | common/error.go:13-20 | every non-zero value is kept as often as it occurs, and the zero value is dropped |
| NonNil.NonZeroLength | common/error.go:13-21 | the result is shorter than the input by the number of zeros in it |
| NonNil.NonZeroHasNoZero | common/error.go:13-20 | no zero value survives |
| NonNil.NonZeroOfNoZero | common/error.go:13-20 | a slice without zero values is returned unchanged |
| NonNil.NonZeroIdempotent | common/error.go:3-21 | compacting twice is compacting once |
| NonNil.Compact | common/error.go:3-21 | in place, the first n elements become the input's non-zero values in order, and the rest of the array is untouched |
| NftSet.Valid | common/nftables/set/set.go:50-71 | a set is valid exactly when its type is one of the seven known, every flag is one of the three known and its policy is one of the two known |
| NftSet.PolicyRequired | common/nftables/set/set.go:65-70 | an empty policy is always rejected |
| NftSet.FlagsOptional | common/nftables/set/set.go:57-63 | without flags, validity depends only on the type and the policy |
| NftSet.UnknownFlagRejects | common/nftables/set/set.go:57-63 | one unknown flag anywhere rejects the set |
| NftSet.FlagsToStrings | common/nftables/set/set.go:96-105 | nil flags give nil and otherwise each flag gives its text, in order |
| NftSet.FlagsRoundTrip | common/nftables/set/set.go:96-105 | the flags can be rebuilt from their texts |
| NftSet.AsAnonymous | common/nftables/set/set.go:89-94 | the text is the elements joined by commas between braces |
| NftSet.AnonymousRoundTrip | common/nftables/set/set.go:89-94 | comma-free elements can be read back from the anonymous set |
| NftSet.SetBuilder.constructor | common/nftables/set/builder.go:14-16 | a new builder holds no text |
| NftSet.SetBuilder.SetName | common/nftables/set/builder.go:24-29 | appends `set NAME{` |
| NftSet.SetBuilder.AddBool | common/nftables/set/builder.go:31-37 | a true flag appends its name and the delimiter; a false one adds nothing |
| NftSet.SetBuilder.AddString | common/nftables/set/builder.go:39-48 | an empty value adds nothing; otherwise `key value;` is appended |
| NftSet.SetBuilder.AddSlice | common/nftables/set/builder.go:50-58 | the values are joined with the given separator, a comma when none is given, and added as a string clause |
| NftSet.SetBuilder.AddElements | common/nftables/set/builder.go:60-67 | no elements add nothing; otherwise `elements={a,b};` is appended |
| NftSet.SetBuilder.String | common/nftables/set/builder.go:18-22 | the text gets its closing brace, and the builder is emptied as the pool does on return |
| NftSet.AsNamed | common/nftables/set/set.go:73-87 | the declaration is the name, then clauses for the type, timeout, gc-interval, size, policy, flags, counter, auto-merge and elements, then the closing brace |
| NftSet.ElementsAreAnonymous | common/nftables/set/builder.go:60-67 | the elements clause holds the anonymous form of the set |
| NftSet.NamedMinimal | common/nftables/set/set.go:73-87 | a set with no optional field declares only its type and policy |
| NftSet.JoinEmpty | common/nftables/set/builder.go:50-58 | a comma join is empty exactly for no items or a single empty item |
| NftSet.NamedDelimiters | common/nftables/set/builder.go:8-67 | when no text holds `;`, the declaration holds one `;` for each clause that is present |
| ConvertFormat.SourceValid | common/convert/source.go:13-20 | a source format is valid exactly when it is one of the five names |
| ConvertFormat.TargetValid | common/convert/source.go:28-35 | a target format is valid exactly when it is the nftables set |
| ConvertFormat.SourceRejects | common/convert/source.go:13-20 | `txt`, the empty name and upper-case spellings are rejected |
| ConvertFormat.SourceValidNonEmpty | common/convert/source.go:13-20 | a valid source name has at least three characters |

## Left out

- Concurrency and I/O:
  - JSON marshalling of the records (`json` tags, the encode at `cmd/fire/wireguard/generate.go:232`) and the command-line wiring (cobra commands, `GenerateConfig`'s command runner, `os.Stdout`) are not part of this model.
  - The `bufio.Scanner` is modelled as splitting the whole text into lines. Its token-too-long error and `scanner.Err()` are not modelled, because the text is already in memory.
- `net/netip`, `crypto/rand` and `curve25519` are not part of this model:
  - address and prefix parsing and printing are parameters (`NetAddr.NetText`);
  - random bytes are a stream parameter of `Keys.KeyEngine`;
  - scalar multiplication is a function parameter.
- The key types (`PrivateKey`, `PublicKey`, `PresharedKey` and their validity, text and `GenPresharedKey`) live in a file that is not part of this model. They are defined the way combine.go and generate.go use them:
  - a private key is valid when it is clamped;
  - the other two are valid when they are not zero;
  - their text is base64.
- Methods with pointer receivers (the `UnmarshalText` methods, `parseInterfaceKeyValue`, `parsePeerKeyValue`) take the receiver's value and return its new value. Aliasing of the receiver is not modelled.
- The string-builder pool (`common/pool`, `common/strings.go`) is modelled as a fresh empty builder per use. `NftSet.SetBuilder.String` empties it, as returning it to the pool does.
- `common/errors` (an `fmt.Sprint` wrapper), `common/ewr`, the rule converter's readers and the nftables commands are not part of this model. Errors are a datatype of the kinds the core raises.
- `Generate.Build` requires that the shift counts are defined. With IPv4 enabled, a prefix longer than 32 bits would make Go's shift count negative and panic; the model does not define that panic.
- `Generate.GenerateRandom` never returns Extend's error. The hub's key is valid, so that error cannot happen; the model proves this instead of modelling the branch.
- `Generate.GenerateRandom`: the loop body is factored into helper methods (`AddSpoke`, `ConfigureSpoke`, `ConfigureFamily`, `PullNext`). The keys stay relational: each spoke's key is stated through `Keys.KeyEngine.Derive`, not as a particular draw position.
- `Generate.AddrsDistinct` requires the two families' prefixes to have different widths. This is true of any Build result whose IPv4 and IPv6 CIDRs parse as their own families.
- `NonNil.Compact` returns the length of the compacted prefix of the array, not a slice that aliases it.
- Go's distinction between a nil slice and an empty one is kept only for the set flags, where `flags2String` tells them apart.
- `NftSet.Valid` is modelled on a set value.
- `Text.ToLower` lowers ASCII letters only; Unicode case mapping is not modelled. It makes no difference to the comparison with `"true"` at `common/wireguard/conf.go:199`.
