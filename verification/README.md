# ShinVPN, verified

A Dafny model of the parts of ShinVPN whose guarantees are sharp: the domain filter, the sequenced AEAD channel,
the multiplexed proxy streams from the local application to the remote writer, the server's session tables and
address leases, the handshake, multi-hop forwarding and hop choice, and the TLS look-alike messages. Objects whose
methods change fields are classes here as well, and each method is proved against a function of its old state; what
the program promises is then proved about those functions, over every run.

`dafny verify dfyconfig.toml` checks everything.

## How it is laid out

| files | part of the program |
|---|---|
| `Wrappers`, `Bits`, `Bytes` | option and result types; shifts and masks on unbounded integers; fixed-width integers in byte strings |
| `Names`, `Bloom`, `Trie`, `LruCache`, `Filter`, `CyberShield` | the domain filter, from label splitting up to the whole object |
| `ReplayWindow`, `Cipher`, `Channel` | the sliding bitmap, the cipher object, and one direction of a session over a hostile network |
| `Frames` | headers, frames, typed payloads |
| `Gateway`, `Handlers`, `ProxyGateway`, `Tunnel` | what the local SOCKS/HTTP gateway makes of a connection, all its handlers taking turns, the gateway object, which takes such turns and no others, and the client's sending side |
| `Streams`, `ProxySession` | the server's streams as atomic steps split at `await`, and the session object that takes them |
| `EndToEnd`, `Connections`, `Runs` | the composition: application bytes to remote writer, for one connection and for all of them, and runs that show what can happen |
| `IpPool`, `SessionTables`, `Server` | the lease allocator, the three session tables as a state machine, and the server object |
| `Addresses`, `Handshake` | dotted decimal, and the four handshake methods |
| `MultiHop`, `Pathfinder` | onion frames and the choice of relays |
| `Obfuscation` | ClientHello and ServerHello, padding, record wrapping |

## The main results

* **Domain filter.** Whatever the two hash functions are and after any history of additions, exemptions, toggles and
  queries, the answer through cache, Bloom filter and trie is the plain one (`Filter.HistoryRefines`,
  `CyberShield.CyberShieldAdBlocker.ShouldBlock`), for rules of at least two labels. That condition is not an artefact:
  the Bloom probe never asks for the last label alone, so a rule such as `com` does not stop `a.com`
  (`Filter.SingleLabelRuleMissed`). `Filter.RightForEveryHash` gives the exact condition under which the verdict is
  right for all hash functions: a blocked name has a suffix of two or more labels that was added to the Bloom filter.
  What is inserted, exempted and switched on after a history is known exactly as well (`Filter.HistoryInserts`,
  `Filter.HistoryExempts`, `Filter.HistorySwitch`).
* **Channel.** The 128-bit bitmap is the set of accepted numbers, in every state and for every window size; over a
  network that drops, duplicates, reorders and forges packets, each packet is delivered at most once and unaltered.
  A first arrival is delivered exactly when no packet was forged with its number and it is at most 127 behind the
  newest number, forged ones included: the filter records a number before the tag is checked.
* **Streams.** For every interleaving and every connection id used once, bytes written plus bytes waiting are the DATA
  since CONNECT, until the connection is ended; and what its writer was given in the end is known exactly
  (`Streams.WrittenExactly`). An id that is reused while open does become connecting and open at once
  (`Streams.BothExactly`, `Streams.ReuseMakesBoth`).
* **End to end.** The bytes written remotely are always a prefix of what the application sent, for all connections of
  the gateway at once (`Connections.EveryConnectionArrives`), whatever else the client sends through the same cipher.
  While the counter lasts, a connection exists at the server if and only if its connect request fits its frame: an id
  below 2^32, a port of 16 bits, and a host of at most 65511 bytes (`EndToEnd.ReachesServer`). The gateway does not
  check that. A SOCKS4a request for a longer name, or an HTTP CONNECT line with a larger port, is granted, and all its
  bytes go nowhere (`Runs.LongNameLosesAll`, `Runs.WidePortLosesAll`). A rewritten HTTP header too long for a frame is
  left out of the stream. `EndToEnd.DeliveredExactly` gives the condition under which neither happens.
  A connection that exists misses nothing until CLOSE is handled or the server's side ends it
  (`EndToEnd.AllApplicationBytesArrive`). CLOSE then decides between all and nothing
  (`EndToEnd.CloseDecidesApplicationBytes`): the remote side keeps the whole stream if and only if the connection was
  open when CLOSE was handled, or the stream is empty and the connection was made afterwards. An application that
  closes its side before the remote connection is made therefore loses everything it sent, and the connection that is
  made afterwards stays open (`Streams.CloseLosesPending`, `Runs.RunThatLoses`).
* **Sessions.** Over every run the leases are exactly the live sessions', so no two share an address, and stopping
  returns them all. The tables by address and by virtual address are exact inverse indexes throughout a run if and only
  if no granted handshake shares an identifier or an address with another live session (`SessionTables.RunIndexed`);
  `SessionTables.LateDropHitsAnother` shows how a shared identifier later strips an unrelated live session of its entry.
* **Requests.** The gateway finds a request exactly if a SOCKS5 or SOCKS4 CONNECT request, or a header up to its first
  blank line, stands at the front of the bytes, and takes exactly that (`Gateway.RequestExactly`).
* **Handshake.** Any honest pair of parties passes both tag checks and ends with swapped keys, one session identifier,
  and the address that was allocated. Which messages either side accepts is known exactly (`Handshake.AcceptExactly`,
  `Handshake.FinishExactly`).
* **Wire formats.** Every packet is known byte by byte (`Tunnel.OnTheWire`, `MultiHop.OnionOnTheWire`,
  `Frames.FrameLayout`), and what the server makes of any bytes (`ProxySession.InboundMeans`, `Frames.ParseExactly`).
* **Hops.** Encapsulation succeeds exactly for what fits, and is undone; runs lose nothing that arrives once and in
  time. The greedy choice of relays is optimal among pairs of distinct healthy relays, and `Pathfinder.ChooseMeans` says
  what is chosen under any preferences.
* **Look-alikes.** A TLS reader directed by lengths alone consumes the ClientHello exactly and finds the host, if and
  only if the host has between 1 and 16221 bytes; the code itself accepts up to 65372, beyond 16221 in records longer
  than section 5.1 of RFC 8446 allows.

## Assumptions

* ChaCha20-Poly1305 (section 2.8 of RFC 8439) is a pair of functions where opening inverts sealing and the tag has 16
  bytes. X25519 (section 6.1 of RFC 7748) commutes on honest keys; HKDF and HMAC are functions with 32-byte results.
  Nothing is claimed about secrecy or forgery.
* Random bytes, clocks, text encodings and the platform's address texts are parameters.
* Hash functions are arbitrary functions from names to numbers.
* The tasks that send the gateway's frames run in the order they were created, and the transport keeps it.

## Model

| member | source | states |
|---|---|---|
| Names.NormaliseTwice | shinvpn/tunnel/adblock.py:131 | normalising an already normalised name changes it exactly when it ends in white space that trailing dots had hidden |
| Names.NormaliseKeeps | shinvpn/tunnel/adblock.py:131 | what is between outer white space and final dots is kept character by character, with capitals in lower case |
| Names.JoinSplit | shinvpn/tunnel/adblock.py:252-255 | joining the labels of a name gives the name back |
| Names.SplitAppend | shinvpn/tunnel/adblock.py:252 | the labels of a dotted concatenation are the labels of its parts |
| Names.SuffixMeaning | shinvpn/tunnel/adblock.py:239 | a rule is a suffix of a name's labels exactly when the name equals it or ends in a dot and the rule |
| Names.ReversedSuffix | shinvpn/tunnel/adblock.py:131 | a prefix of the reversed labels is a suffix of the labels |
| Bits.BitOr | shinvpn/crypto/cipher.py:61 | bit by bit, what the arithmetic model of the or operator computes |
| Bits.BitAnd | shinvpn/crypto/cipher.py:46 | bit by bit, what the arithmetic model of the and operator computes |
| Bits.BitShl | shinvpn/crypto/cipher.py:46 | a left shift moves every bit up |
| Bits.BitMask | shinvpn/crypto/cipher.py:46 | one less than a power of two has exactly the bits below it |
| Bits.AndOneNonZero | shinvpn/crypto/cipher.py:56 | masking with a single bit is nonzero exactly when that bit is set |
| Bloom.ByteInRange | shinvpn/tunnel/adblock.py:90-99 | every bit position has a byte in the array exactly when the size is a multiple of eight |
| Bloom.PositionsStep | shinvpn/tunnel/adblock.py:92-95 | an item's positions start at its first hash and step by its second, modulo the size |
| Bloom.NoFalseNegative | shinvpn/tunnel/adblock.py:103-109 | an added item is reported present, and further additions never hide one |
| Bloom.CoversOneMore | shinvpn/tunnel/adblock.py:97-101 | adding an item adds exactly its own hash positions to the covered ones |
| Bloom.BloomFilter.constructor | shinvpn/tunnel/adblock.py:87-90 | an empty filter: no bit is set |
| Bloom.BloomFilter.SetBit | shinvpn/tunnel/adblock.py:98-101 | one bit of the byte array is set in place and no other changes |
| Bloom.BloomFilter.Add | shinvpn/tunnel/adblock.py:97-101 | the set bits stay exactly the union of the hash positions of the items added |
| Bloom.BloomFilter.Contains | shinvpn/tunnel/adblock.py:103-109 | the answer is whether all hash positions of the item are covered by items added |
| Bloom.BloomFilter.Clear | shinvpn/tunnel/adblock.py:111-112 | the filter is empty again |
| Trie.NextPrefix | shinvpn/tunnel/adblock.py:144-149 | one step down extends the path by one label, and tells which rules end there |
| Trie.ReverseDomainRadixTrie.constructor | shinvpn/tunnel/adblock.py:126-128 | a tree of one node with no rules |
| Trie.ReverseDomainRadixTrie.Extend | shinvpn/tunnel/adblock.py:134-135 | hanging a new child below a node keeps the node graph a tree with the same rules |
| Trie.ReverseDomainRadixTrie.Mark | shinvpn/tunnel/adblock.py:137-139 | marking the last node adds the rule, and counts it only if it is new |
| Trie.ReverseDomainRadixTrie.InsertLabels | shinvpn/tunnel/adblock.py:132-139 | inserting a label list adds exactly that rule and keeps the tree |
| Trie.ReverseDomainRadixTrie.Insert | shinvpn/tunnel/adblock.py:130-139 | the rules are the old ones and the name's labels, and the counter is their number |
| Trie.ReverseDomainRadixTrie.MatchLabels | shinvpn/tunnel/adblock.py:143-150 | the walk finds a leaf exactly when some rule is a prefix of the reversed labels |
| Trie.ReverseDomainRadixTrie.Match | shinvpn/tunnel/adblock.py:141-150 | true exactly when some inserted rule is a label suffix of the name |
| Trie.ReverseDomainRadixTrie.PrefixesPresent | shinvpn/tunnel/adblock.py:143-147 | every prefix of a node's path is a node, so the graph is one tree |
| Trie.ReverseDomainRadixTrie.LeavesTree | shinvpn/tunnel/adblock.py:145-146 | once a label has no child, no longer rule can match |
| Trie.MatchesUnder | shinvpn/tunnel/adblock.py:131-150 | matching of paths means that the normalised name lies at or under a normalised rule |
| LruCache.ByLastUseSorted | shinvpn/tunnel/adblock.py:243-245 | the specification lists each used name once, and a name that was used later comes later |
| LruCache.TouchRecent | shinvpn/tunnel/adblock.py:243-245 | a hit moved to the end leaves the most recently used names, in order |
| LruCache.StoreRecent | shinvpn/tunnel/adblock.py:271-274 | a miss stored, with one eviction if full, leaves the most recently used names, in order |
| LruCache.Forgotten | shinvpn/tunnel/adblock.py:272-273 | what the cache no longer holds is an initial part of the names by last use |
| Filter.AnswerMeaning | shinvpn/tunnel/adblock.py:250-269 | without assumptions, what the Bloom and trie path answers, the trie's second normalisation included |
| Filter.VerdictExact | shinvpn/tunnel/adblock.py:216-269 | on fixed names the verdict is the plain answer, except for names the Bloom probe passes over |
| Filter.DottedRuleProbed | shinvpn/tunnel/adblock.py:254-256 | a name under a rule of two labels or more has that rule among the suffixes probed |
| Filter.FilterRefines | shinvpn/tunnel/adblock.py:216-269 | for every hash function the verdict is: enabled, not empty, under no exempted name, and at or under some inserted rule |
| Filter.RightForEveryHash | shinvpn/tunnel/adblock.py:250-262 | the verdict is right for all hash functions exactly when a blocked name has a suffix of two labels or more that was added to the Bloom filter |
| Filter.SingleLabelRuleMissed | shinvpn/tunnel/adblock.py:254 | for every rule of one label, names one label below it are missed by some hash functions |
| Filter.AddRulesAdds | shinvpn/tunnel/adblock.py:191-199 | a call inserts exactly the names that are not empty and not exempted at that moment |
| Filter.AddedMeans | shinvpn/tunnel/adblock.py:194-198 | a name is added exactly if some name given normalises to it and it is neither empty nor exempted |
| Filter.AddRulesMeans | shinvpn/tunnel/adblock.py:191-199 | the rules after a call, one by one: old, or given, not empty and not exempted |
| Filter.AddWhitelistMeans | shinvpn/tunnel/adblock.py:201-208 | the exemptions after a call, one by one: old, or given and not empty |
| Filter.AddCoresMeans | shinvpn/tunnel/adblock.py:177-189 | the built-in names that are not empty are inserted, exempted or not |
| Filter.CoreProbed | shinvpn/tunnel/adblock.py:184-188 | every label suffix of a built-in name is in the Bloom filter |
| Filter.HistoryInserts | shinvpn/tunnel/adblock.py:191-214 | over every history a rule is inserted exactly if it was at the start or some call added it while it was not exempted |
| Filter.HistoryExempts | shinvpn/tunnel/adblock.py:201-214 | over every history a name is exempted exactly if it was at the start or some call exempted it, and no later call lifted that |
| Filter.HistorySwitch | shinvpn/tunnel/adblock.py:295-297 | over every history the switch is where an even or odd number of toggles leaves it |
| Filter.HistoryCoherent | shinvpn/tunnel/adblock.py:191-199 | over every history each inserted rule is in the Bloom filter too |
| Filter.InitialRules | shinvpn/tunnel/adblock.py:156-189 | a new filter's rules are exactly the built-in names that are not empty, each in the Bloom filter too, with one exemption |
| Filter.RefinesFromStart | shinvpn/tunnel/adblock.py:156-269 | the same through every history from a new filter on |
| Filter.HistoryRefines | shinvpn/tunnel/adblock.py:191-269 | after every history of additions, exemptions, toggles and queries, for every hash function: blocked exactly if enabled, not empty, under no name exempted now, and at or under some rule inserted by now |
| CyberShield.NewAdBlocker | shinvpn/tunnel/adblock.py:156-175 | a new filter holds the built-in rules, one exemption, and nothing in cache or log |
| CyberShield.CyberShieldAdBlocker.LoadCoreBlocklists | shinvpn/tunnel/adblock.py:177-189 | every built-in rule is inserted, and all its suffixes are probed |
| CyberShield.CyberShieldAdBlocker.AddCustomRules | shinvpn/tunnel/adblock.py:191-199 | exactly the names given that are neither empty nor exempted are inserted, in trie and Bloom filter, and the cache is emptied |
| CyberShield.CyberShieldAdBlocker.AddWhitelist | shinvpn/tunnel/adblock.py:201-208 | exactly the names given that are not empty are exempted besides the old ones, and the cache is emptied |
| CyberShield.CyberShieldAdBlocker.RemoveWhitelist | shinvpn/tunnel/adblock.py:210-214 | the name is no longer exempted, every other exemption stays, and the cache is emptied |
| CyberShield.CyberShieldAdBlocker.Toggle | shinvpn/tunnel/adblock.py:295-297 | the switch is flipped, and the cached verdicts stay right |
| CyberShield.CyberShieldAdBlocker.ShouldBlock | shinvpn/tunnel/adblock.py:216-269 | never blocked unless enabled, named and under no exemption; with rules of two labels or more, blocked exactly if also at or under an inserted rule, whatever the cache holds; use, log and counters follow |
| CyberShield.CyberShieldAdBlocker.VerdictMeans | shinvpn/tunnel/adblock.py:216-269 | the verdict of the present fields in plain terms |
| CyberShield.CyberShieldAdBlocker.Resolve | shinvpn/tunnel/adblock.py:242-269 | hit or miss, the answer is that of the Bloom and trie path, and the cache is again the most recent names |
| CyberShield.CyberShieldAdBlocker.IsWhitelisted | shinvpn/tunnel/adblock.py:236-240 | true exactly when the name is at or under an exempted name |
| CyberShield.CyberShieldAdBlocker.BloomCandidate | shinvpn/tunnel/adblock.py:252-258 | true exactly when some suffix of at least two labels might be in the Bloom filter |
| CyberShield.CyberShieldAdBlocker.CacheResult | shinvpn/tunnel/adblock.py:271-274 | the cache holds the most recently used names with their right verdicts |
| CyberShield.CyberShieldAdBlocker.RecordBlocked | shinvpn/tunnel/adblock.py:276-282 | count, last name and the last fifty entries of the log, with their times, follow the queries blocked |
| ReplayWindow.Slide | shinvpn/crypto/cipher.py:42-47 | shifting by less than the window keeps bit i standing for the newest number less i |
| ReplayWindow.Jump | shinvpn/crypto/cipher.py:43-44 | a jump beyond the window leaves only the new number |
| ReplayWindow.Fill | shinvpn/crypto/cipher.py:50-62 | setting a bit inside the window stands for accepting that number |
| ReplayWindow.AntiReplayWindow.constructor | shinvpn/crypto/cipher.py:24-27 | nothing accepted yet |
| ReplayWindow.AntiReplayWindow.CheckAndUpdate | shinvpn/crypto/cipher.py:30-62 | accepts exactly if the number is at least 1, was not accepted, and exceeds the newest less the window; the bitmap follows |
| ReplayWindow.AntiReplayWindow.Reset | shinvpn/crypto/cipher.py:64-67 | nothing accepted, as at the start |
| ReplayWindow.RunRemembers | shinvpn/crypto/cipher.py:30-62 | over every sequence of calls the accepted numbers are exactly those of the calls that were accepted |
| ReplayWindow.AtMostOnce | shinvpn/crypto/cipher.py:50-62 | no number passes twice, and a new one passes exactly if it does not lag by the window |
| Cipher.NonceInjective | shinvpn/crypto/cipher.py:111-117 | nonces of different sessions or numbers differ |
| Cipher.NonceFields | shinvpn/crypto/cipher.py:111-117 | a nonce is the session in four bytes and the number in eight, both little-endian |
| Cipher.OpenSealed | shinvpn/crypto/cipher.py:119-144 | a sealed packet opens to its plaintext exactly while the filter accepts its number |
| Cipher.NewCipher | shinvpn/crypto/cipher.py:80-90 | a cipher is made exactly for 32-byte keys, with nothing sent and nothing accepted |
| Cipher.ShinCipher.constructor | shinvpn/crypto/cipher.py:80-90 | the fields of a new cipher |
| Cipher.ShinCipher.Encrypt | shinvpn/crypto/cipher.py:119-130 | the counter moves by one and numbers the ciphertext, even if no nonce can be built |
| Cipher.ShinCipher.Decrypt | shinvpn/crypto/cipher.py:132-144 | filter first, then nonce, then tag; the number is recorded even if the tag is bad |
| Channel.AtMostOnceUnaltered | shinvpn/crypto/cipher.py:119-144 | over every run of a dropping, duplicating, reordering and forging network: at most one delivery each, unaltered, after arrival; an accepted number that was not delivered was forged |
| Channel.FirstArrivalDelivered | shinvpn/crypto/cipher.py:132-144 | a first arrival is delivered exactly if its number was never forged and it is at most 127 behind the newest accepted number, forged ones included |
| Channel.AcceptedIsDelivered | shinvpn/crypto/cipher.py:132-144 | without forgeries the accepted numbers are exactly the delivered ones |
| Channel.StepForges | shinvpn/crypto/cipher.py:138-142 | a forged packet delivers nothing, but its number is recorded before the tag is checked |
| Channel.ForgeCoherent | shinvpn/crypto/cipher.py:138-142 | one forgery keeps deliveries and accepted numbers in step |
| Channel.FilterDecides | shinvpn/crypto/cipher.py:50-53 | for a packet not yet delivered, the filter's decision is that of forgery and lag alone |
| Channel.StepReceives | shinvpn/crypto/cipher.py:132-144 | under the AEAD's law an arrival is the filter's decision and nothing else |
| Channel.ReceiveCoherent | shinvpn/crypto/cipher.py:132-144 | one arrival keeps deliveries and accepted numbers in step |
| Bytes.BigRoundTrip | shinvpn/protocol/frames.py:51-60 | a big-endian field of any width is read back |
| Bytes.BigAt | shinvpn/protocol/frames.py:51-60 | each byte of a big-endian field, most significant first |
| Bytes.LittleAt | shinvpn/crypto/cipher.py:117 | each byte of a little-endian field, least significant first |
| Bytes.FromBigRoundTrip | shinvpn/protocol/frames.py:63-79 | the bytes of a field are printed back |
| Bytes.LittleRoundTrip | shinvpn/crypto/cipher.py:117 | a little-endian field of any width is read back |
| Bytes.ConcatAppend | shinvpn/tunnel/proxy_tunnel.py:313-320 | chunks of two runs concatenate to the concatenation |
| Frames.HeaderFields | shinvpn/protocol/frames.py:51-79 | a packed header is read back from the front of any bytes |
| Frames.HeaderLayout | shinvpn/protocol/frames.py:39-60 | the 20 bytes of a header at their offsets |
| Frames.FrameLayout | shinvpn/protocol/frames.py:92-101 | the bytes of a whole frame at their offsets |
| Frames.UnpackExactly | shinvpn/protocol/frames.py:63-79 | a header is read exactly if its 20 bytes stand at the front; everything else is refused |
| Frames.ParseExactly | shinvpn/protocol/frames.py:289-303 | a buffer is accepted exactly if it begins with a header and holds the payload announced |
| Frames.DefaultFields | shinvpn/protocol/frames.py:119-254 | the payloads classes make up, field by field |
| Frames.UnpackedBytes | shinvpn/protocol/frames.py:63-79 | an accepted header packs to its own 20 bytes |
| Frames.PrintParse | shinvpn/protocol/frames.py:92-104 | a printed frame, with anything after it: ids and payload come back, an unknown type becomes 0, an empty payload may be filled in, and the whole comes back exactly if its type is known or 0 and nothing is filled in |
| Frames.ParsePrint | shinvpn/protocol/frames.py:289-303 | an accepted buffer prints to its own first 20 + length bytes, exactly under that condition |
| Frames.ConnectAccessors | shinvpn/protocol/frames.py:150-167 | connection id, port and host of a connect payload are at their offsets and read back |
| Frames.DataAccessors | shinvpn/protocol/frames.py:173-197 | connection id and data of a data or close payload are at their offsets and read back |
| Frames.SpeedtestReqAccessors | shinvpn/protocol/frames.py:203-218 | the three fields of a speed test request are read back |
| Frames.ForwardAccessors | shinvpn/protocol/frames.py:250-269 | next host, next port and inner frame of a forward payload are read back |
| Frames.FieldsPresent | shinvpn/protocol/frames.py:156-269 | how long a payload must be for each field to be read |
| Gateway.Socks5Parses | shinvpn/tunnel/proxy_tunnel.py:114-147 | every SOCKS5 CONNECT request, for each of the three address types, is read back with its exact length; any other command is refused |
| Gateway.Socks5Means | shinvpn/tunnel/proxy_tunnel.py:114-147 | a SOCKS5 request that is found is a CONNECT request that stands at the front of the bytes, with that host, port and length |
| Gateway.Socks4Means | shinvpn/tunnel/proxy_tunnel.py:173-205 | the same for SOCKS4 and SOCKS4a |
| Gateway.HeaderEnd | shinvpn/tunnel/proxy_tunnel.py:93 | the end of the first blank line, or none if there is no blank line |
| Gateway.HttpParses | shinvpn/tunnel/proxy_tunnel.py:91-95 | whatever follows an HTTP header, exactly the bytes up to its first blank line are taken |
| Gateway.HttpMeans | shinvpn/tunnel/proxy_tunnel.py:91-95 | an HTTP request that is found is such a header at the front of the bytes |
| Gateway.RequestExactly | shinvpn/tunnel/proxy_tunnel.py:69-95 | a request is found exactly if a SOCKS5 or SOCKS4 CONNECT request or an understood header stands at the front |
| Gateway.OtherCommandsClose | shinvpn/tunnel/proxy_tunnel.py:128-132 | a SOCKS request with any other command gets CLOSE and nothing else |
| Gateway.Socks4Parses | shinvpn/tunnel/proxy_tunnel.py:173-205 | every SOCKS4 and SOCKS4a CONNECT request is read back with its exact length; any other command is refused |
| Gateway.AddressParses | shinvpn/tunnel/proxy_tunnel.py:134-147 | each address type is read back at any place in the input |
| Gateway.FindNulAt | shinvpn/tunnel/proxy_tunnel.py:184-188 | the byte loop stops at the first NUL |
| ProxyGateway.StreamReader.Read | shinvpn/tunnel/proxy_tunnel.py:316 | some next bytes, at least one and at most the number asked for, or none at the end |
| ProxyGateway.StreamReader.ReadExactly | shinvpn/tunnel/proxy_tunnel.py:118-127 | exactly the next bytes, or an error if the input ends first |
| ProxyGateway.StreamReader.ReadUntilNul | shinvpn/tunnel/proxy_tunnel.py:183-188 | the bytes before the next NUL, which is consumed; an error only if there is none or the read failed |
| ProxyGateway.StreamReader.ReadHeader | shinvpn/tunnel/proxy_tunnel.py:93 | exactly the bytes up to the end of the first blank line, or an error only if there is none or the read failed |
| ProxyGateway.UniversalProxyGateway.constructor | shinvpn/tunnel/proxy_tunnel.py:37-49 | ids start at 1 |
| ProxyGateway.UniversalProxyGateway.ReadSocks5 | shinvpn/tunnel/proxy_tunnel.py:114-155 | the loop of reads finds the request that the bytes hold, and consumes exactly it |
| ProxyGateway.UniversalProxyGateway.ReadSocks4 | shinvpn/tunnel/proxy_tunnel.py:173-212 | the same for SOCKS4 and SOCKS4a |
| ProxyGateway.UniversalProxyGateway.ReadAddress | shinvpn/tunnel/proxy_tunnel.py:134-147 | the same for the three address types |
| ProxyGateway.UniversalProxyGateway.ReadRequest | shinvpn/tunnel/proxy_tunnel.py:69-95 | the first byte decides the protocol; nothing is found only if the bytes hold no request or a read failed |
| ProxyGateway.UniversalProxyGateway.PipeClientToTunnel | shinvpn/tunnel/proxy_tunnel.py:313-320 | every read that gives bytes is one chunk turn of the handler, and nothing else is; it ends at end of stream, or because a read failed or the gateway was stopped |
| ProxyGateway.UniversalProxyGateway.HandleClientConnection | shinvpn/tunnel/proxy_tunnel.py:60-109 | while others run: an id never used before; all that is done is turns of its handler, which ends done; and the calls made for it are CLOSE alone, or CONNECT with the request's host and port, DATA, CLOSE |
| ProxyGateway.UniversalProxyGateway.Accept | shinvpn/tunnel/proxy_tunnel.py:63-65 | the accepting turn: the next id, which no call carries yet |
| ProxyGateway.UniversalProxyGateway.Notify | shinvpn/tunnel/proxy_tunnel.py:102-103 | one more call |
| ProxyGateway.UniversalProxyGateway.Take | shinvpn/tunnel/proxy_tunnel.py:60-109 | calls made between two waits are exactly those of one turn of this handler |
| ProxyGateway.UniversalProxyGateway.Suspend | shinvpn/tunnel/proxy_tunnel.py:316 | what may happen at an await: any turns of other handlers, and none of this one's |
| ProxyGateway.UniversalProxyGateway.Begin | shinvpn/tunnel/proxy_tunnel.py:295-308 | CONNECT and the gateway's own header, if any, are one turn |
| ProxyGateway.UniversalProxyGateway.SendChunk | shinvpn/tunnel/proxy_tunnel.py:319-320 | one chunk is one turn |
| ProxyGateway.UniversalProxyGateway.Finish | shinvpn/tunnel/proxy_tunnel.py:101-103 | CLOSE is the handler's last turn, however it was left |
| ProxyGateway.UniversalProxyGateway.FinishedSound | shinvpn/tunnel/proxy_tunnel.py:60-109 | a handler that is done has made the calls the grammar allows |
| Handlers.OthersLeave | shinvpn/tunnel/proxy_tunnel.py:60-109 | turns of other handlers leave a handler where it is |
| Handlers.OthersGrow | shinvpn/tunnel/proxy_tunnel.py:63-64 | any number of handlers can be started meanwhile |
| Handlers.TurnSound | shinvpn/tunnel/proxy_tunnel.py:60-109 | one handler's turn, from one read to the next, keeps its calls what the grammar allows so far |
| Handlers.StepSound | shinvpn/tunnel/proxy_tunnel.py:60-109 | and leaves the calls of every other handler alone |
| Handlers.RunSound | shinvpn/tunnel/proxy_tunnel.py:60-109 | over every run of any number of handlers in any turns, each handler's calls, picked out by its id, are those the grammar allows as far as it has come |
| Handlers.HandlerFrames | shinvpn/tunnel/proxy_tunnel.py:60-109 | at any moment they are the first calls of some connection the grammar allows, and all of them at the end |
| Handlers.IdsNeverRepeat | shinvpn/tunnel/proxy_tunnel.py:63-64 | over every run no connection id is connected twice |
| Tunnel.PlainDecodes | shinvpn/client/client.py:237-257 | the server reads out of a call's plaintext the step, host and port it stands for |
| Tunnel.PacketArrives | shinvpn/client/client.py:234-257 | through payload, encryption, framing, parsing, replay filter and decryption a call becomes exactly its step and its destination; speed test and keep-alive frames become none |
| Tunnel.SealedArrives | shinvpn/server/server.py:194-210 | a sealed frame with a new number gives its plaintext to the step of its type, and moves the filter exactly if its type is decrypted |
| Tunnel.KeepAliveArrives | shinvpn/server/server.py:194-197 | a keep-alive frame moves nothing |
| Tunnel.ProxySender.Send | shinvpn/client/client.py:345-368 | any sending: one numbered packet while connected, from the one cipher that proxy and speed test frames share |
| Tunnel.PacketExactly | shinvpn/client/client.py:237-257 | which calls become packets: fields fit, a nonce is left, and the payload fits its length field |
| Tunnel.OnTheWire | shinvpn/client/client.py:234-257 | every packet the client sends byte by byte: type 8, 9 or 10 for the three calls, session, number, length, and what is sealed under which nonce |
| Tunnel.ProxySender.SendProxyFrame | shinvpn/client/client.py:225-257 | one numbered packet per call while connected, none otherwise |
| Streams.PendingWhileConnecting | shinvpn/server/server.py:301-336 | in every run a pending buffer exists exactly for the ids being connected |
| Streams.StreamConservation | shinvpn/server/server.py:301-378 | for every interleaving and every id: nothing lost, doubled or reordered up to CLOSE, failure or a closing writer |
| Streams.WrittenExactly | shinvpn/server/server.py:309-378 | what the writer of an id used once was given is known exactly in every run: all DATA until it was stopped or closed if it was open then, nothing if CLOSE came first; and whether it exists and is closing |
| Streams.CloseDecides | shinvpn/server/server.py:326-353 | after CLOSE the writer has all the DATA, for good, if and only if the connection was open, or there was none and it was made afterwards; otherwise whatever is made is given nothing |
| Streams.CloseLosesPending | shinvpn/server/server.py:326-353 | for every id and data, CONNECT, DATA, CLOSE and then the made connection: the data is lost and the empty stream stays open |
| Streams.CloseSettles | shinvpn/server/server.py:326-353 | after its CLOSE a live connection is closed or late with all its DATA, exactly as long as the id is not used again |
| Streams.LeftAloneGoesOn | shinvpn/server/server.py:346-378 | a connection that the server's side never ended is not stopped |
| Streams.TaskOnce | shinvpn/server/server.py:301-307 | an id has no task until it is used, and one when it is used once |
| Streams.AfterClose | shinvpn/server/server.py:326-353 | what CLOSE settled stays settled exactly as long as the id is not used again |
| Streams.NothingLost | shinvpn/server/server.py:309-353 | until the connection ends, written plus waiting is all the DATA since CONNECT, and only one of the two exists |
| Streams.NeverBoth | shinvpn/server/server.py:305-347 | an id used once is never connecting and open at once |
| Streams.BothExactly | shinvpn/server/server.py:301-307 | an id becomes connecting and open at once exactly by a CONNECT while its stream is open |
| Streams.ReuseMakesBoth | shinvpn/server/server.py:301-307 | and a run of three steps does that |
| Streams.ReuseMixes | shinvpn/server/server.py:301-378 | what reuse of an id does in any state: a second CONNECT drops what waited, and the cleanup of one task closes the stream of the other |
| Streams.WiredStep | shinvpn/server/server.py:346-378 | open streams and writers belong to tasks that were started |
| Streams.LiveStep | shinvpn/server/server.py:309-353 | one step of any kind keeps a live connection conserved |
| Streams.OverStep | shinvpn/server/server.py:309-378 | after the end no step writes anything more: the writer keeps exactly what it had, and stays closing |
| Streams.AbandonedStep | shinvpn/server/server.py:326-353 | after a CLOSE that came first, a connection that is made all the same is given nothing |
| ProxySession.ClientSession.HandleProxyFrame | shinvpn/server/server.py:293-336 | a frame is one step of the stream model if it decrypts, and nothing but a recorded number if not |
| ProxySession.ClientSession.Dispatch | shinvpn/server/server.py:301-336 | each frame type takes its step, and CONNECT starts a task for the host and port it names |
| ProxySession.ClientSession.ReceiveData | shinvpn/server/server.py:309-324 | data is written, buffered or dropped as the stream stands |
| ProxySession.ClientSession.Forget | shinvpn/server/server.py:326-336 | CLOSE drops buffer, mark and stream, and closes the writer |
| ProxySession.ClientSession.RegisterConnection | shinvpn/server/server.py:346-353 | a made connection is registered and the buffer is flushed, whatever came in between |
| ProxySession.ClientSession.FinishTask | shinvpn/server/server.py:370-378 | the cleanup of a task drops whatever its id stands for |
| ProxySession.ClientSession.CloseStreams | shinvpn/server/server.py:401-406 | closing a session closes every writer and forgets the streams |
| ProxySession.ClientSession.HandleOtherFrame | shinvpn/server/server.py:284-288 | data packets and speed test requests move the same filter and take no step |
| ProxySession.ProcessInbound | shinvpn/server/server.py:175-206 | of all bytes received, exactly the well-formed frames of this session that are decrypted move the filter, and exactly the proxy frames among them that open take a step |
| ProxySession.InboundMeans | shinvpn/server/server.py:175-206 | a whole packet byte for byte: which sessions and types move the filter, and which step and destination the opened plaintext is |
| ProxySession.InboundRefuses | shinvpn/server/server.py:175-179 | bytes that are no frame, or a cut one, do nothing |
| EndToEnd.FifoDelivery | shinvpn/client/client.py:234-257 | the server's steps are the gateway's calls that could be sent, in order, none refused or repeated, with any speed test and keep-alive frames in between |
| EndToEnd.FifoDestinations | shinvpn/server/server.py:301-307 | the server connects to the hosts and ports asked for, in order, and to no others |
| EndToEnd.HandledSoFar | shinvpn/client/client.py:322-328 | any number of packets handled so far are those of some first calls |
| EndToEnd.SeenHistory | shinvpn/server/server.py:301-378 | what happened to an id agrees with its frames, however the server's own steps fell between them |
| EndToEnd.SentExactly | shinvpn/client/client.py:237-257 | which calls become packets: id, port, host and chunk fit, and a nonce is left |
| EndToEnd.SurvivingAmounts | shinvpn/client/client.py:237-257 | the frames of a connection that were sent: none that the server uses if its connect request does not fit, otherwise all its chunks that fit; fewer only once the counter is spent |
| EndToEnd.ReachesServer | shinvpn/client/client.py:237-243 | under every interleaving: a connection whose connect request fits exists at the server, used once, while the counter lasts; one whose request does not fit never has a task |
| EndToEnd.ClosesOnce | shinvpn/tunnel/proxy_tunnel.py:101-103 | at most one CLOSE of a connection reaches the server |
| EndToEnd.LiveBeforeClose | shinvpn/server/server.py:326-336 | if its only CLOSE made a connection late, it was live before |
| EndToEnd.WrittenFromChunks | shinvpn/server/server.py:309-353 | at every moment the bytes written are a prefix of the gateway's chunks that fit, of a connection whose request fits |
| EndToEnd.AllChunksAccounted | shinvpn/server/server.py:309-353 | before CLOSE, unless the server's side ended it, a connection is live if and only if its request fits, and written plus waiting is all its chunks |
| EndToEnd.LiveUntilClose | shinvpn/server/server.py:301-336 | unless the server's side ended it, a connection whose request fits is live with all its chunks when its CLOSE is handled, and its id is not used again |
| EndToEnd.CloseDecidesChunks | shinvpn/server/server.py:326-353 | once CLOSE is handled the writer has all of them or nothing, as the connection was open or not; without a fitting request there is no connection |
| EndToEnd.GatewayProgress | shinvpn/tunnel/proxy_tunnel.py:313-320 | the gateway's first calls for a connection, as chunks of the application's stream |
| EndToEnd.DeliveredExactly | shinvpn/client/client.py:237-250 | the stream the server gets is the whole stream exactly if that is empty, or both the connect request and the gateway's own header, if any, fit their frames |
| EndToEnd.ApplicationBytesArrive | shinvpn/tunnel/proxy_tunnel.py:313-320 | end to end, for every chunking and interleaving: bytes written are a prefix of what the server gets of the stream |
| EndToEnd.AllApplicationBytesArrive | shinvpn/server/server.py:346-353 | until CLOSE nothing is missing: after end of stream, unless the server's side ended it, the connection is live if and only if its request fits, and all bytes are written, or wait for the connection |
| EndToEnd.CloseDecidesApplicationBytes | shinvpn/server/server.py:326-353 | with every frame handled, CLOSE included: a connection whose request fits has the whole stream if and only if it was open when CLOSE was handled, or the stream is empty and it was made afterwards; one whose request does not fit never existed |
| Connections.EveryConnectionArrives | shinvpn/tunnel/proxy_tunnel.py:60-109 | for all handlers at once, in any turns: each connection's written bytes are a prefix of its own application's stream |
| Connections.EveryFinishedConnection | shinvpn/server/server.py:326-353 | and for each that finished and whose own calls are handled, however far the others are: it exists exactly if its request fits, and then all or nothing |
| Runs.AllSent | shinvpn/client/client.py:237-257 | for every connection that fits, all its calls reach the server as one live connection |
| Runs.RunThatDelivers | shinvpn/server/server.py:346-353 | for every connection that fits there is a run of the kind the theorems speak of in which the writer gets all the bytes |
| Runs.RunThatLoses | shinvpn/server/server.py:326-353 | and one with every frame handled in which it gets none, and the empty stream stays open |
| Runs.LongNameLosesAll | shinvpn/tunnel/proxy_tunnel.py:190-221 | a SOCKS4a request for a name of 65512 bytes or more is granted, and no connection for it ever exists |
| Runs.WidePortLosesAll | shinvpn/tunnel/proxy_tunnel.py:241-267 | nor for a port outside 16 bits |
| IpPool.SubnetMembers | shinvpn/server/ip_pool.py:20 | the network of an address with host bits is the addresses that agree above those bits |
| IpPool.Subnet.FirstFree | shinvpn/server/ip_pool.py:45-49 | the search finds the first free host from where it starts, or none if there is none |
| IpPool.FirstFitLowest | shinvpn/server/ip_pool.py:45-49 | first fit gives the lowest of all usable free addresses |
| IpPool.ChoiceMeans | shinvpn/server/ip_pool.py:29-51 | the existing lease; else the preferred address if inside, not reserved and not leased; else the lowest such address; none only if all are leased |
| IpPool.FailsExactlyWhenFull | shinvpn/server/ip_pool.py:29-51 | allocation fails exactly if the session has no lease and the leases are as many as the usable addresses, which they never exceed |
| IpPool.AllocateCoherent | shinvpn/server/ip_pool.py:29-51 | allocation keeps leases usable and distinct |
| IpPool.RunCoherent | shinvpn/server/ip_pool.py:29-57 | over every run leases lie strictly inside the network, off the server's address, and are distinct |
| IpPool.LeaseStable | shinvpn/server/ip_pool.py:31-32 | a session keeps its address until it releases it, whatever other sessions do |
| IpPool.IPPool.constructor | shinvpn/server/ip_pool.py:19-27 | no leases |
| IpPool.IPPool.Allocate | shinvpn/server/ip_pool.py:29-51 | the existing lease; else the preferred address if it is inside, not reserved and not leased; else the lowest such address, or an error without change if all are leased |
| IpPool.IPPool.Release | shinvpn/server/ip_pool.py:53-57 | the session's lease is gone and no other |
| IpPool.IPPool.GetSessionByIp | shinvpn/server/ip_pool.py:59-68 | the inverse of the leases: a session is found exactly if it holds the address |
| SessionTables.SweepCoherent | shinvpn/server/server.py:396-400 | closing any session object, even a replaced one, removes entry and lease together |
| SessionTables.StepCoherent | shinvpn/server/server.py:253-271 | every event keeps the leases those of the live sessions |
| SessionTables.RunCoherent | shinvpn/server/server.py:253-271 | over every run, with any reuse of ids and addresses: leases are exactly the live sessions', inside the network, off the server's address, and no two equal |
| SessionTables.StopReturnsLeases | shinvpn/server/server.py:430-431 | stopping after any run leaves no session and no lease |
| SessionTables.StopLeavesNothing | shinvpn/server/server.py:430-431 | and no entry in any table if no handshake shared a key |
| SessionTables.RegisterInverse | shinvpn/server/server.py:269-271 | a new entry keeps an index exact if and only if neither its id nor its key belongs to another entry |
| SessionTables.SweepInverse | shinvpn/server/server.py:397-399 | closing live sessions keeps an index exact |
| SessionTables.RegisterIndexed | shinvpn/server/server.py:269-271 | a granted handshake keeps both indexes exact if and only if id and address are new or belong together |
| SessionTables.DropIsClose | shinvpn/server/server.py:163-166 | with exact indexes a lost connection closes the live session of its address |
| SessionTables.StepIndexed | shinvpn/server/server.py:163-166 | which events keep the indexes exact, both ways |
| SessionTables.RunIndexed | shinvpn/server/server.py:253-271 | indexes are exact throughout a run if and only if no granted handshake in it shares a key with another live session |
| SessionTables.LateDropHitsAnother | shinvpn/server/server.py:163-166 | a client back from a second address, then gone, then its first connection dropped: another live session loses its entry |
| SessionTables.SweepTwice | shinvpn/server/server.py:415-417 | closing one after another is closing together |
| Server.ShinVPNServer.constructor | shinvpn/server/server.py:80-88 | empty tables and no leases |
| Server.ShinVPNServer.AcceptHandshake | shinvpn/server/server.py:253-271 | granted exactly if the id has a lease or an address is free; then the id keeps its lease or gets the lowest free address, and the new session is in all three tables; otherwise nothing changes |
| Server.ShinVPNServer.Enter | shinvpn/server/server.py:269-271 | a session stands under its three keys and nothing else changes |
| Server.ShinVPNServer.Lookup | shinvpn/server/server.py:185-192 | the session of an id is refreshed and no table changes |
| Server.ShinVPNServer.CloseSession | shinvpn/server/server.py:396-400 | everything under the session's keys is removed, lease included, and nothing else |
| Server.ShinVPNServer.HandleDisconnect | shinvpn/server/server.py:212-214 | the session named is gone with its lease, and every other entry stays the object it was |
| Server.ShinVPNServer.HandleStealthDisconnect | shinvpn/server/server.py:163-166 | the address is gone from its table, and the session that stood there is closed; without one nothing changes |
| Server.ShinVPNServer.CloseEach | shinvpn/server/server.py:415-417 | closing a snapshot one by one is closing it at once: exactly its ids are gone |
| Server.ShinVPNServer.Snapshot | shinvpn/server/server.py:414 | the list of the chosen live sessions, no other and none left out |
| Server.ShinVPNServer.SweepIdle | shinvpn/server/server.py:409-417 | after one janitor round a session is there exactly if it was silent for at most 60 seconds; the kept ones are the same objects with the same leases, and no other lease is left |
| Server.ShinVPNServer.Shutdown | shinvpn/server/server.py:430-431 | no session and no lease is left |
| Addresses.NumberOfDecimal | shinvpn/crypto/handshake.py:208 | decimal text of a number is read back |
| Addresses.DottedRoundTrip | shinvpn/crypto/handshake.py:208-251 | dotted decimal of any bytes is read back |
| Addresses.DottedFour | shinvpn/crypto/handshake.py:251 | the text of four bytes is their decimals in order with dots between |
| Addresses.AddressTextInjective | shinvpn/server/server.py:271 | different addresses have different texts, so tables by text are tables by address |
| Handshake.InitiationAccepted | shinvpn/crypto/handshake.py:77-161 | an honest first message passes the server's check, which learns both keys and the session id |
| Handshake.InitiationFields | shinvpn/crypto/handshake.py:83-114 | the first message byte by byte; its tag is keyed with both exchanges |
| Handshake.AcceptExactly | shinvpn/crypto/handshake.py:116-161 | exactly which first messages are accepted: from an allowed key, with the right tag; and what is learnt from one |
| Handshake.InitiationTagDecides | shinvpn/crypto/handshake.py:157-159 | with the same text, another tag is refused |
| Handshake.ResponseFields | shinvpn/crypto/handshake.py:163-228 | the answer byte by byte; its tag and both session keys come from all three exchanges |
| Handshake.FinishExactly | shinvpn/crypto/handshake.py:230-289 | exactly which answers a client accepts: with its own session identifier and the tag of all three exchanges; and its keys are the server's swapped |
| Handshake.ResponseTagDecides | shinvpn/crypto/handshake.py:266-268 | with the same text, another tag is refused |
| Handshake.DirectionsDiffer | shinvpn/crypto/handshake.py:190-206 | the two directions have different keys, if HKDF tells the four labels apart |
| Handshake.ResponseAccepted | shinvpn/crypto/handshake.py:163-289 | the answer passes the client's check; sending keys are the other's receiving keys; the address arrives |
| Handshake.KeyAgreement | shinvpn/crypto/handshake.py:77-289 | the whole exchange, for all key pairs, random bytes and addresses |
| Handshake.AcceptedCanRespond | shinvpn/server/server.py:247-255 | once a first message is accepted the answer cannot fail, so no lease is left without a session |
| Handshake.HandshakeState.constructor | shinvpn/crypto/handshake.py:58-75 | the fields of a new state |
| Handshake.HandshakeState.CreateInitiation | shinvpn/crypto/handshake.py:77-114 | message and new state, and each error with the state it leaves |
| Handshake.HandshakeState.ProcessInitiation | shinvpn/crypto/handshake.py:116-161 | verdict and new state, and each error with the state it leaves; if accepted, the key in the message is an allowed one and is what is returned |
| Handshake.HandshakeState.CreateResponse | shinvpn/crypto/handshake.py:163-228 | answer, new state and two unused ciphers; they are set before a bad address is noticed |
| Handshake.HandshakeState.ProcessResponse | shinvpn/crypto/handshake.py:230-289 | verdict, new state and two unused ciphers; if accepted, the message names this session and the address in it is what is returned |
| MultiHop.ExitRoundTrip | shinvpn/tunnel/multihop.py:131-162 | the exit's frame yields its packet exactly while the filter accepts its number |
| MultiHop.OnionRoundTrip | shinvpn/tunnel/multihop.py:123-162 | encapsulation succeeds exactly for what fits in 65496 bytes with the host; relay and exit read back endpoint, frame and packet |
| MultiHop.OnionOnTheWire | shinvpn/tunnel/multihop.py:123-148 | the onion byte by byte: forward frame of type 13 and number 0, host and port, and in it the exit's data frame of type 3 with the sealed packet |
| MultiHop.DecapsulateExactly | shinvpn/tunnel/multihop.py:150-162 | a packet comes out exactly if a frame of type 3 with a number new to the filter stands at the front and its payload opens; other types do not move the filter |
| MultiHop.OneArrival | shinvpn/tunnel/multihop.py:123-162 | one packet through relay and exit |
| MultiHop.OnionRun | shinvpn/tunnel/multihop.py:123-162 | over every run of arrivals each yields its packet or nothing, as the filter decides, whatever endpoints were switched |
| MultiHop.OnionRunComplete | shinvpn/tunnel/multihop.py:123-162 | a run without repeats and with no packet later than one sent more than 127 after it loses nothing |
| MultiHop.MultiHopTunnel.EncapsulatePacket | shinvpn/tunnel/multihop.py:123-148 | the onion frame of the next number for the present endpoint |
| MultiHop.MultiHopTunnel.DecapsulatePacket | shinvpn/tunnel/multihop.py:150-162 | the packet of a data frame that opens, and nothing for anything else |
| MultiHop.MultiHopTunnel.TriggerAutoFailover | shinvpn/tunnel/multihop.py:164-168 | only the endpoint changes |
| Pathfinder.SortRanks | shinvpn/tunnel/multihop.py:83 | the ranking is a permutation in order of cost |
| Pathfinder.CostGrows | shinvpn/tunnel/multihop.py:37-41 | cost grows with round trip, jitter and loss; two milliseconds of jitter weigh like three of round trip, one percent of loss like fifty |
| Pathfinder.FirstIsCheapest | shinvpn/tunnel/multihop.py:88-95 | sorting and taking the first other node is the first cheapest one in table order, ties included |
| Pathfinder.CheapestLeast | shinvpn/tunnel/multihop.py:88-95 | that node costs no more than any other |
| Pathfinder.HealthyAre | shinvpn/tunnel/multihop.py:76 | the candidates are exactly the healthy nodes of the table |
| Pathfinder.ExitLeast | shinvpn/tunnel/multihop.py:87-98 | the exit is the one asked for if usable, else the cheapest healthy node other than the entry |
| Pathfinder.ChooseMeans | shinvpn/tunnel/multihop.py:69-100 | the whole choice over the nodes' measurements: what was asked for if it can be, else healthy nodes that no other undercuts, different if there are two; tokyo and frankfurt if none is healthy |
| Pathfinder.DefaultChoice | shinvpn/tunnel/multihop.py:47-58 | the default nodes give local and tokyo |
| Pathfinder.GreedyOptimal | shinvpn/tunnel/multihop.py:69-100 | with two healthy nodes and no preferences no pair of distinct healthy nodes costs less than the one chosen |
| Pathfinder.ExitDiffers | shinvpn/tunnel/multihop.py:69-100 | with any preferences exit and entry coincide exactly if the entry is the only healthy node and no other exit was asked for |
| Pathfinder.LossyAvoided | shinvpn/tunnel/multihop.py:60-67 | a node measured at a quarter lost packets is not chosen while another is healthy |
| Pathfinder.DynamicHopPathfinder.constructor | shinvpn/tunnel/multihop.py:55-58 | the five default nodes |
| Pathfinder.DynamicHopPathfinder.UpdateMetrics | shinvpn/tunnel/multihop.py:60-67 | one node's measurements change in place, it is healthy exactly if its loss is below 25, and no other node changes |
| Pathfinder.DynamicHopPathfinder.FindOptimalHopPair | shinvpn/tunnel/multihop.py:69-100 | the method's search makes the choice the other rows speak of, fallback included, and returns the table's own nodes while one is healthy |
| Obfuscation.ClientHelloReads | shinvpn/transport/obfuscation.py:30-87 | built exactly up to 65372 bytes of host; a reader directed by lengths consumes it exactly and finds every field, exactly up to 16221 |
| Obfuscation.ExtensionsMean | shinvpn/transport/obfuscation.py:48-66 | the four extensions say the host, TLS 1.3, h2 and http/1.1, and one X25519 share |
| Obfuscation.HostRecovered | shinvpn/transport/obfuscation.py:50-52 | the host is recovered exactly for 1 to 16221 bytes |
| Obfuscation.ServerHelloReads | shinvpn/transport/obfuscation.py:90-111 | always built, consumed exactly, with its version and key share |
| Obfuscation.RecordReads | shinvpn/transport/obfuscation.py:80-87 | a message in a record is read back exactly if the record is within TLS's limit |
| Obfuscation.ExtensionsOf | shinvpn/transport/obfuscation.py:65-66 | any list of extensions is read back |
| Obfuscation.FieldsRead | shinvpn/transport/obfuscation.py:69-78 | the fields of a client's message are read back one after another |
| Obfuscation.PaddingUndone | shinvpn/transport/obfuscation.py:114-133 | padding is undone, for any random bytes, exactly for payloads up to 65535 bytes |
| Obfuscation.PaddedLength | shinvpn/transport/obfuscation.py:119-125 | the padding fills whole blocks, and if that is less than 16 bytes the random extra is added |
| Obfuscation.RecordUndone | shinvpn/transport/obfuscation.py:136-147 | wrapping is undone, with anything after it; other bytes pass unchanged |
| Obfuscation.CamouflageUndone | shinvpn/transport/obfuscation.py:114-147 | padding and wrapping together are undone, exactly while the padded payload fits a record |

## Left out

- The path from the remote side back to the application (`feed_remote_data`, the piping loop of the server): the same framing and cipher in the other direction; only its ends, the steps `Left` and `Broke`, are modelled.
- Sockets, asyncio, WebSockets, TUN devices, routing commands, system proxy settings, configuration, GUI and CLI: I/O whose meaning is not in the repository.
- ProxyGateway.UniversalProxyGateway.HandleClientConnection: the replies to the application are not modelled; one that fails counts as a reset connection.
- ProxyGateway.UniversalProxyGateway.ReadRequest: what an HTTP header asks for is a parameter, because it depends on regular expressions; the piping results cover it. A header beyond the reader's own size limit counts as a failed read.
- `close_connection` and `stop` of the gateway acting on a connection from outside: only their effect on the piping loop, which may stop early, is modelled. A callback is always set.
- Names.NormaliseTwice: lowers ASCII letters only; Unicode lower-casing is not modelled.
- Addresses.NumberOfDecimal: `int` also reads signs, spaces, underscores and other digits, which an address text never has.
- CyberShield.NewAdBlocker: the built-in list is a parameter, and the capacity of 10000 its default.
- ProxySession.ProcessInbound: what is done with the plaintext of data packets and speed test requests; a disconnect frame is `Server.ShinVPNServer.HandleDisconnect`, and for the streams the step `SessionClosed`.
- The class `Server.ShinVPNServer` keeps sessions by what identifies them; their streams and ciphers are in `ProxySession.ClientSession`. Virtual addresses are numbers there (`Addresses.AddressTextInjective`).
- Server.ShinVPNServer.AcceptHandshake: begins after authentication; that the answer cannot fail after the lease is taken is `Handshake.AcceptedCanRespond`, which assumes that whether an X25519 exchange fails depends on the public key alone.
- ReplayWindow.AntiReplayWindow.CheckAndUpdate: numbers and window sizes are not negative.
- Pathfinder.DynamicHopPathfinder.FindOptimalHopPair: costs are real numbers, not floating point, and the dictionary of nodes is a list with distinct names.
- Frames.PrintParse: the clock value a keep-alive frame makes up is eight given bytes.
- Obfuscation.PaddingUndone: negative block sizes are not modelled.
- Rekeying: the source has thresholds and message numbers for it but no handler.
- Speed test results and telemetry, which are display values; profiles; and the split-tunnel decision, which is one set lookup.
- The base64 form of keys, the list of allowed peers as kept by the server, and the names of peers.
