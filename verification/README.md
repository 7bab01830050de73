# wirechaos: a verified model

wirechaos is a PostgreSQL proxy that authenticates its clients itself. It plays the SCRAM server towards a client,
recovers the ClientKey from the client's proof, and uses it to play the SCRAM client towards the backend. This project
models that design and the machinery around it in Dafny and proves what it is meant to guarantee.

## What is modelled

**Two-sided SCRAM** (RFC 5802, RFC 7677, RFC 5929 section 4.1). `ScramServer` and `ScramClients` hold the two state
machines as classes, each proved against a function on values; `Verifiers`, `Base64`, `Decimal`, `Utf8` and `Text` hold
the credentials and the codecs, all written out. `ScramExchange` runs one against the other: the results say how every
exchange ends, `Rfc5802` writes its messages out, and `ScramRules` says which messages are accepted. `Bits` and `Rfc4648`
pin XOR and base64 down to bits and tables. `ScramSoundness` is about the server alone, called in any order with any
strings, and `ProofPosition` about how much of a message a proof covers. `UnknownUsers` says what a failed login tells.
`EndToEnd` joins the client's exchange with the backend's.

**The startup protocol.** `Packet`, `Frames`, `StartupPacket` and `Options` are the wire formats, each with a printer, a
parser and both directions of the round trip; `WireBytes` gives the bytes themselves and `Forwarding` follows the
parameters to the backend. `BackendLinks` and `Dialogues` say, as functions of the bytes received,
what the backend link and the client connection read, say and store; `PgClients` and `Conns` are the objects that do it,
each method proved equal to its function, write by write. `Trace` is the grammar of what a client may see: every write
of `Conns` proves that its event may follow, so the bytes written are an accepted sequence at every point of every run.
`Relaying` and `StartupRelay` follow the backend's messages to the client, and `HonestPeers` and `HonestSessions` prove
progress: with a client that knows its password and an honest backend the driver brings the session up. `BindingPolicy`
says what the channel-binding mode guarantees, and `FixedTexts` and `Reports` that whatever a client is told reads back.

**Cached credential lookup.** `Cache` is the bounded cache, with the whole history of operations as a ghost; `AuthQuery`
models lookups as interleaved steps beside a changing database; `Placeholders` is the query check.

**Shared state.** `Registry` (cancel keys), `BufferPool` (message buffers), `CredentialFiles` and `CredentialStores`
(snapshots and reloads) are classes with representation invariants over every order of operations.

Text is a sequence of Unicode scalars and bytes are integers below 256, joined by a verified UTF-8 codec. 32-bit
quantities that travel as bit patterns (process ids, secrets) are kept as unsigned. Preconditions that are not obvious
are the ones the source relies on: distinct connection ids, a non-zero smallest buffer, a request that fits the pool.

## Where the code differs from its documentation

- A client-final whose proof is not its last attribute passes the checks, although a comment calls it malformed
  (crates/wirechaos-core/src/proxy/auth/scram/scram_authenticator.rs:178-180); `ProofPosition` shows it and gives the
  exact condition.
- A query such as `$1$4294967296` passes the placeholder check although it names two parameters: numbers that do not fit
  in 32 bits are skipped (`Placeholders.PromiseKeptIffAllFit` gives the exact condition).
- `get(0)` on a pool without buckets panics although nothing exceeds its capacity of zero
  (`BufferPool.MultiBufferPool.PanicIsDocumented`).
- A `forget` can be overtaken by a lookup that already holds its row (`AuthQuery.ForgetTakesEffect` and
  `AuthQuery.InFlightOutlivesForget` give both halves of the condition).
- An entry exactly as old as its lifetime still answers but is dropped by eviction, and eviction runs even when the
  inserted user is already held (`Cache.InsertCosts` gives the exact condition of a lost answer).
- `required_tls` is met by an SSL request that was declined (`Dialogues.RequiredTlsNeedsTls`,
  `HonestSessions.DeclinedTlsIsServed`).
- The verifier that authenticated a client is said to be the one its backend link uses
  (crates/wirechaos-core/src/proxy/conn.rs:288-289), but the store is asked a second time
  (`EndToEnd.ProvedClientReachesItsBackend` gives the exact condition under which that makes no difference).
- The bound mechanism is offered and compared as `-PLUS`, not under its registered name `SCRAM-SHA-256-PLUS`
  (crates/wirechaos-core/src/proxy/auth/scram/scram_authenticator.rs:29); a client that uses that name is refused
  (`EndToEnd.OwnBindingIsRefused`).
- The require mode of channel binding is documented to fail when the backend cannot be bound
  (crates/wirechaos-core/src/proxy/config.rs:83-84), but a backend that never asks for SASL is accepted unbound and
  unverified (`BindingPolicy.RequireBindsIffAsked` gives the exact condition, `BindingPolicy.NobodyAsked` the input), and
  may be told the password first (`BindingPolicy.PasswordLeavesIffAsked`).

`dafny verify dfyconfig.toml` checks the whole project.

## Model

| member | source | states |
|---|---|---|
| EndToEnd.ProvedClientReachesItsBackend | crates/wirechaos-core/src/proxy/conn.rs:284-334 | A client the proxy authenticated is let in by every backend that shares the credential the second lookup finds, under SCRAM-SHA-256 and under -PLUS with the certificate the link has seen, and the proxy verifies that backend's signature: with a password always, whatever salt and iteration count the backend has chosen; with a stored secret if and only if the proved key hashes to its StoredKey, as it does when the credential has not changed, and then the backend recovers that key |
| EndToEnd.AuthenticatedClientProvedItself | crates/wirechaos-core/src/proxy/auth/scram/handler.rs:19-83 | The evidence behind an AuthenticationOk is in the bytes the client sent: its two messages are the next two password messages of the input, the nonce is the one drawn for this connection, the verifier is the one stored for this user, and the proof covers the whole exchange |
| EndToEnd.AuthenticatedClientIsNotDowngraded | crates/wirechaos-core/src/proxy/auth/scram/scram_authenticator.rs:280-345 | Over a connection whose certificate could be bound, an authenticated client's own messages carry the flag n under the plain mechanism or exactly that certificate's binding |
| EndToEnd.OwnBindingIsRefused | crates/wirechaos-core/src/proxy/auth/scram/handler.rs:122-135 | Whatever the user, the certificate and the message, a client that names SCRAM-SHA-256-PLUS, as the proxy's own client role does, is refused with an invalid mechanism |
| UnknownUsers.UnknownUserReadsTheSame | crates/wirechaos-core/src/proxy/auth/scram/scram_authenticator.rs:202-224 | For every input a failed login reads the same for a known and for an unknown user, in events, rest and result, if and only if the known verifier has the stand-in's salt and iteration count or the client was never challenged |
| UnknownUsers.ChallengeTells | crates/wirechaos-core/src/proxy/auth/scram/scram_authenticator.rs:100-117 | A challenge gives away salt and iteration count, both readable from it, and nothing else of the credential |
| HonestSessions.DriverServesHonestPeers | crates/wirechaos-core/src/proxy/conn.rs:145-372 | Everyone honest: a client that knows its password, a store that holds what it derives or the password itself, also after a reload, a backend that shares the credential under its own salt and plays the server, a free key and enough writes. Whatever was negotiated first, the driver brings the session up |
| HonestPeers.HonestPeersMeet | crates/wirechaos-core/src/proxy/conn.rs:284-366 | The same without the driver: the script serves the client, with the RFC 5802 key of its password, and everything its session needs of others is there |
| HonestSessions.TwoNegotiations | crates/wirechaos-core/src/proxy/conn.rs:427-460 | A client may begin right away or after an SSL request, which continues in TLS exactly when TLS is configured |
| HonestPeers.HonestClientIsServed | crates/wirechaos-core/src/proxy/conn.rs:145-372 | Progress on the client's side: a startup packet with acceptable parameters, followed by the two messages an exchange with the stored verifier calls for, is served with the key that exchange extracts, whatever was negotiated before |
| HonestPeers.HonestClientIsAccepted | crates/wirechaos-core/src/proxy/auth/scram/handler.rs:19-83 | The SASL dialogue accepts exactly those two messages, byte for byte, with the key of that exchange, and leaves what follows |
| HonestPeers.StartupPacketReadsBack | crates/wirechaos-core/src/proxy/conn.rs:170-205 | A printed startup packet is read as one, leaving what follows |
| HonestPeers.HonestBackendStarts | crates/wirechaos-core/src/proxy/backend/pg_client.rs:174-269 | Progress on the backend's side: a backend that asks for SASL, plays the server of a finished exchange and goes on to ReadyForQuery brings the link up, with its notifications and verified as the exchange says |
| HonestPeers.HonestBackendCooperates | crates/wirechaos-core/src/proxy/conn.rs:289-366 | With such a backend behind the dial, whatever the order of the parameters, a free key and enough writes, a session that was served must come up |
| HonestPeers.SharedCredentialExchanges | crates/wirechaos-core/src/proxy/conn.rs:284-334 | The messages such a backend needs exist whenever it shares the credential, under its own salt where that is a password, and they verify it |
| ScramExchange.SaltReuse | crates/wirechaos-core/src/proxy/backend/scram_client.rs:90-237 | From any accepted client-final, however it was spelled, the extracted key and the verifier's StoredKey and ServerKey complete a fresh exchange with any authenticator of the same salt, iterations and keys: every step succeeds, the backend recovers the same key, and the signature check gives `Ok(true)`; plain and -PLUS |
| ScramExchange.CapturedKeyDecides | crates/wirechaos-core/src/proxy/backend/scram_client.rs:136-198 | A captured key opens the exchange with a backend that holds the stored credential, and verifies it, if and only if it hashes to the StoredKey; otherwise the backend refuses it |
| ScramExchange.PasswordCompletes | crates/wirechaos-core/src/proxy/auth/scram/scram_authenticator.rs:71-230 | For every password, salt, iteration count and pair of nonces, a password client is accepted by an authenticator over what that password derives, the extracted key is exactly the RFC 5802 ClientKey, and the server is verified |
| Rfc5802.ExchangeIsAsWritten | crates/wirechaos-core/src/proxy/backend/scram_client.rs:86-198 | Character by character, the two roles say what RFC 5802 prescribes, plain and bound: every message written out from password, salt, count, nonces and certificate, with ClientKey, StoredKey, ServerKey, AuthMessage, proof and signature by their equations, and the key extracted is that ClientKey |
| Rfc5802.NoBindingIsBiws | crates/wirechaos-core/src/proxy/backend/scram_client.rs:86-198 | The binding attribute of a plain exchange is `biws` |
| ScramRules.FirstAcceptedIff | crates/wirechaos-core/src/proxy/auth/scram/scram_authenticator.rs:71-117 | A client-first opens an exchange if and only if user, mechanism, GS2 flag, authorization identity and nonce are as listed |
| ScramRules.FlagRule | crates/wirechaos-core/src/proxy/auth/scram/scram_authenticator.rs:280-330 | The GS2 flag table, both ways: what is accepted, and which flag gets which refusal |
| ScramRules.FinalAcceptedIff | crates/wirechaos-core/src/proxy/auth/scram/scram_authenticator.rs:119-230 | A client-final of an open exchange is accepted if and only if its binding, nonce and proof are the right ones over a real verifier, the proof by its equation |
| ScramRules.FinalRefusedWith | crates/wirechaos-core/src/proxy/auth/scram/scram_authenticator.rs:119-230 | Which refusal any other one gets |
| ScramRules.LastAttributeCounts | crates/wirechaos-core/src/proxy/backend/scram_client.rs:240-260 | Of several attributes of one name the client role takes the last, and it takes nothing that is not there |
| ScramRules.ServerFirstIsChecked | crates/wirechaos-core/src/proxy/backend/scram_client.rs:96-121 | The first fault of a server-first message, or its nonce, salt and count |
| ScramRules.CapturedKeysAreBound | crates/wirechaos-core/src/proxy/backend/scram_client.rs:136-165 | A captured key is used exactly for its own salt and iteration count, and each other case has its own error |
| ScramRules.ServerFinalIsChecked | crates/wirechaos-core/src/proxy/backend/scram_client.rs:205-237 | The server's own error, no key to check with, or a verdict that is true exactly for the right signature |
| Bits.XorIsExclusive | crates/wirechaos-core/src/proxy/auth/scram/scram_authenticator.rs:189-201 | Every bit of proof XOR signature is set exactly when it is set in one of the two |
| Bits.XorCommutes | crates/wirechaos-core/src/proxy/backend/scram_client.rs:184-194 | Key and mask may be swapped, and a value masked with itself is zero |
| Bits.BitsDecide | crates/wirechaos-core/src/proxy/auth/scram/scram_authenticator.rs:189-201 | A byte is determined by its eight bits |
| ScramExchange.ExchangeOutcome | crates/wirechaos-core/src/proxy/backend/scram_client.rs:86-237 | How every exchange between a fresh client and a fresh server ends: through printing, splitting, base64 and decimal nothing is misread, so acceptance is decided by `H(recovered key) = StoredKey` on a non-dummy verifier and the verdict by the two ServerKeys; all failing cases included |
| ScramExchange.ServerAcceptsFirst | crates/wirechaos-core/src/proxy/auth/scram/scram_authenticator.rs:71-117 | The client's first message, plain or bound, is always accepted by a fresh authenticator and leaves it in exactly the state the client meant |
| ScramExchange.ServerFirstReadsBack | crates/wirechaos-core/src/proxy/backend/scram_client.rs:96-121 | Printing server-first and parsing it as the client does gives back nonce, salt and iteration count, for every verifier |
| ScramExchange.FinalReadsBack | crates/wirechaos-core/src/proxy/auth/scram/scram_authenticator.rs:130-187 | A client-final splits back into binding, nonce and proof, and its last `,p=` is where the proof begins, whatever bytes binding and proof are |
| ScramExchange.ServerReadsFinal | crates/wirechaos-core/src/proxy/auth/scram/scram_authenticator.rs:119-193 | The authenticator reads a ready client's final message as its own binding, its own combined nonce and the 32-byte proof that was printed |
| ScramExchange.SameAuthMessage | crates/wirechaos-core/src/proxy/backend/scram_client.rs:170-182 | Client and server sign the same text, each assembling it from its own side of the exchange |
| ScramExchange.SameBinding | crates/wirechaos-core/src/proxy/auth/scram/scram_authenticator.rs:336-345 | The binding the server expects is the one the client prints, for both mechanisms |
| ScramExchange.ServerFinalReadsBack | crates/wirechaos-core/src/proxy/backend/scram_client.rs:205-237 | `v=` and the base64 signature parse back to that one attribute |
| ScramExchange.ClientAnswers | crates/wirechaos-core/src/proxy/backend/scram_client.rs:90-198 | What the client answers a matching server-first with: the error of key selection, a wrong key length, or the final message over the shared transcript |
| ScramExchange.ServerDecides | crates/wirechaos-core/src/proxy/auth/scram/scram_authenticator.rs:189-230 | The server accepts a final message exactly when the key it recovers hashes to StoredKey and the verifier is no dummy, and keeps that key |
| ScramExchange.ClientVerifies | crates/wirechaos-core/src/proxy/backend/scram_client.rs:205-237 | The client's verdict on the server's signature depends only on the two ServerKeys |
| ScramExchange.OtherSaltIsDetected | crates/wirechaos-core/src/proxy/backend/scram_client.rs:122-152 | With captured keys, the exchange stops with a salt mismatch exactly when the backend's salt is another |
| ScramSoundness.ExtractedKeyIsProved | crates/wirechaos-core/src/proxy/auth/scram/scram_authenticator.rs:119-234 | After any sequence of calls with arbitrary strings, an extracted key means exactly one accepted first and one accepted final call, every other call refused, a verifier that is no dummy, a key hashing to StoredKey, and a proof that is that key XOR the HMAC of the recorded auth message |
| ScramSoundness.Explain | crates/wirechaos-core/src/proxy/auth/scram/scram_authenticator.rs:71-230 | Which calls of any history were accepted: none, one first, or one first and one final; all others were refused, and the session is that of a new authenticator up to its GS2 header, the opened one, or the closed one |
| ScramSoundness.RefusalLeaves | crates/wirechaos-core/src/proxy/auth/scram/scram_authenticator.rs:71-230 | What a refused call leaves: nothing changed, except that before opening a client-first may leave its GS2 header and that a client-final spends an open exchange |
| ScramSoundness.OneFinalPastStateCheck | crates/wirechaos-core/src/proxy/auth/scram/scram_authenticator.rs:119-125 | Once one final call has passed the state check no later call of either kind succeeds or changes the session |
| ScramSoundness.NoDowngrade | crates/wirechaos-core/src/proxy/auth/scram/scram_authenticator.rs:280-345 | With a certificate, an extracted key means the plain mechanism with flag `n`, or the `-PLUS` constant with the final message carrying exactly the certificate's binding: a stripped offer (`y`) is refused |
| ScramSoundness.AcceptedFirst | crates/wirechaos-core/src/proxy/auth/scram/scram_authenticator.rs:71-117 | What an accepted first call proves about user, mechanism, flag, authzid and nonces |
| ScramSoundness.AcceptedFinal | crates/wirechaos-core/src/proxy/auth/scram/scram_authenticator.rs:119-230 | What a key newly extracted by one call proves about verifier, proof, binding and nonce |
| ScramSoundness.RefusedProofsReadTheSame | crates/wirechaos-core/src/proxy/auth/scram/scram_authenticator.rs:202-224 | A well-formed final message with a wrong proof, and any proof against a dummy verifier, get the same refusal: an unknown user is not distinguishable from a wrong password here |
| ProofPosition.AllIsCoveredIffProofIsLast | crates/wirechaos-core/src/proxy/auth/scram/scram_authenticator.rs:178-187 | A client-final that passes the checks is covered entirely, all but the proof, if and only if its last attribute is the proof |
| ProofPosition.ProofNeedNotBeLast | crates/wirechaos-core/src/proxy/auth/scram/scram_authenticator.rs:178-187 | In every session the final message with the nonce moved behind the proof passes the checks, covering only the binding |
| ProofPosition.ReorderedIsAccepted | crates/wirechaos-core/src/proxy/auth/scram/scram_authenticator.rs:178-230 | And it is accepted: over a real verifier any key that hashes to StoredKey gets in that way and is the key extracted |
| ScramServer.ScramAuthenticator.constructor | crates/wirechaos-core/src/proxy/auth/scram/scram_authenticator.rs:47-60 | A fresh authenticator has nothing recorded |
| ScramServer.ScramAuthenticator.HandleClientFirst | crates/wirechaos-core/src/proxy/auth/scram/scram_authenticator.rs:71-117 | The whole effect on state, nonces and reply, including every refusal and what a refusal leaves behind |
| ScramServer.ScramAuthenticator.HandleClientFinal | crates/wirechaos-core/src/proxy/auth/scram/scram_authenticator.rs:119-230 | The whole effect: state check, attributes, binding, nonce, last `,p=`, proof length, recovered key, server signature; the state is spent by any final call that passes the state check |
| ScramServer.FindNonce | crates/wirechaos-core/src/proxy/auth/scram/scram_authenticator.rs:86-92 | The loop over attributes keeps the last `r=` |
| ScramServer.FindFinalAttributes | crates/wirechaos-core/src/proxy/auth/scram/scram_authenticator.rs:130-157 | The loop over attributes finds exactly one `c=`, `r=` and `p=`, and fails when one is missing or repeated |
| ScramClients.ScramClient.constructor | crates/wirechaos-core/src/proxy/backend/scram_client.rs:49-71 | A fresh client holds the given keys and an unpadded URL-safe nonce |
| ScramClients.ScramClient.UseChannelBinding | crates/wirechaos-core/src/proxy/backend/scram_client.rs:75-78 | Switches to the bound mechanism and header |
| ScramClients.ScramClient.ClientFinalMessage | crates/wirechaos-core/src/proxy/backend/scram_client.rs:90-198 | The whole effect on auth message and ServerKey, and the reply or the error |
| ChannelBinding.ExpectedCInjective | crates/wirechaos-core/src/proxy/tls.rs:79-89 | Two certificates have the same expected `c=` exactly when their digests are equal |
| Verifiers.SecretRoundTrip | crates/wirechaos-core/src/proxy/auth/verifier.rs:159-212 | A printed secret parses exactly when iterations are at least 4096 and the salt has at least 8 bytes, and then restores iterations, salt and both keys |
| Verifiers.AcceptedSecretsReprint | crates/wirechaos-core/src/proxy/auth/verifier.rs:159-212 | Every accepted secret, in any accepted spelling, reprints to a secret with the same meaning |
| Verifiers.EitherSpellingIsRead | crates/wirechaos-core/src/proxy/auth/verifier.rs:159-229 | A secret that is strong enough is read for what it says with each field padded or unpadded |
| Verifiers.FieldsAreChecked | crates/wirechaos-core/src/proxy/auth/verifier.rs:159-201 | For any four fields, which fault is reported first, or the verifier they make |
| Verifiers.SecretFaults | crates/wirechaos-core/src/proxy/auth/verifier.rs:159-170 | An MD5 secret and a foreign scheme are refused as such, and nothing else is |
| Verifiers.DummyIs | crates/wirechaos-core/src/proxy/auth/verifier.rs:143-157 | The stand-in for an unknown user: 4096 iterations, 16 bytes of the hash of name and cluster nonce, keys of zeros |
| Verifiers.PasswordSecretRoundTrip | crates/wirechaos-core/src/proxy/auth/verifier.rs:88-113 | A verifier derived from a password survives printing and parsing, without the password |
| Verifiers.FromPgSecret | crates/wirechaos-core/src/proxy/auth/verifier.rs:159-201 | An accepted secret has at least 4096 iterations and 8 salt bytes, is no dummy and holds no password |
| Verifiers.SplitSecret | crates/wirechaos-core/src/proxy/auth/verifier.rs:167-190 | The `$` and `:` splits of a secret are unambiguous |
| Base64.EncodeThenDecode | crates/wirechaos-core/src/proxy/auth/verifier.rs:227-229 | Both spellings of every byte sequence decode to it |
| Base64.DecodeThenEncode | crates/wirechaos-core/src/proxy/auth/verifier.rs:227-229 | Decoding accepts canonical encodings only |
| Rfc4648.EncodingIs | crates/wirechaos-core/src/proxy/auth/verifier.rs:203-229 | Every symbol of an encoding is the character of the RFC 4648 table for the six bits at its place, in both alphabets, with the padding behind them and the length that follows |
| Rfc4648.SymbolIsTabled | crates/wirechaos-core/src/proxy/auth/verifier.rs:203-229 | The symbol of each value is the character at that place of the alphabet as RFC 4648 writes it |
| Rfc4648.TestVectors | crates/wirechaos-core/src/proxy/auth/verifier.rs:203-229 | The test vectors of section 10 |
| Decimal.PrintThenParse | crates/wirechaos-core/src/proxy/auth/verifier.rs:203-212 | Every u32 reads back from its decimal |
| Decimal.DigitAppended | crates/wirechaos-core/src/proxy/auth/verifier.rs:203-212 | Numbers are printed digit by digit without leading zeros |
| Decimal.ParseMeans | crates/wirechaos-core/src/proxy/auth/verifier.rs:167-175 | Digits whose value fits are read, with or without one plus sign and leading zeros |
| Decimal.ParseRefuses | crates/wirechaos-core/src/proxy/auth/verifier.rs:167-175 | Nothing else is |
| Text.RFind | crates/wirechaos-core/src/proxy/auth/scram/scram_authenticator.rs:178-187 | The last occurrence at or before a position, and none when there is none |
| Options.SplitOptionTokens | crates/wirechaos-core/src/proxy/startup_config_parse_util.rs:61-94 | The loop over characters, with its escape flag, computes `Tokens` |
| Options.ParseOptions | crates/wirechaos-core/src/proxy/startup_config_parse_util.rs:6-48 | The loop over tokens computes `Settings` of the tokens, errors included |
| Options.TokensRoundTrip | crates/wirechaos-core/src/proxy/startup_config_parse_util.rs:61-94 | Any spelling of non-empty tokens, joined by non-empty runs of blanks, with or without blanks at the ends, splits into exactly those tokens |
| Options.EscapeSpells | crates/wirechaos-core/src/proxy/startup_config_parse_util.rs:61-94 | Escaping blanks and backslashes is such a spelling, for every token |
| Options.SettingsRoundTrip | crates/wirechaos-core/src/proxy/startup_config_parse_util.rs:6-60 | Settings written in any mix of `-ckey=value`, `-c key=value` and `--key=value` read back to their map, a later one winning |
| Options.OptionsRoundTrip | crates/wirechaos-core/src/proxy/startup_config_parse_util.rs:6-94 | Every map with non-empty `=`-free keys and non-empty values, rendered in any order, style, spelling and spacing, parses back to itself |
| Options.BlanksSeparate | crates/wirechaos-core/src/proxy/startup_config_parse_util.rs:61-94 | Spaces and tabs separate tokens, nothing else does, and a backslash keeps even those |
| Options.ReplicationWords | crates/wirechaos-core/src/proxy/startup_config_parse_util.rs:96-104 | The words of each replication mode, in any letter case, and no others |
| Options.OptionsSendable | crates/wirechaos-core/src/proxy/startup_config_parse_util.rs:6-94 | What NUL-free options parse to has non-empty NUL-free names and NUL-free values |
| Options.Setting | crates/wirechaos-core/src/proxy/startup_config_parse_util.rs:11-44 | One setting takes one or two tokens and has a non-empty key and value |
| Packet.MessageReader.ReadU32 | crates/wirechaos-core/src/proxy/packet.rs:60-75 | Big-endian value and advanced cursor, or an error and an unmoved cursor |
| Packet.MessageReader.ReadString | crates/wirechaos-core/src/proxy/packet.rs:77-92 | The scanning loop reads the C string at the cursor and moves past its NUL, or fails as `ReadCString` does |
| Packet.MessageReader.ReadStringFixedSize | crates/wirechaos-core/src/proxy/packet.rs:94-106 | Exactly `size` bytes as UTF-8, or an error |
| Packet.CStringReadsBack | crates/wirechaos-core/src/proxy/packet.rs:77-92 | A NUL-free string printed with its terminator reads back, leaving what follows |
| Packet.ReadCStringInverts | crates/wirechaos-core/src/proxy/packet.rs:77-92 | Whatever is read is what was there: string, NUL, rest |
| Utf8.EncodedForm | crates/wirechaos-core/src/proxy/packet.rs:77-92 | Every character takes the shortest form of the RFC 3629 table, with its lead byte, its continuation bytes and its payload |
| Utf8.AsciiIsItself | crates/wirechaos-core/src/proxy/packet.rs:77-92 | ASCII text is its own encoding |
| WireBytes.BigEndianKeepsOrder | crates/wirechaos-core/src/proxy/packet.rs:60-75 | Integers are ordered as their bytes are, the most significant first |
| WireBytes.SslRequestBytes | crates/wirechaos-core/src/proxy/conn.rs:170-205 | The eight bytes of an SSLRequest, answered once, according to the configuration |
| WireBytes.GssencRequestBytes | crates/wirechaos-core/src/proxy/conn.rs:170-205 | The eight bytes of a GSSENCRequest, declined once |
| WireBytes.CancelRequestBytes | crates/wirechaos-core/src/proxy/conn.rs:377-408 | The bytes of a CancelRequest name process id and secret, most significant byte first |
| WireBytes.StartupPacketBytes | crates/wirechaos-core/src/proxy/conn.rs:170-205 | The bytes of a version 3.0 startup packet lead to a session, or to the demand for TLS |
| WireBytes.ServerMessageBytes | crates/wirechaos-core/src/proxy/conn.rs:605-633 | The very bytes of the short messages: replies, AuthenticationOk, BackendKeyData, ReadyForQuery |
| WireBytes.SaslMessageBytes | crates/wirechaos-core/src/proxy/auth/handler.rs:34-45 | The SASL continue and final messages: tag, length, sub-code, text |
| WireBytes.SaslOfferBytes | crates/wirechaos-core/src/proxy/auth/scram/handler.rs:85-110 | The offer of mechanisms: tag, length, sub-code, each name before a NUL, a NUL at the end |
| WireBytes.ErrorMessageBytes | crates/wirechaos-core/src/proxy/conn.rs:651-664 | An ErrorResponse: severity twice, code and message, each behind its letter |
| WireBytes.BackendMessageBytes | crates/wirechaos-core/src/proxy/backend/pg_client.rs:174-269 | What each message of a backend is taken for, by its letter, its sub-code and its layout |
| WireBytes.BackendSaslBytes | crates/wirechaos-core/src/proxy/backend/pg_client.rs:331-430 | The SASL messages of a backend by their sub-codes 10, 11 and 12 |
| WireBytes.ParameterStatusBytes | crates/wirechaos-core/src/proxy/backend/pg_client.rs:174-269 | A ParameterStatus is name before value |
| StartupPacket.ReadParams | crates/wirechaos-core/src/proxy/conn.rs:224-240 | The parse loop over names and values consumes the packet as `ParseParams` says, layout errors included |
| StartupPacket.StartupRoundTrip | crates/wirechaos-core/src/proxy/backend/pg_client.rs:432-473 | A printed startup packet is consumed to its last byte by the parse loop and gives the same map plus the missing user, database and application_name |
| StartupPacket.ParsedIsSendable | crates/wirechaos-core/src/proxy/conn.rs:224-240 | Every parsed map has non-empty names and no NUL |
| StartupPacket.MergedIsSendable | crates/wirechaos-core/src/proxy/conn.rs:242-249 | So does every merged one; `options` is gone and the options cannot introduce `replication` |
| StartupPacket.StartupIsForwarded | crates/wirechaos-core/src/proxy/conn.rs:304-333 | From the client's packet to the backend's: parsed, merged with the options, printed in any order, parsed again, the parameters are the merged ones with the defaults filled in |
| Forwarding.MergeMeans | crates/wirechaos-core/src/proxy/conn.rs:242-248 | Which names the merged parameters have, and whose value each has: a setting's, unless it is `replication`, else the packet's; `options` is gone; unreadable options are refused |
| Forwarding.SettingsReachTheBackend | crates/wirechaos-core/src/proxy/conn.rs:222-262 | From the client's packet to the backend's: under every name the backend reads the client's setting, else the client's parameter, else the default of the link, else nothing |
| Forwarding.WrittenSettingsReachTheBackend | crates/wirechaos-core/src/proxy/conn.rs:222-262 | The same for every map of settings, in any order, style, spelling and spacing of the options value |
| Forwarding.StartupMessageReadsBack | crates/wirechaos-core/src/proxy/backend/pg_client.rs:432-473 | What the link writes first is a startup packet to the server role |
| Forwarding.SessionParametersAreSent | crates/wirechaos-core/src/proxy/conn.rs:295-343 | In a run of the driver: the first message to the backend of every session reads, name by name, as what its client asked for |
| Forwarding.LinkIsConfigured | crates/wirechaos-core/src/proxy/conn.rs:313-334 | Field by field, how a session's link is set up: the proved key, what the store holds of the user, the user's own name, the database asked for or the user's name, the configured policy |
| Forwarding.SessionKeepsItsPolicy | crates/wirechaos-core/src/proxy/conn.rs:304-343 | The link of every session keeps the configured channel-binding mode: required, every exchange is bound; preferred, exactly those that can be; disabled, none |
| Frames.PrintThenRead | crates/wirechaos-core/src/proxy/backend/pg_client.rs:475-498 | A printed frame reads back within the size limit, leaving what follows |
| Frames.ReadInverts | crates/wirechaos-core/src/proxy/backend/pg_client.rs:419-488 | A frame that was read is exactly the bytes it was read from |
| Frames.ParseErrorResponse | crates/wirechaos-core/src/proxy/backend/pg_client.rs:637-665 | The two nested index loops end in range on every byte string and compute the last S or V, last C and last M field, with the defaults |
| Frames.FieldsReadBack | crates/wirechaos-core/src/proxy/backend/pg_client.rs:637-665 | Any list of NUL-free fields, printed and terminated, reads back as that list |
| Frames.ErrorRoundTrip | crates/wirechaos-core/src/proxy/conn.rs:651-664 | `parse_error_response` inverts `prepare_error_buf` |
| Reports.ToldReadsBack | crates/wirechaos-core/src/proxy/conn.rs:651-664 | Every error the client is told reads back as it was meant: no fixed text, user name, version, authentication method or backend's own code and message puts a NUL into the ErrorResponse, whoever sent them |
| Reports.BackendFailureIsClean | crates/wirechaos-core/src/proxy/backend/pg_client.rs:637-665 | No field of a backend's ErrorResponse contains a NUL, whatever its bytes |
| Reports.RefusalIsRead | crates/wirechaos-core/src/proxy/backend/pg_client.rs:174-269 | A link whose backend refuses at once fails in exactly its severity, code and message |
| Reports.BackendRefusalIsTold | crates/wirechaos-core/src/proxy/backend/error.rs:14-123 | What the client is told then: always the backend's SQLSTATE, its words in three cases, one of three fixed texts in all others |
| FixedTexts.BackendErrorIsClean | crates/wirechaos-core/src/proxy/backend/error.rs:75-123 | What a client is told of any backend failure contains no NUL, when the backend's own words do not |
| FixedTexts.MethodsAreNamed | crates/wirechaos-core/src/proxy/backend/pg_client.rs:617-636 | Which authentication methods are named to the client, and that any other is given by its number |
| PgClients.BuildStartupBody | crates/wirechaos-core/src/proxy/backend/pg_client.rs:432-473 | The loop with its three flags prints all parameters and exactly the missing defaults |
| PgClients.PgClient.WriteStartupMessage | crates/wirechaos-core/src/proxy/backend/pg_client.rs:432-473 | The untagged packet with its length, written whole or not at all |
| PgClients.PgClient.WriteMessage | crates/wirechaos-core/src/proxy/backend/pg_client.rs:490-498 | The tagged packet with its wrapping length, written whole or not at all |
| PgClients.PgClient.ReadFrame | crates/wirechaos-core/src/proxy/backend/pg_client.rs:419-488 | Header and body of one message, or an error that is never mistaken for a backend's own |
| PgClients.PgClient.ReadAuthenticationData | crates/wirechaos-core/src/proxy/backend/pg_client.rs:378-417 | The data of one authentication message of the expected kind, the backend's own report, or a protocol error |
| PgClients.PgClient.HandleCleartext | crates/wirechaos-core/src/proxy/backend/pg_client.rs:271-284 | Sends the password and its NUL, only when there is a password |
| PgClients.PgClient.HandleMd5 | crates/wirechaos-core/src/proxy/backend/pg_client.rs:286-310 | Sends the response for a 4-byte salt, only when there is a password |
| PgClients.PgClient.HandleSasl | crates/wirechaos-core/src/proxy/backend/pg_client.rs:312-376 | The exchange `SaslExchange` describes, error for error: what is read, what is written, and whether the signature was verified |
| BackendLinks.SaslReads | crates/wirechaos-core/src/proxy/backend/pg_client.rs:312-376 | A successful exchange read exactly the server's two messages and wrote exactly the client's two, of a completed run of a fresh SCRAM client under the selected mechanism; with a password or ServerKey at hand the backend was verified |
| BackendLinks.KeysMeanVerified | crates/wirechaos-core/src/proxy/backend/scram_client.rs:205-237 | With a password or a ServerKey an exchange never completes unverified |
| BackendLinks.SelectionIsSound | crates/wirechaos-core/src/proxy/backend/mod.rs:225-272 | A selected mechanism was offered, is bound only when binding is possible, and obeys the require and disable modes |
| BackendLinks.SelectionIsExact | crates/wirechaos-core/src/proxy/backend/mod.rs:225-272 | For every mode, both ways: which mechanism is selected, and each reason why none is |
| BindingPolicy.PreferBindsIffOffered | crates/wirechaos-core/src/proxy/backend/mod.rs:225-272 | Under the default mode each exchange of a started session is bound to the certificate its link has seen exactly when the backend offered it and there is one, otherwise plain; disabled, none is bound |
| BindingPolicy.OffersMeans | crates/wirechaos-core/src/proxy/backend/mod.rs:181-190 | A list of names, each before a NUL, offers exactly the mechanisms named in it |
| BindingPolicy.RequireBindsIffAsked | crates/wirechaos-core/src/proxy/config.rs:75-85 | Under the require mode every exchange of a started session ran under -PLUS with the certificate the link has seen; the session is bound if and only if its backend asked for SASL at all, and with a key or password at hand exactly then verified |
| BindingPolicy.NobodyAsked | crates/wirechaos-core/src/proxy/backend/pg_client.rs:174-269 | The other case: AuthenticationOk and ReadyForQuery alone bring any link up, unverified and with nothing said but the startup message, whatever the mode |
| BindingPolicy.PasswordLeavesIffAsked | crates/wirechaos-core/src/proxy/backend/pg_client.rs:271-307 | Whatever the mode, a started link has written more than its startup message and its SASL answers if and only if it holds a password and its backend asked for it, in clear text or as a digest; where clear text was asked for, the password is in what was written |
| BindingPolicy.CleartextIsTold | crates/wirechaos-core/src/proxy/backend/pg_client.rs:271-307 | A backend that asks for clear text and is then satisfied is told the password under every mode, over a link that is not bound and a session that is not verified |
| PgClients.PgClient.HandleStartupHandshake | crates/wirechaos-core/src/proxy/backend/pg_client.rs:174-269 | The loop computes `Handshake`: the same state at the first ReadyForQuery, or the same error |
| BackendLinks.HandshakeReads | crates/wirechaos-core/src/proxy/backend/pg_client.rs:174-269 | A successful handshake consumed exactly the frames up to the first ReadyForQuery: notifications are their ParameterStatus and Notice messages in order, the key is the last BackendKeyData, every SASL request is followed by the two messages of a completed exchange, everything written is the answers to them, and with a secret at hand the signature was verified exactly when SASL was requested |
| BackendLinks.HandshakeFails | crates/wirechaos-core/src/proxy/backend/pg_client.rs:174-269 | A failure in a backend's own words is the ErrorResponse that backend sent last |
| PgClients.Connect | crates/wirechaos-core/src/proxy/backend/mod.rs:118-134 | The session `Start` describes, or its error: the startup message is the first thing written, then the answers of the handshake |
| PgClients.StartedMeans | crates/wirechaos-core/src/proxy/backend/mod.rs:118-134 | What a started session holds of its backend's opening messages, all it has written to it, and when it verified it |
| Relaying.ReplayKeepsOrder | crates/wirechaos-core/src/proxy/conn.rs:573-603 | Replaying drops, reorders and retags nothing and at most cuts a ParameterStatus after its second C string |
| Relaying.ReplayIsExact | crates/wirechaos-core/src/proxy/conn.rs:573-603 | The replayed messages equal the backend's if and only if every ParameterStatus was two C strings and nothing more |
| Relaying.ReplayedStatus | crates/wirechaos-core/src/proxy/backend/pg_client.rs:213-224 | A replayed ParameterStatus is a prefix of the original, and the whole of it exactly when nothing followed the second string |
| StartupRelay.ClientReceivesWhatTheBackendSent | crates/wirechaos-core/src/proxy/conn.rs:573-603 | For such messages the client's notification bytes are the backend's, byte for byte and in order |
| StartupRelay.CancelReachesItsSession | crates/wirechaos-core/src/proxy/conn.rs:377-408 | The BackendKeyData body of a live session, echoed in a CancelRequest, names that session's backend and no other's |
| StartupRelay.EchoedKeyIsForwarded | crates/wirechaos-core/src/proxy/conn.rs:170-205 | In a run: a connection that only echoes the key data of a live session in a CancelRequest has it forwarded to that session's backend, under the backend's own key, hears nothing and changes no registration |
| Trace.Shape | crates/wirechaos-core/src/proxy/conn.rs:145-372 | Every accepted event sequence is at most one SSL and one GSS reply, then a prefix of SASL, SASLContinue, SASLFinal, AuthenticationOk, notifications, BackendKeyData, ReadyForQuery, possibly cut short by one final error that never follows a notification |
| Trace.AtMostOnce | crates/wirechaos-core/src/proxy/conn.rs:145-168 | No second SSL or GSS reply, nothing after an error, no error after a notification |
| Trace.PrefixAccepted | crates/wirechaos-core/src/proxy/conn.rs:145-168 | Acceptance holds at every earlier moment too |
| Conns.Conn.DriveStartupUntilReady | crates/wirechaos-core/src/proxy/conn.rs:145-168 | On every input: at most three packets, and the client hears exactly the script of what it sent followed by the finale of its session, cut short only where writes run out. The result, the one reason a session was refused for or its silence, the registration beside all others, the guard that is kept, the cancel request that was forwarded and the input left for the relay are all determined by the input, the setup, the registry and the order in which the parameters were listed. Throughout, the bytes written are an accepted event sequence, an AuthenticationOk is backed by evidence in the client's own bytes, and a BackendKeyData resolves to this session's backend |
| Conns.Conn.CooperationServes | crates/wirechaos-core/src/proxy/conn.rs:145-168 | A client the script serves gets its session, ready and announced in full, whenever everyone cooperates |
| Conns.Conn.OthersStay | crates/wirechaos-core/src/proxy/conn.rs:145-168 | However a connection ends, every other live session stays registered under its own backend and its key keeps resolving to it |
| Dialogues.WhyNotOpened | crates/wirechaos-core/src/proxy/conn.rs:284-361 | The reasons, both ways: an invalid state means that the credential is gone or that all 64 candidate keys are in use after a dial that started; a backend's failure is the failure of that very dial; silence means that the store did not answer or that the backend has no valid address; a session that opens gets a free key |
| Dialogues.FirstFreeMeans | crates/wirechaos-core/src/proxy/conn.rs:345-361 | The key taken is the first of the 64 candidates that is free; there is none exactly when all are taken |
| Dialogues.ServedIsProved | crates/wirechaos-core/src/proxy/conn.rs:145-372 | Whoever a script serves has been authenticated in their own words over the connection as negotiated: the evidence holds, the greeting is exactly what was said, and required TLS was asked for |
| Dialogues.RequiredTlsNeedsTls | crates/wirechaos-core/src/proxy/conn.rs:190-192 | Where TLS is required, a served client speaks through TLS if and only if TLS is configured; otherwise the declined request counts and the session goes on in plain text |
| HonestSessions.DeclinedTlsIsServed | crates/wirechaos-core/src/proxy/conn.rs:190-192 | The other case exists: with TLS required but not configured, every honest client that asks for it and is told no is served in plain text |
| Dialogues.AcceptedIsEvidence | crates/wirechaos-core/src/proxy/auth/scram/handler.rs:19-83 | An accepted dialogue is evidence: the two messages in the input, this connection's nonce, the stored verifier of this user, no stand-in |
| Dialogues.BindingNeedsTls | crates/wirechaos-core/src/proxy/auth/scram/handler.rs:43-58 | The first thing a client is told is the offer, and `-PLUS` is in it exactly over TLS with a certificate that can be bound |
| Dialogues.ScriptExtends | crates/wirechaos-core/src/proxy/conn.rs:145-168 | A script never takes back what was said |
| Conns.Conn.HandleStartup | crates/wirechaos-core/src/proxy/conn.rs:170-205 | One packet does exactly the step its code and the flags call for, with its own error, reply, forwarded cancel request or silence |
| Conns.Conn.HandleStartupPacket | crates/wirechaos-core/src/proxy/conn.rs:217-372 | A startup packet is refused with the first fault of its parameters; otherwise the client hears exactly the SASL dialogue its bytes call for, refusal included, and an accepted client gets its session or the one reason why not |
| Conns.Conn.PrepareSession | crates/wirechaos-core/src/proxy/conn.rs:222-281 | Parameters, user, database and replication mode, or the first fault |
| Conns.Conn.ServeSession | crates/wirechaos-core/src/proxy/conn.rs:283-371 | The dialogue of the client's bytes, then the session: refused, failed for its own reason, or opened for the evidence the dialogue yields, with what the client has sent since still to be read |
| Conns.Conn.RunSession | crates/wirechaos-core/src/proxy/conn.rs:295-371 | The session turns out as its fate says: opened and announced by its notifications, key and status as far as writes reach, refused for the one reason, or given up in silence; the registry gains exactly an opened session and the connection keeps its guard |
| Conns.Conn.StartBackend | crates/wirechaos-core/src/proxy/conn.rs:304-343 | The backend is dialled with the proved key, the verifier's own keys, salt and iterations, and the session's parameters in some order; its error is passed on |
| Conns.Conn.OpenSession | crates/wirechaos-core/src/proxy/conn.rs:295-366 | Lookup, address, dial and registration fail with their own errors, in this order, and then leave the registry as it was; on success the first free candidate is this session's key, registered beside all others under this connection's guard, and resolves to a backend dialled for its user |
| Conns.Conn.RegisterSession | crates/wirechaos-core/src/proxy/conn.rs:345-361 | A key that is already taken changes nothing; the first free one of the 64 candidates is registered for this backend, and failure means there was none |
| Conns.Conn.Announce | crates/wirechaos-core/src/proxy/conn.rs:368-370 | Notifications, key and status, in this order, exactly as far as writes are left |
| Conns.Conn.SendStartupNotifications | crates/wirechaos-core/src/proxy/conn.rs:573-603 | The stored notifications, in order, as far as writes are left |
| Conns.Conn.SendKeySecret | crates/wirechaos-core/src/proxy/conn.rs:605-621 | The session's key in 8 bytes |
| Conns.Conn.SendReadySignal | crates/wirechaos-core/src/proxy/conn.rs:623-633 | The backend's own status byte |
| Conns.Conn.HandleAuthentication | crates/wirechaos-core/src/proxy/auth/handler.rs:11-32 | The client hears the dialogue and, when refused, the refusal's own code and text, once; an internal failure is not reported |
| Conns.Conn.HandleScramAuth | crates/wirechaos-core/src/proxy/auth/scram/handler.rs:19-83 | The dialogue the client's bytes call for, write by write: what is said, what input is left, the refusal, or the key and its evidence |
| Conns.Conn.Challenge | crates/wirechaos-core/src/proxy/auth/scram/handler.rs:52-66 | Offer and challenge as the client's next bytes call for, with this connection's nonce |
| Conns.Conn.VerifyProof | crates/wirechaos-core/src/proxy/auth/scram/handler.rs:68-76 | The signature answers the final message the client sent, or the refusal of it |
| Conns.Conn.FindVerifier | crates/wirechaos-core/src/proxy/auth/scram/handler.rs:30-39 | An unknown user gets the stable stand-in of its name and the cluster nonce, an unavailable store is its own refusal |
| Conns.Conn.ReadSaslResponse | crates/wirechaos-core/src/proxy/auth/scram/handler.rs:85-121 | One password message, or the fault the client is or is not told |
| Conns.Conn.ReadSaslInitialResponse | crates/wirechaos-core/src/proxy/auth/scram/handler.rs:122-151 | An offered mechanism and the UTF-8 client-first of the stated length, or the fault |
| Conns.Conn.ReadSaslFinalResponse | crates/wirechaos-core/src/proxy/auth/scram/handler.rs:153-159 | The body as UTF-8, or the malformed refusal |
| Dialogues.SaslResponseReadsBack | crates/wirechaos-core/src/proxy/auth/scram/handler.rs:85-121 | The server role reads the framing the client role prints |
| Dialogues.InitialResponseReadsBack | crates/wirechaos-core/src/proxy/auth/scram/handler.rs:122-151 | The server role reads the SASLInitialResponse the client role prints, for every offered mechanism |
| Conns.Conn.HandleSslRequest | crates/wirechaos-core/src/proxy/conn.rs:428-460 | One reply, `S` exactly when TLS is configured, and only once per connection; after `S` the input is the decrypted stream, and a failed handshake is not reported |
| Conns.Conn.HandleGssencRequest | crates/wirechaos-core/src/proxy/conn.rs:410-427 | One `N`, and only once per connection |
| Conns.Conn.HandleCancelRequest | crates/wirechaos-core/src/proxy/conn.rs:377-408 | A cancel request is forwarded to exactly the live session its key belongs to, under that backend's own key, or to nobody; the requester hears nothing |
| Conns.Conn.ReadStartupPacket | crates/wirechaos-core/src/proxy/conn.rs:499-549 | The next packet, or the first fault among length, size limit, empty body, pool capacity and end of input |
| Conns.Conn.SendErrorMessage | crates/wirechaos-core/src/proxy/conn.rs:207-215 | One FATAL error with this code and text, only in a phase where the protocol allows one |
| Conns.Conn.WriteMessage | crates/wirechaos-core/src/proxy/conn.rs:559-571 | A message is written whole or not at all, and only when its event may follow |
| Registry.Registry.Register | crates/wirechaos-core/src/proxy/backend/registry.rs:36-56 | Both tables list exactly the live guards; a duplicate key is handed back and changes nothing |
| Registry.Registry.LookupByKey | crates/wirechaos-core/src/proxy/backend/registry.rs:58-60 | A key resolves exactly when a live guard has it, and to that guard's backend |
| Registry.Registry.Release | crates/wirechaos-core/src/proxy/backend/registry.rs:78-86 | Dropping a guard removes its session from both tables and no other |
| Registry.OrderlyRunsAgree | crates/wirechaos-core/src/proxy/backend/registry.rs:36-86 | After any sequence of registrations, collisions and drops in which no connection registers twice while its guard lives, the tables are exactly the live guards |
| Registry.KeyResolvesIffLive | crates/wirechaos-core/src/proxy/backend/registry.rs:58-60 | In any such history a key resolves exactly while its session lives, to its own backend |
| Registry.KeysAgreeIffDropsFindTheirConnection | crates/wirechaos-core/src/proxy/backend/registry.rs:78-86 | For every history that drops live guards, whatever connection ids it uses: keys resolve exactly to their own live sessions at every moment if and only if every drop finds its connection on record |
| Registry.SharedConnIdLeavesAKeyBehind | crates/wirechaos-core/src/proxy/backend/registry.rs:78-86 | A witness of the other case: two guards on one id, after which a dropped session's key still resolves |
| Cache.RunIsBounded | crates/wirechaos-core/src/proxy/auth/credentials/cache.rs:54-117 | After any operations the cache holds at most `max_entries` users, each with its latest insert that was not forgotten since |
| Cache.AnswersAreRecalled | crates/wirechaos-core/src/proxy/auth/credentials/cache.rs:54-117 | Every answer is the one an unbounded cache would give: eviction loses answers, never changes them |
| Cache.NothingLostBelowTheLimit | crates/wirechaos-core/src/proxy/auth/credentials/cache.rs:102-117 | With fewer users than the limit, under a clock that never goes back, the cache answers exactly as an unbounded one |
| Cache.VerifierAnswersForItsLifetime | crates/wirechaos-core/src/proxy/auth/credentials/cache.rs:54-72 | A stored verifier that nothing later concerned is the answer for exactly `positive_ttl`, the last moment included, and none after it |
| Cache.AbsenceAnswersForItsLifetime | crates/wirechaos-core/src/proxy/auth/credentials/cache.rs:54-72 | The same for a user known to be absent, with `negative_ttl` |
| Cache.NoAnswerWithoutInsert | crates/wirechaos-core/src/proxy/auth/credentials/cache.rs:54-100 | A user nobody inserted, or who was forgotten since, has no answer |
| Cache.InsertCosts | crates/wirechaos-core/src/proxy/auth/credentials/cache.rs:102-117 | An insert costs another user a live answer exactly when the map is full and that entry is as old as it may get or too many entries are younger, whether or not the inserted user was held |
| Cache.TheLimitIsTight | crates/wirechaos-core/src/proxy/auth/credentials/cache.rs:85-117 | For every limit of two or more a history over exactly that many users loses a live answer |
| Cache.LookupCache.constructor | crates/wirechaos-core/src/proxy/auth/credentials/cache.rs:27-39 | A limit of zero becomes one |
| Cache.LookupCache.Get | crates/wirechaos-core/src/proxy/auth/credentials/cache.rs:54-72 | A live entry or nothing; an expired entry of the user is dropped; a live answer is the unbounded cache's |
| Cache.LookupCache.GetNegative | crates/wirechaos-core/src/proxy/auth/credentials/cache.rs:75-83 | The time of a live negative entry, which is the user's latest insert |
| Cache.LookupCache.InsertPositive | crates/wirechaos-core/src/proxy/auth/credentials/cache.rs:85-89 | The new entry is held and the size limit kept |
| Cache.LookupCache.InsertNegative | crates/wirechaos-core/src/proxy/auth/credentials/cache.rs:91-95 | The same for a user known to be absent |
| Cache.LookupCache.Forget | crates/wirechaos-core/src/proxy/auth/credentials/cache.rs:98-100 | The user's entry is gone |
| Cache.LookupCache.EvictIfNeeded | crates/wirechaos-core/src/proxy/auth/credentials/cache.rs:102-117 | At the limit only entries younger than their lifetime stay, and none when they are still too many |
| AuthQuery.AnswersAreRecent | crates/wirechaos-core/src/proxy/auth/credentials/auth_query.rs:139-164 | In every interleaving of clock, cache reads, queries, failures, inserts, `forget` and database changes, an answer a lookup returns was the database's at some moment no earlier than the lookup's clock reading minus the lifetime of that kind of answer |
| AuthQuery.ForgetTakesEffect | crates/wirechaos-core/src/proxy/auth/credentials/auth_query.rs:135-137 | When no usable fetched row of the user is in flight, every answer returned after `forget` was the database's at some moment after it |
| AuthQuery.InFlightOutlivesForget | crates/wirechaos-core/src/proxy/auth/credentials/auth_query.rs:139-164 | And only then: from any state with such a row, a continuation in which a lookup returns and caches, after `forget`, an answer the database has not given since |
| AuthQuery.UninterruptedLookup | crates/wirechaos-core/src/proxy/auth/credentials/auth_query.rs:139-164 | The four steps of a lookup nobody interrupts come to what `Lookup` does in one go |
| AuthQuery.AuthQuerySource.Lookup | crates/wirechaos-core/src/proxy/auth/credentials/auth_query.rs:139-164 | A live cached answer, or the row's answer, cached with the clock reading of the start; below the size limit a remembered verifier or absence answers for exactly its lifetime; an unreadable secret or failed query is unavailable and never cached; only a broken query drops the connection |
| AuthQuery.AuthQuerySource.QueryBackend | crates/wirechaos-core/src/proxy/auth/credentials/auth_query.rs:196-218 | A broken query drops the connection, an unreadable column does not |
| AuthQuery.AuthQuerySource.EnsureConnected | crates/wirechaos-core/src/proxy/auth/credentials/auth_query.rs:166-194 | Dials exactly when there is no connection |
| AuthQuery.AuthQuerySource.Forget | crates/wirechaos-core/src/proxy/auth/credentials/auth_query.rs:135-137 | The user's entry is gone from the cache |
| Placeholders.Validate | crates/wirechaos-core/src/proxy/auth/credentials/auth_query.rs:52-88 | The nested scanning loops accept exactly the queries whose list of `$` plus maximal digit run, kept when it fits in 32 bits, is the single number 1, and give the right one of the two errors otherwise |
| Placeholders.OneLeft | crates/wirechaos-core/src/proxy/auth/credentials/auth_query.rs:52-88 | That list is `[n]` exactly when there is one such placeholder, numbered n |
| Placeholders.PromiseKeptIffAllFit | crates/wirechaos-core/src/proxy/auth/credentials/auth_query.rs:48-52 | An accepted query keeps the documented promise, exactly one placeholder and it is `$1`, if and only if every number in it parses; a query that keeps it is accepted |
| Placeholders.DigitsAre | crates/wirechaos-core/src/proxy/auth/credentials/auth_query.rs:58-70 | A placeholder is the dollar sign and ASCII digits with their decimal values, no other bytes |
| Placeholders.TwoDigits | crates/wirechaos-core/src/proxy/auth/credentials/auth_query.rs:58-70 | `$10` is one placeholder, the tenth |
| Placeholders.OverlooksALargeNumber | crates/wirechaos-core/src/proxy/auth/credentials/auth_query.rs:68-72 | `$1$4294967296` is accepted although it names two parameters |
| BufferPool.MakeBuckets | crates/wirechaos-core/src/proxy/buffer_pool.rs:98-118 | The doubling loop makes sizes from `min_len` to the last within `max_len`, without overflow, each with its preallocated buffers |
| BufferPool.LadderIsPowers | crates/wirechaos-core/src/proxy/buffer_pool.rs:98-118 | The sizes are `min_len` times the powers of two |
| BufferPool.MultiBufferPool.constructor | crates/wirechaos-core/src/proxy/buffer_pool.rs:98-118 | A new pool satisfies the invariant, with every bucket full |
| BufferPool.MultiBufferPool.Get | crates/wirechaos-core/src/proxy/buffer_pool.rs:131-167 | The smallest size that fits, which is `min_len` or less than twice the request; the buffer has room for what it exposes; only its bucket changes |
| BufferPool.FirstFitIsTight | crates/wirechaos-core/src/proxy/buffer_pool.rs:132-142 | The first bucket that fits is the smallest, and wastes less than half of itself unless it is the smallest of all |
| BufferPool.MultiBufferPool.Release | crates/wirechaos-core/src/proxy/buffer_pool.rs:51-72 | The buffer rests at its bucket's full size or is let go; no bucket exceeds the room of its list; only its bucket changes |
| BufferPool.RestedIsKept | crates/wirechaos-core/src/proxy/buffer_pool.rs:174-181 | A returned buffer, kept or let go, leaves its bucket within the room of its list, with buffers large enough and none lost |
| BufferPool.TakenIsKept | crates/wirechaos-core/src/proxy/buffer_pool.rs:131-167 | A rented buffer has room for the request and leaves its bucket so |
| BufferPool.MultiBufferPool.FullAgain | crates/wirechaos-core/src/proxy/buffer_pool.rs:174-181 | In any order of get and drop nothing leaks: with nothing out on rent every bucket again holds at least what it started with, each buffer large enough |
| BufferPool.MultiBufferPool.PanicIsDocumented | crates/wirechaos-core/src/proxy/buffer_pool.rs:120-172 | `get` panics exactly for requests above `max_capacity`, as documented, if and only if the pool has a bucket or the request is not for nothing |
| CredentialFiles.SnapshotFromUsers | crates/wirechaos-core/src/proxy/auth/credentials/file.rs:45-109 | Ok exactly when the list is non-empty, names are non-empty, NUL-free and distinct and every entry has exactly one usable credential; then exactly one verifier per entry, its own; otherwise all faults in order |
| CredentialFiles.NoErrorsIffValid | crates/wirechaos-core/src/proxy/auth/credentials/file.rs:45-109 | The list of faults is empty exactly for valid lists |
| CredentialFiles.EveryFaultIsReported | crates/wirechaos-core/src/proxy/auth/credentials/file.rs:52-104 | Every fault of every entry is in the report, not just the first |
| CredentialFiles.CheckName | crates/wirechaos-core/src/proxy/auth/credentials/file.rs:62-79 | The name checks of one entry against the names seen so far |
| CredentialFiles.ReadCredential | crates/wirechaos-core/src/proxy/auth/credentials/file.rs:81-103 | The credential of one entry: its verifier, or its one fault |
| CredentialFiles.LoadedMeans | crates/wirechaos-core/src/proxy/auth/credentials/file.rs:81-103 | What a loaded entry holds: of a password what RFC 5802 derives from its prepared form, under its own salt and 4096 iterations; of a secret what it says |
| CredentialStores.CredentialStore.FromSource | crates/wirechaos-core/src/proxy/auth/credentials/store.rs:172-190 | A store is never at generation zero |
| CredentialStores.CredentialStore.ReloadFile | crates/wirechaos-core/src/proxy/auth/credentials/store.rs:248-276 | All or nothing: a failure leaves the snapshot and records the error, a success installs the whole list at the next generation and clears it |
| CredentialStores.CredentialStore.Reload | crates/wirechaos-core/src/proxy/auth/credentials/store.rs:225-246 | Over any serialised reloads the generation is the initial one plus the successes, the users served are those of the last good file, the error shown is that of the last attempt, and the gauge agrees; sources without a file fail and change nothing |
| CredentialStores.CredentialStore.KnownUsers | crates/wirechaos-core/src/proxy/auth/credentials/store.rs:248-276 | A user is known exactly when the last good file lists it, with the verifier of its own entry |
| CredentialStores.CredentialStore.Lookup | crates/wirechaos-core/src/proxy/auth/credentials/store.rs:112-128 | The snapshot's answer, an outage, or exactly the query source's: a live cached answer, else the row's, else unavailable; each lookup counted once by its outcome |

## Left out

- Sockets, TLS handshakes, certificate parsing, timeouts and the backend dial: what a peer sends is a byte sequence, what is written is appended to another, and a read past the end or a write after the last allowed one is the I/O failure. A write happens whole or not at all; partial writes are not modelled.
- The authentication deadline, which can cancel the driver at any await: the trace results are about runs in which it does not fire.
- The relay phase after ReadyForQuery, which does not exist yet, and admission through `ConnRegistry`.
- Hashes, HMAC, PBKDF2, the MD5 response and SASLprep: arbitrary functions of the right shape, so every result holds for all of them. Random nonces, salts and cancel keys, the clock and the credential store's answers are inputs. Zeroizing is not modelled.
- Other connections during a run of the driver: methods run alone, so `Conns.Conn.DriveStartupUntilReady` compares the registry at its end with the one at its start, as if nobody else registered or dropped in between. What the tables say under any interleaving of registrations and drops is `Registry.OrderlyRunsAgree`.
- The end of a connection: a session whose announcement was cut short is still registered when the driver returns, since the connection still holds its guard; the drop itself is `Registry.Registry.Release`.
- Conns.Conn.PrepareSession: parameters left in the session by a packet whose parse failed are not described, since the session ends there.
- Frames.ParseErrorResponse: a field that is not UTF-8 is replaced as a whole by one U+FFFD where the code replaces each bad sequence; the fields are exact as bytes.
- CredentialStores.CredentialStore.Reload: reloads are serialised; two concurrent ones can both read the same previous generation. Generations are unbounded instead of 64 bits.
- CredentialFiles.SnapshotFromUsers: starts from the parsed list; YAML syntax is not modelled.
- BufferPool.MultiBufferPool.Get: requires a bucket that fits, the source panics otherwise; `min_len` of zero, for which the construction loop does not end, and sizes that overflow are required away. Buffer contents and the allocator's rounding of buffer capacities are not modelled.
- Registry.Registry.Register: takes connection ids to be distinct among live sessions, as the server's counter makes them until it wraps; `Registry.KeysAgreeIffDropsFindTheirConnection` says what holds without it.
- The wording of the faults in reports of credential files and placeholder checks is copied, but no result is about it.
- Cipher suites, `decide_tls`, the OID and metrics texts, configuration defaults, logging and the command line.
- Error texts that only reach the log: errors carry a structured reason instead, and the list of offered mechanism names in one of them is omitted.
