# private-gateway: a Dafny model

private-gateway relays Postgres, plain-TCP, CONNECT and DNS traffic between a
Fly.io private network, a tailnet and fixed upstreams. This project models the
two wire protocols it rewrites, the session runs around them, its startup
planning and its identity caches, and proves what they keep over all inputs and
all runs. `dafny verify dfyconfig.toml` checks everything.

| module | what it models |
|---|---|
| `Octets`, `Wrappers` | bytes, big-endian integers, `Option` and `Result` |
| `Startup`, `StartupTheorems` | the StartupMessage grammar, its two parsers, the rewriting of `application_name` |
| `Stream`, `StartupReader` | a connection read in arbitrary segments; reading one StartupMessage |
| `Passthrough`, `ManagedSession` | the two kinds of Postgres session, step by step, with a log of what leaves the gateway |
| `Handshake` | the session state replayed to a managed client, and a decoder for it |
| `Splice` | the two copiers, their channel and the deferred closes, under every interleaving |
| `SessionTheorems` | a session, its splice and the identity caches taken together |
| `Counters` | the counters of the TCP and CONNECT proxies, under every interleaving of handlers |
| `DnsQuestion`, `DnsAnswer`, `DnsDecoder` | the question parser, the response builder, an independent RFC 1035 decoder |
| `DnsAlias`, `DnsServer` | the alias scheme, the choice of an answer, DNS over TCP |
| `IdentityCache`, `IdentityTheorems` | the two stacked TTL caches, under every interleaving of lookups |
| `Planning` | the configuration lists, the port table, the order of binds and published metrics |

Imperative code is imperative here: the parse loops, the in-place `buf` of
`serve`, the sessions, the framing loop and the startup sequence are methods or
classes, each proved equal to a function of its input, about which the theorems
are then stated. Concurrent parts are step machines; a statement about `Run`
covers every interleaving, every way of cutting bytes up and every failure.

## What the code does where its comments say otherwise

- A comment at pgproxy.go:263 says `buf` still holds the client's first eight
  bytes. By then the upstream's ack `S` is in `buf[0]`, so the announced length
  is at least 0x53000000 and every plaintext passthrough session ends with
  `bad-startup`. `Passthrough.Session` has a flag that keeps the ack apart;
  `false` is the shipped code, and with `true` the conservation theorem holds for
  plaintext clients as well.
- If `application_name` occurs twice, the rewrite edits the first and the
  upstream's last-wins reading keeps the other, so the attribution is lost.
- An identity with a NUL byte, or one that makes the message 2^32 bytes or more,
  breaks the rewritten message; the theorems are equivalences with exactly that
  condition, stated on the message and the identity before the rewrite.
- `httpProxy.ServeHTTP` drops the buffered reader of the hijacked connection, so
  whatever the client had already sent is lost.
- `aliasTarget` works on dotted strings: one label that itself contains a dot
  can be taken for two.
- ANCOUNT and the TCP length prefix are cut to 16 bits without a check. An alias
  with 4095 IPv4 addresses already puts a TCP connection out of step.
- fly.go:221 says ports are checked before anything binds; the debug listener in
  `main` (pgproxy.go:55) is bound earlier.
- The two caches stack: a region can be served for almost twice `flyCacheTTL`.
- A failed TXT lookup leaves the table of regions alone, but the bare app it
  resolves to is cached like any identity, and where two lookups of one address
  overlap it can replace a region that is still good.

## Model

| member | source | states |
|---|---|---|
| Startup.RewriteStartup | fly.go:757-833 | equals `Rewrite` on every byte string: reject, keep the bytes, or reprint the edited list |
| Startup.ParseBody | fly.go:775-795 | the loop that consumes the body computes the grammar's parse, errors included |
| Startup.FirstAppName | fly.go:797-805 | finds the first `application_name` or -1 |
| Startup.PrintMessage | fly.go:817-832 | placeholder, pairs and patched length give the printed message |
| Startup.ParseStartupParams | credentials-manager.go:152-186 | equals the last-wins fold of the list the rewriter reads, or the same error |
| Startup.FillParams | credentials-manager.go:166-185 | the map loop refines the list grammar |
| Startup.NextToken | fly.go:777-795 | what a turn of the loop reads is a well-formed pair whose print, with the tail, is the body |
| Startup.ParsePrint | fly.go:775-832 | parse after print is the identity on every well-formed list |
| Startup.PrintParse | fly.go:775-832 | print after parse restores the body up to where the scan stopped |
| Startup.ParsedWellFormed | fly.go:777-795 | every parsed list has NUL-free strings and non-empty keys |
| Startup.ScanStops | fly.go:782-786 | the scan stops early only at a NUL in key position |
| Startup.MessageRoundTrip | fly.go:817-832 | a printed list parses back if and only if its length fits 32 bits |
| Startup.ReprintAccepted | fly.go:775-832 | reprinting an accepted message gives it back iff there was no early terminator, else drops only what follows it |
| StartupTheorems.SameRejections | fly.go:772-795 | with an identity, both parsers reject exactly the same v3 messages |
| StartupTheorems.RewriteAccepts | fly.go:757-795 | over all byte strings: refused iff the header is not the length, or it is v3, has an identity and does not parse; any other protocol comes out byte for byte |
| StartupTheorems.CancelRequestPasses | fly.go:765-768 | a CancelRequest passes unchanged |
| StartupTheorems.EditMeaning | fly.go:797-815 | effect of the edit on the map: nothing if the name repeats, else only `application_name` changes |
| StartupTheorems.RewriteParses | fly.go:757-833 | for a NUL-free identity the output parses, to the edited list, iff the scanned length plus the growth fits 32 bits |
| StartupTheorems.RewritePreservesMeaning | fly.go:757-833 | every other key keeps its value and `application_name` becomes the final name, iff the identity is NUL-free and scanned length plus growth fit (or the name was to be kept) |
| StartupTheorems.RewriteOfRepeatedName | fly.go:799-805 | a repeated `application_name` leaves the parsed map unchanged |
| StartupTheorems.RepeatedNameLosesAttribution | fly.go:799-815 | a real message with two names: the upstream reads "b" where "b (x)" was meant |
| StartupTheorems.NulIdentityIsCut | fly.go:812-829 | a real message and a tailnet login with a NUL: the upstream reads it cut short |
| StartupTheorems.ManagedAgreesWithPassthrough | credentials-manager.go:76-109 | both modes give the upstream the same name iff the key does not repeat or its last value is kept |
| StartupTheorems.RewriteSize | fly.go:817-832 | the output is at most raw + identity + 18 bytes, within the reserved buffer |
| StartupTheorems.RewriteLength | fly.go:806-832 | a new message is exactly 9 + scanned length + growth bytes long, and fits 32 bits iff that sum does |
| StartupTheorems.SessionMessagesFit | fly.go:741-743 | every message a session reads fits, for every identity shorter than 2^32 - 65554 bytes |
| StartupTheorems.RewriteHeader | fly.go:830-832 | the length header equals the length iff scanned length plus growth, known before the call, fit 32 bits |
| StartupTheorems.RewriteIdempotent | fly.go:635-646 | for peers outside the tailnet and a NUL-free identity the rewrite is byte-for-byte idempotent iff the output fits its header |
| StartupTheorems.RewriteAgainAppends | fly.go:635-646 | for tailnet peers n more rewrites append exactly n copies of " (id)" to the first name and nothing else, iff all of it fits 32 bits |
| Stream.Conn.Read | fly.go:730-733 | one Read returns at most the room it has, and data and rest together are the stream |
| Stream.Conn.ReadFull | fly.go:730-750 | returns exactly the next n bytes however they were segmented, or fails when the stream is shorter |
| StartupReader.ReadStartupMessage | fly.go:728-734 | returns the first message of the stream and leaves the rest |
| StartupReader.ReadStartupMessageWithPrefix | fly.go:736-753 | the same after bytes read ahead, with the length limits |
| StartupReader.MessageAfter | fly.go:736-753 | message and rest together are the stream; length between 8 and 65536 |
| StartupReader.PrefixLengthIrrelevant | fly.go:728-753 | reading four or eight bytes ahead gives the same message |
| Passthrough.IdentifyClient | fly.go:607-628 | an identity is empty only if a Fly lookup returned an empty one |
| Passthrough.OutcomeOf | pgproxy.go:161-294 | the end of a session for every environment, from the bytes in `buf` after the ack; it splices iff `ReachesSplice` |
| Passthrough.PlaintextPrefix | pgproxy.go:262-268 | with the ack in byte 0 the prefix is always refused; untouched it continues the client's stream |
| Passthrough.SentIsRewritten | pgproxy.go:216-274 | what is sent is the rewritten message of the client's stream inside TLS or with the ack kept apart, and nothing otherwise |
| Passthrough.RewrittenIsAttributed | fly.go:607-646 | on literal bytes: a tailnet client's name gets " (login)" behind it or is the login, a Fly client's is filled if blank, every other parameter is kept |
| Passthrough.IdentityOf | fly.go:607-628 | the identity and the tailnet flag of each kind of peer |
| Passthrough.SafeAppend | pgproxy.go:213-244 | what may be sent next without breaking the order of the log |
| Passthrough.Session.Opening | pgproxy.go:189-206 | classifies the first eight bytes and leaves them in `buf` |
| Passthrough.Session.AskUpstream | pgproxy.go:208-223 | sends the SSL request and reads one byte, or fails where dial, write or read does |
| Passthrough.Session.UpstreamHandshake | pgproxy.go:208-237 | fails with the right label, or upstream TLS is up and `buf[0]` is overwritten by the ack |
| Passthrough.Session.ForwardStartup | fly.go:704-726 | writes the rewritten first message inside upstream TLS, or a prefix of it |
| Passthrough.Session.ClientSide | pgproxy.go:239-274 | acks a TLS client, secures it and forwards its startup, with the label of any failure |
| Passthrough.Session.Serve | pgproxy.go:161-294 | in every run only the SSL request goes out in the clear, the client gets `S` only after upstream TLS, TLS bytes are a prefix of the rewritten message; at the splice the message carries the Fly identity, the login or "tailscale-unknown" as its name, or is unchanged if not v3; exact outcome, log and remaining stream |
| SessionTheorems.PassthroughConserves | pgproxy.go:239-293 | at every step of the splice the upstream holds a prefix of rewritten first message ++ rest of the client's stream, all of it after a clean end; likewise the other way |
| SessionTheorems.PlaintextOpeningReads | credentials-manager.go:254-260 | a plaintext opening is one the reader accepts: its message is v3 and of the announced length, or the stream ends first |
| SessionTheorems.OpeningMeans | pgproxy.go:191-206 | on the bytes: SSLRequest 80877103, a v3 message of length 8 to 65536, or a bad protocol |
| SessionTheorems.LabelsMean | pgproxy.go:161-274 | exactly when a session ends under each label |
| SessionTheorems.SplicedLogMeans | pgproxy.go:215-244 | what goes out before the splice: the SSL request, one S to a TLS client between the two handshakes, the message |
| SessionTheorems.PlaintextNeverSplices | pgproxy.go:191-268 | the overwritten length byte keeps every shipped plaintext session from the splice, with bad-startup; with a separate ack byte it gets there exactly when it should |
| SessionTheorems.PlaintextSessionIsRefused | pgproxy.go:191-274 | a real plaintext session in which nothing else fails: bad-startup as shipped, spliced with a separate ack byte |
| SessionTheorems.ManagedConserves | credentials-manager.go:129-146 | the upstream holds a prefix of what follows the client's startup message, the client the replay and then a prefix of the upstream's bytes; the replay decodes to the upstream's state |
| SessionTheorems.AdmittedPeersHaveNames | fly.go:607-628 | every admitted peer has a non-empty identity, in every run of the caches |
| SessionTheorems.UnchangedOnlyIfNamed | fly.go:769-810 | so a v3 message passes unchanged iff the client named itself and is not on the tailnet, never for lack of an identity |
| Handshake.SortNames | credentials-manager.go:212-216 | an ascending enumeration of the same names, whatever the iteration order |
| Handshake.AscendingUnique | credentials-manager.go:212-216 | a set of names has only one ascending enumeration |
| Handshake.LessMeans | credentials-manager.go:216-216 | the order is that of Go strings: bytes decide from the left, a prefix comes first |
| Handshake.WriteManagedHandshake | credentials-manager.go:206-230 | encodes iff no message is over the encoder's limit, to bytes independent of the map's iteration order |
| Handshake.ReplayRoundTrip | credentials-manager.go:206-230 | the bytes decode to exactly the upstream's parameters, key data and status iff no parameter holds a NUL |
| Handshake.DecodedParamsNulFree | credentials-manager.go:217-221 | nothing decodes to a parameter with a NUL |
| ManagedSession.RuntimeParams | credentials-manager.go:97-109 | passes every unhandled parameter and the final name, in any iteration order |
| ManagedSession.LoginCarries | credentials-manager.go:81-109 | on literal keys: configured user and password, the chosen database, every other parameter as it is, never user, database or replication, and the name iff there is one |
| ManagedSession.LoginIsAttributed | credentials-manager.go:81-109 | a managed login carries the same name for a peer as a passthrough session |
| ManagedSession.LoginAgreesWithPassthrough | credentials-manager.go:81-109 | the login uses the configured user; every passed parameter is the one the rewritten message carries; the database agrees iff it was given and differs from the user, or is the default |
| ManagedSession.ReplayUnique | credentials-manager.go:206-230 | there is one replay of a state |
| ManagedSession.ReplayDecodes | credentials-manager.go:206-230 | a whole replay decodes to the state it replays iff no parameter holds a NUL |
| ManagedSession.ManagedOutcomeOf | credentials-manager.go:40-147 | a session reaches the splice iff the client opened properly and parsed, and configuration, login, sync, hijack and replay all succeeded |
| ManagedSession.LogMeans | credentials-manager.go:40-132 | for every end of a session, which events its log holds: S, TLS, the login, the error, sync, hijack, the handshake |
| ManagedSession.Managed.ReadMagic | credentials-manager.go:41-70 | classifies the first eight bytes |
| ManagedSession.Managed.ReadClient | credentials-manager.go:41-74 | the client's message and rest, or why there is none, and what was logged |
| ManagedSession.Managed.ReadMessage | credentials-manager.go:62-74 | the message from inside TLS or continuing the eight bytes |
| ManagedSession.Managed.LogIn | credentials-manager.go:81-127 | builds the configuration, tries exactly the intended login, then sync and hijack, in this order |
| ManagedSession.Managed.ReplayState | credentials-manager.go:129-132 | sends the replay of the state the login reported |
| ManagedSession.Managed.ServeMessage | credentials-manager.go:76-132 | the outcome and the log from the parsed message on |
| ManagedSession.Managed.Serve | credentials-manager.go:40-147 | in every run the login is the configured one, and a handshake is sent only after login, sync and hijack, as the replay of that login's state; exact outcome and log |
| Splice.StepKeepsInv | tcpproxy.go:105-118 | one step of any kind keeps both lanes and the channel in order |
| Splice.RunKeepsInv | tcpproxy.go:105-118 | so does every run |
| Splice.OutputIsPrefix | tcpproxy.go:108-115 | in every reachable state each sink holds a prefix of its source |
| Splice.CleanEndDeliveredAll | tcpproxy.go:108-117 | a direction that ended cleanly delivered everything |
| Splice.NextBytesDelivered | pgproxy.go:278-285 | in both directions the next n bytes can reach the sink from every state with the copier running and both ends open |
| Splice.BothDelivered | pgproxy.go:277-293 | for all streams some run delivers both whole |
| Splice.BytesCanBeCut | pgproxy.go:278-285 | a write may stop after any byte and a read may fail with both ends open |
| Splice.SendNeverStuck | pgproxy.go:277-293 | with capacity at least 1 no copier blocks on its send, and none after the receiver returned |
| Splice.RunsAreFinite | pgproxy.go:277-293 | a decreasing measure bounds every run |
| Splice.TearDownProceeds | pgproxy.go:277-293 | once one direction ended, everything is down or some step that waits for no peer is enabled |
| Splice.TearDownCompletes | pgproxy.go:277-293 | a run of such steps alone takes both copiers, the session and both connections down |
| Splice.ClosedSessionEnds | credentials-manager.go:134-146 | after both closes at most four steps remain and no byte moves |
| Splice.HijackPrefixIffNothingBuffered | httpproxy.go:86-116 | the upstream surely holds a prefix of what the client sent iff the discarded buffer was empty |
| Splice.HijackLosesBuffer | httpproxy.go:86-116 | in any run that ends cleanly exactly the buffered bytes are missing upstream |
| Counters.CounterMoves | tcpproxy.go:75-118 | a handler's step changes each counter by what it changes of the handler |
| Counters.CountersAreExact | tcpproxy.go:96-98 | at every moment the gauge counts the sessions going on, each label its own handlers; 0 <= active <= started <= accepted |
| Counters.LabelsCountFailures | httpproxy.go:60-96 | in every run each label counts exactly the failures of its own check |
| Counters.StagesInOrder | httpproxy.go:59-117 | the order of checks, counts and splice for both kinds of proxy |
| Counters.EveryConnectionIsCounted | httpproxy.go:59-117 | when all are done active is 0 and every connection was started or refused under exactly one label |
| DnsQuestion.ParseDnsQuestion | dns.go:165-194 | the loop equals the grammar's parse on every byte string and stays in bounds |
| DnsQuestion.ReadIsEncoding | dns.go:171-188 | what is read is the encoding of the labels returned |
| DnsQuestion.EncodingIsRead | dns.go:171-188 | every encoding of 1 to 63 byte labels is read back |
| DnsQuestion.QuestionRoundTrip | dns.go:165-194 | a question built from labels parses to the lowercased dotted name, type and end |
| DnsQuestion.QuestionGrammar | dns.go:165-194 | exactly which messages have a question: QDCOUNT, labels, type and class |
| DnsQuestion.NameIsLower | dns.go:193-193 | byte by byte: capitals are moved up by 32, everything else is kept, no capital remains |
| DnsQuestion.CaseBlind | dns.go:165-194 | questions that differ only in letter case are the same question |
| DnsQuestion.QuestionEnd | dns.go:193-193 | qend is the name's length plus 18, or 17 for the root |
| DnsQuestion.QuestionDependsOn | dns.go:165-194 | only QDCOUNT and the bytes from 12 to qend matter |
| DnsAnswer.DnsAnswerMulti | dns.go:242-264 | the patched and appended buffer is header, question and records |
| DnsAnswer.AnswerKeepsQuestion | dns.go:242-264 | the parser reads the same question from the response as from the query |
| DnsAnswer.RecordsDecode | dns.go:254-262 | records decode, through their pointers, to the addresses in order under the queried name |
| DnsAnswer.HeaderDecodes | dns.go:247-253 | ID and RD kept, QR and RA set, counts as promised |
| DnsAnswer.AnswerDecodes | dns.go:242-264 | the whole response under the RFC 1035 decoder, for any number of addresses |
| DnsAnswer.AnswerCompleteIff | dns.go:251-251 | all addresses and nothing else iff there are fewer than 65536 |
| DnsAnswer.AnswerLength | dns.go:246-263 | qend + n * (12 + address length) bytes |
| DnsAlias.AliasRefinesLabels | dns.go:274-290 | on dot-free labels the string form always does the label rewriting, hits and misses |
| DnsAlias.AliasAgreesIff | dns.go:274-290 | on any labels it does so iff they end with the alias, or their joined name split at its dots does not |
| DnsAlias.AliasOnAnyName | dns.go:274-290 | what the string form does to any name at all, in terms of its parts between dots |
| DnsAlias.AliasHitMeans | dns.go:279-286 | a rewritten name ends with the alias labels after at least one other |
| DnsAlias.AliasInjective | dns.go:274-290 | no two names share a target |
| DnsAlias.DottedLabelIsMistaken | dns.go:279-286 | a label with a dot in it is rewritten although no label matches |
| DnsAlias.JoinInjective | dns.go:183-187 | dotted names determine dot-free labels |
| DnsServer.Matching | dns.go:326-333 | every result has the queried family, and no address of that family is dropped |
| DnsServer.MatchingIs | dns.go:326-333 | the results are the unmapped addresses at exactly the positions that fit, in their order |
| DnsServer.UnmapMeans | dns.go:328-328 | byte by byte: ::ffff:a.b.c.d becomes a.b.c.d, any other address is kept |
| DnsServer.UpperAaaaIsAnswered | dns.go:297-338 | AAAA A.B under the alias b is answered with the IPv6 address alone |
| DnsServer.FilterAddrs | dns.go:325-333 | keeps the unmapped addresses of the queried family, in order |
| DnsServer.ChooseAnswer | dns.go:419-447 | self, then alias, then forward |
| DnsServer.ForwardDnsTcp | dns.go:472-483 | the first frame the resolver sends back, so shorter than 65536 bytes |
| DnsServer.ForwardMeans | dns.go:472-483 | the reply is m iff the resolver was reached and its stream starts with the frame of m |
| DnsServer.ChooseByAddrs | dns.go:427-446 | an own answer if there are addresses for one, the node's own before the alias's, else the resolver's |
| DnsServer.CaseBlindChoice | dns.go:427-446 | queries that differ only in letter case are answered from the same addresses, or both forwarded |
| DnsServer.AliasOfQuestion | dns.go:305-311 | for any parsed query, exactly when the alias scheme rewrites the lower-case labels asked for; always if no label has a dot |
| DnsServer.SelfAnswerMeans | dns.go:344-354 | a self answer is given only for the own name and decodes to the own address under it |
| DnsServer.AliasAnswerMeans | dns.go:297-338 | an alias answer decodes to the matching addresses under the original name |
| DnsServer.ReadDnsTcp | dns.go:450-460 | returns the next whole frame of the stream and leaves the rest |
| DnsServer.Sink.WriteDnsTcp | dns.go:462-470 | writes the frame, or as much as the connection takes |
| DnsServer.FramesRoundTrip | dns.go:450-470 | concatenated frames give the messages back iff each is shorter than 65536 bytes |
| DnsServer.FramesReadBack | dns.go:450-470 | the same with more bytes behind |
| DnsServer.FramesAligned | dns.go:462-470 | frames can be told apart iff each message is shorter than 65536 bytes |
| DnsServer.FramesCut | dns.go:450-470 | wherever a stream of short frames is cut, its whole frames are the first messages |
| DnsServer.AnswerShortIff | dns.go:242-264 | an answer fits its prefix iff question plus records, from the addresses, stay below 65536 |
| DnsServer.StreamAlignedIff | dns.go:419-447 | a connection's stream is frame-aligned wherever it is cut, its k-th frame the k-th answer, iff every answer fits |
| DnsServer.LongAnswerMisaligns | dns.go:462-470 | the query a.b under the alias b and an app of 4096 addresses: 65557 bytes announced as 21 |
| DnsServer.CrowdFits | dns.go:462-470 | for that query the answer fits its prefix iff the app has fewer than 4095 addresses |
| DnsServer.FullAnswerIsEmpty | dns.go:251-262 | the same query and 65536 addresses: an answer count of 0 and every record a trailing byte |
| DnsServer.AnswersInOrder | dns.go:419-447 | the k-th answer is chosen for the k-th query, and the list ends only where a choice fails |
| DnsServer.AnswerAll | dns.go:419-447 | the loop sends the frames of the answers in order, cut only where the connection fails |
| DnsServer.HandleDnsTcp | dns.go:419-447 | the same for every segmentation, and if every answer fits its prefix the whole frames sent are the first answers, all of them if there was room |
| IdentityCache.ParsePtr | fly.go:875-883 | an accepted PTR name yields a non-empty app |
| IdentityTheorems.PtrRoundTrip | fly.go:875-880 | any labels, id, vm, app, internal, with or without a final dot, give app and id |
| IdentityTheorems.PtrExact | fly.go:875-883 | exactly those names do |
| IdentityCache.StepKeepsInv | fly.go:855-911 | every step of every lookup keeps both caches justified by what the resolver said and what was stored |
| IdentityCache.ReturnedIdentity | fly.go:855-911 | in every interleaving a returned identity rests on answers about that very address less than TTL + lag old, is not empty, is served before its entry expires, and names a region at most 2 * (TTL + lag) - 2 old from a table unexpired when read |
| IdentityCache.CachedIdentity | fly.go:855-865 | everything in the cache rests on answers about its address and is not empty |
| IdentityTheorems.LookupAlone | fly.go:855-911 | from any state a lookup by itself returns a live entry, or resolves, stores and returns what PTR, tables and TXT say |
| IdentityTheorems.FailedTxtLeaves | fly.go:884-911 | after a failed TXT query a lookup never stores a table; all it does is to store the bare app under its own address |
| IdentityTheorems.RegionLostIff | fly.go:855-865 | a store without a region replaces a live one iff another lookup of that address stored it after this lookup began, less than a TTL ago |
| IdentityTheorems.LiveRegionIsLost | fly.go:855-911 | a run in which a failed TXT query costs a live region |
| IdentityTheorems.BoundIsSharp | fly.go:855-911 | for every lag some run returns a region exactly that old, so the bound is the least one |
| Planning.CheckPgEntry | fly.go:138-157 | no complaint iff the entry is valid by itself |
| Planning.ParsePgEntries | fly.go:123-168 | accepts exactly the valid lists; otherwise the error is about the first entry that breaks the list |
| Planning.CheckTcpEntry | fly.go:191-199 | no complaint iff the entry is valid by itself |
| Planning.ParseTcpEntries | fly.go:177-206 | the same for plain-TCP targets, whose ports may still repeat |
| Planning.FindClash | fly.go:262-268 | None iff all ports differ; else the earliest claim that repeats a port and its unique earlier owner |
| Planning.ValidateListenPorts | fly.go:222-270 | accepts iff bands, flag and distinctness hold; every refusal names the first offender |
| Planning.Process.StartPg | fly.go:299-319 | publishes and binds the entries in order, stopping at the first failure |
| Planning.Process.StartTcp | fly.go:321-334 | the same for plain-TCP targets |
| Planning.Process.StartInfra | fly.go:346-360 | CONNECT listener, then DNS over UDP, then over TCP |
| Planning.Process.StartAll | fly.go:299-360 | whatever fails, binds and names are a prefix of the plan |
| Planning.Process.RunProxies | fly.go:278-361 | nothing is logged unless both lists and the ports are accepted, and then validation comes first |
| Planning.Process.Launch | pgproxy.go:40-65 | ports are checked before anything binds iff no debug listener comes up; a refused configuration leaves exactly that listener; an accepted one comes up whole if every bind succeeds, else binds and names are a prefix of the plan |
| Planning.EntriesAreUsable | fly.go:137-166 | an accepted entry has a usable name and target, and a user exactly when it has a password |
| Planning.PlanHolds | fly.go:299-360 | exactly which listeners an accepted start has |
| Planning.NamesHold | fly.go:308-348 | exactly which metrics it publishes |
| Planning.PgPortAccepted | fly.go:225-231 | a sole Postgres entry is accepted iff its port is 5400 to 6000 |
| Planning.TcpPortAccepted | fly.go:232-238 | a sole plain-TCP entry is accepted iff its port is 9000 to 9999 |
| Planning.ProxyPortAccepted | fly.go:242-251 | a sole CONNECT proxy is accepted iff its port is 1 to 65535 and not 53 |
| Planning.RefusedWithDebugUp | pgproxy.go:51-62 | a configuration with the CONNECT proxy on the debug port: refused, with the debug listener up |
| Planning.PlanDistinct | fly.go:222-270 | in every run the bound TCP ports are pairwise distinct and Postgres and TCP ports lie in their bands |
| Planning.NamesDistinct | fly.go:308-348 | the published metric names are distinct, also from the two names package expvar publishes itself |

## Left out

- TLS, x509, SCRAM, pgconn and the dialers: each handshake, login or dial is an environment step that succeeds or fails.
- pgproto3: its encoders are written from the PostgreSQL 16 message formats, with their limit of 0x3ffffffe bytes per message (pgx v5.7.6) as the only error; the library is not part of this model.
- JSON decoding, `strings.TrimSpace`, `net.SplitHostPort` and `strconv.Atoi`: the decoded lists and the results of these calls are parameters.
- `net.Resolver`, WhoIs over the tailscaled socket, PTR and TXT lookups, and the splitting of a TXT record into fields (`parseVmsTXT`): oracles returning arbitrary values.
- `classifyPeer`, `allowPeer`, `selfTailscaleAddr`: the class of a peer and the own address are parameters; each is one prefix test.
- DnsQuestion.ParseDnsQuestion: lowercases ASCII bytes only; what `strings.ToLower` does to other bytes, and the 255-octet limit on whole names that the code does not enforce either, are not modelled.
- IdentityCache.ReturnedIdentity: the bounds contain `lag`, the longest time from a lookup's PTR answer to its store; the code sets no such limit, and with lag 0 they are the TTL and twice the TTL.
- The exit of `main` when no CA file is given, before anything binds.
- Deadlines, keepalives, UDP datagrams, session ids, logging, the dev page, and the session counters of the Postgres proxy, which nothing increments.
- Error counters of the Postgres sessions: the label of a failure is the outcome, the sum is not kept.
- Concurrent use of one `buf`, log or connection object by two sessions does not occur in the code and is not modelled.
