# Verification of the AGP control plane

AGP gates an agent's tool calls, records every decision in a signed hash-chained journal and runs each
session under a fenced lease. This project models the parts of it that decide what an agent may do and what
an auditor may believe, and proves what they promise. `dafny verify dfyconfig.toml` checks all of it.

| Files | What they model |
|---|---|
| `Utf16`, `Wrappers`, `Records`, `JsonText`, `Lines` | UTF-16 texts, plain JavaScript objects with their key order, `JSON.stringify` and `JSON.parse` (RFC 8259), newline-separated files |
| `JsonSpelling`, `JsonGrammar`, `Numerals` | what `JSON.stringify` writes unit by unit, the grammar of the texts that `JSON.parse` takes, and which keys are array indices |
| `Canonical`, `SignedTexts` | `canonicalJson` and `sortDeep`, and the texts that are hashed, signed and written |
| `Events`, `Verify`, `Journal` | journal events and the bytes that are hashed and signed, the offline verifier, the journal writer and its runs |
| `Policy` | the strictest-wins policy engine |
| `Credentials`, `Redaction`, `Substitution` | placeholder resolution, redaction and the exfiltration guard, and what they do to a text told without the code |
| `Protocol`, `WireFormat`, `FrameDecoding`, `GatewayServer`, `GatewayClient` | the gateway's messages, its stream decoder and its two ends |
| `Governance`, `GovernanceSafety` | `gate` and `mediate` calls interleaved at their awaits, and what holds in every interleaving |
| `LiveSession` | `runLive` over the Claude Code adapter and the in-memory process |
| `Audit` | what an accepted journal says about the calls that were governed |
| `SessionStore`, `Ownership`, `ScriptedDriver`, `LeasedSession` | the lease store, its runs, and `runScripted` (with `recoverSessions`) and `runLive` under their leases |
| `Approvals` | nonces, the Socket Mode receiver and the Slack channel |
| `HumanApprovals` | the governance loop with the Slack channel as its channel: the click behind every approval, up to the events of an accepted journal |
| `Outbox` | the durable outbox and its relay, with crashes |

## How the model is made

- Code that changes state in place is a class whose methods follow the source's statements. Each method's
  contract gives the whole new state as a function of the old one, and the properties of whole runs are
  lemmas about that function. Code made of expressions is functions.
- Concurrency is a state machine: one step is what runs between two awaits, and a run is any sequence of
  steps. A step whose promise is not pending is skipped, so a lemma about all sequences covers every
  scheduling.
- SHA-256, Ed25519 and the timestamp syntax are the fields of `Events.Primitives`. `WellFormed` gives digests
  and signatures their fixed forms. A run releases the bytes of the events and of the heads whose signatures it
  has written to a file (the journal signs before its screen runs, so a refused event releases nothing).
  `Verifies` says that the signatures made for released bytes verify, `Unforgeable` that no other bytes do, and
  `Ideal` says both; `Journal.IdealExists` shows for every run that ideal signatures are possible, and
  `Audit.OwnFilesAccepted` that under them a run's own files are among the accepted ones. Collision resistance
  is never assumed: `Verify.ChainBinding` names the colliding texts.
- Clocks, generated ids and nonces, answers of people, results of tools and outcomes of network calls are
  inputs of the steps.
- Texts are sequences of UTF-16 code units and objects are association lists in the order in which
  JavaScript visits own properties (array indices first), so key order, escaping and duplicate keys are those
  of the code.

## Where the code and its documentation differ

- The comment on `canonicalJson` says that keys are sorted. They come out sorted exactly when that is an order
  in which objects visit keys (`Canonical.KeyOrderExactly`); the keys "-" and "1" do not
  (`Canonical.KeyOrderExample`). The text is canonical all the same (`Canonical.CanonicalExactly`).
- `sortDeep` assigns `out[key]`, so a `__proto__` key is dropped and no hash covers it. Texts are equal exactly
  when values agree apart from such keys; `Canonical.ProtoUncovered` says when that matters.
- A session whose id is `__proto__` is never stored: two owners get the same fencing token and neither can
  renew (`Ownership.TokenAdvancesExactly`). The other lemmas about leases exclude this id.
- `pending()` is documented to list in enqueue order. It does so exactly when that is an order in which objects
  visit the pending ids (`Outbox.PendingOrderExactly`); "a" and then "1" come out the other way round
  (`Outbox.PendingOrderExample`).
- The outbox promises that nothing is dropped. An id that names an inherited property is never stored
  (`Outbox.EnqueueExactly`, `Outbox.EnqueueExample`), and `project` throws on it.
- The frame limit is documented per frame. It applies to the unterminated rest of the buffer, so whether a
  long line is refused depends on the chunks (`FrameDecoding.LimitExactly`): an error message with a text longer
  than the limit is returned when its line arrives in one chunk, and refused when it is cut before its newline
  (`FrameDecoding.LimitExample`).
- A wait for a nonce can get out of reach of clicks while it still waits: at once when a later wait for the same
  nonce begins (`Approvals.LaterWaitHides`), and without one exactly when an earlier wait for the nonce was still
  ticking as it began (`Approvals.ReachExactly`). Two prompts for one message lead to both
  (`Approvals.ClickLostExample`). Such a wait still ends by its own timer.
- A request that does not encode rejects but stays in the client's map with its timer set, and is settled a
  second time, without effect, by its timer, by a reply with its id or by the end of the connection
  (`GatewayClient.SettledTwiceExactly`, `GatewayClient.SettledTwiceExample`).
- Redaction replaces a secret by `***`, which can itself build a secret that contains stars
  (`Redaction.SingleSecretExactly`).
- `mediate` delivers the verdict of the policy to the intendant when it refuses a call. When that verdict says
  require, the adapter reads it as allowed, though nothing is executed
  (`LiveSession.RefusedReadAsAllowedExactly`, and with one rule and one declined call
  `LiveSession.RefusedReadAsAllowedExample`).
- The driver of a live session that loses its lease goes on gating calls to the end of its script, unlike that
  of a scripted one (`LiveSession.LostLeaseGoesOn`); then it throws (`LiveSession.LostLeaseNeverEnds`). This is
  about the driver's own code: a runtime that ends the process on unhandled rejections may end it before that.
- The signed head is documented to make truncation detectable. It does so for the journal file alone
  (`Journal.PrefixVerifies`): the numbers of events with which some pair of files verifies are exactly those that
  the run has pinned (`Journal.AcceptsExactly`), so the two files as they were at an earlier time verify as they
  did then (`Journal.EarlierFilesVerify`, and with two appends `Journal.CutBackExample`).

## Model

| member | source | states |
|---|---|---|
| JsonText.RoundTrip | src/journal/journal.ts:144-152 | parsing what stringify writes gives the value back, for every value |
| JsonText.ParseValid | src/journal/verify.ts:51-58 | whatever text is parsed, every object in the result keeps JavaScript's key order with no key twice |
| JsonGrammar.ParseExactly | src/journal/verify.ts:51-58 | a text parses to a value exactly if it is a JSON text of that value by the grammar, with white space where the grammar allows it and the last of equal keys kept |
| JsonText.StringifyPrintable | src/gateway/protocol.ts:29 | stringified texts contain no control character, so no newline can split a record |
| JsonText.StringifyWellFormed | src/runtime/crypto.ts:21 | stringified texts contain no lone surrogate, so encoding them as UTF-8 loses nothing |
| JsonSpelling.QuoteExactly | src/runtime/crypto.ts:21 | a string is written between quotes, each unit by one spelling: the seven short escapes, four lower-case hexadecimal digits for other control characters and lone surrogates, and every other unit as it is |
| JsonSpelling.ContainersExactly | src/runtime/crypto.ts:21 | elements and members are written in order with a comma between them, a colon after each name and nothing else |
| Numerals.IndexExactly | src/runtime/crypto.ts:27-31 | the keys that objects visit first are the decimal numerals of the numbers below 2^32 - 1 |
| Numerals.IndexOrderExactly | src/runtime/crypto.ts:27-31 | they are visited in the order of these numbers |
| Utf16.LessExactly | src/runtime/crypto.ts:28 | texts are sorted by the first unit in which they differ, a proper prefix first |
| Canonical.SortDeepLoop | src/runtime/crypto.ts:24-34 | the recursive loop over sorted keys computes the sorted value |
| Canonical.AssignSorted | src/runtime/crypto.ts:27-31 | filling the fresh object key by key arranges the properties, without `__proto__` |
| Canonical.SortDeepValid | src/runtime/crypto.ts:24-34 | sorting keeps the object invariant at every depth |
| Canonical.CanonicalExactly | src/runtime/crypto.ts:20-34 | two values have the same canonical text exactly when they are the same key-to-value maps at every depth, `__proto__` keys aside |
| Canonical.CanonicalTextExactly | src/runtime/crypto.ts:20-34 | the canonical text of a value is the text of exactly that value which agrees with it outside `__proto__` and has at every depth its array indices first and its other keys ascending by their first difference |
| Canonical.KeyOrderExactly | src/runtime/crypto.ts:27-31 | keys are sorted by their first difference, and the keys of a sorted object come in this order exactly if it is an order in which objects visit keys |
| Canonical.KeyOrderExample | src/runtime/crypto.ts:27-31 | the keys "-" and "1" sort in this order and come out in the other |
| Canonical.PlainExactly | src/runtime/crypto.ts:20-34 | for values without `__proto__` keys: same text exactly when equal |
| Canonical.ProtoUncovered | src/runtime/crypto.ts:29 | dropping all `__proto__` keys never changes the text, and changes the value exactly when there is one |
| Canonical.ProtoExample | src/runtime/crypto.ts:29 | a concrete pair of different values with the same canonical text |
| Events.UniqueDecoding | src/journal/journal.ts:60-62 | a previous hash followed by a canonical text reads in one way only |
| Events.BytesDetermine | src/journal/journal.ts:60-62 | the hashed bytes of an event determine all of its fields but hash and signature |
| Events.HeadBytesDetermine | src/journal/journal.ts:65-67 | the signed bytes of a head determine its number and hash |
| Events.BytesNeverHead | src/journal/journal.ts:60-67 | the bytes of an event never equal those of a head, so a signature for one cannot serve as the other |
| SignedTexts.BytesExactly | src/journal/journal.ts:60-62 | the bytes of an event are the previous hash and then the object of its fourteen properties in this order, with the payload sorted |
| SignedTexts.HeadBytesExactly | src/journal/journal.ts:65-67 | the bytes of a head are the object of its hash and its number |
| SignedTexts.LineExactly | src/journal/journal.ts:138-144 | the written line is the object of the sixteen properties in the order of the schema |
| Events.LineReadsBack | src/journal/journal.ts:138-144 | the line written for an event, with its fields in the order of the schema, parses to the event |
| Events.ParseLineExactly | src/journal/verify.ts:49-65 | a line is read as an event exactly if it is the JSON text of an object with the version 2, the properties of the event (seven of them may be missing instead of null) and no others, and the event fits the schema |
| Events.HashExactly | src/contracts/_common.ts:15-17 | a digest is 64 lower-case hexadecimal digits |
| Events.SignatureExactly | src/contracts/_common.ts:20-22 | a signature is 86 units of the base64 alphabet and two equals signs |
| Verify.VerifyEvents | src/journal/verify.ts:22-37 | the loop reports exactly the wrong numbers, links, hashes and signatures, and nothing exactly on a correct chain |
| Verify.ParseLines | src/journal/verify.ts:49-65 | collects the good lines in order and reports exactly the bad ones, each with its number and kind |
| Verify.CheckHead | src/journal/verify.ts:69-84 | the head check returns exactly the first thing wrong with the head |
| Verify.VerifyJournalFile | src/journal/verify.ts:40-87 | ok exactly when every line, the chain and the pinned tail are right, and then each line spells its event and nothing else; the reported errors are exactly the faults; the count is that of the parsed events |
| Verify.LinesExactly | src/journal/verify.ts:50 | the lines that are read are the parts between newlines that hold a unit that is neither white space nor a line terminator of ECMAScript, in their order |
| Verify.HeadFileExactly | src/journal/journal.ts:77-81 | which head file counts as absent, which as an object with which properties, and which makes the verifier throw |
| Verify.HeadVerifiesExactly | src/journal/verify.ts:73-75 | a head verifies exactly if its signature is a string that verifies for its own number and hash |
| Verify.AllGoodExactly | src/journal/verify.ts:49-65 | all lines are good and stand for given events exactly if they spell them one by one |
| Verify.ChainPrefix | src/journal/verify.ts:22-37 | a prefix of a correct chain is a correct chain |
| Verify.ChainBinding | src/journal/verify.ts:22-37 | two clean non-empty chains with the same last hash agree in length and in every field but the signature, or two different texts with the same hash are produced |
| Journal.Journal.Append | src/journal/journal.ts:108-147 | an append seals and writes the event and then pins it, or throws and changes neither file |
| Journal.ReadEventsExactly | src/journal/journal.ts:69-75 | reading a journal gives the events that its lines spell one by one, none for a missing file, and throws otherwise |
| Journal.SealExactly | src/journal/journal.ts:111-138 | the sealed event carries the input's kind, actor, payload and four columns, the time that was read and three null columns, follows the last event, and has the hash and the signature of its own bytes; and it is the only one |
| Journal.Journal.WriteHead | src/journal/journal.ts:150-154 | the written file reads back as a head that verifies exactly if the signature of its bytes does, and then it pins exactly the lists whose last event has the given number and hash |
| Journal.RunConsistent | src/journal/journal.ts:108-154 | after any attempts the file holds exactly the appended, linked and signed events |
| Journal.AttemptEffect | src/journal/journal.ts:108-147 | one more attempt appends the sealed event and pins it, unless it is refused, invalid or stopped between the writes |
| Journal.PrefixVerifies | src/journal/verify.ts:40-87 | every non-empty prefix of a run is a clean chain, and verifies against a head that the run has written exactly when this head pins its last event |
| Journal.RunVerifies | src/journal/journal.ts:108-154 | the files of a run verify, counting one event per successful append, exactly when something was appended and the last event is pinned |
| Journal.Soundness | src/journal/verify.ts:40-87 | files that verify hold, in every field but the signature, a non-empty prefix of the appended events that some head of the run has pinned, and their head pins exactly that prefix |
| Journal.AcceptsExactly | src/journal/verify.ts:40-87 | under ideal signatures: the run's own files verify exactly when the last event is pinned, whatever verifies holds a pinned prefix, and the lengths that verify are exactly those that the run has pinned |
| Journal.EarlierFilesVerify | src/journal/verify.ts:69-84 | the two files as any earlier point of the run left them verify at the end exactly if they did then |
| Journal.CutBackExample | src/journal/verify.ts:69-84 | after two appends both pairs of files verify, that with one event and that with two |
| Policy.WinnerExactly | src/policy/engine.ts:56-78 | the winner is the first-declared matching rule that no matching rule beats by effect or priority; there is none exactly when nothing matches |
| Policy.EvaluateExactly | src/policy/engine.ts:56-78 | the decision is the strictest matching effect; evaluation fails exactly when the winner's own reason is empty |
| Policy.VerdictExactly | src/policy/engine.ts:38-78 | which verdict is given: the default denial exactly if no rule applies, else the effect, reason, id and tier of the rule that is strictest, then highest in priority, then first; none exactly if that rule has an empty reason |
| Policy.DeniesExactly | src/policy/engine.ts:56-78 | a call is denied exactly when no rule matches or a matching rule denies |
| Policy.OrderIrrelevant | src/policy/engine.ts:56-78 | reordering the rules changes no decision |
| Policy.AddingNeverLoosens | src/policy/engine.ts:56-78 | adding rules never makes a matched call less strict |
| Credentials.PiecesReadAll | src/sandbox/credentials.ts:89-98 | splitting a text into placeholders and other units loses nothing |
| Credentials.HolesAreOccurrences | src/sandbox/credentials.ts:89-98 | the replaced places are exactly the places where a placeholder occurs |
| Credentials.FillExactly | src/sandbox/credentials.ts:89-98 | a text resolves exactly when the vault holds all its names, and is unchanged without any |
| Substitution.PlaceholderExactly | src/sandbox/credentials.ts:42 | a text starts with a placeholder exactly if it starts with "{{secret:", one or more of A-Z, a-z, 0-9 and _, and "}}" |
| Substitution.MarkedLaw | src/sandbox/credentials.ts:89-98 | a placeholder resolves to the value that the vault holds under its name, before the resolved rest, and fails if there is none |
| Substitution.UnitLaw | src/sandbox/credentials.ts:89-98 | a unit where no placeholder starts stays before the resolved rest |
| Substitution.FilledExactly | src/sandbox/credentials.ts:89-98 | a text resolves to another exactly if this is the text with each placeholder replaced by its value |
| Substitution.FindExactly | src/sandbox/credentials.ts:70-86 | the found names are exactly those whose placeholders occur in a string of the value |
| Substitution.FoundInOrder | src/sandbox/credentials.ts:70-86 | names are listed in the order in which they first occur |
| Credentials.AddAllElements | src/sandbox/credentials.ts:70-86 | the found names are distinct and are exactly those that occur |
| Credentials.CollectPlaceholders | src/sandbox/credentials.ts:70-86 | the walk adds every name of a value to the set |
| Credentials.MapStringsLoop | src/sandbox/credentials.ts:105-114 | the recursive rebuild computes the mapped value, or throws when a replacement does |
| Credentials.MapPropsLoop | src/sandbox/credentials.ts:109-111 | the loop over an object's entries rebuilds it property by property |
| Credentials.ResolvesExactly | src/sandbox/credentials.ts:105-114 | resolution succeeds exactly when the vault holds every name that findPlaceholders returns |
| Credentials.MapKeepsStructure | src/sandbox/credentials.ts:105-114 | resolution changes strings only: arrays, keys and all other values stay, apart from dropped `__proto__` keys |
| Credentials.NothingToResolve | src/sandbox/credentials.ts:105-114 | without placeholders resolution is the identity, apart from dropped `__proto__` keys |
| Redaction.RedactStringLoop | src/sandbox/credentials.ts:140-144 | the loop replaces the secrets one after the other |
| Substitution.ReplaceAllExactly | src/sandbox/credentials.ts:142 | replacing a secret splits the text at its occurrences from the left and puts "***" between the parts |
| Substitution.RedactLast | src/sandbox/credentials.ts:140-144 | secrets are replaced in the order of the list, each in what the earlier ones have left |
| Substitution.IncludesExactly | src/sandbox/credentials.ts:187 | a text includes a part exactly if the part stands at some position |
| Redaction.AssertNoSecretValues | src/sandbox/credentials.ts:181-196 | the guard throws exactly when some string of the value contains a secret |
| Redaction.SoundSecretGone | src/sandbox/credentials.ts:137-156 | redacted values hold no sound secret, whatever the other secrets are and whatever their overlaps and order |
| Redaction.RedactedPasses | src/sandbox/credentials.ts:137-156 | redacted values pass the guard for the same secrets if all of them are sound |
| Redaction.StarlessSound | src/sandbox/credentials.ts:130-156 | secrets without stars are sound |
| Redaction.SingleSecretExactly | src/sandbox/credentials.ts:130-156 | for one secret, redaction always passes the guard exactly if the secret is sound |
| Redaction.PassingUnchanged | src/sandbox/credentials.ts:137-156 | a value that passes the guard is not changed by redaction, apart from dropped `__proto__` keys |
| Protocol.DecodeEncode | src/gateway/protocol.ts:25-45 | decoding an encoded message gives the message back |
| WireFormat.EncodeExactly | src/gateway/protocol.ts:25-30 | what is written for each kind of message, property by property and in order, and which messages are not written |
| WireFormat.DecodeExactly | src/gateway/protocol.ts:33-45 | a line decodes to a message exactly if it is the JSON text of an object that holds its properties and the message fits the schema |
| FrameDecoding.FrameDecoder.Push | src/gateway/protocol.ts:56-71 | a push returns the messages of the complete lines and keeps the rest, or throws on a bad line or an oversized rest |
| FrameDecoding.ChunkIndependent | src/gateway/protocol.ts:53-72 | within the limit, any split of a stream into chunks gives the same messages and the same rest |
| FrameDecoding.LimitExactly | src/gateway/protocol.ts:66-69 | no split of a stream is refused exactly when every line and the rest are at most 2^20 units long |
| FrameDecoding.LimitExample | src/gateway/protocol.ts:66-69 | an error message with any text longer than the limit: taken in one chunk, refused when cut before its newline |
| FrameDecoding.AnyChunkingDelivers | src/gateway/protocol.ts:25-72 | any chunking of encoded messages returns exactly the messages sent |
| GatewayServer.GatewayServer.Dispatch | src/gateway/server.ts:81-96 | a frame is refused with an error or goes to the handler, by kind and replay guard |
| GatewayServer.GatewayServer.HandlerFinished | src/gateway/server.ts:95-101 | a finished handler writes its response, and a failed one an error |
| GatewayServer.FinishExactly | src/gateway/server.ts:95-101 | a finished handler adds exactly its own message to the writes, on its connection, if that encodes, and a failed one an error with the request's id and session and the thrown text |
| GatewayServer.ArriveExactly | src/gateway/server.ts:81-93 | a first request calls the handler and writes nothing; a replay, or a message of another kind, gets one error with its id and session and the text for its case |
| GatewayServer.WritesExplained | src/gateway/server.ts:81-102 | in every run whatever is written is the refusal of its frame, or what the handler of its frame returned or threw |
| GatewayServer.RunSafe | src/gateway/server.ts:81-102 | over all connections, replays and orders of completion: one handler call per id; no response for a frame while its handler runs, and exactly one, on its own connection, once it has one that encodes |
| GatewayServer.RefusedAtOnce | src/gateway/server.ts:83-91 | a replay or a message that is no request gets one error response and no handler call |
| GatewayClient.GatewayClient.Send | src/gateway/client.ts:82-95 | a request is refused at once, or waits with its timer set |
| GatewayClient.GatewayClient.Received | src/gateway/client.ts:64-70 | a message settles the request that waits for its id, and nothing else |
| GatewayClient.GatewayClient.TimerFires | src/gateway/client.ts:88-91 | a timeout rejects its request and takes it out of the map |
| GatewayClient.GatewayClient.FailAll | src/gateway/client.ts:73-79 | a lost connection rejects everything in flight |
| GatewayClient.RunConsistent | src/gateway/client.ts:54-95 | over every run a request with its timer set is in the map and unsettled, but for a failure to encode; one without has been settled, and resolves only with a message of its own id |
| GatewayClient.SettledTwiceExactly | src/gateway/client.ts:82-94 | a request is settled more than once exactly if it entered the map, did not encode and has left the map since; then twice, the first time by rejecting |
| GatewayClient.SettledTwiceExample | src/gateway/client.ts:82-94 | a request without a tool name, then its timer or a reply |
| GatewayClient.FailSettlesAll | src/gateway/client.ts:73-79 | after a failure no request is left waiting |
| GatewayClient.SettledStays | src/gateway/client.ts:54-95 | a settled request is not touched again |
| Governance.Daemon.OpenCall | src/daemon/daemon.ts:213-234 | a call up to its first await: judged, journaled, then posted, concluded or aborted |
| Governance.Daemon.ConcludeCall | src/daemon/daemon.ts:255-290 | from the effective decision to the next await, for both kinds of call |
| Governance.Daemon.DecisionReached | src/daemon/daemon.ts:237-253 | the answer or its absence is journaled and decides; no answer denies |
| Governance.Daemon.ExecFinished | src/daemon/daemon.ts:268-287 | the execution is journaled and its redacted result delivered, or the call aborts |
| Governance.StepConsistent | src/daemon/daemon.ts:213-358 | one step of any call keeps every call on the word that its policy verdict and its answer fix |
| Governance.RunConsistent | src/daemon/daemon.ts:213-358 | the same in every interleaving of gate and mediate calls |
| GovernanceSafety.AllowsAreJournaled | src/daemon/daemon.ts:302-358 | a hook receives allow only after gate.allow of its call is in the journal, and only if the policy allows or requires and a human approved |
| GovernanceSafety.ExecutionsAreAuthorized | src/daemon/daemon.ts:255-268 | every execution follows tool_call.allow or approval.granted of its own call and gets the command with each placeholder replaced by the vault's value, all of which the vault holds |
| GovernanceSafety.CommandCarriesArgs | src/daemon/daemon.ts:206-210 | the argv before secrets is the given shell command, or the tool and a text that parses back to its arguments |
| GovernanceSafety.ExecutionsCounted | src/daemon/daemon.ts:213-293 | for every id, also a shared one: executions are at most the allow and granted events, and executed events at most the executions |
| GovernanceSafety.SecretsExactly | src/sandbox/credentials.ts:121-128 | the redacted secrets are exactly the non-empty values that the vault holds under the names in the command |
| GovernanceSafety.ResultsAreRedacted | src/daemon/daemon.ts:269-286 | a result is delivered only after tool_call.executed is journaled, for its own call and session, says ok exactly on exit code 0, and carries what was printed with these secrets redacted: no sound one is left, whatever the others are, and it is what was printed if none was |
| GovernanceSafety.RawRequireExactly | src/daemon/daemon.ts:288-290 | a delivered verdict is for its call with the policy's rule and tier; it says require exactly for a proxied call that requires a human and got no approval, and allow exactly for a permitted gate; its reason is the policy's or tells both effects |
| GovernanceSafety.JournalOfId | src/daemon/daemon.ts:213-358 | with distinct ids, the events of an id are the first ones of its call's record, with their payloads, and all of them once it has delivered |
| GovernanceSafety.JournalWords | src/daemon/daemon.ts:302-358 | with distinct ids, aborted calls included, the kinds of an id's events are a prefix of one of the four words of its call, and a whole word after delivery |
| LiveSession.InMemoryClaudeProcess.RespondTo | src/intendants/claude-code/claude-process.ts:87-94 | a response is recorded and unblocks its hook |
| LiveSession.InMemoryClaudeProcess.EmitNext | src/intendants/claude-code/claude-process.ts:98-107 | the next hook event is emitted and blocks |
| LiveSession.InMemoryClaudeProcess.StopAll | src/intendants/claude-code/claude-process.ts:110-117 | stopping answers every blocked hook as a denial |
| LiveSession.ClaudeCodeIntendant.DeliverMessage | src/intendants/claude-code/claude-code-intendant.ts:58-72 | a verdict becomes the hook decision that it stands for |
| LiveSession.StepGood | src/daemon/daemon.ts:392-411 | every step of a live session keeps at most one call undelivered and the responses in order, also after a heartbeat has thrown |
| LiveSession.SessionTrace | src/daemon/daemon.ts:366-414 | every session that ends: one response per script step in order, allowing exactly what is permitted, and the journal is session.started, each step's whole word in order, and session.ended with the number of steps |
| LiveSession.Progress | src/daemon/daemon.ts:392-406 | while nothing has gone wrong, some next step keeps it so, with any answer of the channel, and brings the session nearer to its end |
| LiveSession.Completes | src/daemon/daemon.ts:392-411 | from every such point, whatever the channel is going to answer, some continuation ends the session with these answers |
| LiveSession.CanEndExactly | src/daemon/daemon.ts:392-411 | a running session can still end exactly if no call has aborted, no heartbeat has thrown and the policy can judge the remaining steps |
| LiveSession.CompletesExactly | src/daemon/daemon.ts:366-414 | a script can be run to the end exactly if the policy can judge each of its steps |
| LiveSession.EveryBehaviour | src/daemon/daemon.ts:366-414 | for every policy, script and answers there is a run to the end with one response per step, in order, allowing exactly what is allowed or required and approved |
| LiveSession.LostLeaseGoesOn | src/daemon/daemon.ts:394-403 | up to its end a live session gates its calls as if every heartbeat had renewed the lease |
| LiveSession.LostLeaseNeverEnds | src/daemon/daemon.ts:405-411 | a session in which a heartbeat has thrown never journals session.ended |
| LiveSession.RefusedReadAsAllowedExactly | src/intendants/claude-code/claude-code-intendant.ts:58-64 | the adapter reads a refusal as allowed exactly for a proxied call that requires a human and got no approval |
| LiveSession.RefusedReadAsAllowedExample | src/daemon/daemon.ts:288-290 | one rule, one call, one declined prompt: the journal, the delivered verdict require, and its reading as allowed |
| LiveSession.CallIdsDistinct | src/intendants/claude-code/claude-process.ts:101 | the hook ids of a session are distinct |
| Audit.NotesWritten | src/daemon/daemon.ts:219-343 | whatever else is appended, refused or stopped: a journal to which the events of gate and mediate are appended has written exactly these as its events of those kinds, and pins its last event if nothing stops |
| Audit.OwnFilesAccepted | src/journal/verify.ts:40-87 | under ideal signatures the files that the runs leave are accepted exactly when the last event is pinned, as it is if nothing stopped, and show every gate and mediate event |
| Audit.ScreenExactly | src/journal/journal.ts:140-145 | with the guard as its screen a journal never holds a known secret in a string of any event, whatever is attempted, and an attempt writes its event exactly if the event fits the schema and holds none |
| Audit.AttestsTells | src/daemon/daemon.ts:219-343 | an event that stands for a note says in its payload what the note says, property by property, names its actor and leaves all columns null |
| Audit.AcceptedJournalTells | src/journal/verify.ts:40-87 | the gate and mediate events of any accepted file are, in kind, actor and payload, the first ones of the runs that used the journal, in order, whatever other events it holds |
| Audit.AcceptedWords | src/journal/verify.ts:40-87 | with distinct ids, the kinds of the events of an accepted file about a call are a prefix of a word of its kind |
| Audit.AcceptedPermissions | src/journal/verify.ts:40-87 | whatever the ids: in an accepted file every gate.allow and tool_call.executed comes after a tool_call.allow or approval.granted about the same id |
| Audit.MessageIdReads | src/daemon/daemon.ts:219-251 | the message id in a payload tells whose call an event is about |
| SessionStore.InMemorySessionStore.Acquire | src/daemon/session-store.ts:60-83 | refuses a live lease of another owner, else stores a lease with the next token |
| SessionStore.InMemorySessionStore.Heartbeat | src/daemon/session-store.ts:85-96 | renews the stored lease or throws as fenced |
| SessionStore.InMemorySessionStore.Release | src/daemon/session-store.ts:98-106 | marks the caller's own active lease released, else changes nothing |
| SessionStore.InMemorySessionStore.ReapExpired | src/daemon/session-store.ts:108-120 | the loop reaps every expired active lease and returns these in order |
| SessionStore.ReapsExactly | src/daemon/session-store.ts:108-120 | the returned leases are the reaped forms of exactly the active leases past their expiry |
| SessionStore.SweptOnce | src/daemon/session-store.ts:108-120 | a second sweep at the same time or an earlier one reaps nothing |
| Ownership.StepConsistent | src/daemon/session-store.ts:60-120 | every call keeps the store in agreement with the grants it has made |
| Ownership.OwnersTakeTurns | src/daemon/session-store.ts:60-120 | over every run, for any time-to-live values: grants of one session never overlap in time, no token is issued twice, and the store holds the newest |
| Ownership.TokensGrow | src/daemon/session-store.ts:60-120 | no call makes a stored token smaller |
| Ownership.AcquireExactly | src/daemon/session-store.ts:60-83 | a session is granted exactly when ids are not empty and no other owner's newest grant is still running; the lease then runs from now for the time to live, with one more than the newest token |
| Ownership.HeartbeatExactly | src/daemon/session-store.ts:85-96 | a handle renews exactly while its grant is the newest of the session and the stored lease is active |
| Ownership.ReleaseExactly | src/daemon/session-store.ts:98-106 | a handle releases under exactly the same condition |
| Ownership.LostBy | src/daemon/session-store.ts:60-120 | a takeover, or a sweep past its end, takes the session from a handle |
| Ownership.LostForGood | src/daemon/session-store.ts:60-120 | a handle that has lost its session never holds it again |
| Ownership.TokenAdvancesExactly | src/daemon/session-store.ts:72-81 | two acquires in a row give increasing tokens exactly if the session id is not `__proto__` |
| LeasedSession.RunsAlone | src/daemon/daemon.ts:392-414 | a live session under its lease runs as live sessions do, with the heartbeats that the store grants or refuses |
| LeasedSession.FailsExactly | src/daemon/daemon.ts:394-403 | the heartbeat after a call throws exactly if the session no longer holds its lease |
| LeasedSession.AfterLoss | src/daemon/daemon.ts:394-414 | after the loss the first call that completes fails the session for good, and session.ended is journaled only if no call completed after it |
| LeasedSession.TakenOver | src/daemon/daemon.ts:394-414 | once another owner acquires or a sweep reaps the session, session.ended is journaled only if every call of the script had been renewed before |
| ScriptedDriver.FencedExactly | src/daemon/daemon.ts:514-517 | after a call the driver stops exactly if it has lost its lease |
| ScriptedDriver.InertOnceLost | src/daemon/daemon.ts:513-524 | a driver without its lease changes nothing in the store |
| ScriptedDriver.AfterLoss | src/daemon/daemon.ts:513-524 | after the loss at most one more call completes, its heartbeat stops the driver, and session.ended is journaled only if all calls had been renewed before |
| ScriptedDriver.TakenOver | src/daemon/daemon.ts:513-524 | the same from the moment another owner acquires or a sweep reaps the session |
| ScriptedDriver.RunOrderly | src/daemon/daemon.ts:495-524 | in every run session.ended is written exactly when the driver is done, after all calls |
| ScriptedDriver.Daemon.AfterMediate | src/daemon/daemon.ts:515-516 | what follows a mediate call: the outcome counts, and the heartbeat renews the handle or throws |
| ScriptedDriver.Daemon.Close | src/daemon/daemon.ts:519-524 | session.ended and then the release |
| ScriptedDriver.RecoverSessions | src/daemon/daemon.ts:192-204 | startup recovery reaps the expired leases and journals each, up to an append that throws |
| Approvals.NonceStore.MintNonce | src/channels/slack/nonce-store.ts:33-40 | the nonce can then be consumed exactly for its message and up to its expiry, and all other nonces as before |
| Approvals.NonceStore.ConsumeNonce | src/channels/slack/nonce-store.ts:47-57 | a nonce is consumed only if known, unused, in time and for this message, and never again after that; a failed attempt changes nothing |
| Approvals.SocketModeInteractionSource.AwaitInteraction | src/channels/slack/socket-mode.ts:137-145 | a wait is entered under its nonce with its timer |
| Approvals.SocketModeInteractionSource.HandleFrame | src/channels/slack/socket-mode.ts:147-172 | a click settles the wait for its nonce, or is reported as a replay or as unknown |
| Approvals.SocketModeInteractionSource.TimerFired | src/channels/slack/socket-mode.ts:139-142 | a timer rejects its own wait and removes whatever waits for the nonce |
| Approvals.SocketModeInteractionSource.HandleClose | src/channels/slack/socket-mode.ts:174-179 | a close rejects every pending wait, unless stopped |
| Approvals.SocketModeInteractionSource.StopReceiver | src/channels/slack/socket-mode.ts:130-135 | stopping rejects every pending wait |
| Approvals.SocketModeInteractionSource.RejectAllPending | src/channels/slack/socket-mode.ts:181-187 | the loop rejects each pending wait once and empties the map |
| Approvals.SlackChannel.BeginPost | src/channels/slack/slack-channel.ts:51-60 | a request that passes the screen mints its nonce; a refused one does nothing |
| Approvals.SlackChannel.PromptPosted | src/channels/slack/slack-channel.ts:61-62 | a posted prompt becomes the one that its message awaits, replacing an earlier one |
| Approvals.SlackChannel.BeginAwait | src/channels/slack/slack-channel.ts:65-69 | awaits the nonce of the posted prompt, or throws without one |
| Approvals.SlackChannel.FinishAwait | src/channels/slack/slack-channel.ts:70-84 | a bot is denied without using the nonce; otherwise the nonce decides whether the click counts |
| Approvals.ParseBlockExactly | src/channels/slack/socket-mode.ts:66-94 | a payload parses to a click exactly if it is of the type block_actions, its first action is one of the two with a value, and its user has an id |
| Approvals.ClickParsesBack | src/channels/slack/socket-mode.ts:66-94 | the payload of a click parses to the click |
| Approvals.ReachExactly | src/channels/slack/socket-mode.ts:137-187 | a new wait stays within reach of clicks while it waits, whatever happens short of another wait for its nonce, exactly if no earlier wait for the nonce still ticks |
| Approvals.LaterWaitHides | src/channels/slack/socket-mode.ts:137-145 | a later wait for the same nonce takes a waiting one out of reach of every click |
| Approvals.ClickLostExample | src/channels/slack/slack-channel.ts:51-69 | two prompts for one message: the Approve click finds nobody although a wait still ticks |
| Approvals.SettledOnce | src/channels/slack/socket-mode.ts:137-187 | in every run each wait is settled exactly once or still has its timer |
| Approvals.ApprovalsAreOneTime | src/channels/slack/slack-channel.ts:51-85 | in every run with fresh nonces an approval comes from a human's Approve click, in time, on a nonce minted for that message, and no other decision uses the nonce |
| HumanApprovals.Projects | src/daemon/daemon.ts:228-253 | a run of the loop with its Slack channel is a run of each, so what holds of all runs of either holds of it |
| HumanApprovals.GrantHasClick | src/daemon/daemon.ts:228-253 | with fresh nonces, every approval.granted event has a decision of its own call behind it: the user whom the event names, no bot, clicked Approve, in time, on a nonce minted for that message |
| HumanApprovals.GrantsHaveOwnNonces | src/channels/slack/slack-channel.ts:65-84 | two approval.granted events never share a nonce |
| HumanApprovals.ProceedsAfterClick | src/daemon/daemon.ts:228-290 | a call that requires a human is executed, let through or answered with a result only after an approval.granted event of its own with such a click behind it |
| HumanApprovals.ClickDecides | src/channels/slack/slack-channel.ts:65-84 | a click on a posted prompt is what the journal records and what the call goes by: granted exactly if it is a human's Approve click within the nonce's time |
| HumanApprovals.AcceptedGrants | src/journal/verify.ts:40-87 | each approval.granted event of any accepted file has such a click behind it, for the message and by the user that the event names |
| HumanApprovals.GrantEventsDiffer | src/journal/verify.ts:40-87 | two approval.granted events of a file come from different processes or from different nonces |
| Outbox.InMemoryOutboxStore.EnqueueDelivery | src/daemon/outbox-store.ts:39-44 | a known id is left alone, a new one is stored |
| Outbox.InMemoryOutboxStore.RecordOneAttempt | src/daemon/outbox-store.ts:50-56 | one more attempt of a known delivery; throws on an inherited property |
| Outbox.InMemoryOutboxStore.MarkAsDelivered | src/daemon/outbox-store.ts:58-64 | marks a known delivery; throws on an inherited property |
| Outbox.OutboxRelay.Attempt | src/daemon/outbox-relay.ts:81-89 | records, posts and marks on confirmation; throws, having done nothing, exactly on an inherited property |
| Outbox.OutboxRelay.DrainAll | src/daemon/outbox-relay.ts:72-77 | posts every pending delivery once in store order, marks the confirmed ones, changes nothing else, and counts both kinds |
| Outbox.AttemptSteps | src/daemon/outbox-relay.ts:81-89 | an uninterrupted attempt is the steps of the crash model |
| Outbox.StepConsistent | src/daemon/outbox-relay.ts:52-89 | one store or channel operation, or a crash, keeps every obligation accounted for |
| Outbox.NothingLost | src/daemon/outbox-relay.ts:52-89 | with crashes anywhere: no obligation is lost or altered, attempts are no fewer than posts, and a delivered one was taken by the channel as it stands |
| Outbox.DeliveredIsFinal | src/daemon/outbox-relay.ts:72-89 | a delivered obligation is never posted or changed again |
| Outbox.DrainsBalance | src/daemon/outbox-relay.ts:72-77 | delivered plus still pending is what was pending at the start, and delivered is what the drain marked |
| Outbox.EnqueueExactly | src/daemon/outbox-store.ts:39-44 | a new obligation is stored exactly if its id names no inherited property |
| Outbox.EnqueueExample | src/daemon/outbox-store.ts:39-44 | an obligation with the id "constructor" is not stored |
| Outbox.ListOrderExactly | src/daemon/outbox-store.ts:35-37 | all deliveries are listed in enqueue order exactly if that is an order in which objects visit their ids |
| Outbox.PendingOrderExactly | src/daemon/outbox-store.ts:46-48 | the pending deliveries are listed, and drained, in enqueue order exactly if that is an order in which objects visit their ids |
| Outbox.PendingOrderExample | src/daemon/outbox-store.ts:46-48 | "a" and then "1" are drained the other way round |

## Left out

- JsonText.RoundTrip: numbers are integers; fractions, exponents and the loss of precision beyond 2^53 are not modelled.
- Redaction.RedactedPasses: sound secrets are always gone; whether an unsound one survives among several is left open, since it depends on the other secrets and their order.
- Ownership.OwnersTakeTurns: an owner that acquires its own session again counts as giving up its earlier grant at that moment; without this the earlier grant could outlast a release of the later one.
- Outbox.NothingLost: ids are distinct and relay calls run one at a time, as after a restart. A `project` during a `drain` is not modelled; there a delivery that the one has marked can be posted again by the other, and the counts of the drain can be off.
- Approvals.ApprovalsAreOneTime: nonces are distinct; a generator that repeats a nonce would make it usable again. The same holds for HumanApprovals.
- Audit.ScreenExactly: speaks of string values, as the guard does, and not of the names of properties.
- LiveSession.SessionTrace: speaks of sessions that end (`LiveSession.CanEndExactly` says which); the others are covered by the lemmas about single calls.
- FrameDecoding.FrameDecoder.Push: the decoder's state after a throw is not specified, since both ends drop what they were reading.
- Bytes that are not valid UTF-8 in files and sockets, and file-system errors.
- The wording of error messages; each is a constructor.
- zod dropping a top-level `__proto__` key of a payload, which no hash can show.
- A head checkpoint whose signature is not a string counts as not verifying.
- Audit.AcceptedWords: the daemons that used a journal did so one after the other; two processes appending to one file at the same time are not modelled.
- `FileSessionStore` and `FileOutboxStore`: the same operations on a file; a corrupt file loading as an empty store is not modelled.
- `runMediated` as a whole: its calls are those of `Governance` and its lease is used as in `ScriptedDriver`; its try/finally around teardown is not modelled.
- The identity gate and the tenant guard: single branches before a session starts.
- The interleaving of several live sessions over one adapter, and the outcomes that drivers return to their callers.
- Opening and closing of sockets, WebSocket dialing, acknowledgements of frames, and cosmetic message updates.
- The Codex adapter, the live Claude process, Docker argument lists, egress parsing, the CLI, configuration and doctor probes.
- Key generation and PEM handling.
