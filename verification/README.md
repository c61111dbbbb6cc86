# Verified model of the network-operations backend

A Dafny model of the parts of the backend whose logic is more than plumbing, with proofs of what those parts promise.
`dafny verify dfyconfig.toml` checks all of it. In each component the program (its classes, methods and loops) stands
beside a specification on values; the other files of the component hold the theorems, many of them told on the raw
texts, numbers, tables and lists the program works on.

| component | files |
|---|---|
| SQL migration splitter | `SqlLexer`, `SqlSplitter`, `SqlSplitterProofs`, `SqlStripping`, `Text` |
| flow collector and retry writer | `FlowCollector`, `FlowAccounting`, `FlowMinutes` |
| RouterOS API wire and command loop | `Bytes`, `ApiWire`, `ApiWireProofs`, `ApiCommand`, `ApiCommandProofs`, `ApiReplies` |
| trusted proxies (CIDR complement) | `TrustedProxies`, `TrustRanges` |
| Telnet reads | `TelnetSession`, `TelnetProofs`, `TelnetFailures` |
| rate limiter | `RateLimiter` |
| running-config reader | `OnuServices`, `OnuServicesProofs`, `OnuFields`, `WrappedOutput` |
| ONT status: poller and traps | `OntPoll`, `OntPollProofs`, `OntTraps`, `OntTrapTexts`, `OntWriters` |
| batched SNMP reads and their object identifiers | `OidSpace`, `BatchReads`, `ZteReads`, `ZteInventory`, `ZteColumns` |
| WireGuard reconciler | `WireGuard`, `WireGuardTables` |
| WhatsApp sessions | `WaSessions` |

## How the world is modelled

- The **RouterOS peer** is any function from stream offsets to a byte or a failure; writing either succeeds whole or
  fails. A **Telnet line** is any finite sequence of bytes, timeouts and failures, and the deadline is a number of
  passes through the loop; writing replies to it succeeds. Bytes are numbers below 256, and the words of the API are
  sequences of bytes.
- The **flow sink** fails on an arbitrary set of calls and a failed call stores nothing; the clock is any sequence of
  instants, stepping back included; the Aggregator accumulates flows and is drained by each close. Its table of top
  addresses may ignore a flow to a new address and a close keeps only the largest; which flows that costs is an arbitrary
  policy, and they are accounted for apart.
- **SNMP agents** are functions from an object identifier to a value; a GET may go unanswered, be answered short or
  carry variables nobody asked for.
- The **kernel** is a set of addresses, a map of peers and a set of routes; any netlink or wgctrl call may fail, and one
  that fails changes nothing. While the link is up an address brings and takes the route to its own network.
- The **config lines** an OLT prints come classified by the pattern they match; the patterns themselves are not modelled.
- **Interleavings** (flow ticks, polls and traps, session syncs and restarts) are arbitrary sequences of atomic steps;
  a page of the poller is loaded in one step and settled in another, and a restart takes a session out under the lock
  in one step and stops it in another. `OntTraps` has one poll at a time and traps in one step; `OntWriters` has any
  number of polls and traps at once, each reading the row and updating it in two.
- Go's `int` is an unbounded integer except where its width shows: word lengths (32 bits), index parsing (32 bits) and
  ONU numbers (64 bits).

## What the code does where its comments say otherwise

- A top-level `--` at the very end of a line makes the splitter read the whole next line as a comment, because comment
  mode begins on the rune after the dashes. It agrees with a plain lexer rune for rune exactly on the texts without
  such a comment (`SqlSplitterProofs.LookBackIsTheLexer`); `BareCommentSwallowsACut` is a counterexample.
- "A batch failing twice is dropped" can drop rows that were never offered to the sink: a part behind one that was
  refused twice. `FlowAccounting.DroppedPartWasRefusedTwice` says exactly which parts were refused twice themselves.
- A GEM port that no line declared is looked up as T-CONT 0, so its service takes up the profile of a T-CONT 0 if there
  is one. `OnuServicesProofs.NamedProfileIsReached` says exactly when a service gets the profile it names, and
  `StrangersProfile` is a config on which it gets another.
- An ONU whose registration line precedes its section gets no service type unless a wan-ip line gives it one; with the
  section first it is a bridge (`OnuServicesProofs.ServiceIsWhatItsLinesSay`).
- A line that ends exactly in the last column of the terminal is joined to the next one
  (`WrappedOutput.UnwrapUndoesWrapping` is an equivalence). The program measures lines in bytes and the terminal wraps
  at columns; the model counts characters, so this is about output in ASCII.
- A poll does not always leave a row with its own verdict: a trap that contradicts it between the poll's reading of the
  row and its write stays until the next poll, in both directions. `OntTraps.ClearedInBetween` is an ONU that is down
  left online, `OntTraps.DownInBetween` one that is up left offline, and `OntTraps.PollSettles` says exactly when it
  happens.
- A trap can overwrite the reason of an outage after all: it looks the row up and updates it in two statements, and a
  poll may settle the outage in between. `OntWriters.TrapRenamesExactly` says exactly when.
- A logout watcher restarts an account, not the session it watched; a late one takes out the session that replaced it
  (`WaSessions.LogoutTakesWhatIsRegistered`, `LateLogout`).
- Two peers that list the same subnet: the later one gets it (`WireGuard.AllowedIPsAreExact` is an equivalence).

## Model

| member | source | states |
|---|---|---|
| SqlLexer.TagWidthIsTheDelimiter | backend/internal/database/migration_exec.go:143-169 | a dollar tag is found at a rune exactly when one opens there, and then it is the only one that can |
| SqlSplitter.ReadDollarTag | backend/internal/database/migration_exec.go:143-156 | the lookahead loop returns that tag and its width, or nothing |
| SqlSplitter.StripComments | backend/internal/database/migration_exec.go:171-182 | the stripping loop yields the lines that hold SQL, in order and trimmed as a whole; what that means on texts is stated in SqlStripping |
| SqlSplitter.Splitter.Flush | backend/internal/database/migration_exec.go:125-130 | ends the raw piece in hand; the statements stay the stripped non-empty pieces |
| SqlSplitter.Splitter.StepInsideLiteral | backend/internal/database/migration_exec.go:96-122 | what a rune does inside a dollar quote or a comment, found by looking back on what was written |
| SqlSplitter.Splitter.Step | backend/internal/database/migration_exec.go:58-91 | what one rune or one tag does to every field; at most one context is ever open |
| SqlSplitter.Splitter.Finish | backend/internal/database/migration_exec.go:134-137 | the trailing piece is flushed like any other |
| SqlSplitter.SplitStatements | backend/internal/database/migration_exec.go:46-54 | the driver loop yields the stripped raw pieces of the whole text |
| SqlSplitterProofs.LookBackIsTheLexer | backend/internal/database/migration_exec.go:58-122 | the mode found by looking back is at every rune the mode of a forward-only reference lexer, if and only if no top-level comment is empty |
| SqlSplitterProofs.CutsFrom | backend/internal/database/migration_exec.go:46-137 | from any state, the cuts are the semicolons that the splitter's own modes put at top level |
| SqlSplitterProofs.CutsWhereTheLexerDoes | backend/internal/database/migration_exec.go:46-137 | on those texts the raw pieces are the text cut at the reference lexer's top-level semicolons |
| SqlSplitterProofs.BareCommentSwallowsACut | backend/internal/database/migration_exec.go:116-120 | a text with an empty comment that stays in one piece where the reference lexer cuts it in two |
| SqlSplitterProofs.NothingIsLost | backend/internal/database/migration_exec.go:46-137 | for every text, the raw pieces joined by semicolons are the text |
| SqlSplitterProofs.LookaheadStopsAtTheCut | backend/internal/database/migration_exec.go:143-169 | looking ahead for a tag never reads past a semicolon that follows |
| SqlSplitterProofs.SplittingComposes | backend/internal/database/migration_exec.go:46-137 | split(a;b) is split(a) followed by split(b) if and only if a ends at top level and not in two dashes |
| SqlSplitterProofs.EndsWhereTheLexerDoes | backend/internal/database/migration_exec.go:58-122 | without empty comments, "ends at top level" is what the reference lexer says |
| SqlSplitterProofs.MigrationsCompose | backend/internal/database/migration_exec.go:46-137 | two migrations joined at top level give the statements of the one followed by those of the other |
| SqlSplitterProofs.DroppedIffIdle | backend/internal/database/migration_exec.go:125-130 | a piece is dropped exactly when every line of it is blank or a comment |
| SqlStripping.NothingIdleNothingLost | backend/internal/database/migration_exec.go:171-182 | a piece none of whose lines is blank or a comment is only trimmed: every line of it is kept, in its place |
| SqlStripping.IdleLinesDoNotMatter | backend/internal/database/migration_exec.go:173-180 | a blank or comment line in the middle of a piece, at its front or at its end might as well not be there |
| SqlStripping.TrimmedIs | backend/internal/database/migration_exec.go:181 | trimming takes off a blank front and a blank back, and what is left neither begins nor ends in white space |
| SqlStripping.IdleIs | backend/internal/database/migration_exec.go:175-178 | a line holds no SQL exactly when it is blank or nothing but white space stands before two dashes |
| SqlStripping.SpacesAre | backend/internal/database/migration_exec.go:175 | the code points that count as white space |
| SqlStripping.LinesOfBoth | backend/internal/database/migration_exec.go:172 | the lines of two texts with a newline between are those of the one and then those of the other |
| SqlStripping.StatementOfPiece | backend/internal/database/migration_exec.go:125-130 | a piece is one statement, or none if all its lines are idle |
| SqlStripping.StatementsInOrder | backend/internal/database/migration_exec.go:125-130 | the statements of a text are those of its pieces, one after the other |
| SqlStripping.TagRuneIs | backend/internal/database/migration_exec.go:160-169 | a tag is spelled with ASCII letters, underscores and, but for its first rune, digits |
| FlowCollector.RetryWriter.Write | backend/cmd/flowd/writer.go:57-78 | the parts go in order, each once, up to the first failure; the rest comes back with what was stored blanked |
| FlowCollector.RetryWriter.Flush | backend/cmd/flowd/writer.go:41-53 | one retry for what was pending, then the new batch; only the new one can become pending |
| FlowCollector.Collector.CloseMinute | backend/cmd/flowd/collector.go:148-162 | a minute closes only when the clock is past the open one, and then takes its flows with it |
| FlowCollector.Collector.CloseWindowIfDue | backend/cmd/flowd/collector.go:166-181 | the same for the window and its two tables |
| FlowCollector.FinishMinute | backend/cmd/flowd/main.go:216-232 | closes, then flushes what the closes produced |
| FlowAccounting.CloseDrains | backend/cmd/flowd/collector.go:148-181 | a close moves a table's open flows into the batch, but for the top addresses it cuts, under a time earlier than the one it opens, or leaves them be |
| FlowAccounting.WrittenIsAnAttempt | backend/cmd/flowd/writer.go:57-78 | one write offers each part at most once, as it stands; a part is left exactly when it was refused or not reached |
| FlowAccounting.TickIsAccounted | backend/cmd/flowd/main.go:216-232 | a tick at any instant keeps the accounting invariant: lives of batches, times, calls and what is pending |
| FlowAccounting.KeepAll | backend/cmd/flowd/main.go:216-232 | the invariant holds after every run, under any clock and any sink |
| FlowAccounting.EveryFlowIsAccountedFor | backend/cmd/flowd/main.go:216-232 | over every run and for each table, as multisets: counted = stored + pending + dropped + open + cut, where only the top addresses are ever cut and only batches whose two writes both failed have dropped anything |
| FlowAccounting.CutIsOfEachEvent | backend/internal/netflow/aggregate.go:179-312 | what is cut is, event by event, the flow ignored for a full table or the flows of a window that its close does not keep |
| FlowAccounting.StoredOnceAndInOrder | backend/cmd/flowd/writer.go:41-78 | the rows offered for a table rise in time, are offered at most twice, and never again once stored |
| FlowAccounting.DroppedPartWasRefusedTwice | backend/cmd/flowd/writer.go:41-78 | a dropped part was itself refused twice if and only if nothing before it was left by the first write |
| FlowAccounting.DroppedUnoffered | backend/cmd/flowd/writer.go:41-78 | rows that are dropped without ever being offered |
| FlowMinutes.MinuteClosesWhenItEnds | backend/cmd/flowd/collector.go:148-162 | at a tick of any run, in nanoseconds: once the clock has reached the end of the open minute its flows are closed under its own time and stored or held; before that nothing happens to them; afterwards the instant lies before the open minute's end |
| FlowMinutes.WindowClosesWhenItEnds | backend/cmd/flowd/collector.go:166-181 | the same of the five-minute window: every flow towards an own prefix, and of those towards addresses exactly the ones the policy keeps |
| FlowMinutes.OpenIsTheLatest | backend/cmd/flowd/collector.go:148-181 | in every run the open minute and window start at multiples of their lengths and hold the latest instant the clock has shown |
| FlowMinutes.FlushedStoresOrHolds | backend/cmd/flowd/writer.go:41-78 | rows offered by a flush are in one of its stored calls or in what is pending after it |
| FlowMinutes.LargestAreThoseKept | backend/internal/netflow/aggregate.go:290-312 | a window's close keeps every flow the policy keeps, as often as it is there, and no other |
| FlowMinutes.CountedIs | backend/internal/netflow/aggregate.go:150-199 | every flow counts towards every table, but one without an own prefix not towards that table |
| FlowMinutes.NothingCut | backend/internal/netflow/aggregate.go:179-312 | a policy that ignores nothing and leaves nothing out costs nothing |
| ApiWire.MasksAreRanges | backend/internal/mikrotik/apiwire.go:47-59 | the masks tested on the first byte are ranges |
| ApiWire.MarkersAdd | backend/internal/mikrotik/apiwire.go:27-35 | or-ing the length marker in is adding it |
| ApiWire.Connection.ReadLength | backend/internal/mikrotik/apiwire.go:41-69 | reads a length of any form, or says whether the read or the form failed |
| ApiWire.Connection.ReadSentence | backend/internal/mikrotik/apiwire.go:84-105 | reads words up to the empty one within the byte bound; ends on every peer |
| ApiWire.Connection.WriteSentence | backend/internal/mikrotik/apiwire.go:73-82 | sends the whole encoded sentence or nothing |
| ApiWire.ParseSentence | backend/internal/mikrotik/apiwire.go:117-130 | the reply's kind and its attributes, a later word replacing an earlier |
| ApiWireProofs.LengthRoundTrip | backend/internal/mikrotik/apiwire.go:23-69 | an encoded length is read back, the reader just past it, if and only if it is below 2^32 |
| ApiWireProofs.SentenceIsLegal | backend/internal/mikrotik/apiwire.go:84-105 | whatever a peer sends, a sentence that is read has no empty word and at most the allowed bytes |
| ApiWireProofs.SentenceRoundTrip | backend/internal/mikrotik/apiwire.go:73-105 | a written sentence is read back, stopping at the first byte after it, if and only if it has no empty word and at most the allowed bytes |
| ApiWireProofs.StreamStaysInStep | backend/internal/mikrotik/apiwire.go:73-105 | any number of sentences written one after another are read one after another |
| ApiWireProofs.CutAtFirstEquals | backend/internal/mikrotik/apiwire.go:114-130 | a key without "=" is parted from a value that may hold it |
| ApiWireProofs.LastAttributeDecides | backend/internal/mikrotik/apiwire.go:117-130 | the last word for a key decides its value, whatever precedes it |
| ApiCommand.TotalBytes | backend/internal/mikrotik/api.go:138-144 | the loop adds up the bytes of a sentence |
| ApiCommand.Run | backend/internal/mikrotik/api.go:97-136 | ends on every byte stream, the byte budget strictly falling; its outcome is that of collecting from where the stream stood, and a reply leaves the stream where the outcome says |
| ApiCommandProofs.OutcomeIsOneReply | backend/internal/mikrotik/api.go:97-136 | rows or a refusal come out if and only if one complete reply within both budgets is there: the rows are those of its "!re" sentences, a "!trap" makes it a refusal, and the stream is just past the first "!done" |
| ApiCommandProofs.ReplyIsCollected | backend/internal/mikrotik/api.go:97-136 | every complete reply within the budgets is collected as such |
| ApiCommandProofs.FatalCloses | backend/internal/mikrotik/api.go:115-135 | a "!fatal" before any "!done" ends the command at once, whatever came before it |
| ApiCommandProofs.RepliesAreBounded | backend/internal/mikrotik/api.go:112-114 | every sentence costs at least two overheads, which bounds how many a reply has |
| ApiCommandProofs.EveryCommandIsInStep | backend/internal/mikrotik/api.go:95-136 | on one stream holding any number of replies, refused or not, the k-th command reads the k-th reply and leaves the stream where the next one begins |
| ApiReplies.LengthIsBigEndian | backend/internal/mikrotik/apiwire.go:23-39 | a length goes out most significant byte first in one to five bytes, its number plus the marker of that many |
| ApiReplies.LengthByItsFirstByte | backend/internal/mikrotik/apiwire.go:41-69 | what a first byte announces and contributes, and what the bytes after it add; above 0xF0 it is no reply, and a missing byte is a failed read |
| ApiReplies.LegalInNumbers | backend/internal/mikrotik/apiwire.go:84-105 | the framing carries words that are not empty, up to 1 MiB in a sentence |
| ApiReplies.AttributesAreTheLastNamed | backend/internal/mikrotik/apiwire.go:117-130 | a sentence has an attribute exactly if some word names it, with or without a second "=", and the last such word gives its value |
| ApiReplies.KindsAre | backend/internal/mikrotik/api.go:118-134 | the reply kinds and the message attribute as texts |
| ApiReplies.CostIs | backend/internal/mikrotik/api.go:112 | a reply costs its bytes and 64 for each of its words and sentences |
| ApiReplies.NoTrapMeansRows | backend/internal/mikrotik/api.go:97-136 | a whole reply within the budgets and without a "!trap" is its rows |
| ApiReplies.LastTrapSaysWhy | backend/internal/mikrotik/api.go:123-134 | one with a "!trap" is a refusal, with the last message attribute of the last of them, or no message if it has none |
| ApiReplies.CollectPasses | backend/internal/mikrotik/api.go:97-136 | sentences that neither end nor break a reply are taken in, whatever they are |
| ApiReplies.BrokenReplyFails | backend/internal/mikrotik/api.go:107-122 | after any such sentences a failed read passes its error on, and cost over 16 MiB, a sentence of no words and a row past the first hundred thousand are malformed |
| TrustedProxies.ExcludeAddress | backend/internal/middleware/trusted_proxies.go:148-157 | the octet buffer loop yields one sibling block for each prefix length below the subnet's |
| TrustedProxies.Blocks | backend/internal/middleware/trusted_proxies.go:148-157 | there are 32 minus prefix-length blocks |
| TrustedProxies.SiblingHolds | backend/internal/middleware/trusted_proxies.go:152-155 | the block at a length holds exactly the addresses that first part from the excluded one at that bit |
| TrustedProxies.BlocksCoverAllButOne | backend/internal/middleware/trusted_proxies.go:146-157 | the union of the blocks is exactly the subnet without the address |
| TrustedProxies.BlocksAreDisjoint | backend/internal/middleware/trusted_proxies.go:146-157 | no two blocks share an address |
| TrustedProxies.FindDefaultRoute | backend/internal/middleware/trusted_proxies.go:127-134 | the first default route with a gateway |
| TrustedProxies.FindLinkSubnet | backend/internal/middleware/trusted_proxies.go:136-144 | the first link subnet of that interface that holds the gateway |
| TrustedProxies.TrustedFromRoutes | backend/internal/middleware/trusted_proxies.go:54-71 | decides as the specification does, refusals included |
| TrustedProxies.TrustIsTheSubnetButTheGateway | backend/internal/middleware/trusted_proxies.go:54-71 | an address is trusted exactly when it is in the default route's link subnet and is not the gateway, and it is then in 172.16.0.0/12 |
| TrustedProxies.TrustNeedsTheSubnet | backend/internal/middleware/trusted_proxies.go:54-71 | whenever anyone is trusted there is such a route and such a subnet in range |
| TrustRanges.TrustInNumbers | backend/internal/middleware/trusted_proxies.go:54-71 | with a first way out and a first subnet on its link, told on the fields of the routes: if the subnet is 172.16.0.0/12 or in it, its addresses but the gateway are trusted and no others; if not, the answer is that it lies outside |
| TrustRanges.NoWayOut | backend/internal/middleware/trusted_proxies.go:59-62 | without a default route through a gateway the answer is that there is none |
| TrustRanges.NoLink | backend/internal/middleware/trusted_proxies.go:63-66 | without a subnet of its link that holds the gateway the answer is that there is none |
| TrustRanges.DockerRangeIs | backend/internal/middleware/trusted_proxies.go:28 | 172.16.0.0/12 is the addresses from 0xAC100000 to 0xAC1FFFFF |
| TrustRanges.ContainsIs | backend/internal/middleware/trusted_proxies.go:136-157 | a prefix holds the addresses that agree with its base after division by its size |
| TrustRanges.BlocksAreAligned | backend/internal/middleware/trusted_proxies.go:148-157 | each block is written with its lowest address |
| TelnetSession.Session.SkipSubnegotiation | backend/internal/connectivity/telnet_negotiation.go:78-95 | skips to the end of a subnegotiation, or to the read that failed |
| TelnetSession.Session.NegotiateOption | backend/internal/connectivity/telnet_negotiation.go:32-54 | how one sequence ends, where, and what is written back |
| TelnetSession.Session.ReadUntil | backend/internal/connectivity/command_executor.go:237-278 | the prompt-bounded loop, for every line, test and number of passes |
| TelnetSession.Session.ReadBulk | backend/internal/connectivity/command_executor.go:284-331 | the quiet-bounded loop likewise |
| TelnetProofs.SkipsPayload | backend/internal/connectivity/telnet_negotiation.go:78-95 | any payload with its 0xFF doubled is skipped whole |
| TelnetProofs.UntilTakesItems | backend/internal/connectivity/command_executor.go:237-278 | a read of any mix of text, negotiation and pauses takes whole items from the front and returns exactly their text and replies |
| TelnetProofs.BulkTakesItems | backend/internal/connectivity/command_executor.go:284-331 | so does the other loop |
| TelnetProofs.BothLoopsReadTheSame | backend/internal/connectivity/command_executor.go:237-331 | read to the end, both loops return the data sent and nothing of the negotiation |
| TelnetProofs.TakenTextIsTheCutoff | backend/internal/connectivity/command_executor.go:265-274 | a prompt-bounded read stops at the first byte of data that satisfies the test |
| TelnetProofs.NegotiationIsInvisible | backend/internal/connectivity/command_executor.go:237-278 | two lines with the same data give the same text, whatever is negotiated in them |
| TelnetProofs.NextReadIsInStep | backend/internal/connectivity/command_executor.go:237-278 | the next read finds exactly the items this one left |
| TelnetProofs.AgreesToNothingElse | backend/internal/connectivity/telnet_negotiation.go:56-76 | a reply is three bytes about the same option and agrees only to WILL ECHO, WILL SGA and DO SGA |
| TelnetProofs.OneReplyPerRequest | backend/internal/connectivity/telnet_negotiation.go:41-49 | what is written back is one three-byte reply per request, in order |
| TelnetFailures.UntilBreaks | backend/internal/connectivity/command_executor.go:244-253 | after items that do not end the read, a failed read ends it as failed with all their text, and end of file ends it without failing |
| TelnetFailures.UntilIsCut | backend/internal/connectivity/command_executor.go:255-266 | a command that breaks off is dropped: if its bytes were late the read goes on with what comes next, if the line failed or ended the read has failed, with the text so far |
| TelnetFailures.BulkBreaks | backend/internal/connectivity/command_executor.go:299-311 | the same of the quiet-bounded read |
| TelnetFailures.BulkIsCut | backend/internal/connectivity/command_executor.go:315-323 | which drops such a command however it broke off, and goes on |
| TelnetFailures.NegotiationIsCut | backend/internal/connectivity/telnet_negotiation.go:32-54 | a command that breaks off is not answered, and ends as the read that broke it off did |
| TelnetFailures.RepliesInNumbers | backend/internal/connectivity/telnet_negotiation.go:56-76 | the replies to commands 251 to 254 as bytes: only options 1 and 3 are ever agreed to |
| RateLimiter.Limiter.Filter | backend/internal/middleware/rate_limit.go:50-56 | keeps the timestamps after the cutoff, in order |
| RateLimiter.Limiter.Cleanup | backend/internal/middleware/rate_limit.go:35-48 | filters every address in whatever order, deleting those left empty |
| RateLimiter.Limiter.Allow | backend/internal/middleware/rate_limit.go:28-72 | what one request does to the map and the cleanup time |
| RateLimiter.SweptRemembers | backend/internal/middleware/rate_limit.go:35-48 | cleanup forgets nothing a later answer could count |
| RateLimiter.AnswersAsIfNothingWereForgotten | backend/internal/middleware/rate_limit.go:28-72 | under a clock that does not step back, every answer is that of the rule that keeps the full history |
| RateLimiter.AdmittedByTheRule | backend/internal/middleware/rate_limit.go:28-72 | over a whole such run, the limiter's own admissions of an address are those of the full-history rule |
| RateLimiter.NoWindowAdmitsMore | backend/internal/middleware/rate_limit.go:58-69 | in every such run, no half-open window of that length holds more than the limit of the limiter's own admissions |
| RateLimiter.NoWindowHoldsMore | backend/internal/middleware/rate_limit.go:58-69 | the same of the full-history rule, for any clock |
| RateLimiter.StoresAtMostLimit | backend/internal/middleware/rate_limit.go:58-69 | at most the limit of timestamps is stored for an address |
| RateLimiter.RefusedExactlyWhenFull | backend/internal/middleware/rate_limit.go:50-69 | in every such run a request is refused exactly when the window that ends with it holds the limit of the limiter's own admissions of its address |
| RateLimiter.CleanupForgetsTheStale | backend/internal/middleware/rate_limit.go:35-48 | once a cleanup is due an address not asked about stays exactly if one of its timestamps is in the window, with those and no others, and the next is due five minutes later; until then it is not touched |
| RateLimiter.AfterAppend | backend/internal/middleware/rate_limit.go:50-56 | a timestamp counts exactly if it is after the cutoff |
| OnuServices.ApplyServiceLine | backend/internal/connectivity/zte_onu_services.go:139-195 | what one service line does to the service and its two tables |
| OnuServices.ParseServices | backend/internal/connectivity/zte_onu_services.go:58-122 | the section state machine over all lines |
| OnuServicesProofs.EachOnuIsItsOwnLines | backend/internal/connectivity/zte_onu_services.go:58-122 | an ONU's entry is what its own lines, in their order, make of it |
| OnuServicesProofs.OtherOnusDoNotMatter | backend/internal/connectivity/zte_onu_services.go:58-122 | two configs that say the same about an ONU give it the same service |
| OnuServicesProofs.ParsingOwnLinesIsEnough | backend/internal/connectivity/zte_onu_services.go:58-122 | parsing only an ONU's own lines and headers gives exactly its entry of the whole parse |
| OnuServicesProofs.ServiceHasTheReachedProfile | backend/internal/connectivity/zte_onu_services.go:136-181 | the T-CONT profile is the one reached through the GEM port the service line names, declared in whatever earlier section |
| OnuServicesProofs.ServiceIsWhatItsLinesSay | backend/internal/connectivity/zte_onu_services.go:82-195 | VLAN and tagging are those the last line to name them gives; the service is internet if and only if a wan-ip line says so, else bridge, or without a type when its registration came first |
| OnuServicesProofs.NamedProfileIsReached | backend/internal/connectivity/zte_onu_services.go:170-175 | a service line gives its ONU the profile its GEM port names if and only if the port was declared, or no T-CONT 0 was, or T-CONT 0 has the profile the ONU had already |
| OnuServicesProofs.StrangersProfile | backend/internal/connectivity/zte_onu_services.go:170-175 | a config whose service names no profile and gets T-CONT 0's |
| OnuServicesProofs.UndeclaredGemportMeansTcontZero | backend/internal/connectivity/zte_onu_services.go:170-175 | an undeclared GEM port resolves to T-CONT 0 |
| OnuFields.TextsAreThoseLastGiven | backend/internal/connectivity/zte_onu_services.go:58-195 | username, password, VLAN profile and address mode are those of the last wan-ip line in the ONU's sections to give each, and its type that of its last registration under its port's header, told on the config lines |
| OnuFields.VeipIffSaid | backend/internal/connectivity/zte_onu_services.go:165-166 | the virtual interface is used exactly if some line in the ONU's sections binds it |
| OnuFields.DeedIsByTheHeader | backend/internal/connectivity/zte_onu_services.go:73-121 | what a line says about an ONU is decided by the last header before it, if no end came since |
| OnuFields.PlaceIsTheLastHeader | backend/internal/connectivity/zte_onu_services.go:76-117 | the reader is in the section that the last header opened, unless an end came since |
| WrappedOutput.Unwrap | backend/internal/connectivity/zte_profiles.go:121-136 | the rejoining loop drops the newline after lines of exactly 80 |
| WrappedOutput.UnwrapUndoesWrapping | backend/internal/connectivity/zte_profiles.go:119-136 | unwrapping undoes wrapping at 80 columns if and only if no line but the last has a length that is a positive multiple of 80 |
| WrappedOutput.UnwrapIsOnePass | backend/internal/connectivity/zte_profiles.go:119-136 | on any output, exactly the carriage returns before newlines go and the newlines after a line of 80 columns; every other character stays, in its place |
| WrappedOutput.RejoinedKeepsText | backend/internal/connectivity/zte_profiles.go:124-133 | on any lines nothing but newlines goes, and none at all if and only if no line but the last has 80 columns |
| WrappedOutput.UnwrapKeepsText | backend/internal/connectivity/zte_profiles.go:119-136 | of any output, carriage returns aside, nothing but newlines is lost, and nothing at all if and only if no line but the last has 80 columns |
| OntPoll.Reading.Index | backend/cmd/worker/olt_poll.go:45-62 | in whatever order the maps are visited, each index knows exactly the positions walked, each with a genuine row |
| OntPoll.DetermineStatus | backend/cmd/worker/ont_poll.go:70-104 | the status there is evidence for, if any |
| OntPoll.ApplyPage | backend/cmd/worker/olt_cycle.go:75-132 | the page loop's writes, events, samples and counts, those passed over included |
| OntPoll.VerdictIsEvidence | backend/cmd/worker/ont_poll.go:70-104 | a verdict other than online is the meaning of a state the walk reported for that ONT, on its own card when known |
| OntPoll.NoOutageIsInvented | backend/cmd/worker/olt_cycle.go:75-132 | so is every such status a page writes; a failed walk marks nobody down |
| OntPoll.StatusIndexIsTheSearch | backend/cmd/worker/olt_poll.go:39-62 | the index answers as some linear search would, and as every one must where positions are unique |
| OntPoll.OrderDoesNotMatter | backend/cmd/worker/olt_poll.go:50-61 | where positions are unique, the metrics index does not depend on the order of the map |
| OntPollProofs.PagesCompose | backend/cmd/worker/olt_cycle.go:75-132 | a page in two parts writes, notes, samples and skips what the one part does and then the other |
| OntPollProofs.UnnamedRowIsLeftAlone | backend/cmd/worker/olt_cycle.go:80-91 | a row is passed over exactly when the walk succeeded and named nothing at its port and number, and then nothing is written, noted or sampled for it |
| OntPollProofs.RowFollowsItsReport | backend/cmd/worker/ont_poll.go:18-121 | any other row follows one of the states reported for it: 3, 6, 1 and 4 are Online, Offline, LOS and DyingGasp, noted in any case and written exactly if that differs; without such a state light received means Online; without that nothing changes |
| OntPollProofs.OneStateDecides | backend/cmd/worker/olt_poll.go:78-85 | where all the states reported for a row agree, or its card is known, that state is the one |
| OntTraps.SeverityOf | backend/cmd/trapd/apply.go:67-74 | the level of the first field that carries one |
| OntTraps.Receiver.Find | backend/cmd/trapd/apply.go:106-121 | the first row of that OLT with that serial number |
| OntTraps.Receiver.Apply | backend/cmd/trapd/apply.go:100-147 | writes exactly when the trap reports a status worth writing for a subscriber it names; every row becomes what one trap step of the runs below makes of it |
| OntTraps.PollIsLoadAndSettle | backend/cmd/worker/ont_poll.go:109-121 | the poller's write is that of the steps below |
| OntTraps.TrapsNeverRenameAnOutage | backend/cmd/trapd/apply.go:149-163 | in every run, a trap's write never leads from one down status to another |
| OntTraps.SettledStaysSettled | backend/cmd/trapd/apply.go:149-163 | once a row holds the down status the OLT keeps reporting, nothing writes it again |
| OntTraps.TrapsSayNoMore | backend/cmd/trapd/apply.go:51-64 | a trap says up, down or nothing, whatever its text |
| OntTraps.WhileInHand | backend/cmd/trapd/apply.go:100-163 | traps leave a row where it stood if and only if none contradicts it or the last word restores it |
| OntTraps.PollSettles | backend/cmd/worker/ont_poll.go:109-121 | a whole poll leaves the row with its verdict, up or down, if and only if the row differed from it when read, or no trap in between contradicted it, or the last trap to speak said the same |
| OntTraps.OneOutageIsWrittenOnce | backend/cmd/trapd/apply.go:149-163 | while the OLT keeps reporting one down state, no interleaving of polls and down traps after a whole poll writes the status again if and only if that poll settled the row |
| OntTraps.ClearedInBetween | backend/cmd/worker/ont_poll.go:109-121 | a clearing trap inside a poll leaves an ONU that is down online until the next poll |
| OntTraps.DownInBetween | backend/cmd/worker/ont_poll.go:109-121 | a down trap inside a poll leaves an ONU that is up offline until the next poll |
| OntTrapTexts.SeverityIsTheFirstLevel | backend/cmd/trapd/apply.go:67-74 | the severity is the text behind the first "eventLevel=" at the start of a field of the community, up to the next "@" |
| OntTrapTexts.OneLevel | backend/cmd/trapd/apply.go:67-74 | only one text is the level of a field |
| OntTrapTexts.NoLevelNoSeverity | backend/cmd/trapd/apply.go:67-74 | without such a field there is none |
| OntTrapTexts.TrapStatusIs | backend/cmd/trapd/apply.go:51-64 | under the ONU notifications cleared means up, critical and major mean down, and anything else says nothing |
| OntTrapTexts.WorthWritingIs | backend/cmd/trapd/apply.go:149-163 | a trap is worth writing exactly if it would take the row from up to down or from down to up |
| OntTrapTexts.NamedIsTheFirst | backend/cmd/trapd/apply.go:106-121 | a trap names the first row of its OLT with its serial number |
| OntWriters.UpdateLands | backend/cmd/trapd/apply.go:107-130 | an update is decided by the status read before and lands on whatever other writers left meanwhile |
| OntWriters.PollSettlesAmongOthers | backend/cmd/worker/ont_poll.go:109-121 | among any number of overlapping polls and traps, a poll leaves the row with its verdict if and only if the row differed from it when read, or the others wrote nothing meanwhile, or nothing else last |
| OntWriters.TrapRenamesExactly | backend/cmd/trapd/apply.go:107-163 | a trap turns one kind of down into another if and only if it reports down, had read the row online, and the others meanwhile left it with another down status |
| OntWriters.RenamedInBetween | backend/cmd/trapd/apply.go:107-130 | such a run: a poll settles an outage between a trap's lookup and its update |
| OntWriters.NothingInBetween | backend/cmd/trapd/apply.go:100-147 | with nothing in between, a trap and a poll are the single steps of the simpler runs |
| OntWriters.OneOutageIsWrittenOnce | backend/cmd/trapd/apply.go:149-163 | while the OLT keeps reporting one down state, no later interleaving writes and the state stays, if and only if the row holds it and every writer in flight has read it |
| OntWriters.OutageIsNamedForGood | backend/cmd/worker/ont_poll.go:109-121 | once the row is down and nobody in flight has read it up, the first whole poll gives the outage its reason for good, whatever overlaps |
| OidSpace.DecimalIsAtoi | backend/internal/connectivity/snmp_parsing.go:195-198 | a printed number is converted back exactly when it fits 64 bits |
| OidSpace.DecimalIsUint32 | backend/internal/connectivity/snmp_parsing.go:191-194 | a printed index is converted back exactly when it is a 32-bit unsigned number |
| OidSpace.TypeInstanceParsesBack | backend/internal/connectivity/snmp_parsing.go:180-224 | an instance printed for a location parses back to it if and only if slot and port are 1 to 255 |
| OidSpace.OnuIdInstanceParsesBack | backend/internal/connectivity/snmp_traffic_rates.go:93-178 | the same in the ONU-ID space, for any slot that fits the index |
| OidSpace.InstancesAreDistinct | backend/internal/connectivity/snmp_traffic_rates.go:93-96 | distinct locations get distinct instances in both spaces |
| OidSpace.DecodersAgree | backend/internal/connectivity/snmp_encoding.go:36-52 | the two decoders of the TYPE space differ exactly at a non-zero port above the 0x10 frame |
| OidSpace.PackedIsAdditive | backend/internal/connectivity/snmp_encoding.go:11-62 | for bytes, the bit-packed forms are the additive ones, in both spaces |
| OidSpace.ShiftsAreDivisions | backend/internal/connectivity/snmp_parsing.go:211-224 | the shifts and masks of the decoder are divisions and remainders |
| OidSpace.HsgqUnpacksWhatItPacks | backend/internal/connectivity/driver_hsgq.go:142-147 | unpacking undoes packing exactly for bytes |
| OidSpace.HsgqPacksWhatItUnpacks | backend/internal/connectivity/driver_hsgq.go:526-528 | packing undoes unpacking exactly under 0x0100 |
| OidSpace.HsgqRowIsItsOnu | backend/internal/connectivity/driver_hsgq.go:575-590 | a walked row is read as the ONU a GET prints if its tail is the wanted one, and not at all otherwise |
| OidSpace.HsgqRowsAre | backend/internal/connectivity/driver_hsgq.go:575-590 | any row: an index other than zero in front of exactly the wanted tail is read, and nothing else |
| ZteColumns.IndexTexts | backend/internal/connectivity/snmp_parsing.go:191-194 | an index is read from its decimal text, with any zeros in front, and from nothing else |
| ZteColumns.NumberTexts | backend/internal/connectivity/snmp_parsing.go:195-198 | so is an ONU number, with an optional sign |
| ZteColumns.DecimalIs | backend/internal/connectivity/zte_metrics_get.go:29-31 | a number prints digit by digit, a negative one behind a minus sign |
| ZteColumns.TypePlacesAre | backend/internal/connectivity/snmp_parsing.go:211-224 | an index decodes to a slot and a port exactly if both are 1 to 255 and it is at most 255 above their own |
| ZteColumns.OnuIdPlacesAre | backend/internal/connectivity/snmp_encoding.go:24-34 | in the ONU-ID space it must be their own |
| ZteColumns.ArcsAreThere | backend/internal/connectivity/snmp_parsing.go:187-198 | a suffix that is read is an index, a dot, an ONU number and maybe further arcs |
| ZteColumns.ArcsAreFound | backend/internal/connectivity/snmp_parsing.go:187-198 | and every such text is read |
| ZteColumns.SuffixesAre | backend/internal/connectivity/snmp_parsing.go:180-187 | what follows the table is what stands behind it, whether or not either has a dot in front |
| BatchReads.EveryRequestGoesOutOnce | backend/internal/connectivity/zte_metrics_get.go:87-97 | the batches are the requests, each once and in order, none empty and none over the limit |
| BatchReads.HeardIsItsOwnGet | backend/internal/connectivity/zte_metrics_get.go:87-112 | what is heard of the j-th request is variable j mod size of GET number j div size, which carries its identifier there |
| BatchReads.TakeReply | backend/internal/connectivity/zte_metrics_get.go:105-116 | a reply is applied variable by variable; one too short or too long does no harm |
| BatchReads.Sweep | backend/internal/connectivity/zte_metrics_get.go:87-117 | the batch loop of all three reads leaves what the requests that were heard leave, in order |
| BatchReads.RecordsAreThoseAskedFor | backend/internal/connectivity/zte_metrics_get.go:80-85 | exactly the ONUs asked for have a record |
| BatchReads.ColumnIsItsOwnVariable | backend/internal/connectivity/zte_metrics_get.go:105-116 | a column ends as what its own variable makes of it, or unset if that was not heard |
| ZteReads.Prepare | backend/internal/connectivity/zte_metrics_get.go:79-85 | every column of every location is asked for, in order |
| ZteReads.EveryColumnIsAsked | backend/internal/connectivity/zte_metrics_get.go:79-85 | each column of a location among those asked for has its request |
| ZteReads.QueryMetricsFor | backend/internal/connectivity/zte_metrics_get.go:60-120 | the metrics of the sweep and the GETs sent; nothing is sent for no locations or without a client |
| ZteReads.QueryStatusFor | backend/internal/connectivity/zte_status_get.go:20-65 | the same for phase states |
| ZteReads.EachColumnStandsAlone | backend/internal/connectivity/zte_metrics_get.go:60-120 | for any agent answering in order and any failing GETs, a column depends on its own variable and on whether its own batch came |
| ZteReads.HeardByItsOwnGet | backend/internal/connectivity/zte_metrics_get.go:79-112 | a column of the k-th location was heard exactly when the GET that carries its place came back that far |
| ZteReads.BatchingIsInvisible | backend/internal/connectivity/zte_metrics_get.go:75-119 | with every GET answered, an ONU's record is the same in any two sweeps, whatever the company and the batch sizes |
| ZteReads.MetricsAreThoseReadAlone | backend/internal/connectivity/zte_metrics_get.go:60-120 | each ONU gets the metrics it would have read alone |
| ZteReads.FailedBatchUnsetsItsOwnMetrics | backend/internal/connectivity/zte_metrics_get.go:99-104 | each reading is the one read alone if the GET that carried it answered it, and unset otherwise |
| ZteReads.StatusIsThatReadAlone | backend/internal/connectivity/zte_status_get.go:35-62 | an ONU has a status exactly when it was asked for, the GET that carried it answered it and the value is a phase state |
| ZteReads.GetsAndWalksAgree | backend/internal/connectivity/zte_metrics_get.go:27-53 | the metric and status instances parse back to their ONU exactly when it is addressable |
| ZteReads.PowerIsSigned | backend/internal/connectivity/snmp_encoding.go:91-113 | a power reading is a signed 16-bit figure, and there is none exactly at -1 and from 30000 up |
| ZteColumns.MetricOidsAre | backend/internal/connectivity/zte_metrics_get.go:27-53 | each optical reading, and the phase state, is asked for by its own identifier, spelled out |
| ZteColumns.ReadingsAre | backend/internal/connectivity/zte_metrics_get.go:34-52 | a number is the reading as it stands, but for the powers, and anything else is none |
| ZteColumns.BatchesInNumbers | backend/internal/connectivity/zte_inventory_get.go:14-22 | the j-th of the metrics and states is in place j mod 40 of GET j div 40, of the inventory in place j mod 10 of GET j div 10 |
| ZteColumns.EveryColumnIsThere | backend/internal/connectivity/zte_inventory_get.go:52-84 | no reading and no field is left out of what is asked for |
| ZteInventory.FetchInventory | backend/internal/connectivity/zte_inventory_get.go:90-135 | the inventory of the sweep and how many GETs it took |
| ZteInventory.InventoryByPort | backend/internal/connectivity/driver_zte.go:71-100 | one report per port in the order the ports first appear |
| ZteInventory.PortsAreThose | backend/internal/connectivity/driver_zte.go:84-93 | the ports are distinct and are those that have an ONU |
| ZteInventory.InstalmentsAreAPermutation | backend/internal/connectivity/driver_zte.go:82-97 | the reports together hold every location as often as it was asked for, and no other |
| ZteInventory.EachReportIsItsPort | backend/internal/connectivity/driver_zte.go:82-97 | each report holds the ONUs of its own port in their order, with their inventory |
| ZteInventory.ReportsMakeTheInventory | backend/internal/connectivity/driver_zte.go:59-100 | an ONU's record in the report of its port is the one the whole inventory has for it |
| ZteInventory.FailedBatchUnsetsItsOwnFields | backend/internal/connectivity/zte_inventory_get.go:87-135 | each field is what its own variable says if the GET that carried it answered it, and unset otherwise |
| ZteColumns.InventoryOidsAre | backend/internal/connectivity/zte_inventory_get.go:52-84 | each field of the inventory is asked for by its own identifier, the serial number in the ONU-ID space |
| ZteColumns.FieldsAre | backend/internal/connectivity/zte_inventory_get.go:60-83 | each field is read by its own conversion; an empty text leaves it unset, and an empty serial number is not stored |
| ZteColumns.PortsAre | backend/internal/connectivity/driver_zte.go:86 | two ONUs are reported together exactly if slot and port are the same |
| ZteColumns.OnPortInOrder | backend/internal/connectivity/driver_zte.go:90 | the ONUs of a port are reported in the order they were asked for |
| ZteColumns.PortsInOrder | backend/internal/connectivity/driver_zte.go:85-89 | the ports come in the order of their first ONUs |
| WireGuard.EnsureAddress | backend/internal/connectivity/wireguard_device_linux.go:66-98 | success leaves exactly the configured address; it is never removed and re-added; addresses keep their routes |
| WireGuard.ParseAllowedIPs | backend/internal/connectivity/wireguard_device_linux.go:178-188 | all the subnets, or an error if any does not parse |
| WireGuard.PeersToRemove | backend/internal/connectivity/wireguard_device_linux.go:159-176 | one removal for each held peer nobody wants, and no other |
| WireGuard.ApplyPeers | backend/internal/connectivity/wireguard_device_linux.go:100-154 | the device is configured with the updates and the removals, or not touched |
| WireGuard.ConfiguredPeers | backend/internal/connectivity/wireguard_device_linux.go:100-154 | from any device state, exactly the configured peers result; a peer held before and after keeps its session |
| WireGuard.ConfiguringAgain | backend/internal/connectivity/wireguard_device_linux.go:100-154 | configuring a device that matches changes nothing |
| WireGuard.AllowedIPsAreExact | backend/internal/connectivity/wireguard_device_linux.go:114-135 | every peer has all the subnets it lists if and only if no two list the same one |
| WireGuard.RemoveStale | backend/internal/connectivity/wireguard_device_linux.go:217-230 | removes only routes that are neither wanted nor exempt, keeps one per wanted subnet, and names what is missing |
| WireGuard.AddMissing | backend/internal/connectivity/wireguard_device_linux.go:232-241 | adds exactly the missing routes, and fails on one that collides |
| WireGuard.SyncRoutes | backend/internal/connectivity/wireguard_device_linux.go:193-243 | success leaves the peers' subnets and the exempt routes; with nothing failing it succeeds if and only if no wanted route's place is taken |
| WireGuard.FreePlaces | backend/internal/connectivity/wireguard_device_linux.go:232-241 | whether the missing routes' places are free is decided before anything is removed |
| WireGuard.Apply | backend/internal/connectivity/wireguard_device_linux.go:27-42 | from any kernel state, success leaves the link up, exactly the configured address, peers and routes, the connected one included; with nothing failing a well-formed configuration succeeds if and only if no wanted route's place is taken once the link is up; a second Apply changes nothing |
| WireGuardTables.PeersAre | backend/internal/connectivity/wireguard_device_linux.go:100-154 | a configured interface holds the configured keys and no others, each with its keepalive and exactly the subnets it is the last to list |
| WireGuardTables.RoutesAre | backend/internal/connectivity/wireguard_device_linux.go:193-243 | of the routes other than the default and the connected one there is exactly one for each subnet some peer lists, and none for any other |
| WireGuardTables.SubnetsAre | backend/internal/connectivity/wireguard_device_linux.go:193-204 | the subnets wanted are those some peer lists |
| WaSessions.Orphaned | backend/cmd/wa/sessions.go:105-118 | the running sessions without a row, in order |
| WaSessions.Sessions.Ensure | backend/cmd/wa/sessions.go:121-180 | opens at most one session for an account, none over a live one |
| WaSessions.Sessions.TakeOut | backend/cmd/wa/sessions.go:276-279 | the locked half of a restart |
| WaSessions.Sessions.Restart | backend/cmd/wa/sessions.go:275-285 | a session that was running is stopped, once, and only it leaves the table; without one nothing changes; nothing stays in between |
| WaSessions.Sessions.CloseOrphans | backend/cmd/wa/sessions.go:88-102 | undisturbed, leaves exactly the sessions of listed accounts, untouched, and the sessions it drops are stopped, once each, and no others |
| WaSessions.Sessions.Sync | backend/cmd/wa/sessions.go:69-79 | undisturbed, every account that can has a session, nobody else does, and live ones stay; exactly the sessions without an account are stopped, once each |
| WaSessions.RunIsSound | backend/cmd/wa/sessions.go:69-285 | the invariant of every interleaving of row changes, sync steps, restarts and stops |
| WaSessions.EverySessionHasOneFate | backend/cmd/wa/sessions.go:121-285 | each session opened is exactly one of registered, taken out, or stopped once; at most one is registered per account |
| WaSessions.TakenOutOnce | backend/cmd/wa/sessions.go:275-285 | a session out of the table was taken out by exactly one step of the run |
| WaSessions.OrphansAreGone | backend/cmd/wa/sessions.go:88-118 | what the sync closes has no account row any more, for good |
| WaSessions.RegisteredUnderItsOwner | backend/cmd/wa/sessions.go:121-180 | a session is only ever registered under the account it was opened for |
| WaSessions.LogoutTakesWhatIsRegistered | backend/cmd/wa/sessions.go:209-217 | a logout watcher takes out the session it watched if and only if that one is still registered, and another if and only if its own was gone and the account had a new one |
| WaSessions.LateLogout | backend/cmd/wa/sessions.go:209-217 | a run in which a late watcher takes out the replacement of its own session |

## Left out

- SqlSplitterProofs.CutsWhereTheLexerDoes: one direction for the pieces; the equivalence is stated rune by rune (`LookBackIsTheLexer`), since a text with an empty comment can still happen to be cut in the same places.
- TelnetProofs.BothLoopsReadTheSame: no failed read and no command that breaks off; for those see TelnetFailures, where the two loops part.
- OntPoll.OrderDoesNotMatter: only where positions are unique; elsewhere the index holds one of the matching rows, as the code intends.
- OidSpace.InstancesAreDistinct: distinct locations within one table; that the tables of different columns never overlap is not stated.
- WireGuard.Apply: needs distinct peer keys for what it leaves; link creation and the interface name are not modelled, and neither is Status.
- WireGuard.ApplyPeers: the value of the private key and the listening port are not part of the device's state.
- ZteReads.Prepare: stands for the two loops that set out metric and inventory requests, and Sweep for the three batch loops, which differ in their batch size and in what a variable does.
- OntPoll.ApplyPage: the rate lookup, the update of an ONT's other columns and the idempotence of the event log are not modelled; a status write is taken to succeed.
- OntTraps.Receiver.Apply: the status event is not modelled, and the lookup and the write are taken to succeed.
- OntTraps.TrapsNeverRenameAnOutage: a trap is one step here; for its lookup and its update apart see OntWriters.TrapRenamesExactly.
- OntTraps.SettledStaysSettled: one poll at a time and traps in one step; the general form is OntWriters.OneOutageIsWrittenOnce.
- OntTraps.PollSettles: one poll at a time and traps in one step; the general form is OntWriters.PollSettlesAmongOthers.
- OntTraps.OneOutageIsWrittenOnce: one poll at a time and traps in one step; the general form is OntWriters.OneOutageIsWrittenOnce.
- FlowCollector.Collector.CloseMinute: the routers heard from and the count of folded keys are not returned; folding keeps totals, so it moves no flow between tables.
- FlowCollector.Collector.CloseWindowIfDue: the country and anonymity of an address are not looked up.
- FlowCollector.FinishMinute: recording when routers were last heard from is not modelled.
- FlowAccounting.EveryFlowIsAccountedFor: rows hold the flows they total; the byte and packet sums, held at a maximum for forged traffic, are not modelled.
- TrustedProxies.TrustedFromRoutes: routes come parsed, so errors of the route table's text are not modelled.
- TelnetSession.Session.NegotiateOption: writing a reply is taken to succeed.
- TelnetSession.Session.ReadBulk: cancellation between two reads, and sending the command first, are not modelled.
- ZteReads.QueryMetricsFor: readings stay raw; their scaling to dBm, volts, degrees and milliamperes is not modelled.
- SQL block comments and backslash escapes, which the splitter does not treat either, and what stripping does inside multi-line literals.
- The collector's datagram side: decoding, template caches and their pruning, plausibility and classification of flows.
- RouterOS login, deadlines, the certificate pinning and the decoding of rows into structs.
- The text of `/proc/net/route` and of CIDR blocks: routes come parsed and blocks stay prefixes.
- Telnet login, prompt matching, batch execution and context cancellation: they decide when a read is asked for, not what it returns.
- The regular expressions of the config reader and its number conversion; profile ranking.
- Serial-number, name, address and MAC conversions (parameters of the inventory), the scaling of readings to dBm and volts, table walks and traffic-rate records.
- HSGQ status, power and traffic decoding: one-line tables.
- HTTP handlers, DTOs, CORS, cookies, the frontend, gorm, Redis, whatsmeow and the message outboxes.
