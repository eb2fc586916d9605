# Wallet server: a verified model

A Dafny model of the wallet server and of the parts of its bundled web framework, Crow, that lie between a request's
bytes and the ledger. All `.dfy` files form one project (`dafny verify dfyconfig.toml`).

## The wallet

Transfers travel as commands through a shared last-in-first-out queue to one state machine (LISTEN, VALIDATE, APPLY) that
updates balances stored as decimal text and appends a pair of events to a log. Account creations write to the same store
without taking the state machine's lock.

- `Decimal`: `to_string`, `stoi` and account identifiers as text.
- `Bookkeeping`: the ledger as a sequence of operations on integers, and the exact law of money over any such sequence.
- `TextStore`: when a store of text and a log of text events stand for such a ledger.
- `WalletService`: the queue, the service and the seed file as classes, each method proved against the ledger.
- `Handlers`: any number of request handlers as threads with program counters; one step is one lock action, queue action,
  database access, seed-file access or log append, and every write may fail.
- `HandlerRequests`, `HandlerQueue`: that every handler does what its own request asked, and the order of the queue.
- `HandlerInvariant`, `HandlerTheorems`, `HandlerProgress`, `HandlerExamples`: the invariant of every run and what
  follows from it: serialisability, conservation with money in flight, log replay, exact arithmetic, absence of deadlock,
  termination; and the runs that show where the simple laws stop.

The repository's documentation calls a transfer atomic. The code is not: when the second write fails the debit stays
without a credit or an event, a transfer from an account to itself raises its balance, and a credit may wrap around. The
model follows the code; `HandlerExamples` shows each of the three on a short schedule, `AccountLaw`, `MoneyAccounted` and
`LogReplays` state what holds in all cases, and `TransferConservesIff`, `RunConservesIff`, `MoneyConserved` and
`CreditNonNegativeIff` state exactly when the simple laws do.

## The framework

- Routing: `Trie`, `TrieOptimize` and `RouteTable` give the trie as a value, what it stands for, and its laws. `TrieNodes`,
  `TriePaths`, `TrieBuilder` and `TrieLookup` give the linked nodes that `add` and `optimize` change in place and `find`
  walks with shared parameter stacks, proved to hold that value. `RoutePatterns` says what the text of a pattern means.
- Message bodies: `BodyMachine` reads one byte at a time; `BodyParser` is the buffered parser proved against it;
  `ChunkedBody` has the well-formed bodies, `ChunkedSound` that the parser takes nothing else for one.
- WebSocket: `WebSocketFrame` is the wire format, `WebSocketReader` the connection and what a read of any bytes does to
  it, `WebSocketMessages` frames and messages read in pieces, `WebSocketControl` pings, pongs and closing.
- Query strings: `QueryText` is the layout of a query in memory, `QueryString` the parser that decodes it in place,
  `QueryLookup` key comparison, lookup and the round trip.
- JSON: `JsonText` and `JsonEscapes` are strings, `JsonGrammar` printing and reading. `JsonLanguage` is the language as
  syntax with its white space, `JsonSound` that exactly its texts are accepted, `JsonRoundTrip` that printed trees read
  back. `JsonMemory`, `JsonSteps`, `JsonUnescape` and `JsonParser` are the parser that works inside its buffer,
  `JsonReader` the reader that unescapes strings there when they are asked for.
- `Sha1` is the streaming hash against FIPS 180-4 (`Sha1Vector` has its first example), `Base64` with `Base64Bits` the codec against RFC 4648.
- `Bytes`, `Memory` and `Sums` are shared: endianness and bits, C strings overwritten in place, sums over maps.

Numbers are unbounded in the model; where a width matters it is written out (`Wrap32`, 64-bit content lengths, 32-bit
words). Signed overflow, which C++ leaves undefined, is taken to wrap around. Characters in the JSON, query and base64
modules stand for bytes.

## Model

| member | source | states |
|---|---|---|
| Decimal.StoiToString | src/main.cpp:90 | `stoi` reads back what `to_string` wrote, for every 32-bit integer |
| Decimal.StoiSigned | src/ConcreteServiceState.cpp:86-96 | the "-" and "+" prefixed amounts put into events read back as the signed amount |
| Decimal.ToStringInjective | src/main.cpp:90 | different balances are stored as different text |
| Decimal.IdRoundTrip | src/main.cpp:51-54 | an account identifier determines the counter value it was formatted from, also past eight digits |
| Decimal.FormatIdInjective | src/main.cpp:51-54 | no two counter values share an identifier |
| Decimal.DecimalNotation | src/main.cpp:90 | what `to_string` writes and digits stand for, digit by digit, for every number |
| Decimal.StoiReads | src/ConcreteServiceState.cpp:99-114 | white space, a sign or none, digits and anything behind them read as the number if it fits 32 bits, and throw otherwise |
| Decimal.StoiRefuses | src/main.cpp:73-80 | without digits there `stoi` throws |
| Decimal.FormatIdIs | src/main.cpp:51-54 | an identifier is a 7 and the counter value, in eight digits with leading zeros or in as many as it needs |
| Decimal.Wrap32 | src/ConcreteServiceState.cpp:116-117 | the 32-bit value an unchecked sum leaves behind: exact inside the range, off by 2^32 just above it |
| Bookkeeping.AccountLaw | src/ConcreteServiceState.cpp:98-138 | for any set of accounts and any operations, with failing writes, equal accounts and overflow: balances minus logged amounts change by deposits plus minted minus stranded money minus 2^32 per overflow |
| Bookkeeping.Conservation | src/ConcreteServiceState.cpp:98-131 | the same law for the total of all balances, where logged amounts cancel |
| Bookkeeping.NonNegative | src/ConcreteServiceState.cpp:60-64 | without an overflow on them, balances that start non-negative stay so, failed writes and equal accounts included |
| Bookkeeping.NoOverflow | src/ConcreteServiceState.cpp:116-117 | with distinct accounts and at most 2^31-1 in all, no sum overflows, and total and balances stay in range |
| Bookkeeping.TransferConservesIff | src/ConcreteServiceState.cpp:98-131 | any transfer, with any outcome of its writes, keeps the total if and only if it is clean: whenever the checks pass and the debit is written, the credit is written too, to another account, without wrapping around |
| Bookkeeping.RunConservesIff | src/ConcreteServiceState.cpp:98-131 | over any run of transfers between two accounts each, with any failing writes, the total is starting money plus deposits if and only if no transfer was left half applied and every credit fitted |
| Bookkeeping.TallyIff | src/ConcreteServiceState.cpp:116-131 | stranded money comes exactly from half-applied transfers and wrap-around exactly from credits that do not fit |
| Bookkeeping.CreditNonNegativeIff | src/ConcreteServiceState.cpp:117 | the credited balance stays non-negative if and only if the sum fits 32 bits |
| Bookkeeping.SelfTransferMints | src/ConcreteServiceState.cpp:106-131 | a concrete transfer to the same account that raises its balance |
| TextStore.ReadBack | src/ConcreteServiceState.cpp:99-114 | every stored balance parses to the balance it stands for |
| TextStore.HoldsWrite | src/ConcreteServiceState.cpp:119 | writing a balance as text keeps the store in step with the integer ledger |
| TextStore.WritesMatch | src/ConcreteServiceState.cpp:106-138 | after each outcome of the two writes the text store and the log stand for the integer ledger after the transfer |
| TextStore.LoggedNetIsNet | src/ConcreteServiceState.cpp:81-96 | the amounts parsed out of the logged text sum up to the ledger's entries, for any set of accounts |
| TextStore.RecordedPairsBalance | src/ConcreteServiceState.cpp:81-96 | each logged pair shares a transaction id and its parsed amounts sum to zero |
| WalletService.MessageQueue.Send | src/MessageQueue.h:25-33 | appends at the back |
| WalletService.MessageQueue.Receive | src/MessageQueue.h:12-23 | takes the last message and leaves the others in order |
| WalletService.Service.constructor | src/Service.cpp:8-11 | starts in LISTEN over the given store and log |
| WalletService.Service.SetState | src/Service.cpp:13-16 | the current state becomes the given one |
| WalletService.Service.Put | src/ConcreteServiceState.cpp:119 | a write either stores the value under the key or changes nothing |
| WalletService.Service.Toggle | src/ConcreteServiceState.cpp:30-35 | from LISTEN it processes the last command sent and ends in LISTEN on every branch without a parse error; the store and log then stand for the ledger after that transfer |
| WalletService.Service.Process | src/Service.cpp:22-24 | dispatch on the state; ends in LISTEN, and does what the current command means to the ledger |
| WalletService.Service.ValidateCommand | src/ConcreteServiceState.cpp:42-74 | refuses unknown accounts and low balances without a change, otherwise the whole transfer; no parse throws on a store that stands for a ledger |
| WalletService.Service.ApplyCommand | src/ConcreteServiceState.cpp:81-142 | both new balances from the old ones, written one after the other, logged only after both writes |
| WalletService.Service.WriteBoth | src/ConcreteServiceState.cpp:119-141 | the store and the log after each combination of failing writes |
| WalletService.SeedFile.GenerateSeedFile | src/main.cpp:19-29 | a missing seed file starts at 0, an existing one is left alone |
| WalletService.SeedFile.GenAccountId | src/main.cpp:31-55 | the identifier is the formatted next counter value, and reads back as it |
| HandlerTheorems.Admitted | src/main.cpp:69-128 | exactly which requests pass the parameter checks, and that the amount sent on is canonical text that reads back as the amount given |
| HandlerRequests.EveryRunServes | src/main.cpp:69-134 | in every run each handler serves the request it arrived with: a valid transfer sends its command once, a valid creation writes the amount asked for once, nothing else is sent or written, and deposits are the amounts asked for |
| HandlerRequests.CreationStores | src/main.cpp:69-93 | a creation under way carries the amount of its request, and its write stores the text of that amount under the new identifier and changes nothing else |
| HandlerQueue.BottomStays | src/MessageQueue.h:12-33 | over any run, waiting commands keep their place as long as no fewer are waiting |
| HandlerQueue.LastInFirstOut | src/MessageQueue.h:12-33 | over any run, the handler that takes the queue back to the length it had when a command was sent receives that command |
| HandlerInvariant.StepKeeps | src/main.cpp:88-134 | every step of every handler keeps the invariant: locks, queue length, identifiers, ledger, delivered commands |
| HandlerInvariant.EveryRunKeeps | src/main.cpp:88-134 | the invariant holds in every state of every interleaving of any number of handlers, with any failing writes, and every handler serves its own request |
| HandlerInvariant.HolderRefines | src/ConcreteServiceState.cpp:42-142 | each step under `cv_m` keeps the store equal to the sequential ledger plus what is in flight, and keeps the set of accounts |
| HandlerInvariant.OpenRefines | src/main.cpp:88-93 | storing a new account outside `cv_m` fits in at any point of a transfer in progress |
| HandlerTheorems.Serialisable | src/ConcreteServiceState.cpp:30-142 | whenever `cv_m` is free, store and log are those of one sequential run: transfers in the order `receive` returned them, creations at their write, both with the values their requests asked for, and the service is in LISTEN; with any failing writes |
| HandlerTheorems.MoneyAccounted | src/ConcreteServiceState.cpp:98-131 | at every point of every run, stored balances plus money in flight plus stranded debits plus 2^32 per overflow equal starting money, deposits and minted money |
| HandlerTheorems.MoneyConserved | src/ConcreteServiceState.cpp:98-131 | with commands that name two accounts, at every point of every run with any failing writes: stored balances plus money in flight equal starting money plus the amounts asked for in the completed creations if and only if no credit write failed and every credit fitted |
| HandlerTheorems.ConservedUnlessCreditFails | src/ConcreteServiceState.cpp:98-131 | if the money over a run totals at most 2^31-1, money is conserved at every point if and only if no credit write failed; in particular when every write succeeds |
| HandlerTheorems.HalfAppliedIff | src/ConcreteServiceState.cpp:126-131 | a transfer is left half applied if and only if the step that writes its credit failed |
| HandlerExamples.HalfAppliedRun | src/ConcreteServiceState.cpp:119-131 | a schedule from a fresh start whose credit write fails: 5 of 10 are gone from the store, nothing is logged, the lock is free again |
| HandlerExamples.WrappedRun | src/ConcreteServiceState.cpp:117 | a schedule from a fresh start that credits 1 to 2^31-1 and leaves -2^31 |
| HandlerExamples.SelfTransferRun | src/ConcreteServiceState.cpp:106-131 | a schedule from a fresh start in which an account pays itself 5 and grows from 10 to 15 |
| HandlerExamples.Creates | src/main.cpp:69-93 | from any idle state, a creation alone stores the amount asked for under the next identifier |
| HandlerExamples.CreationRun | src/main.cpp:31-93 | a schedule from an empty start: the start amount " +100 coins" gives account 700000001 the balance 100 |
| HandlerTheorems.LogReplays | src/ConcreteServiceState.cpp:133-138 | whenever `cv_m` is free, for any set of accounts, balances are starting balances plus deposits plus logged amounts minus half-applied debits, and every logged pair balances |
| HandlerTheorems.AccountReplays | src/ConcreteServiceState.cpp:81-142 | the same for one account's stored text, with distinct accounts |
| HandlerTheorems.StoredNonNegative | src/ConcreteServiceState.cpp:53-71 | in every reachable state without overflow on it, a stored balance parses to a non-negative number, failed writes and equal accounts included |
| HandlerTheorems.ArithmeticExact | src/ConcreteServiceState.cpp:116-117 | if the money over a run totals at most 2^31-1 and commands name distinct accounts, both new balances are the exact difference and sum, within 0 and 2^31-1 |
| HandlerTheorems.AccountsOnlyGrow | src/main.cpp:88-93 | a creation stores a key that was not there and changes no balance; no other step adds or removes a key |
| HandlerProgress.HolderRuns | src/MessageQueue.h:12-23 | a handler holding `cv_m` is never blocked: `receive` always finds a message |
| HandlerProgress.WaiterRuns | src/main.cpp:132-133 | when `cv_m` is free a waiting handler gets it at once, because the service is in LISTEN |
| HandlerProgress.SeedHolderRuns | src/main.cpp:31-50 | a handler holding the seed lock is never blocked |
| HandlerProgress.NeverStuck | src/main.cpp:128-134 | in every reachable state some unfinished handler can take a step |
| HandlerProgress.StepDescends | src/main.cpp:88-134 | every step lowers a total measure of the work left |
| HandlerProgress.RunsEnd | src/main.cpp:88-134 | without new requests no run is longer than the work left at its start |
| HandlerProgress.Quiescent | src/MessageQueue.h:12-33 | when every handler has finished, both locks are free, the queue is empty, and every command sent was received exactly once and decided in that order |
| HandlerProgress.EveryRequestServed | src/main.cpp:69-134 | then every valid request was served exactly once as it asked, and invalid ones left no trace |
| Trie.CaptureReadsBack | lib/crowapi/crow_all.h:10055-10156 | a printed integer in the URL is captured as itself exactly when it is in the 64-bit range of its kind, a string parameter takes the segment up to the next slash, a path parameter everything |
| Trie.FindPicks | lib/crowapi/crow_all.h:10016-10176 | lookup in a trie is the best hit among the routes it stands for, tried one by one with the simple matcher |
| Trie.ThroughPicks | lib/crowapi/crow_all.h:10053-10170 | what one child contributes to a lookup is the best hit among the routes through it |
| Trie.AdvanceChars | lib/crowapi/crow_all.h:10158-10169 | a literal key advances exactly when it agrees with the URL |
| TrieOptimize.MergeShrinks | lib/crowapi/crow_all.h:9946-9955 | each merge removes one node, so `optimizeNode` ends |
| TrieOptimize.OptimizeKeepsBranch | lib/crowapi/crow_all.h:9942-9963 | compression keeps the routes through a node, in order |
| TrieOptimize.OptimizeKeepsFind | lib/crowapi/crow_all.h:9932-9963 | for any trie and URL, lookup before and after compression agrees on the rule, and on the parameters when there is one |
| TrieOptimize.OptimizeCompresses | lib/crowapi/crow_all.h:9942-9963 | afterwards no node is simple with a child left to merge |
| TrieOptimize.SizeBound | lib/crowapi/crow_all.h:9942-9963 | compression never adds nodes |
| RouteTable.AddAddsWalked | lib/crowapi/crow_all.h:10179-10262 | for any tokens: adding fails exactly when the tokens of the nodes it goes along already lead to a rule; otherwise the trie has exactly one more route, with those tokens |
| RouteTable.AddAddsOneIff | lib/crowapi/crow_all.h:10179-10262 | the pattern itself is registered (refused exactly when its tokens lead to a rule, otherwise one more route with its tokens) if and only if no NUL character of it is taken for a parameter on the way; so always without NUL |
| RouteTable.TakesIff | lib/crowapi/crow_all.h:10234-10245 | a child is taken for a token exactly when it stands for that token, or the token is NUL and the child a parameter |
| RouteTable.NulTakenForParameter | lib/crowapi/crow_all.h:10234-10245 | a pattern of one NUL character next to a parameter registers its rule for the parameter |
| RouteTable.BuildHolds | lib/crowapi/crow_all.h:10179-10262 | registering a list of rules fails exactly when two of them collide; otherwise the trie stands for exactly these rules |
| RouteTable.PickIsLeast | lib/crowapi/crow_all.h:10035-10042 | the best hit is the least rule index that matches, with its own captures, and 0 exactly when none matches |
| RouteTable.RoutingIsCorrect | lib/crowapi/crow_all.h:9932-10262 | after adding non-colliding rules and compressing, lookup gives the least matching rule with its captures, or 0 |
| RoutePatterns.Literal | lib/crowapi/crow_all.h:10158-10169 | text without '<' in a pattern matches itself, whatever follows |
| RoutePatterns.IntParameter | lib/crowapi/crow_all.h:10057-10077 | `<int>` takes a sign or none and digits, if in the range of 64 bits |
| RoutePatterns.UintParameter | lib/crowapi/crow_all.h:10078-10098 | `<uint>` takes digits, maybe behind a plus, in the unsigned range of 64 bits |
| RoutePatterns.NoNumeral | lib/crowapi/crow_all.h:10057-10098 | without digits neither matches |
| RoutePatterns.FloatParameter | lib/crowapi/crow_all.h:10099-10119 | `<float>` and `<double>` take what `strtod` reads of a text that begins like a number |
| RoutePatterns.StringParameter | lib/crowapi/crow_all.h:10120-10140 | `<string>` and `<str>` take everything up to the next slash, and something |
| RoutePatterns.PathParameter | lib/crowapi/crow_all.h:10141-10156 | `<path>` takes all the rest, and something |
| RoutePatterns.NoParameter | lib/crowapi/crow_all.h:10187-10204 | no other text in angle brackets is a parameter |
| RoutePatterns.EndsInPath | lib/crowapi/crow_all.h:12333 | a pattern of text and `<path>` matches that text with anything non-empty behind it, and captures it |
| RoutePatterns.EndsInString | lib/crowapi/crow_all.h:10120-10140 | a pattern of text and `<string>` or `<str>` matches exactly when what is behind the text is non-empty and has no slash |
| RoutePatterns.EndsInInt | lib/crowapi/crow_all.h:10057-10098 | a printed integer behind the text is captured as itself, exactly in the range |
| RoutePatterns.NoParameters | lib/crowapi/crow_all.h:10158-10169 | a pattern without parameters matches itself only |
| RoutePatterns.OneRule | lib/crowapi/crow_all.h:9932-10262 | a table of one rule gives that rule with what its pattern caught, or nothing |
| TrieNodes.OptimizeNode | lib/crowapi/crow_all.h:9942-9963 | compressing linked nodes in place leaves a tree over the same nodes that holds the compressed trie |
| TrieNodes.MergeChild | lib/crowapi/crow_all.h:9946-9955 | a simple node takes over its child's key, rule and children in place |
| TrieNodes.OptimizeChildren | lib/crowapi/crow_all.h:9956-9962 | each child in turn, without disturbing its siblings |
| TriePaths.Joined | lib/crowapi/crow_all.h:10181-10262 | changing a linked trie below one place changes exactly that part of the trie it holds |
| TriePaths.Apart | lib/crowapi/crow_all.h:10181-10262 | the nodes around a place share nothing with the part below it |
| TrieBuilder.RouteTrie.Add | lib/crowapi/crow_all.h:10179-10262 | walking down and creating nodes holds the trie with the rule added; a second rule for the pattern is reported and leaves the trie as it was |
| TrieBuilder.RouteTrie.Step | lib/crowapi/crow_all.h:10207-10255 | one token further: into the existing child, or a new one behind the others |
| TrieBuilder.RouteTrie.NewChild | lib/crowapi/crow_all.h:10282-10288 | a new node is linked behind its siblings and nothing else changes |
| TrieBuilder.RouteTrie.SetRule | lib/crowapi/crow_all.h:10258-10261 | sets the rule at the end of the walk and changes nothing else |
| TrieBuilder.FindChild | lib/crowapi/crow_all.h:10210-10245 | the first child that takes the token, or none |
| TrieBuilder.RouteTrie.Optimize | lib/crowapi/crow_all.h:9932-9938 | compresses everything below the head in place |
| TrieBuilder.ReadToken | lib/crowapi/crow_all.h:10185-10207 | the next token of a pattern: the first parameter name that fits, or a character |
| TrieLookup.Find | lib/crowapi/crow_all.h:10016-10176 | lookup over linked nodes with shared parameter stacks gives the specified result and leaves the stacks as they were |
| TrieLookup.Try | lib/crowapi/crow_all.h:10053-10170 | one child: push, recurse, pop |
| TrieLookup.Route | lib/crowapi/crow_all.h:9932-10262 | registering, compressing in place and looking up: collisions are reported, otherwise the least matching rule with its captures |
| BodyMachine.FeedSound | lib/crowapi/crow_all.h:6059-6224 | no sequence of bytes breaks what the parser's asserts rely on, takes back delivered bytes or completions |
| BodyMachine.FeedConcat | lib/crowapi/crow_all.h:6059-6224 | the byte-wise reading of a body does not depend on where it is cut |
| BodyParser.HttpParser.HeaderByte | lib/crowapi/crow_all.h:6106-6185 | one byte of a chunk header or message end does what the byte-wise machine does, and its assert holds |
| BodyParser.HttpParser.FieldByte | lib/crowapi/crow_all.h:5399-5924 | one byte of a trailer field does what the byte-wise machine does |
| BodyParser.HttpParser.StartField | lib/crowapi/crow_all.h:5399-5447 | the first byte of a trailer field, or of the trailer's end |
| BodyParser.HttpParser.HeaderPass | lib/crowapi/crow_all.h:6106-6185 | the same with the header-size limit counted |
| BodyParser.HttpParser.DataPass | lib/crowapi/crow_all.h:6059-6093 | a run of body bytes taken at once is the same as byte by byte, and its asserts hold |
| BodyParser.HttpParser.TailPass | lib/crowapi/crow_all.h:6210-6224 | the bytes behind a chunk, where marked data is delivered |
| BodyParser.HttpParser.Execute | lib/crowapi/crow_all.h:6059-6254 | one buffer: the same state, error, delivered body and completions as the byte-wise machine |
| ChunkedBody.FeedFields | lib/crowapi/crow_all.h:5399-5924 | well-formed trailer fields pass through without touching the body or completing the message |
| ChunkedBody.UnhexIff | lib/crowapi/crow_all.h:5026-5035 | the digit table gives each character of 0123456789abcdef and 0123456789ABCDEF its position, and -1 for any other byte |
| ChunkedBody.FieldChars | lib/crowapi/crow_all.h:4984-5023 | the token table and the header characters are those of RFC 7230 |
| ChunkedBody.FeedBody | lib/crowapi/crow_all.h:6106-6224 | a well-formed chunked body, with or without trailer fields, delivers its chunks' data and completes with its last byte and not before |
| ChunkedBody.ExecuteAll | lib/crowapi/crow_all.h:6059-6254 | calls over any buffers end where the byte-wise machine ends on their concatenation |
| ChunkedBody.ReceiveChunked | lib/crowapi/crow_all.h:5399-6254 | every well-formed chunked body (sizes in base 16 of either case, leading zeros, extensions, trailer fields), cut into buffers in any way, is delivered exactly and completes exactly once without an error |
| ChunkedBody.ReceiveIdentity | lib/crowapi/crow_all.h:6059-6104 | every body of known length, cut in any way, is delivered exactly and completes exactly once |
| ChunkedBody.BodyWrittenOut | lib/crowapi/crow_all.h:6106-6224 | a chunked body written out in characters and what it delivers |
| ChunkedSound.WellFormedSoFar | lib/crowapi/crow_all.h:6106-6224 | whatever the bytes, as long as there is no error they are well-formed chunks and the beginning of one more or of the trailer, and exactly their data has been delivered |
| ChunkedSound.ChunksIff | lib/crowapi/crow_all.h:6106-6224 | the parser stands behind the last chunk's line if and only if it has read well-formed chunks and a last one |
| ChunkedSound.StopsAtError | lib/crowapi/crow_all.h:6059-6254 | nothing is delivered at or behind the first error |
| ChunkedSound.TrailerRefuses | lib/crowapi/crow_all.h:5399-5924 | the bytes that a trailer field may not have, and the error each gives |
| WebSocketFrame.XorMaskTwice | lib/crowapi/crow_all.h:4182-4188 | unmasking undoes masking |
| Bytes.XorIsBitwise | lib/crowapi/crow_all.h:4182-4188 | the exclusive or of two bytes, bit by bit |
| WebSocketControl.MaskedBytes | lib/crowapi/crow_all.h:4182-4188 | masking is section 5.3 of RFC 6455: payload byte i against mask byte i modulo 4 |
| WebSocketFrame.BuildHeaderIsHeader | lib/crowapi/crow_all.h:3898-3919 | the header written for any opcode and size is the frame header of section 5.2 of RFC 6455, in all three length forms |
| WebSocketFrame.LengthReadsBack | lib/crowapi/crow_all.h:4019-4089 | the reader's byte swapping gives back every 16-bit and 64-bit length |
| WebSocketReader.Connection.SendFrame | lib/crowapi/crow_all.h:3821-3890 | what is written is the wire form of one unmasked final frame |
| WebSocketReader.Connection.Unmask | lib/crowapi/crow_all.h:4182-4188 | unmasking in place is the mask laid over the payload |
| WebSocketReader.Connection.OnHeader | lib/crowapi/crow_all.h:3953-4018 | what two header bytes, whatever they are, do to the connection |
| WebSocketReader.Connection.GoOn | lib/crowapi/crow_all.h:4090-4160 | `do_read` up to the next read that needs bytes: no mask to wait for, or an empty payload |
| WebSocketReader.Connection.OnRead | lib/crowapi/crow_all.h:3948-4162 | one completed read of any bytes, a header read of one byte included, does what the reading specification says and leaves the connection sound |
| WebSocketReader.ReadStepSound | lib/crowapi/crow_all.h:3948-4162 | any read of any bytes keeps the connection sound and takes no call of the message handler back |
| WebSocketReader.Connection.HandleFragment | lib/crowapi/crow_all.h:4180-4260 | unmasks and does exactly what the frame's opcode asks, whatever was read |
| WebSocketReader.Connection.Dispatch | lib/crowapi/crow_all.h:4189-4257 | the switch on the opcode: assemble, close, answer a ping, note a pong, ignore |
| WebSocketReader.Connection.HandleClose | lib/crowapi/crow_all.h:4226-4246 | a close frame is answered once, a second one ends the connection, and the close handler is called once |
| WebSocketMessages.ReadFollows | lib/crowapi/crow_all.h:3948-4162 | whatever part of a frame a read brings, the reader stays in step with it, and the frame takes effect exactly with its last byte, provided its header came in one read |
| WebSocketMessages.FrameFollows | lib/crowapi/crow_all.h:3948-4162 | a frame whose header arrives in one read takes effect exactly once, whatever its other reads are |
| WebSocketMessages.ShortHeader | lib/crowapi/crow_all.h:3955-4018 | a header read of one byte acts at once, as an empty unmasked frame |
| WebSocketMessages.HandledOnceIff | lib/crowapi/crow_all.h:3948-4260 | for a final data frame with a payload, read by a connection between messages in any reads, the message handler is called exactly once with the original bytes if and only if the first read brings both header bytes |
| WebSocketMessages.SplitHeaderRun | lib/crowapi/crow_all.h:3955-4018 | the text "hi" with its header split: the handler gets an empty text and 103 more bytes are awaited |
| WebSocketMessages.ReadFrom | lib/crowapi/crow_all.h:3948-4162 | a sequence of reads does what the reading specification says of it |
| WebSocketMessages.ReceiveFrames | lib/crowapi/crow_all.h:3948-4162 | frames with whole headers, otherwise in any reads, have the effect of handling them in order |
| WebSocketMessages.MessageReassembled | lib/crowapi/crow_all.h:4189-4260 | frames of a message with control frames in between pass the joined payload to the message handler exactly once |
| WebSocketMessages.ReceiveMessage | lib/crowapi/crow_all.h:3948-4260 | any message cut into frames, masked or not, with control frames between them, reaches the handler exactly once with its original bytes, when each header's two bytes come in one read; the rest may be split in any way |
| WebSocketControl.PingAnswered | lib/crowapi/crow_all.h:4247-4249 | a ping is answered by the bytes of a pong (first byte 8A) with the same payload, and nothing else happens |
| WebSocketControl.PongNoted | lib/crowapi/crow_all.h:4250-4255 | reading such an answer only notes the pong |
| WebSocketControl.CloseAnswered | lib/crowapi/crow_all.h:4226-4246 | the first close is answered by the bytes of a close (first byte 88) with the same payload and one call of the close handler; after a close was sent, a close ends the connection unanswered |
| WebSocketControl.FramesAnswered | lib/crowapi/crow_all.h:4189-4257 | over any frames: one pong per ping in order, one close at most, one call of the close handler, and the closing flags |
| WebSocketControl.OnlyPongs | lib/crowapi/crow_all.h:4247-4249 | without a close frame the answers are the pongs, in order |
| WebSocketControl.PingPong | lib/crowapi/crow_all.h:3821-4257 | one connection pings another, in any reads with whole headers: the bytes both ways, and the pong noted |
| WebSocketControl.FramesWrittenOut | lib/crowapi/crow_all.h:3898-3919 | examples of section 5.7 of RFC 6455, byte by byte |
| Sha1.SHA1.ProcessByte | lib/crowapi/crow_all.h:519-527 | taking in one byte continues the message by that byte |
| Sha1.SHA1.ProcessBytes | lib/crowapi/crow_all.h:528-541 | taking in bytes continues the message by those bytes |
| Sha1.SHA1.ProcessBlock | lib/crowapi/crow_all.h:601-649 | the compression of section 6.1.2 of FIPS 180-4 |
| Sha1.SHA1.RunRounds | lib/crowapi/crow_all.h:613-642 | the eighty rounds of the standard, from any schedule |
| Sha1.SHA1.Round | lib/crowapi/crow_all.h:619-642 | one round, with the source's rotations and selections, is the standard's |
| Sha1.SHA1.MakeSchedule | lib/crowapi/crow_all.h:602-611 | the message schedule of the standard |
| Sha1.ChooseAgrees | lib/crowapi/crow_all.h:623-625 | the selection written with "or" is the standard's |
| Sha1.MajorityAgrees | lib/crowapi/crow_all.h:629-631 | the majority written with "or" is the standard's |
| Sha1.SHA1.ProcessPadding | lib/crowapi/crow_all.h:543-556 | both branches write the 0x80 byte and exactly the zeros of section 5.1.1 |
| Sha1.SHA1.ZerosToEnd | lib/crowapi/crow_all.h:545-548 | zero bytes up to the end of the block |
| Sha1.SHA1.ZerosToLength | lib/crowapi/crow_all.h:549-556 | zero bytes up to the place of the length |
| Sha1.SHA1.GetDigest | lib/crowapi/crow_all.h:542-568 | the digest of everything taken in is SHA-1 of it as the standard defines it, below 2^29 bytes |
| Sha1.HashPieces | lib/crowapi/crow_all.h:519-568 | a message handed over in any pieces gives its SHA-1 |
| Sha1Vector.AbcDigest | lib/crowapi/crow_all.h:519-649 | the digest of "abc" is the one given with the standard |
| Base64.Base64Encode | lib/crowapi/crow_all.h:1982-2016 | the shifts and masks write the digits and padding of section 4 of RFC 4648 |
| Base64.Base64Decode | lib/crowapi/crow_all.h:2033-2106 | any text of at least two characters decodes to the bytes of its digits, by its length and padding |
| Base64Bits.EncoderBits | lib/crowapi/crow_all.h:1989-2014 | on eight-bit words: the encoder's masks, shifts and "or" amount to divisions, remainders and sums |
| Base64Bits.DecoderBits | lib/crowapi/crow_all.h:2074-2103 | on eight-bit words: so do the decoder's, for digits below 64 |
| Base64.ShiftsAreDigits | lib/crowapi/crow_all.h:1989-2014 | what the encoder picks out of three bytes are the base-64 digits of their number, also for a last group of one or two |
| Base64.ShiftsAreBytes | lib/crowapi/crow_all.h:2074-2103 | what the decoder puts together from digits are the bytes of their number |
| Base64.DecodeInvertsEncode | lib/crowapi/crow_all.h:1982-2106 | decoding undoes encoding on every non-empty byte string, in both alphabets, padded or stripped |
| Base64.EncodeInvertsDecode | lib/crowapi/crow_all.h:1982-2106 | every text of whole groups over an alphabet is the encoding of what it decodes to |
| Base64.RoundTrip | lib/crowapi/crow_all.h:1982-2106 | the two loops together give the bytes back |
| Base64.Alphabets | lib/crowapi/crow_all.h:1982-2031 | the letters of both alphabets, as in tables 1 and 2 of RFC 4648 |
| Base64.OtherCharacters | lib/crowapi/crow_all.h:2040-2047 | a character of neither alphabet counts as the digit 0 |
| Base64.Vectors | lib/crowapi/crow_all.h:1982-2031 | encodings written out, from section 10 of RFC 4648 and one that tells the alphabets apart |
| QueryText.UnescapeStops | lib/crowapi/crow_all.h:802-828 | a value ends at the first separator, whatever lies behind it |
| QueryText.EscapeMeans | lib/crowapi/crow_all.h:802-828 | a percent escape of two hexadecimal digits, in either case, stands for the byte they write |
| QueryText.CharacterMeans | lib/crowapi/crow_all.h:802-828 | a plus stands for a blank, a separator ends the text, any other character stands for itself |
| QueryText.MalformedEscape | lib/crowapi/crow_all.h:802-828 | a percent sign without two digits ends the text |
| QueryText.PairsInPlace | lib/crowapi/crow_all.h:773-792 | each start points at its own decoded pair, so decoding one value changes no other pair |
| QueryString.QsDecode | lib/crowapi/crow_all.h:802-828 | the value is replaced in place by what it stands for, terminated, and every other character stays |
| QueryString.QsNext | lib/crowapi/crow_all.h:806-824 | one character of a value and how much text it takes up, or a malformed escape |
| QueryString.DecodePair | lib/crowapi/crow_all.h:787-791 | one pair is decoded in its own place, whatever lies around it |
| QueryString.SplitPairs | lib/crowapi/crow_all.h:773-781 | the starts of the first pairs, up to the limit |
| QueryString.DecodePairs | lib/crowapi/crow_all.h:783-792 | decoding every value in turn leaves every pair decoded in its own place |
| QueryString.QsParse | lib/crowapi/crow_all.h:759-800 | for any URL: the pairs behind the first '?' or '#', each decoded in place |
| QueryLookup.QsStrncmp | lib/crowapi/crow_all.h:711-756 | the comparison of a key with the text in memory |
| QueryLookup.EqualMeansSame | lib/crowapi/crow_all.h:711-756 | a key compares equal if and only if the whole text up to a separator unescapes to it without a malformed escape |
| QueryLookup.MatchesIff | lib/crowapi/crow_all.h:843-844 | a pair is found under a key if and only if its own key unescapes to that key |
| QueryLookup.QsK2v | lib/crowapi/crow_all.h:831-859 | the value of the n-th pair found under the key, or nothing |
| QueryLookup.Query.constructor | lib/crowapi/crow_all.h:993-1003 | after construction every pair of the URL is in place |
| QueryLookup.Query.Get | lib/crowapi/crow_all.h:1028-1032 | the value of the n-th pair with the name, as text |
| QueryLookup.UnescapeEncoded | lib/crowapi/crow_all.h:802-828 | unescaping undoes percent-encoding |
| QueryLookup.QueryRoundTrip | lib/crowapi/crow_all.h:711-859 | percent-encoding any pairs into a URL behind a '?' or '#', parsing and looking a key up gives the values of the pairs with that key among the first 256, in order, and nothing for any other key |
| QueryLookup.EncodeAndGet | lib/crowapi/crow_all.h:711-1032 | the same through the query object |
| JsonText.Escape | lib/crowapi/crow_all.h:6668-6700 | appends the escaped string |
| JsonText.UnescapeUndoesEscape | lib/crowapi/crow_all.h:6668-6700 | unescaping undoes escaping for every string of bytes |
| JsonText.ScanEscaped | lib/crowapi/crow_all.h:7475-7533 | the string scanner stops at the closing quote behind an escaped string |
| JsonText.ScannedIsWellFormed | lib/crowapi/crow_all.h:7475-7533 | what the scanner accepts has only well-formed escapes |
| JsonEscapes.CodeEscape | lib/crowapi/crow_all.h:7075-7103 | an escape of four hexadecimal digits, in either case, stands for bytes that an independent decoder of UTF-8 reads as that code, in the shortest form |
| JsonEscapes.ShortEscapes | lib/crowapi/crow_all.h:7066-7073 | the eight escapes of two characters, each with what it stands for |
| JsonEscapes.OtherCharacters | lib/crowapi/crow_all.h:7481-7530 | any other character stands for itself, and any other escape is malformed |
| JsonEscapes.PrintedCharacters | lib/crowapi/crow_all.h:6668-6700 | how each character is printed |
| JsonEscapes.EscapedIsPrintable | lib/crowapi/crow_all.h:6668-6700 | printed strings have no control character |
| JsonGrammar.DumpInternal | lib/crowapi/crow_all.h:8391-8514 | appends the printed form of a tree |
| JsonGrammar.DumpListItems | lib/crowapi/crow_all.h:8471-8488 | items with a comma between any two |
| JsonGrammar.DumpObjectMembers | lib/crowapi/crow_all.h:8490-8510 | members with a comma between any two |
| JsonUnescape.Unescape | lib/crowapi/crow_all.h:7054-7116 | the string becomes what it stood for, in place; the writer never passes the reader and nothing outside the string changes |
| JsonUnescape.UnescapeLoop | lib/crowapi/crow_all.h:7058-7110 | the loop overwrites the string with its unescaped form |
| JsonUnescape.MeaningAt | lib/crowapi/crow_all.h:7062-7110 | what one character or escape stands for, in UTF-8 |
| JsonParser.Parser.Consume | lib/crowapi/crow_all.h:7461-7467 | takes one expected character or stays |
| JsonParser.Parser.WsSkip | lib/crowapi/crow_all.h:7469-7473 | stands at the first character that is not white space |
| JsonParser.Parser.DecodeString | lib/crowapi/crow_all.h:7475-7533 | accepts exactly the grammar's strings; quotes become mark and terminator |
| JsonParser.Parser.FindQuote | lib/crowapi/crow_all.h:7481-7530 | finds the closing quote, or a malformed escape, and whether there was any escape |
| JsonParser.Parser.DecodeNumber | lib/crowapi/crow_all.h:7575-7700 | accepts exactly what the state table accepts, although it runs over digits without looking them up |
| JsonParser.Parser.RunOverDigits | lib/crowapi/crow_all.h:7613-7624 | running over digits is the same as looking each one up, in every state it happens in |
| JsonParser.Parser.DecodeValue | lib/crowapi/crow_all.h:7702-7754 | any text: fails exactly when the grammar does, otherwise shows the grammar's tree, every item, key and value in a stretch of the buffer of its own, stands behind it and wrote nowhere else |
| JsonParser.Parser.DecodeList | lib/crowapi/crow_all.h:7535-7573 | the same for lists, with the depth limit |
| JsonParser.Parser.DecodeItems | lib/crowapi/crow_all.h:7550-7571 | the loop over a list's items |
| JsonParser.Parser.DecodeObject | lib/crowapi/crow_all.h:7756-7817 | the same for objects, with the depth limit |
| JsonParser.Parser.DecodeMembers | lib/crowapi/crow_all.h:7773-7815 | the loop over an object's members |
| JsonParser.Parser.DecodeMember | lib/crowapi/crow_all.h:7775-7803 | one member, its key unescaped in place before its value is read |
| JsonParser.Parser.ParseText | lib/crowapi/crow_all.h:7819-7827 | a whole text: refused exactly when the grammar refuses it, otherwise the value shows the grammar's tree |
| JsonParser.Load | lib/crowapi/crow_all.h:7833-7844 | the same on a copy of the text |
| JsonMemory.ShowsStays | lib/crowapi/crow_all.h:7475-7817 | what a parsed value shows depends on its own stretch of the buffer only |
| JsonLanguage.NumeralAccepted | lib/crowapi/crow_all.h:7575-7700 | every numeral of the language is read whole, whatever follows that ends a number |
| JsonLanguage.ValueAccepted | lib/crowapi/crow_all.h:7702-7754 | every value of the language, with white space anywhere it may stand, is read as the tree it stands for at any depth, or refused, exactly by the depth limit |
| JsonLanguage.TextIsAccepted | lib/crowapi/crow_all.h:7819-7827 | the same for a whole text with blanks around it |
| JsonSound.NumberIsWritten | lib/crowapi/crow_all.h:7575-7700 | whatever is read as a number is a numeral of the language, and all of it |
| JsonSound.ValueIsWritten | lib/crowapi/crow_all.h:7702-7754 | whatever is read as a value is the writing of a value of the language that stands for the tree read |
| JsonSound.AcceptedIff | lib/crowapi/crow_all.h:7819-7827 | a text is accepted as a tree if and only if it is blanks, a value of the language of at most 5000 levels that stands for the tree, and blanks |
| JsonSound.OddNumbers | lib/crowapi/crow_all.h:7575-7700 | where the numbers differ from RFC 8259: 1. and 1e+ are accepted, 0e5 is not |
| JsonRoundTrip.IntegerReadsBack | lib/crowapi/crow_all.h:8461-8468 | the printed form of an integer reads back as that integer |
| JsonRoundTrip.ValueReadsBack | lib/crowapi/crow_all.h:7702-7754 | a printed tree at any depth and before anything that ends a number reads back as itself, or is refused, exactly by the depth limit |
| JsonRoundTrip.ParseInvertsDump | lib/crowapi/crow_all.h:7448-7830 | parsing the printed form of any tree gives the tree back if it nests at most 5000 deep and refuses it otherwise |
| JsonParser.DumpAndLoad | lib/crowapi/crow_all.h:7454-7844 | printing and loading through the buffer shows the same tree, up to the depth limit and not beyond |
| JsonReader.RewriteKeeps | lib/crowapi/crow_all.h:7054-7116 | unescaping any one string of a value leaves the tree that the whole value shows as it was |
| JsonReader.ReadString | lib/crowapi/crow_all.h:7026-7036 | reading the string at any place gives the tree's string, and the value goes on showing the same tree |
| JsonReader.ReadStrings | lib/crowapi/crow_all.h:7026-7036 | strings read in any order, and again, each give the tree's string |
| JsonReader.ReadTree | lib/crowapi/crow_all.h:7026-7116 | reading all of a value, string after string, gives back the tree it shows, and it can be read again |
| JsonReader.DumpAndRead | lib/crowapi/crow_all.h:7026-8514 | printing a tree, loading the text and reading everything gives the tree back if it nests at most 5000 deep, and is refused otherwise |

## Left out

- The database itself, archives, file streams and configuration: a write either happens or leaves the store unchanged, the log is a sequence and the seed file an optional number.
- The `/events` and `get_balance` routes, response texts, and the shared `_status` field, which does not affect the ledger.
- Transaction ids are parameters; that they are unique is not assumed anywhere, only that both events of a pair carry the same one.
- The `assert` after a creation's write ends the process in a debug build; in the model that handler just finishes.
- The seed counter past 2^31-1: it is an unbounded number here.
- Spurious wake-ups, and which waiting handler gets a lock: every choice is a possible run.
- Blueprints in the trie, which the wallet does not use, and the router's choice of the HTTP method around it.
- `strtod` in float parameters is a function parameter of the model.
- TrieBuilder.RouteTrie.Add: requires that every '<' of a pattern starts a known parameter, because on any other the loop steps back for ever.
- RouteTable.BuildHolds: a whole table of rules is followed only for patterns without NUL; AddAddsOneIff says for any pattern when one addition registers it.
- The request line, header fields, upgrade and end-of-file bodies of the HTTP parser.
- ChunkedBody.ReceiveChunked: a Content-Length field in the trailer, which section 4.1.2 of RFC 7230 forbids, is not covered; the model stops there with `TrailerField`. Folded trailer lines are not part of the well-formed bodies. An empty buffer means end of file to the parser, so buffers are non-empty.
- BodyParser.HttpParser.FieldByte: takes trailer bytes one at a time where the code runs over many, so an overlong field with an invalid character behind the limit may get another error code; which name a field has matters only for Content-Length and is not otherwise matched.
- BodyParser.HttpParser.Execute: on malformed input the buffered parser stops with the machine's error, and what it delivered is a prefix of the machine's body, because the data behind its mark is not delivered on an error.
- WebSocket sockets, timers, read errors and the handshake.
- WebSocketMessages.ReceiveMessage: the two header bytes of each frame come in one read, because otherwise the property fails (HandledOnceIff, SplitHeaderRun).
- Sha1.SHA1.GetDigest: requires less than 2^29 bytes, because the code writes only the low 32 bits of the length.
- Base64.Base64Decode: requires two characters, because the code looks at the last two even of a shorter text.
- QueryLookup.QsStrncmp: a '%' at the very end of a key makes the code read past the terminator; the model reads NUL there.
- QueryLookup.QueryRoundTrip: keys and values are without NUL, because a C string ends at NUL, and the key looked up is non-empty and without separators, '%' and '+', which the comparison would take for escapes.
- Query-string dictionaries (`name[key]=value`) and `pop`.
- JSON floating-point printing, callable values, and the order in which an object's hash map is walked: an object is a sequence of members.
- A copy of a loaded JSON value made before one of its strings is first read keeps that string's old end; copies are not modelled.
- JsonRoundTrip.ParseInvertsDump: numbers are 64-bit integers, because floating-point printing is left out.
- Multipart bodies, cookies, compression, CORS, middleware and Mustache templates.
