# Verification model of the Stratum miner

A Dafny model of the parts of the miner where a mistake would be hard to see: the JSON
codec, the Stratum client's receive and submit paths, the thread pool, SHA-256d, the way
work is split between workers and shares are judged, the CryptoNight stub's scratchpad
pipeline, and the configuration reader. `dafny verify dfyconfig.toml` checks all of it.

| file | models |
|---|---|
| `Powers.dfy`, `Concatenation.dfy`, `LineText.dfy` | powers, regrouping, and text as newline-terminated lines |
| `Doubles.dfy`, `DoubleFormat.dfy` | double precision: spacing, rounding, and what `std::stod` calls out of range; the same in powers of two |
| `Json.dfy` | JSON values, the printer and the recursive-descent parser as functions |
| `JsonGrammar.dfy` | the dialect as concrete syntax trees; the parser accepts exactly these |
| `JsonRoundTrip.dfy` | printing and reading back, in any context |
| `JsonSpacing.dfy`, `JsonSpelling.dfy` | white space, words, marks, escapes and numerals, with their characters by name |
| `JsonParser.dfy` | the parser class with its moving position, and the printing loops |
| `Stratum.dfy` | messages, line reassembly, and the client class that performs both |
| `StratumRuns.dfy` | whole runs: printed messages through arbitrary chunks, the session as a function of its history |
| `StratumCallbacks.dfy` | what each kind of message does, from its members alone |
| `StratumSubmit.dfy`, `SubmitLines.dfy` | request ids, framing over partial writes, threads submitting during handshakes and reconnects; the lines themselves |
| `ThreadPool.dfy`, `PoolAccount.dfy`, `PoolProgress.dfy`, `PoolShutdown.dfy` | the pool as a step system, down to the gap between unlocking and notifying; its tasks counted; that it gets its work done; how its destructor can hang |
| `Octets.dfy`, `Sha256Spec.dfy`, `Sha256Padding.dfy`, `Sha256d.dfy` | FIPS 180-4 as functions, its padding, and the streaming implementation |
| `Primes.dfy`, `Sha256Constants.dfy`, `Sha256KnownAnswer.dfy`, `Sha256Chaining.dfy` | the first 64 primes and the constants taken from their roots; a digest worked out; how blocks follow one another |
| `Divisibility.dfy`, `Nonces.dfy` | the number theory of nonce walks modulo 2^32 |
| `Hex.dfy`, `Blob.dfy`, `BlobLayout.dfy`, `ClassicWork.dfy`, `HeaderLayout.dfy`, `BlobInputs.dfy` | what each worker hands over and where its parts stand, how much of it each algorithm hashes, and when two hashes are of the same |
| `ByteNumbers.dfy`, `ShareTest.dfy` | byte strings as numbers, and the share test |
| `JobQueue.dfy`, `Workers.dfy` | the job slot, and N workers hashing in batches around it |
| `BlobRuns.dfy`, `BlobSplit.dfy`, `StandbyRun.dfy` | blob work over whole runs, the histories that let it repeat, and a run that does |
| `Algorithms.dfy`, `PoolCheck.dfy` | what is hashed over whole runs, and what a pool that recomputes SHA-256d makes of the shares |
| `Shares.dfy`, `Wiring.dfy` | client and engine wired together |
| `Lanes.dfy`, `Cryptonight.dfy`, `CryptonightLayout.dfy` | scratchpad fill, main loop and digest, for an arbitrary Keccak; its bytes as numbers |
| `Ini.dfy`, `IniLayout.dfy`, `IniSpelling.dfy` | the configuration reader, which configurations read back, and lines as people write them |

Classes are proved against specification functions (a method's `ensures` equates the new
state with a function of the old one), and the properties are lemmas about those functions.
Concurrent parts are step systems; a property of every run is a lemma about every list of
enabled steps. Text is a sequence of characters standing for bytes.

What the proofs settle about the code, where it is not what one might expect:

- The first share takes request id 2 (the counter starts at 1 and is incremented first), so
  the pool's verdict on it is read as the authorize response; the comment in
  `src/network/StratumClient.cpp:361-362` says share ids start at 3. `FirstVerdictIsLost`
  shows it is that share and no other.
- The pool destructor stores `stopping_` without the mutex. It can end up joining a worker that nobody will wake, with
  the queue empty and everyone else gone, exactly when at the store some worker had evaluated the wait predicate to
  false and not yet blocked (`StrandedIffFalling`); that happens in a pool just built (`FallingIsReachable`).
- The guard on short blobs asks for 4 characters; the nonce slot fits exactly when there are 8
  (`SlotInBounds`). The fallback of the slot search is never reached.
- The engine runs either of two algorithms, and they do not hash the same: sha256d hashes all it is handed, CryptoNight
  the first 72 bytes of data and the nonce it is handed, which for blobs is always zero.
- A classic header is cut at 200 characters. Workers split the work without overlap exactly when the whole of
  extranonce2 lies within the first 200 characters under sha256d, or within the first 72 under CryptoNight
  (`WorkDistinctIffFits`); one character less and two of them share a header. The program's own standby job keeps its
  workers apart under sha256d and not under CryptoNight (`StandbyWork`).
- The blob branch never advances the nonce between batches, and writes it most significant digit first, although the
  comment says little endian. One batch is handed over without repetition exactly when 2^22 does not divide the step.
  From its second batch on a blob job a worker hashes nothing new, and submits its winning shares again
  (`SecondBatchIsOld`, `BatchesRepeat`); the law for both branches is `OwnWorkRepeatsIff`.
- Two workers are handed one input of a blob exactly when the nonces they took the blob with are fewer than 2048 steps
  apart modulo 2^32 (`RepeatedIff`, `JoinedRepeatedIff`). Whether a published history lets that happen: exactly when a blob
  comes after a header job, or there are more than 256 workers and a blob at all (`CanRepeatIff`). The program publishes a
  classic standby job first, so it does: two workers, one of them 4096 standby batches ahead, hash the same blob input
  (`StandbyThenBlobRepeats`).
- Under CryptoNight a blob's nonce counts only as far as it lies in the first 72 bytes (`BlobInputsAgree`). From slot 72 on
  none of it does, and every hash of the blob by every worker is the same; with slots 69 to 71 only its leading bytes do.
  With only blobs published and at most 256 workers, two of them hash the same exactly when none of it does
  (`OnlyBlobsHashedTwiceIff`).
- sha256d leaves the zero digest untouched for data past 252 bytes, that is for blobs past 505 characters. There every
  hash wins at any difficulty up to 2^64 and is submitted (`OversizeAlwaysWins`, `SharesUnderStandard`); shares of jobs
  that fit verify against the standard's SHA-256d.
- A seven-element `mining.notify` takes its difficulty from position 4 and the clean flag from position 5 only if they
  are a number and a boolean (`BlobFieldsIffTyped`). The sample in `README.md:134` of the repository has them the other
  way round, so difficulty 0.0 and no clean flag are delivered (`SwappedFieldsAreLost`).
- The difficulty a seven-element notification brings is delivered with the job and then never used: every share is judged
  against 10^15, which main sets at the start, or a difficulty some `mining.set_difficulty` set (`ShareMeetsDifficulty`).
- A section heading without entries leaves no trace in the parsed configuration, so the maps a
  text can produce are exactly those without empty sections and with entries that read back.

## Model

| member | source | states |
|---|---|---|
| Doubles.NearestIsNear | src/utils/MiniJson.cpp:187-191 | converting a number moves it by at most half the distance between doubles there |
| Doubles.NoDoubleIsNearer | src/utils/MiniJson.cpp:187-191 | no double is nearer to a magnitude than the one it is converted to |
| Doubles.NearestIsStable | src/utils/MiniJson.cpp:187-191 | what conversion yields is a double: converting it again changes nothing |
| Doubles.IntegerIsDouble | src/utils/MiniJson.cpp:187-191 | every integer up to 2^53 is a double, so it is read exactly |
| Doubles.ConvertedIsDouble | src/utils/MiniJson.cpp:187-191 | past the overflow and underflow errors every result is a double, of either sign |
| DoubleFormat.DoublesHaveFormat | src/utils/MiniJson.cpp:187-191 | below 2^1024 the doubles are the multiples m * 2^e with m below 2^53 and e from -1074 to 971 |
| DoubleFormat.TiesGoToEven | src/utils/MiniJson.cpp:187-191 | half way between two doubles the even one is taken |
| DoubleFormat.RefusedIff | src/utils/MiniJson.cpp:187-191 | a magnitude is refused if and only if it is 2^1024 - 2^970 or more, or no double and below 2^-1022 - 2^-1076 |
| JsonGrammar.TreeIsParsed | src/utils/MiniJson.cpp:68-192 | every text of the dialect, white space between tokens included, followed by any text that does not extend it, parses to the tree's meaning and leaves exactly that text |
| JsonGrammar.ParsedIsTree | src/utils/MiniJson.cpp:68-192 | whatever the parser accepts is a text of the dialect meaning the value returned; the rest is a suffix |
| JsonGrammar.ParserMeetsGrammar | src/utils/MiniJson.cpp:64-193 | parser and grammar agree in both directions |
| JsonParser.Parser.SkipWhitespace | src/utils/MiniJson.cpp:85-87 | the position moves over white space only, up to the first other character |
| JsonParser.Parser.TakeMark | src/utils/MiniJson.cpp:89-93 | a mark is consumed exactly when the functional parser consumes it |
| JsonParser.Parser.ReadRawString | src/utils/MiniJson.cpp:133-159 | the escape loop reads the specified string and stops behind the closing quote, or fails |
| JsonParser.Parser.ReadBody | src/utils/MiniJson.cpp:138-155 | the loop over characters and escapes yields the decoded body |
| JsonParser.Parser.ReadBool | src/utils/MiniJson.cpp:167-171 | the two words and nothing else |
| JsonParser.Parser.ReadNull | src/utils/MiniJson.cpp:173-176 | the word null and nothing else |
| JsonParser.Parser.ReadNumber | src/utils/MiniJson.cpp:178-192 | the longest run of number characters, rounded to a double, or failure: no digits, overflow or underflow |
| JsonParser.Parser.ReadValue | src/utils/MiniJson.cpp:68-79 | the recursive parser with its position refines the functional one: same value, same rest; it terminates within bounds on every text and advances on success |
| JsonParser.Parser.ReadArray | src/utils/MiniJson.cpp:116-131 | the element loop refines the functional one |
| JsonParser.Parser.ReadMember | src/utils/MiniJson.cpp:101-106 | one key, colon and value |
| JsonParser.Parser.ReadObject | src/utils/MiniJson.cpp:95-114 | the member loop with set refines the functional one |
| JsonParser.SetMember | src/utils/MiniJson.cpp:33-38 | the search-and-replace loop is the specified set |
| JsonParser.ParseText | src/utils/MiniJson.cpp:232-235 | parse on any text, trailing text ignored |
| JsonParser.EscapeText | src/utils/MiniJson.cpp:47-61 | the escaping loop is the specified escape |
| JsonParser.DumpText | src/utils/MiniJson.cpp:197-230 | the printer's loops print the specified text |
| JsonRoundTrip.DumpIsTree | src/utils/MiniJson.cpp:197-230 | a printed value is a text of the dialect meaning that value |
| JsonRoundTrip.RoundTrip | src/utils/MiniJson.cpp:68-230 | printed after any white space and before any closing context, a value is read back exactly and the reader stops at its end |
| JsonRoundTrip.DumpInjective | src/utils/MiniJson.cpp:197-230 | two values print alike if and only if they are equal |
| JsonRoundTrip.SetMeaning | src/utils/MiniJson.cpp:25-38 | after a set, get returns the new value for the key and what it was for others; keys keep their position |
| JsonRoundTrip.ParsedIsNormal | src/utils/MiniJson.cpp:95-131 | parsed objects have distinct keys at every depth |
| JsonRoundTrip.ParsedAreDoubles | src/utils/MiniJson.cpp:178-192 | every number in whatever is parsed is a double |
| JsonRoundTrip.ReparseIsStable | src/utils/MiniJson.cpp:197-235 | parse after dump after parse is parse, for every text whose numbers turn out to be integers that fit a long long |
| JsonRoundTrip.DumpIsOneLine | src/utils/MiniJson.cpp:47-61 | printed text holds no raw newline |
| JsonSpacing.SpacedReadsBack | src/utils/MiniJson.cpp:68-235 | a value printed with any of the characters 32 and 9 to 13 inside brackets and around commas and colons is read back, and text behind it is ignored |
| JsonSpacing.PoolSpacingReadsBack | src/utils/MiniJson.cpp:85-131 | as a pool spaces it, a blank behind every comma and colon |
| JsonSpacing.EachSpaceReadsBack | src/utils/MiniJson.cpp:85-87 | each of the six characters, by its code, in every place |
| JsonSpacing.SpaceIsPassedOver | src/utils/MiniJson.cpp:68-87 | before a value the six are passed over and any other character that opens none makes the parse fail |
| JsonSpelling.EscapedByCode | src/utils/MiniJson.cpp:47-61 | the five characters printed with a backslash, by their codes, and all others as themselves |
| JsonSpelling.UnescapedByCode | src/utils/MiniJson.cpp:142-149 | three letters behind a backslash stand for control codes, all others for themselves |
| JsonSpelling.DecimalIsWorth | src/utils/MiniJson.cpp:187-191 | a numeral is its digits, divided by ten for each behind the point, times ten to its exponent |
| JsonSpelling.NumeralIsRead | src/utils/MiniJson.cpp:178-192 | a signed numeral with fraction and exponent is read as the double it converts to, to its end, or fails if out of range |
| JsonSpelling.TokenIsRead | src/utils/MiniJson.cpp:178-192 | a token of digits, signs, points and exponent marks is read whole, and nothing behind it |
| JsonSpelling.ObjectMarks | src/utils/MiniJson.cpp:219-227 | braces, quotes, colon and comma of a printed object |
| Stratum.StratumClient.HandleNotify | src/network/StratumClient.cpp:286-350 | new session and callbacks of both job formats, and nothing for the others |
| Stratum.StratumClient.HandleSetDifficulty | src/network/StratumClient.cpp:352-357 | the difficulty callback |
| Stratum.StratumClient.HandleResponse | src/network/StratumClient.cpp:359-414 | subscribe, authorize and submit responses told apart by id |
| Stratum.StratumClient.HandleLine | src/network/StratumClient.cpp:416-443 | one line: ignored, dispatched by method, or a response |
| Stratum.StratumClient.Receive | src/network/StratumClient.cpp:463-512 | for any chunks, the client ends where handling the lines of their concatenation ends, and the buffer is what follows the last newline |
| Stratum.StratumClient.Disconnect | src/network/StratumClient.cpp:97-104 | only the authorization is reset |
| Stratum.StratumClient.RunLoop | src/network/StratumClient.cpp:445-528 | any series of failed and successful connections is the fold over them, with no bytes carried between connections |
| LineText.LinesOfMore | src/network/StratumClient.cpp:504-511 | splitting commutes with arrival: only the residue need be kept |
| LineText.LinesReconstruct | src/network/StratumClient.cpp:504-511 | lines handled and residue make up the received bytes |
| LineText.LinesAreLines | src/network/StratumClient.cpp:504-511 | neither the lines nor the residue hold a newline |
| LineText.LinesUnique | src/network/StratumClient.cpp:504-511 | no other split of the bytes does |
| StratumRuns.FramesSplit | src/network/StratumClient.cpp:209-216 | printed messages ended by newlines split back into exactly those messages |
| StratumRuns.EndToEnd | src/network/StratumClient.cpp:416-512 | however the bytes of printed messages are cut, session and callbacks are those of dispatching the messages |
| StratumRuns.CutAnywhere | src/network/StratumClient.cpp:463-512 | a connection lost at any byte has acted on exactly the messages that arrived whole |
| StratumRuns.EncodedHasEffect | src/network/StratumClient.cpp:286-414 | each kind of pool message, encoded as the protocol encodes it, has its named effect |
| StratumRuns.BlobFieldsIffTyped | src/network/StratumClient.cpp:308-326 | a seven-element notification delivers element 4 as difficulty and element 5 as clean flag if and only if they are a number and a boolean, else 0.0 and false |
| StratumRuns.SwappedFieldsAreLost | src/network/StratumClient.cpp:308-326 | with the two the other way round neither is used |
| StratumRuns.PoolIsUnderstood | src/network/StratumClient.cpp:286-512 | from what the pool means to what the client does, through printing, cutting and parsing |
| StratumRuns.LifeIsReplay | src/network/StratumClient.cpp:445-528 | a run over bytes is the replay of the messages in them |
| StratumRuns.DispatchFrame | src/network/StratumClient.cpp:286-414 | which fields and callbacks each kind of message may touch |
| StratumRuns.SessionIsHistory | src/network/StratumClient.cpp:97-104 | extranonce is that of the latest accepted subscription, authorization that of the latest id-2 response since the last disconnect |
| StratumRuns.JobsCarryLatestSubscription | src/network/StratumClient.cpp:302-349 | the callback at any position of a run is the one its own message made, and if it is a job it carries the extranonce of the latest subscription before that message |
| StratumRuns.EventHasInput | src/network/StratumClient.cpp:286-414 | each callback of a run was made by exactly one message |
| StratumRuns.MessageJobsCarryLatestSubscription | src/network/StratumClient.cpp:302-349 | message by message, the jobs it delivers carry the latest subscription before it |
| StratumRuns.ResultsAreVerdicts | src/network/StratumClient.cpp:399-413 | accepted and rejected callbacks number the method-less responses with a numeric id other than 1 and 2 |
| StratumCallbacks.DifficultyIffSet | src/network/StratumClient.cpp:352-357 | a difficulty callback is made if and only if the method is mining.set_difficulty and the params are a non-empty array; its value is the first of them if that is a number, else 0.0 |
| StratumCallbacks.UnknownMethodIsIdle | src/network/StratumClient.cpp:433-439 | any other method than the two known leaves session and callbacks as they are |
| StratumCallbacks.JobOfNotification | src/network/StratumClient.cpp:298-347 | a notification of seven elements, or nine or more, delivers the job with each field from its position, empty, zero or false where the type is another |
| StratumCallbacks.JobIffNotified | src/network/StratumClient.cpp:286-350 | and no other message delivers a job or changes the current one |
| StratumCallbacks.UnusableCallIsIdle | src/network/StratumClient.cpp:286-357 | a call of either method without usable parameters is ignored |
| StratumCallbacks.AuthorizationIsSecond | src/network/StratumClient.cpp:379-387 | an id from 2 up to 3 decides the authorization: result true and no error but null |
| StratumCallbacks.SubscriptionIsFirst | src/network/StratumClient.cpp:388-397 | an id from 1 up to 2 brings extranonce and size, from elements 1 and 2 of three or more |
| StratumCallbacks.VerdictIsAnyOther | src/network/StratumClient.cpp:400-413 | any other number makes one submit callback, with the last element of the error array as reason when rejected |
| StratumCallbacks.DifficultiesAreAnnounced | src/network/StratumClient.cpp:416-443 | over all runs the difficulty callbacks are those of the messages that set one, in order |
| StratumCallbacks.CurrentJobIsLatest | src/network/StratumClient.cpp:325-345 | over all runs the current job is the latest delivered, lost connections included |
| StratumSubmit.Sender.SendLine | src/network/StratumClient.cpp:209-228 | for any partial writes the wire grows by a prefix of the line and its newline, the whole of it exactly on success |
| StratumSubmit.Sender.Submit | src/network/StratumClient.cpp:230-284 | the next id, and the printed request or a proper prefix of it on the wire |
| StratumSubmit.PoolReadsSubmissions | src/network/StratumClient.cpp:183-284 | over all interleavings of threads, handshake and lost connections: ids run 2, 3, 4, ...; the shares written on this connection were drawn, each once; the pool reads exactly the lines written whole, in order |
| StratumSubmit.WrittenOnce | src/network/StratumClient.cpp:209-284 | over the whole schedule, reconnects included: every share drawn is still with its thread or was written exactly once, whole or cut short, on one connection; what the pool reads is among the whole writes |
| StratumSubmit.VerdictDelivered | src/network/StratumClient.cpp:378-413 | a verdict reaches the submit callback if and only if its id is neither 1 nor 2 |
| StratumSubmit.SecondIdAuthorizes | src/network/StratumClient.cpp:378-387 | a verdict with id 2 sets the authorization and calls nothing |
| StratumSubmit.FirstVerdictIsLost | include/network/StratumClient.hpp:133 | of all shares ever drawn, the first and only the first has its verdict taken for an authorization |
| SubmitLines.ClassicLine | src/network/StratumClient.cpp:230-257 | the line of a classic share, character by character: id, method, and login, job, extranonce2, time and nonce in that order |
| SubmitLines.BlobLine | src/network/StratumClient.cpp:259-284 | the line of a blob share: login, job and blob |
| SubmitLines.SubscribeLine | src/network/StratumClient.cpp:183-192 | the first line of the handshake |
| SubmitLines.AuthorizeLine | src/network/StratumClient.cpp:194-204 | the second, with login and password |
| SubmitLines.SharesAreDrawn | src/network/StratumClient.cpp:243-247 | over all runs each share handed over draws an id as it is, in order, from 2 on |
| ThreadPool.StepKeeps | src/threading/ThreadPool.cpp:9-21 | every step of a worker, submitter or destructor keeps mutual exclusion, queue order, task accounting and the wake-up balance |
| ThreadPool.NeverTakesFromEmpty | src/threading/ThreadPool.cpp:13-18 | no worker ever takes the front of an empty queue |
| ThreadPool.NoLostWakeup | include/threading/ThreadPool.hpp:38-47 | a queued task always has an awake worker or an owed notify_one; while any worker sleeps there are at least as many of these as queued tasks |
| ThreadPool.TakenInOrder | src/threading/ThreadPool.cpp:17-18 | the task taken is the oldest not yet taken |
| ThreadPool.ExactlyOnce | src/threading/ThreadPool.cpp:13-20 | a task was submitted if and only if it is queued, running or finished, in exactly one place and once |
| ThreadPool.Drained | src/threading/ThreadPool.cpp:26-32 | when all workers have exited every task submitted, by tasks too, has finished once |
| ThreadPool.SleeperLeftIffFalling | src/threading/ThreadPool.cpp:26-28 | a worker can be left asleep after notify_all if and only if one was between predicate and blocking at the store |
| PoolAccount.SubmitEnqueues | include/threading/ThreadPool.hpp:38-47 | when a task can be submitted, from outside or by a task, and that it goes to the back of the queue with a notification owed |
| PoolAccount.EverySubmitIsDone | include/threading/ThreadPool.hpp:38-47 | once all workers have exited the tasks done are one for every submit of the run |
| PoolProgress.StepUsesUp | src/threading/ThreadPool.cpp:9-31 | every step the pool takes by itself uses up a measure of what is left to do |
| PoolProgress.RunsAreShort | src/threading/ThreadPool.cpp:9-31 | so between submissions and spurious wake-ups a run takes no more steps than the measure says |
| PoolProgress.RestIsDone | src/threading/ThreadPool.cpp:9-21 | where the pool comes to rest the queue is empty and every task submitted has finished |
| PoolProgress.StuckIffStranded | src/threading/ThreadPool.cpp:26-31 | after the announcement, with somebody still to be joined, only spurious wake-ups are possible if and only if one worker sleeps, nothing is queued or owed, and all others are gone |
| PoolShutdown.StrandedIsStuck | src/threading/ThreadPool.cpp:26-31 | with one worker asleep, nothing owed and all others gone, only a spurious wake-up is possible |
| PoolShutdown.StrandedIffFalling | src/threading/ThreadPool.cpp:26-31 | such a state can follow the store of stopping_ if and only if a worker was between predicate and blocking |
| PoolShutdown.FallingIsReachable | src/threading/ThreadPool.cpp:13 | and that is so in a pool just built, after two steps |
| Sha256d.SigmasAgree | src/hash/Sha256dAlgorithm.cpp:26 | the rotations by shifts and or, as the code combines them, are the standard's functions |
| Sha256d.ReadWords | src/hash/Sha256dAlgorithm.cpp:38-43 | the first sixteen schedule words |
| Sha256d.ExtendWords | src/hash/Sha256dAlgorithm.cpp:44-48 | the in-place extension is the message schedule |
| Sha256d.RunRounds | src/hash/Sha256dAlgorithm.cpp:50-63 | the rolling registers after the loop are those of 64 rounds |
| Sha256d.ProcessBlock | src/hash/Sha256dAlgorithm.cpp:36-67 | one block is one compression |
| Sha256d.ProcessBlocks | src/hash/Sha256dAlgorithm.cpp:75-78 | the block loop is the fold of compressions |
| Sha256d.StoreLength | src/hash/Sha256dAlgorithm.cpp:86-90 | the length field is written big endian and nothing else changes |
| Sha256d.FillTail | src/hash/Sha256dAlgorithm.cpp:80-93 | full blocks and tail blocks together are the padded message |
| Sha256d.Sha256Into | src/hash/Sha256dAlgorithm.cpp:71-101 | the streaming hash is SHA-256 of section 6.2.2 on every message |
| Sha256d.StoreDigest | src/hash/Sha256dAlgorithm.cpp:95-100 | the digest bytes |
| Sha256d.Sha256dAlgorithm.Hash | src/hash/Sha256dAlgorithm.cpp:105-124 | SHA-256 twice over input and little-endian nonce; over 252 bytes digest and buffer are untouched |
| Primes.PrimesAreTheFirst | src/hash/Sha256dAlgorithm.cpp:15-24 | the list of 64 primes is the first 64, in order |
| Sha256Constants.RoundConstantsAreCubeRoots | src/hash/Sha256dAlgorithm.cpp:15-24 | each round constant is the first 32 bits of the fractional part of the cube root of its prime |
| Sha256Constants.InitialValueIsSquareRoots | src/hash/Sha256dAlgorithm.cpp:28-33 | the initial hash value is that of the square roots of the first eight |
| Sha256Constants.BitByBit | src/hash/Sha256dAlgorithm.cpp:55-58 | choice, majority and parity, bit by bit |
| Sha256Constants.BitsAreTheWord | src/hash/Sha256dAlgorithm.cpp:55-58 | and a word is determined by its 32 bits |
| Sha256KnownAnswer.Sha256OfAbc | src/hash/Sha256dAlgorithm.cpp:15-100 | the digest of "abc", worked out word by word and round by round, is the one the standard's examples give |
| Sha256Chaining.BlocksInOrder | src/hash/Sha256dAlgorithm.cpp:71-92 | the blocks of a message are taken one after the other |
| Sha256Chaining.OneMoreBlock | src/hash/Sha256dAlgorithm.cpp:36-66 | the rounds of a block start from the hash value of the blocks before it and are added to that, word by word |
| Sha256Spec.DigestFaithful | src/hash/Sha256dAlgorithm.cpp:95-100 | the hash words can be read back from the digest |
| Sha256Padding.PaddingIsStandard | src/hash/Sha256dAlgorithm.cpp:80-90 | the number of zeros is the least that section 5.1.1 allows |
| Sha256Padding.FewestBlocks | src/hash/Sha256dAlgorithm.cpp:86 | one or two tail blocks, never more than needed |
| Sha256Padding.PadLayout | src/hash/Sha256dAlgorithm.cpp:81-90 | data, 0x80 byte, zeros and length field lie apart |
| Sha256Padding.LengthDecodes | src/hash/Sha256dAlgorithm.cpp:74-90 | the eight length bytes decode to the bit length |
| Sha256Padding.UnpadRecovers | src/hash/Sha256dAlgorithm.cpp:74-93 | every message below 2^61 bytes is recovered from its padded form |
| Sha256Padding.PadInjective | src/hash/Sha256dAlgorithm.cpp:74-93 | distinct messages have distinct block sequences |
| Nonces.ClassicNonces | src/miner/MinerEngine.cpp:239-256 | the nonces of a classic batch, and the one the next batch starts from |
| Nonces.WalkRepeats | src/miner/MinerEngine.cpp:122-123 | two moments of a walk meet the same nonce if and only if they are whole periods apart |
| Nonces.WalkInjective | src/miner/MinerEngine.cpp:122-123 | within 2^32 over the power of two in the step no nonce repeats |
| Nonces.WalkCovers | src/miner/MinerEngine.cpp:122-123 | each nonce of the start's residue class is met once per period |
| Nonces.WalkStays | src/miner/MinerEngine.cpp:122-123 | and no nonce outside it |
| Hex.ToHexValue | src/miner/MinerEngine.cpp:16-20 | decoding undoes toHex at any width |
| Hex.ToHexLength | src/miner/MinerEngine.cpp:16-20 | a value that fits is exactly as wide as asked |
| Hex.ToHexInjective | src/miner/MinerEngine.cpp:16-20 | distinct values never print alike |
| Hex.DigitByName | src/miner/MinerEngine.cpp:15-19 | the sixteen digits by name, printed in lower case and read in either |
| Hex.ToHexIsLower | src/miner/MinerEngine.cpp:15-19 | toHex prints these digits only |
| Hex.DecodeBlob | src/miner/MinerEngine.cpp:211-215 | the decoding loop yields the byte of every digit pair |
| Blob.WriteDigits | src/miner/MinerEngine.cpp:206-209 | the four-pair loop replaces eight characters and no others |
| Blob.ProbeChanges | src/miner/MinerEngine.cpp:161-172 | the probe changes the blob unless the slot already spells it |
| Blob.NoOverlap | src/miner/MinerEngine.cpp:173-197 | two copies of the probe cannot overlap by three bytes |
| Blob.ChooseSlot | src/miner/MinerEngine.cpp:147-202 | the slot is byte 0 below 8 bytes, else the last four or five bytes; the fallback is never reached |
| Blob.SlotInBounds | src/miner/MinerEngine.cpp:141-155 | past the guard, the slot lies in the blob if and only if the blob has eight characters |
| Blob.PatchIsLocal | src/miner/MinerEngine.cpp:205-209 | only the slot changes and it decodes to the nonce |
| BlobLayout.NonceGoesTo | src/miner/MinerEngine.cpp:149-213 | which eight characters become the nonce's digits, by the blob's length and its last characters |
| Blob.RawHoldsNonce | src/miner/MinerEngine.cpp:211-216 | in the bytes hashed the slot is the nonce, most significant byte first |
| Blob.RawDistinct | src/miner/MinerEngine.cpp:205-216 | hash inputs are equal if and only if the nonces are |
| Blob.BlobBatch | src/miner/MinerEngine.cpp:203-221 | the 2048 inputs and blobs of a batch, though the working copy is patched over and over |
| Blob.BatchDistinct | src/miner/MinerEngine.cpp:203-221 | a batch repeats no nonce if and only if 2^22 does not divide the step |
| Blob.BatchInputsDistinct | src/miner/MinerEngine.cpp:203-221 | the raw inputs of a batch are pairwise distinct if and only if 2^22 does not divide the step |
| Blob.MeetIffApart | src/miner/MinerEngine.cpp:203-206 | two stretches of a blob's nonces, from any bases, meet if and only if the bases are fewer steps apart modulo 2^32 than the stretches are long |
| Blob.ClassicWorkMovesBase | src/miner/MinerEngine.cpp:203-256 | 4096 classic batches bring worker 0 of two to the first nonce of worker 1 |
| Blob.BlobWorkDisjoint | src/miner/MinerEngine.cpp:122-123 | from their first nonces, with the step equal to their number, workers' batches are disjoint if and only if there are at most 256 workers |
| ClassicWork.HeadersDiffer | src/miner/MinerEngine.cpp:239-241 | before any cut two workers' headers differ if and only if the part of extranonce2 that survives it does |
| ClassicWork.HeadersInjective | src/miner/MinerEngine.cpp:134 | distinct workers have distinct headers before a cut when all of it survives |
| ClassicWork.LongPrefixSharesHeader | src/miner/MinerEngine.cpp:239-241 | when nothing of it survives a cut all headers are the same before it |
| ClassicWork.HeadersDistinctIffFits | src/miner/MinerEngine.cpp:239-241 | all workers have different headers before a cut if and only if the whole of extranonce2 survives it |
| ClassicWork.Sha256dInputs | src/hash/Sha256dAlgorithm.cpp:115-119 | data and nonce can be told from the bytes sha256d hashes |
| Cryptonight.BlocksAgree | src/hash/CryptonightAlgorithm.cpp:75-81 | for data of one length CryptoNight hashes the same block if and only if the first 72 bytes and the nonces agree |
| ClassicWork.InputsAgree | src/hash/CryptonightAlgorithm.cpp:75-81 | by either algorithm, headers and nonces give one input if and only if the headers agree as far as it reaches, 200 characters or 72, and the nonces do |
| ClassicWork.InputFits | src/hash/Sha256dAlgorithm.cpp:110-114 | every header and nonce fits the hash buffer |
| ClassicWork.NoDuplicatedWork | src/miner/MinerEngine.cpp:239-256 | by either algorithm, when all of extranonce2 lies within its reach two steps hash the same input if and only if they are one worker's, whole periods apart |
| ClassicWork.CollideIff | src/miner/MinerEngine.cpp:122-256 | by either algorithm, two workers ever hash one input if and only if their headers agree within its reach and the residue classes of their starts do, and then within a period |
| ClassicWork.WorkDistinctIffFits | src/miner/MinerEngine.cpp:239-256 | by either algorithm, over a period or longer no input is hashed by two workers if and only if the whole of extranonce2 lies within 200 characters, or 72 |
| ClassicWork.StandbyWork | src/main.cpp:76-89 | on the standby job sha256d keeps workers apart, while CryptoNight hashes one block for all of them at equal nonces |
| BlobInputs.BlobFits | src/hash/Sha256dAlgorithm.cpp:110-114 | a blob and a nonce fit the hash buffer if and only if the blob has at most 505 characters |
| BlobInputs.DataAgree | src/miner/MinerEngine.cpp:205-216 | up to any size, the data of two nonces agree if and only if the nonces do in the slot bytes below it |
| BlobInputs.BlobInputsAgree | src/hash/CryptonightAlgorithm.cpp:75-81 | by either algorithm, two nonces of a blob give one input if and only if they differ only in bytes that are not hashed: none under sha256d or below slot 69, all from slot 72 on |
| BlobInputs.FreshInputsDiffer | src/miner/MinerEngine.cpp:122-226 | from their first nonces different workers hash the same input of a blob if and only if no nonce byte is hashed |
| ShareTest.LeadingBits | src/miner/MinerEngine.cpp:28-34 | the accumulation loop is the big-endian value of eight bytes |
| ShareTest.LeadingDecides | src/miner/MinerEngine.cpp:28-34 | comparing 64 leading bits is comparing the 256-bit digest |
| ShareTest.ThresholdInRange | src/miner/MinerEngine.cpp:39-48 | the threshold fits 64 bits and is the greatest value for difficulty at most 1 |
| ShareTest.ThresholdIsDivision | src/miner/MinerEngine.cpp:39-48 | above difficulty 1 the test is (leading + 1) * difficulty <= 2^64 |
| ShareTest.EasierAccepts | src/miner/MinerEngine.cpp:39-48 | a share valid at one difficulty is valid at every lower positive one |
| ShareTest.ShareIsExact | src/miner/MinerEngine.cpp:228-252 | the whole test at every difficulty, as one comparison of 256-bit numbers, and as a division above difficulty 1 or all but the last value at or below it |
| JobQueue.SlotIsLatest | include/threading/JobQueue.hpp:29-47 | after any publishes the version counts them and the newest job is on offer |
| JobQueue.JobQueue.Publish | include/threading/JobQueue.hpp:29-33 | the history grows by the job |
| JobQueue.JobQueue.Current | include/threading/JobQueue.hpp:37-40 | the newest job, or none |
| JobQueue.JobQueue.Version | include/threading/JobQueue.hpp:45-47 | the number of publishes |
| Workers.StepKeeps | src/miner/MinerEngine.cpp:125-264 | every step of publisher, controller and workers keeps all invariants of the engine |
| Workers.VersionCountsPublishes | include/threading/JobQueue.hpp:29-47 | in every run the version is the number of publishes so far |
| Workers.WorkersNeverStick | src/miner/MinerEngine.cpp:125-264 | a worker has a next step if and only if it has not left its loop |
| Workers.StalenessIsBounded | src/miner/MinerEngine.cpp:217-264 | after a publish a worker makes at most 2048 more hashes on older jobs, only what is left of a batch in progress, and none if it was between jobs |
| Workers.StopIsPrompt | src/miner/MinerEngine.cpp:105-111 | after stop() clears the flag each worker makes at most one batch more |
| Workers.TotalsAgree | src/miner/MinerEngine.cpp:105-111 | hashesTotal is the sum over workers, and whole batches once all are joined |
| Workers.DifficultiesAreSet | src/miner/MinerEngine.cpp:65-76 | the difficulties of a run are 1.0 and then those that were set, in order |
| Workers.NewDifficultyIsPrompt | src/miner/MinerEngine.cpp:135 | once a difficulty is set a worker hashes against older ones only what is left of the batch it is in, and not at all if it has not loaded one, whatever follows |
| Workers.HashesFollowDifficulties | src/miner/MinerEngine.cpp:135 | every hash is made against the threshold of one of the difficulties set, and those of one worker in the order they were set |
| Workers.WinsIffMeets | src/miner/MinerEngine.cpp:228-252 | a hash wins if and only if its digest is below the threshold of its difficulty as 256-bit numbers and the job is not the standby one |
| Workers.HeaderOfJob | src/miner/MinerEngine.cpp:239-241 | what is hashed of a header is the first 200 characters of the job's seven fields and extranonce2, in the order of the source |
| Workers.WinnerVerifies | src/miner/MinerEngine.cpp:228-252 | a winning hash yields a share that verifies from its own fields and the published job's, by the digest the engine runs with |
| Workers.SharesAreHonest | src/miner/MinerEngine.cpp:228-252 | in every run the shares are exactly those of the winning hashes, each verifying against the job its hash was made on, not the standby one, and the difficulty in force when the batch of that hash began, by the digest the engine runs with |
| HeaderLayout.HeaderIsLaidOut | src/miner/MinerEngine.cpp:239-241 | for a job that fits in 200 characters its eight parts stand side by side in the header hashed, each behind those before it |
| HeaderLayout.LongHeaderIsCut | src/miner/MinerEngine.cpp:241 | of a longer one exactly the first 200 characters are hashed |
| HeaderLayout.Extranonce2NamesWorker | src/miner/MinerEngine.cpp:134-254 | the extranonce2 in the header and the share decodes to the worker, the share's nonce to the nonce hashed |
| Workers.WorkIsNeverRepeated | src/miner/MinerEngine.cpp:239-256 | the header branch over any run, however long: of two hashes of one template the later tries the same input if and only if its worker has gone whole periods since; no worker returns to an older job |
| BlobRuns.RepeatedIff | src/miner/MinerEngine.cpp:203-236 | at any moment of any run two workers have hashed one input of a blob if and only if they have hashes on it whose base nonces are no more steps apart than these are into their batches |
| BlobRuns.JoinedRepeatedIff | src/miner/MinerEngine.cpp:105-236 | once all are joined, if and only if two of their base nonces for the blob are fewer than 2048 steps apart |
| BlobRuns.OnlyBlobsNeverRepeat | src/miner/MinerEngine.cpp:122-236 | if only blobs are published and there are at most 256 workers no two are handed the same input |
| BlobSplit.MovedBySomeHeader | src/miner/MinerEngine.cpp:203-256 | a worker hashing a blob off its first nonce has seen an earlier header job |
| BlobSplit.CanRepeatIff | src/miner/MinerEngine.cpp:122-256 | some run of a published history hands two workers one blob input if and only if a blob comes after a header job, or there are more than 256 workers and a blob |
| Algorithms.BlobHashesAgree | src/miner/MinerEngine.cpp:203-226 | any two hashes of a run on one blob, by either algorithm, are of one input if and only if their places in the walks agree in the nonce bytes that are hashed |
| Algorithms.ClassicHashesAgree | src/miner/MinerEngine.cpp:239-256 | any two hashes of a run on one template are of one input if and only if headers agree within reach and places in the walks do |
| Algorithms.OwnWorkRepeatsIff | src/miner/MinerEngine.cpp:203-256 | in both branches and over any run a worker tries an input again if and only if it is whole periods further on |
| Algorithms.BatchesRepeat | src/miner/MinerEngine.cpp:203-236 | two batches of a worker on a blob job with no header in between repeat index by index, shares included |
| Algorithms.SecondBatchIsOld | src/miner/MinerEngine.cpp:203-236 | from its second batch on a blob job whatever a worker is about to hash is in the log, and a share it wins at the same threshold has been submitted |
| Algorithms.HashedTwiceIff | src/hash/CryptonightAlgorithm.cpp:75-81 | where the whole nonce is hashed two workers hash the same exactly when handed the same; where none is, always |
| Algorithms.OnlyBlobsHashedTwiceIff | src/miner/MinerEngine.cpp:122-236 | with only blobs and at most 256 workers two of them hash the same if and only if both worked on a blob of whose nonce nothing is hashed |
| PoolCheck.ThresholdIsPositive | src/miner/MinerEngine.cpp:39-48 | the threshold is above zero if and only if the difficulty is at most 2^64 |
| PoolCheck.OversizeAlwaysWins | src/hash/Sha256dAlgorithm.cpp:110-114 | with the code's sha256d every hash of a blob past 505 characters wins at any threshold above zero, unless the job is the standby one |
| PoolCheck.FittingWinsIff | src/miner/MinerEngine.cpp:223-252 | on jobs that fit a hash wins if and only if the standard's digest meets the threshold |
| PoolCheck.FittingShareVerifies | src/miner/MinerEngine.cpp:223-252 | and its share verifies for a pool that recomputes SHA-256d |
| PoolCheck.SharesUnderStandard | src/miner/MinerEngine.cpp:223-252 | over any run each share is confirmed by the standard's SHA-256d or comes from a blob past 505 characters, and on such blobs every hash is submitted |
| Wiring.JobIsNotified | src/network/StratumClient.cpp:302-349 | a job callback comes from a notification that names the job |
| Wiring.ShareIsAnnounced | src/main.cpp:221-234 | with the client's jobs published after the standby one, every share names a job some notification announced |
| Wiring.NoneAtFirstDifficulty | src/main.cpp:221-245 | no hash of the program is made against the difficulty the engine is built with |
| Wiring.ShareMeetsDifficulty | src/main.cpp:221-245 | every share verifies at 10^15 or at a difficulty some message set |
| Wiring.EverySubmissionIsAnnounced | src/main.cpp:210-234 | over all runs of client, engine and senders wired together, every whole line past the handshake is a submission naming a job from a notification the client received |
| StandbyRun.StandbyThenBlobRepeats | src/main.cpp:221 | after a classic standby job and any blob there is a run in which two workers hash the same blob input |
| Cryptonight.XorIntoState | src/hash/CryptonightAlgorithm.cpp:16-22 | the loop leaves the absorbed state, whose bytes the next three rows give |
| Cryptonight.AbsorbedByte | src/hash/CryptonightAlgorithm.cpp:16-22 | byte k of the input is XORed into byte k % 8 of lane k / 8, for every k, and nothing else changes |
| Cryptonight.AbsorbedFromZero | src/hash/CryptonightAlgorithm.cpp:94-95 | from the empty state byte k is the input's, and 0 beyond it |
| Cryptonight.AbsorbInjective | src/hash/CryptonightAlgorithm.cpp:94-96 | distinct inputs of one length reach Keccak as distinct states |
| CryptonightLayout.BlockLayout | src/hash/CryptonightAlgorithm.cpp:71-81 | the 76 bytes hashed: up to 72 of the input, zeros, and in the last four the nonce, least significant byte first |
| CryptonightLayout.NonceIsLittleEndian | src/hash/Sha256dAlgorithm.cpp:116-119 | the four nonce bytes are worth the nonce |
| CryptonightLayout.InputInLanes | src/hash/CryptonightAlgorithm.cpp:16-22 | byte b of lane i of what Keccak is given is byte 8 i + b of the input |
| CryptonightLayout.TurnByNumber | src/hash/CryptonightAlgorithm.cpp:113-121 | a turn XORs k into byte k below 16, three times k into byte 16 + k, nothing beyond |
| Cryptonight.FoldLanes | src/hash/CryptonightAlgorithm.cpp:98-103 | the nested loops compute the fold of 25 lanes |
| Cryptonight.FoldedIsGroup | src/hash/CryptonightAlgorithm.cpp:98-103 | each byte is the XOR over its group of eight lanes |
| Cryptonight.StirringIsParity | src/hash/CryptonightAlgorithm.cpp:113-121 | any even number of turns is the identity, any odd number one XOR pass |
| Cryptonight.StirringIsNotIdle | src/hash/CryptonightAlgorithm.cpp:113-121 | one pass does change the scratchpad |
| Cryptonight.SeedIsGroups | src/hash/CryptonightAlgorithm.cpp:91-111 | the repeated block in closed form, from sixteen lanes and sixteen input bytes |
| Cryptonight.CryptonightAlgorithm.InitScratchpad | src/hash/CryptonightAlgorithm.cpp:91-111 | the 2 MiB fill repeats that block whatever was there before |
| Cryptonight.CryptonightAlgorithm.MainLoop | src/hash/CryptonightAlgorithm.cpp:113-121 | n turns of the two XOR loops |
| Cryptonight.CryptonightAlgorithm.Hash | src/hash/CryptonightAlgorithm.cpp:71-89 | the digest is the block twice, for any Keccak and any earlier scratchpad |
| Ini.TrimIsCore | src/config/ConfigManager.cpp:13-18 | with blanks around it a text trims to itself if and only if its ends are not blank |
| Ini.ParseIni | src/config/ConfigManager.cpp:161-186 | the getline loop is the fold of lines over section and map |
| Ini.TextsCompose | src/config/ConfigManager.cpp:161-186 | two texts with a newline between are read one after the other |
| Ini.ParseIsOverlay | src/config/ConfigManager.cpp:161-186 | what the second says, started in the first's last section, is laid over what the first says; last write wins |
| Ini.NoiseIsIdle | src/config/ConfigManager.cpp:169-180 | a line changes nothing, whatever came before, if and only if it is blank, a comment or malformed |
| Ini.NoiseInserts | src/config/ConfigManager.cpp:169-180 | such lines can be inserted anywhere |
| IniLayout.HeadingIsRead | src/config/ConfigManager.cpp:173-176 | any name in brackets becomes the current section |
| IniLayout.EntryReadsBack | src/config/ConfigManager.cpp:177-183 | key=value is stored as written if and only if the entry is clean |
| IniLayout.RenderReadsBack | src/config/ConfigManager.cpp:161-186 | a written configuration parses to what it says |
| IniSpelling.SpacedEntryIsRead | src/config/ConfigManager.cpp:13-18 | with any of the four blanks, by their codes, around key and value an entry is stored as key and value |
| IniSpelling.UsualEntryIsRead | src/config/ConfigManager.cpp:177-183 | key = value with a space on either side |
| IniSpelling.ReturnedEntryIsRead | src/config/ConfigManager.cpp:161-183 | and on a line ended by a carriage return |
| IniSpelling.EntryWithoutHeading | src/config/ConfigManager.cpp:166-183 | before any heading an entry goes to the section without a name |
| IniSpelling.SpacedHeadingIsRead | src/config/ConfigManager.cpp:173-176 | a heading with blanks around it |
| IniSpelling.RemarkIsIdle | src/config/ConfigManager.cpp:170-172 | what starts with a semicolon or number sign behind its blanks says nothing |
| IniLayout.SayableIffClean | src/config/ConfigManager.cpp:161-186 | a section map is what some text says if and only if it is clean |

## Left out

- Sockets, DNS, poll, the interrupt pipe and reconnect delays: a connection is a failed attempt or an arbitrary list of chunks, and a send an arbitrary number of bytes taken.
- Logging, timestamps, help text, the command line, CPU detection, affinity, hash-rate statistics, the algorithm factory and the CPP_MINER_DBG_DIFF override: input and output, platform calls and single branches.
- JsonRoundTrip.RoundTrip: is for numbers that are integers and fit a long long; other numbers are printed at six digits, which loses the rest.
- JsonParser.DumpText: requires the same of its numbers; printing at stream precision is not modelled, and a long long overflow is undefined.
- JsonParser.Parser.ReadNumber: std::stod is modelled as a C library that detects underflow after rounding has it; zero has one sign.
- JsonParser.SetMember: Value objects are values here, so set and push return the new list instead of changing a shared one.
- Stratum.StratumClient.HandleResponse: a number outside the target type makes static_cast undefined; the model keeps the low 32 bits for the extranonce size and an unbounded integer for the id.
- Stratum.StratumClient: holds the fields of the receiving half and StratumSubmit.Sender those of the sending half; the two share no field. Callbacks are taken to be set, and they are recorded in order.
- StratumSubmit.PoolReadsSubmissions: request ids stop at 2^53; the 32-bit wrap-around of the counter is not modelled. One step is one locked line, whole or cut short.
- PoolProgress.RunsAreShort: bounds the number of steps; that the scheduler takes them, and that tasks end, is assumed.
- PoolCheck.SharesUnderStandard: is for jobs whose text is bytes.
- Wiring.EverySubmissionIsAnnounced: takes the wiring of main as a relation between the states reached, not as one more step system.
- ThreadPool.NoLostWakeup: assumes at least one worker, and no submission from outside once destruction has begun. Futures and exceptions of tasks are not modelled.
- Termination of the pool's destructor: the code does not guarantee it; StrandedIffFalling says when it can fail.
- ClassicWork.WorkDistinctIffFits: is for steps with at most 24 factors of two; past that CollideIff decides each pair of workers.
- Workers.StepKeeps: relaxed atomics are modelled as one order of steps; the local lastJobVersion is left out because nothing reads it; start and stop happen once.
- Workers.WorkersNeverStick: assumes blobs that are empty, shorter than 4, or hexadecimal with at least 8 characters, since others read or write out of bounds or end the thread with an exception; and an extranonce size below 2^30.
- Workers.VersionCountsPublishes: the version counter is unbounded, its wrap at 2^64 is not modelled; the same holds for the hash counter.
- Blob.BlobWorkDisjoint: assumes that the capacity of the workers' vector is their number, as does BlobSplit.CanRepeatIff; the other results take any capacity.
- ShareTest.ThresholdIsDivision: difficulties are reals; rounding, NaN and infinity are not modelled.
- Sha256Padding.PadInjective: for messages below 2^61 bytes, where the 64-bit length does not wrap.
- Cryptonight.CryptonightAlgorithm.Hash: Keccak is an arbitrary function of 25 lanes; the code's version reads lanes it has not set and shifts by 64, so no agreement with Keccak or CryptoNight is claimed.
- ConfigManager's parseSections, validate, toBool and toUInt: lookups with defaults and clamping, settled by reading one branch each.
- The recordShareResult counters: one increment per submit callback, and the callbacks are counted by StratumRuns.ResultsAreVerdicts.
