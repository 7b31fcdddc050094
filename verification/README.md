# LibreEcho daemon: verified model

A Dafny model of the stateful core of the LibreEcho web daemon, kept beside its C sources. Imperative C is
modelled by classes and loops proved against specification functions; what the sources promise is then proved
about those functions and about whole runs.

| files | what they model |
|---|---|
| `Bytes`, `JsonGrammar`, `JsonRecogniser`, `JsonCorrect`, `JsonCursor` | the JSON recogniser of `json.c` against the grammar of RFC 8259 |
| `JsonScanners`, `JsonMembers` | the hand-written brace counters and the top-level key lookups |
| `Utf8`, `JsonStrings`, `JsonDecoded`, `JsonEscape` | UTF-8 checks, string decoding and what it means, truncating escaper, and the round trip between them |
| `NewsOrder`, `News`, `NewsPlain`, `NewsFeed` | the news feed reader of `news.c`, and items in plain terms |
| `Sha256`, `Sha256Bits`, `Sha256Auth`, `Sha256Shared`, `Sha256Agree` | FIPS 180-4 and the two streaming implementations |
| `HashCache`, `HashJob` | the provenance hash cache and its incremental hash job |
| `Sessions`, `LoginLimiter` | the session table with its file, and the login limiter |
| `VoicePipeline`, `VoiceMachine` | the voice-pipeline transition machine: its steps, and the handlers in `api.c` |
| `VoiceCoupling`, `VoiceLedger`, `VoiceToggle`, `VoiceSaved`, `VoiceEndpoints` | what holds over its runs |
| `VoiceAnswers` | what its requests accept and answer, from what they meet alone |
| `AudioOwner` | the restart worker |
| `FactoryReset` | quiesce, clear and resume around a factory reset |
| `SnapshotGate`, `ProvenanceJob` | snapshots of the installed files and the gate in front of the provenance report |
| `UpdateStderr`, `WorkerRegistry` | the failure reason of an update, and the table of forked workers |
| `Wrappers` | `Option` |

`dafny verify dfyconfig.toml` checks the project.

Clocks, `waitpid`, `fork`, file contents, the results of saves and of init scripts are parameters, so a contract
speaks of every outcome. C strings are byte or character sequences up to their terminator. Ghost logs (`log`,
`runs`, `trace`, `children`, `fed`, `all`) record what happened and are only used in specifications.

Specification functions that the code mirrors are pinned down by lemmas in terms that do not mention them: texts by
their characters, numbers by their values, words by their bits, commands by where they stand in the trace.

Where the code does not do what one would expect, the model follows the code and says so:

- The decoder refuses characters below 0x20 even as escapes, so what the escaper writes for them does not come
  back (`JsonEscape.LineFeedDoesNotReturn`; `JsonEscape.RoundTrip` gives the exact condition).
- A Home Assistant toggle computes the old integration bit before its own poll. When the worker of a transition
  fails between the poll that starts the request and that one, the poll undoes the transition, and mode and bit
  come apart (`VoiceCoupling.CouplingRaced` says exactly when, `VoiceCoupling.CouplingThroughout` over runs,
  `VoiceCoupling.RaceReached` gets there from a load). All other fields stay atomic (`VoiceLedger.LedgerRun`).
- `local_only` belongs to the rollback snapshot, so a privacy change accepted during a transition is lost when the
  transition is undone (`VoiceLedger.PrivacySurvives` says exactly when it is not).
- Endpoints are only checked when the request selects custom mode, so going back to custom can bring an unchecked
  one into use (`VoiceEndpoints.UsableStep` says exactly which requests do it, `VoiceEndpoints.UncheckedEndpoint`
  is one).
- Local mode accepts endpoints that a restart does not read back, so a toggle with a restart in between may lose
  them (`VoiceToggle.ToggleRoundTrip` gives the exact condition).
- When the stop of the satellite and that of a local daemon both fail, two audio owners can be left running
  (`AudioOwner.TwoOwners`; `AudioOwner.RestartKeepsOneOwner` gives the exact condition).
- A boot with a negative `--tls-port`, or whose HTTPS socket cannot be had, never calls `api_set_https_active`
  and so leaves the session file in place: ended sessions can come back (`Sessions.SkippedBootForgetsNothing` and
  `Sessions.ComesBackIff` say exactly which). Every other boot loads the file or removes it (`Sessions.Table.Boot`).

## Model

| member | source | states |
|---|---|---|
| `JsonCorrect.AcceptsIffGrammar` | src/json.c:12-202 | A byte string is accepted exactly when it is blanks, one object of the RFC 8259 grammar (sections 2 to 7, byte-level strings) nested at most 64 deep, blanks; the grammar is a separate tree with its own rendering |
| `JsonCorrect.AcceptsSound` | src/json.c:194-202 | Acceptance yields a syntax tree whose rendering, with the blanks around it, is the input |
| `JsonCorrect.AcceptsComplete` | src/json.c:194-202 | Every rendering of a legal tree with blanks around it is accepted |
| `JsonCorrect.ValueSound` | src/json.c:179-192 | Where the scan of a value succeeds, a legal tree of the remaining depth is written there and the scan stops at its end |
| `JsonCorrect.ValueComplete` | src/json.c:179-192 | Where a legal tree is written and its number is delimited, the scan succeeds and stops at its end |
| `JsonCorrect.ObjectSound` | src/json.c:146-162 | The same for objects: what the member loop accepts is a legal list of members |
| `JsonCorrect.ObjectComplete` | src/json.c:146-162 | Every legal object within the depth left is accepted to its closing brace |
| `JsonCorrect.ArraySound` | src/json.c:164-177 | What the array loop accepts is a legal list of items |
| `JsonCorrect.ArrayComplete` | src/json.c:164-177 | Every legal array within the depth left is accepted to its closing bracket |
| `JsonCorrect.StringSound` | src/json.c:31-52 | What `parse_string` consumes is a quoted run of raw bytes above 0x1F and legal escapes |
| `JsonCorrect.StringComplete` | src/json.c:31-52 | Every such string is consumed to its closing quote |
| `JsonCorrect.NumberSound` | src/json.c:118-142 | What `parse_number` consumes is a number of the grammar (no leading zeros, digits after point and exponent) |
| `JsonCorrect.NumberComplete` | src/json.c:118-142 | Every delimited number of the grammar is consumed whole |
| `JsonGrammar.Alphabet` | src/json.c:12-142 | White space, digits, hexadecimal digits, escapes and raw bytes of the grammar, by their characters |
| `JsonGrammar.Words` | src/json.c:118-192 | The punctuation, the three literals and the nesting limit, by their characters |
| `JsonCursor.Cursor.ParseString` | src/json.c:31-52 | The cursor loop ends where the string of the specification ends, or fails with it; it never leaves the input |
| `JsonCursor.Cursor.ParseNumber` | src/json.c:118-142 | The same for numbers |
| `JsonCursor.Cursor.ParseObject` | src/json.c:146-162 | The same for objects, and the depth counter is back where it was on success |
| `JsonCursor.Cursor.ParseArray` | src/json.c:164-177 | The same for arrays |
| `JsonCursor.Cursor.ParseValue` | src/json.c:179-192 | The mutual recursion terminates on the remaining input and agrees with the specification on every input, depth and position |
| `JsonCursor.ValidObject` | src/json.c:194-202 | The cursor implementation of `json_valid_object` returns true exactly on the documents of the grammar |
| `JsonScanners.Container` | src/backend_linux.c:425-463 | The brace counter copies, into a buffer that has room, exactly the text up to where its counter closes, and fails otherwise |
| `JsonScanners.NextArrayObject` | src/backend_linux.c:2266-2310 | The object iterator finds the next brace and copies to where the counter closes, with the same failure cases |
| `JsonScanners.NextElement` | src/news.c:73-99 | The element iterator agrees with its specification from every position |
| `JsonScanners.ContainerEnds` | src/backend_linux.c:425-463 | Started at any object (or array) of valid JSON, whatever its nesting and strings, the counters close exactly at its end |
| `JsonScanners.CountersEndObjects` | src/backend_linux.c:425-463 | Wherever `parse_object` succeeds, the brace counters stop at the same byte |
| `JsonScanners.CountersEndArrays` | src/backend_linux.c:425-463 | Wherever `parse_array` succeeds, the bracket counter stops at the same byte |
| `JsonMembers.ParseStringKey` | src/json.c:63-108 | The key reader consumes exactly what `parse_string` consumes, and reports a match exactly when the decoded name is the ASCII key |
| `JsonMembers.ObjectMembers` | src/json.c:543-606 | With room for them, the members are listed as the spans of the specification; it refuses a damaged object and one with more members than room |
| `JsonMembers.DocumentMembers` | src/json.c:543-606 | On every accepted document the spans are the members of its tree, in order and disjoint: decoded names and value texts |
| `JsonMembers.SpansOfTree` | src/json.c:543-606 | The spans found in any rendered member list are those of the list |
| `JsonMembers.ListsIffGrammar` | src/json.c:543-606 | The listing succeeds exactly on documents nested one level deeper than `json_valid_object` allows, since it does not count the outer brace |
| `JsonMembers.DuplicateKey` | src/json.c:247-272 | True exactly when the object can be listed and at least two of its decoded names equal the key |
| `JsonMembers.TopLevelBool` | src/json.c:204-245 | 1, 0 or -1 exactly for one boolean member of that name, no member of it, or anything else |
| `Utf8.ValidIffWellFormed` | src/api.c:67 | The byte-range test accepts exactly the concatenations of encodings of Unicode scalar values (section 4 of RFC 3629) |
| `Utf8.ValidUtf8` | src/api.c:67 | The index loop of the API returns true exactly on those |
| `Utf8.TimerValidUtf8` | src/backend_linux.c:2312-2365 | The timer's separate loop returns true exactly on those |
| `JsonStrings.AppendCodepoint` | src/json.c:429-456 | Appends exactly the UTF-8 encoding when it fits and leaves the buffer alone when it does not |
| `JsonStrings.GetStringAt` | src/json.c:458-526 | Succeeds exactly when the string decodes and fits with its terminator, and then the buffer holds the decoded bytes, surrogate pairs joined |
| `JsonStrings.ReadCodepoint` | src/json.c:458-526 | A `u` escape, or a pair of them, gives the scalar value of section 7 of RFC 8259, and lone surrogates are refused |
| `JsonDecoded.EncodeMeans` | src/json.c:429-456 | The encoding of a scalar value stands for it by section 3 of RFC 3629, in as few bytes as can |
| `JsonDecoded.EncodeOnly` | src/json.c:429-456 | No other bytes of that length do |
| `JsonDecoded.HexDigitsMean` | src/json.c:54-60 | All 22 hexadecimal digits have their values, other bytes none |
| `JsonDecoded.DecodeMeans` | src/json.c:458-526 | A string of the grammar decodes to what its characters mean one by one: raw bytes, the escapes of quotation mark, backslash and slash, and scalar values of escapes and of joined pairs; all else refuses it |
| `JsonDecoded.StringMeans` | src/json.c:458-526 | The same from the quotation mark on |
| `JsonDecoded.NameCharsMean` | src/json.c:63-108 | The code that each kind of character has when names are compared with keys |
| `JsonEscape.JsonEscape` | src/json.c:701-729 | Writes the escape of the longest prefix that fits in any buffer of at least one byte, never cutting an escape, and the terminator |
| `JsonEscape.EscapeParses` | src/json.c:701-729 | Quoting any escaped text always satisfies `parse_string` |
| `JsonEscape.EscapeDecodes` | src/json.c:458-526 | Quoting escaped text decodes to the text exactly when no byte of it is below 0x20, and otherwise fails |
| `JsonEscape.RoundTrip` | src/json.c:701-729 | Escaping, truncating, quoting and decoding gives the kept prefix back exactly when it has no byte below 0x20 |
| `JsonEscape.EscapeSpells` | src/json.c:701-729 | The escape of every byte, controls included, stands for that byte to a parser that resolves all escapes |
| `JsonEscape.LineFeedDoesNotReturn` | src/json.c:501-522 | A line feed is escaped but its escape is refused by the decoder: the round trip fails on it |
| `JsonEscape.DecodeKeepsUtf8` | src/json.c:458-526 | If the raw bytes of a string are valid UTF-8, so is what it decodes to, surrogate pairs included |
| `JsonEscape.StringKeepsUtf8` | src/json.c:458-526 | The same from the opening quote of a string that parses |
| `NewsOrder.CompareMeans` | src/news.c:163-168 | The comparison is the order of bytes: a proper prefix comes first, else the smaller byte where two texts first differ |
| `NewsOrder.SortCorrect` | src/news.c:163-172 | Insertion sort gives a sorted permutation under date descending, then id ascending |
| `NewsOrder.SortItems` | src/news.c:163-172 | The in-place loops sort the first `count` items so and leave the rest of the buffer alone |
| `NewsOrder.DistinctIdsSortStrictly` | src/news.c:163-172 | With distinct ids the order is strict, so the result is unique |
| `News.ParseItem` | src/news.c:101-132 | Accepts an element exactly when its members, no raw name twice (unknown ones included), decode and fit and satisfy the id, date, text and URL rules, and then returns that item |
| `News.ReadsAsUnique` | src/news.c:101-132 | An element reads as one item at most |
| `NewsPlain.ReadsAsMeans` | src/news.c:101-132 | Reading as an item is exactly this: each field is what the member of its name says, within its size, and id, date, texts, URL and severity meet rules stated over bytes, numbers and parts of the URL |
| `NewsPlain.KnownKindMeans` | src/news.c:128-130 | The four types that are known, by name |
| `NewsPlain.SpanMeans` | src/json.c:649-658 | A span says a text exactly if it is one string of the grammar between blanks that means the text, which fits with its terminator |
| `NewsPlain.UrlMeans` | src/news.c:13-32 | A URL is accepted exactly if it is https, one of three hosts, and nothing or a path, query or fragment behind it, in allowed bytes |
| `NewsPlain.DatesCompare` | src/news.c:163-168 | Dates compare as the numbers of their days |
| `News.StringSpan` | src/json.c:649-658 | A span is a string value exactly when one string with blanks around it fills it and its decoding fits |
| `News.FindTopLevelKey` | src/json.c:288-331 | On any text, the value position of the first member with the raw name that whole, comma-separated members lead up to, or none |
| `News.NamedFromSound` | src/json.c:300-331 | A position that is found has only whole members with other names in front of it, and a member of the name there |
| `News.NamedFromComplete` | src/json.c:300-331 | Conversely every such position is the one found, whatever stands behind it |
| `News.TopLevelKeyIsFirst` | src/json.c:288-331 | On an object whose members can be listed it is the first member of that raw name |
| `NewsFeed.NewsParse` | src/news.c:134-172 | For a buffer of any size, accepts a document exactly when it is a feed: valid JSON of the right schema whose array elements all read as items, at most 20, none repeating the id of a stored one; the result is the first known items that fit, sorted |
| `NewsFeed.AnswerOrder` | src/news.c:134-172 | Of any two items of an answer the first has the later day, as year, month and day, or the same day and an id that comes earlier in the order of bytes |
| `NewsFeed.RoomForAll` | src/news.c:134-172 | With room for 20 items, all known ids of a feed are different and none of its known items is cut off |
| `NewsFeed.FeedArrayUnique` | src/news.c:134-158 | The array of a feed, and so what the feed is read as, is determined by the bytes |
| `Sha256Auth.Context.Update` | src/auth.c:96-113 | Any update leaves the state at the fold of compression over the whole blocks of everything fed so far, the rest in the block buffer |
| `Sha256Auth.Context.CompressBlock` | src/auth.c:54-84 | One block is compressed by the rounds of section 6.2.2 of FIPS 180-4 |
| `Sha256Auth.Context.Final` | src/auth.c:115-136 | The digest is that of the padding of section 5.1.1 of FIPS 180-4, for any message under 2^61 bytes |
| `Sha256Auth.DigestHex` | src/auth.c:138-147 | The characters are the 64 hexadecimal digits of the eight words |
| `Sha256Auth.HashPassword` | src/auth.c:149-160 | The stored form is the digest of salt, colon and password |
| `Sha256Shared.Context.Update` | src/le_sha256.h:82-98 | The second buffering loop keeps the same fold over everything fed |
| `Sha256Shared.Context.Transform` | src/le_sha256.h:41-69 | Its block transform is the same compression |
| `Sha256Shared.Context.UpdateZeros` | src/le_sha256.h:100-115 | Padding byte by byte through the update loop stops behind exactly the zeros of section 5.1.1 |
| `Sha256Shared.Context.Final` | src/le_sha256.h:100-115 | The same 64 characters, or nothing when the output has no room for them |
| `Sha256Shared.HashChunks` | src/le_sha256.h:71-115 | Any split of a message into updates gives the digest of the message |
| `Sha256Agree.AuthChunks` | src/auth.c:86-147 | The same for the implementation of `auth.c` |
| `Sha256Agree.BothDigests` | src/auth.c:86-147 | Both implementations give the same 64 characters for the same message, each cut up in its own way |
| `Sha256Bits.ChMajMean` | src/auth.c:25-33 | Choice and majority, bit by bit |
| `Sha256Bits.SumsMean` | src/auth.c:75-77 | The two large sums of section 4.1.2 of FIPS 180-4 are these three rotations, bit by bit |
| `Sha256Bits.SigmasMean` | src/auth.c:66-69 | The two small ones are two rotations and a shift |
| `Sha256Bits.ConstantsMean` | src/auth.c:35-52 | The round constants are the first 32 bits of the fractions of the cube roots of the first 64 primes |
| `Sha256Bits.InitialMeans` | src/auth.c:86-94 | The initial value is that of the square roots of the first eight |
| `Sha256Bits.ScheduleMeans` | src/auth.c:54-84 | The message schedule as sums modulo 2^32 |
| `Sha256Bits.RoundMeans` | src/auth.c:54-84 | One round as sums modulo 2^32 |
| `Sha256Bits.BlocksMean` | src/auth.c:54-113 | 64 rounds in order of constants and words, the sums with the hash so far, and block after block from the initial value |
| `Sha256Bits.PadMeans` | src/auth.c:115-136 | The padded message: a one bit, the fewest zeros, and the length in bits as the number of the last eight bytes |
| `Sha256Bits.HexMeans` | src/auth.c:138-147 | The eight digits of each word write that word |
| `HashCache.VictimExists` | src/feature_provenance.c:826-841 | On any table an entry of the chosen victim class exists, so the final fallback slot is dead code |
| `HashCache.DigestMeans` | src/feature_provenance.c:673-806 | A persisted digest is a finished entry under the root whose path has no line feed and no component ".." |
| `HashCache.CountMeans` | src/feature_provenance.c:826-831 | The digest count is the number of slots that hold one |
| `HashCache.Cache.CacheHash` | src/feature_provenance.c:808-851 | The loops choose the slot of the specification (own path, first free, victim), move `next` past it, and keep the cache truthful |
| `HashCache.Cache.ChooseVictim` | src/feature_provenance.c:826-839 | Count and search agree with the class rule and the round-robin order |
| `HashCache.Cache.CachedHash` | src/feature_provenance.c:635-643 | A hit is the entry most recently recorded for the path, with the identity asked for; a miss means no slot has both |
| `HashCache.StaysTruthful` | src/feature_provenance.c:808-851 | At most one slot a path, each holding what was last recorded for it, after every recording |
| `HashCache.OnlyFullEvicts` | src/feature_provenance.c:815-841 | Recording leaves every other path's entry where it is while the path has a slot or a slot is free; what a full table evicts is of the victim class |
| `HashCache.DigestsCapped` | src/feature_provenance.c:826-851 | On a full table a new path never raises the digest count above the larger of its old value and 24 |
| `HashCache.MovesBackByOne` | src/feature_provenance.c:834-851 | A new runtime entry ages every newer kept runtime entry by exactly one and evicts none of the seven newest |
| `HashCache.ReserveHolds` | src/feature_provenance.c:815-851 | From a full table with at most 24 digests, any run of new runtime paths moves no digest and keeps the eight most recent paths |
| `HashJob.HexIsValid` | src/feature_provenance.c:379-388 | The digest of a finished job always passes `valid_hash` |
| `HashJob.Job.Start` | src/feature_provenance.c:881-902 | Another path never displaces a running job; only a changed identity of the same path restarts it |
| `HashJob.Job.Step` | src/feature_provenance.c:904-937 | A step reads on, or ends the job with one record: the digest of exactly the bytes read, only at their full number, unchanged |
| `HashJob.Job.Finish` | src/feature_provenance.c:868-879 | A digest is recorded only if the path still has the identity from before |
| `HashJob.HashFile` | src/feature_provenance.c:868-937 | A whole job, in any chunks, records the digest of the file's bytes exactly when size and identity held, and else no digest |
| `Sessions.Table.IssueToken` | src/auth.c:285-322 | The first slot that is not live, or slot 0, gets the new session; the eviction flag is set exactly for a persisted one |
| `Sessions.Table.SavePersisted` | src/auth.c:382-438 | The file becomes the persisted sessions in slot order, or stays as it was |
| `Sessions.Table.SaveIssuedSession` | src/auth.c:440-460 | The issued session is marked and saved, or unmarked again when the save fails |
| `Sessions.Table.LogIn` | src/api.c:2106-2109 | A login saves over HTTPS, saves over HTTP when it displaced a persisted session, and keeps the flag when a save fails |
| `Sessions.Table.LogOut` | src/auth.c:369-378 | Every slot with the token is cleared, and saved while HTTPS is up |
| `Sessions.Table.RemoveKnownUser` | src/auth_user_management.inc:241-269 | Every session of the user is cleared, and saved while HTTPS is up |
| `Sessions.Table.CheckToken` | src/auth.c:346-367 | Admits exactly a live session with the token, and clears the expired ones in front of it |
| `Sessions.Table.LoadSessions` | src/auth.c:462-502 | The first eight unexpired rows of known users come back as persisted sessions |
| `Sessions.Table.SetHttpsActive` | src/api.c:52 | The listener coming up loads the file; HTTPS not asked for or given up removes it |
| `Sessions.Table.Boot` | src/main.c:184-220 | Which boots start; one that asks for HTTPS on a port of its own with certificate, socket, bind and relay (src/http_server.c:392-410) working serves it, and every unexpired row of a known user is admitted; one that makes a call and does not serve removes the file |
| `Sessions.BootMeans` | src/main.c:184-220 | Over the saved flag, the ports and what works: exactly which boots refuse to start, serve HTTPS, or make no call (src/http_server.c:394-396); one that asks for no HTTPS turns it off |
| `Sessions.LoadedIs` | src/auth.c:462-502 | A loaded table holds exactly the loadable rows, once each |
| `Sessions.SavedRows` | src/auth.c:408-414 | A saved file holds exactly the persisted sessions, once each |
| `Sessions.SoundStep` | src/auth.c:285-502 | Unique tokens, and agreement of rows and sessions that share one, hold after every step whether saves succeed or not |
| `Sessions.RunStaysSafe` | src/auth.c:285-502 | With successful saves, throughout any run of logins, logouts, checks, user changes and restarts every unexpired row is a persisted session in memory, exactly unless a boot that makes no call finds an unexpired row |
| `Sessions.RestartAdmits` | src/auth.c:462-502 | A restart admits exactly the unexpired persisted sessions from before it, for the same user and with the same expiry |
| `Sessions.LoginDisplaces` | src/auth.c:297-318 | A login ends a live session exactly when all eight are live, and then the first; the new token is admitted for twelve hours |
| `Sessions.LoginRefuses` | src/auth.c:297-318 | Seen from outside: an admitted token is refused after a login exactly if all eight slots held admitted tokens and it was the first; the new one is admitted for 43200 seconds |
| `Sessions.ComesBackIff` | src/auth.c:285-502 | A refused token can be admitted again without being issued, by any further run and failing saves included, exactly when the session file has an unexpired row for it |
| `Sessions.RunFromFirstBoot` | src/auth.c:285-502 | From the very first boot on, saves succeeding and no boot making no call on an unexpired row, every unexpired row is a persisted session in memory |
| `Sessions.NoSessionComesBack` | src/auth.c:285-502 | Once a session has ended (logout, displacement, expiry, removed user, any boot) with that step saved, its token can come back exactly if the step was a boot that makes no call and left it an unexpired row |
| `Sessions.SkippedBootForgetsNothing` | src/http_server.c:392-396 | A boot that makes no call refuses every token, and one can come back after it exactly if its session was persisted and has not expired |
| `LoginLimiter.Limiter.RateLimited` | src/api.c:2050 | Refuses exactly while the minute after a fifth failure lasts; a window has always ended when its block ends |
| `LoginLimiter.Limiter.RecordFailure` | src/api.c:2051 | The failure is logged, the fifth of a window blocks |
| `LoginLimiter.Limiter.LogIn` | src/api.c:2106 | A password is checked exactly when no block lasts; failures are logged at their times; success starts over |
| `LoginLimiter.BlocksLast` | src/api.c:2050-2051 | The block of a fifth failure never ends before its window |
| `LoginLimiter.AppendKeeps` | src/api.c:2050-2051 | Ten failures in a row span a minute, and nothing is checked for a minute after a blocking one, after every further failure |
| `LoginLimiter.AtMostNine` | src/api.c:2050-2051 | Any half-open minute holds at most nine failed checks |
| `VoiceLedger.PollSettles` | src/api.c:477-520 | A poll accepts the outstanding transition, puts back exactly the captured fields, or leaves it; nothing else in the context changes |
| `VoiceLedger.PipelineSettles` | src/api.c:2524-2609 | 200 and 202 only for the requested target, with a fork only when nothing is outstanding or left over; every refusal leaves the fields as accepted before |
| `VoiceLedger.UpdatedFields` | src/api.c:890-990 | What an accepted body says goes and what it leaves out stays, field by field; custom mode is only accepted with two valid URIs |
| `VoiceLedger.ToggleSettles` | src/api.c:2762-2893 | The same for the Home Assistant toggle; a refusal puts the bit at what the mode said before the poll |
| `VoiceLedger.StepBooked` | src/api.c:443-520 | After any step, whatever its poll collects, the fields are what a ledger kept from the request, its status and the collected exit alone says: settled at once, pending on the worker, or undone; only a racing toggle is apart |
| `VoiceLedger.RacedStep` | src/api.c:2762-2893 | A racing toggle ends the transition and leaves every field as the ledger says, save the integration bit |
| `VoiceLedger.StepBookedButBit` | src/api.c:443-520 | From any state whatever, a step leaves the fields other than that bit as the ledger says |
| `VoiceLedger.LedgerRun` | src/api.c:443-520 | Over any run from any state, races included, of polls, requests, privacy changes, saves and restarts in any order and with any outcomes, the fields other than the integration bit are those of the ledger; the bits of other integrations stay |
| `VoiceLedger.LedgerRunExact` | src/api.c:443-520 | Over a run without a race the bit is the ledger's, too |
| `VoiceLedger.RunFromLoad` | src/api.c:443-715 | From any load on and over any run the fields are those settled, or the target of the outstanding transition with the settled ones captured; the integration bit, too, unless a toggle raced |
| `VoiceLedger.LeftoverFailsOne` | src/api.c:610-643 | A leftover failure fails the one request that reaches `apply_voice_pipeline_mode`: it forks nothing, changes no field, and uses the failure up |
| `VoiceLedger.LeftoverRun` | src/api.c:610-643 | It stays through every run of steps up to that request |
| `VoiceLedger.PrivacySurvives` | src/api.c:2714-2757 | A `local_only` change accepted during a transition is still there when the worker is collected exactly if the transition succeeded or had the same value to put back |
| `VoiceCoupling.CouplingRun` | src/api.c:657-990 | In every run without a racing toggle: mode is home-assistant exactly when bit 0 is set, and excludes `local_only` |
| `VoiceCoupling.CouplingRaced` | src/api.c:2762-2893 | A toggle whose own poll undoes a transition into or out of home-assistant mode breaks that, exactly unless the rollback could not start, the request was saved, and it asked for the mode gone back to (or the backend is the mock) |
| `VoiceCoupling.CouplingThroughout` | src/api.c:657-990 | Throughout any run the coupling holds exactly if every such race in it meets that condition |
| `VoiceCoupling.StartIsConsistent` | src/api.c:657-715 | Loading any saved configuration, damaged or not, gives a coupled state |
| `VoiceToggle.ReloadKeeps` | src/api.c:657-715 | Saving and loading keeps every field of a coupled configuration in range but the endpoints and models that cannot be read back; a mode counts as remembered exactly when its text is local or custom |
| `VoiceSaved.LoadTwice` | src/api.c:657-715 | What was loaded, from any file, loads the same once it is saved |
| `VoiceSaved.MirroredRun` | src/api.c:443-715 | With rollbacks, refusals and privacy changes saved and no race, a restart reads after any run what it would read if the fields were saved now |
| `VoiceSaved.RestartBringsBack` | src/api.c:443-715 | After such a run from any load a restart brings back every field and bit, but for endpoints that cannot be read back and the name of a mode that is not remembered |
| `VoiceCoupling.RaceReached` | src/api.c:2762-2932 | The race is reached from a load: Home Assistant on, the poll that starts the next toggle finds the worker running, and it fails before the poll of the handler; mode and bit are then apart |
| `VoiceEndpoints.UsableStep` | src/api.c:956-963 | Custom mode, or Home Assistant remembering it, keeps two valid URIs over a step of one process exactly unless a request asks for Home Assistant remembering custom with an endpoint that is no URI, nothing is outstanding, its save succeeds, and it is served by the mock or by a worker that does not fail at once |
| `VoiceEndpoints.SafeBody` | src/api.c:956-963 | A body that asks for another mode than home-assistant, or leaves two URIs behind, never breaks it |
| `VoiceEndpoints.UsableRun` | src/api.c:956-963 | In a run of one process the property holds up to exactly the first such request |
| `VoiceEndpoints.OnlyHomeAssistantUnchecked` | src/api.c:956-963 | Such a request asks for home-assistant mode; custom mode is never accepted unchecked |
| `VoiceEndpoints.UncheckedEndpoint` | src/api.c:956-963 | Such requests exist wherever Home Assistant remembers custom: the endpoint "x" is accepted |
| `VoiceEndpoints.UnusableReturns` | src/api.c:2799-2829 | Turning Home Assistant off then runs custom mode on just those endpoints |
| `VoiceEndpoints.UsableLoad` | src/api.c:657-715 | A load gives the property exactly if the loaded configuration does not need endpoints or both were saved as URIs; others are dropped |
| `VoiceToggle.ToggleRoundTrip` | src/api.c:2799-2829 | Home Assistant turned on any number of times and then off, restarts anywhere in between, gives back the original mode and changes no other bit; the endpoints are back exactly if a restart reads them back unchanged or there was none |
| `VoiceMachine.Machine.ReapWorker` | src/api.c:477-520 | The handler code is the poll of the specification, and the children are at most the one tracked worker |
| `VoiceMachine.Machine.ApplyMode` | src/api.c:610-643 | Reports a leftover, missing scripts or a failed fork, or tracks the one new child |
| `VoiceMachine.Machine.UpdateVoice` | src/api.c:890-990 | Accepts exactly the acceptable bodies and touches nothing otherwise |
| `VoiceMachine.Machine.HandlePipeline` | src/api.c:2496-2610 | The handler, with its field-by-field undoing, is the step of the specification, status included |
| `VoiceMachine.Machine.HandleHomeAssistant` | src/api.c:2762-2893 | The same for the toggle, from the inner handler's bit on |
| `VoiceMachine.Machine.HandlePrivacy` | src/api.c:2714-2757 | The same for `local_only` |
| `VoiceMachine.Machine.SaveConfiguration` | src/api.c:2934 | A save of the configuration polls first and is the step of the specification |
| `VoiceAnswers.UriMeans` | src/adapter/wyoming_client.c:14-65 | A text is a URI exactly if it is tcp://, a host of 1 to 255 characters, bracketed or not, a colon and at most seven digits whose decimal value is 1 to 65535, in fewer than 320 characters |
| `VoiceAnswers.BodyMeans` | src/api.c:890-990 | A body is accepted exactly if no member is malformed, the three numbers are in their ranges, the mode is one of three, both models are tokens, and custom mode has two URIs |
| `VoiceAnswers.PipelineAnswers` | src/api.c:2496-2610 | The status of a pipeline request from what it meets: 409 exactly while something is outstanding, 400 exactly for a body that is not accepted, and 200, 202, 501 or 503 by save, leftover, scripts, fork and worker |
| `VoiceAnswers.ToggleOutcome` | src/api.c:2762-2893 | The same for the toggle |
| `VoiceAnswers.ToggledFields` | src/api.c:2799-2829 | What the toggle does to the mode, the remembered mode and the bit, and that it leaves all else |
| `VoiceAnswers.SelectedReturns` | src/api.c:2542-2552 | Home Assistant selected by a body is left for the mode from before as well |
| `VoiceAnswers.LoadEndpoints` | src/api.c:657-715 | A load takes URIs and tokens as they are and replaces anything else by its default |
| `VoiceAnswers.LoadNumbers` | src/api.c:657-715 | And the numbers |
| `VoiceAnswers.FirstStart` | src/api.c:657-715 | A device without a saved configuration starts in local mode with the default models and numbers |
| `VoiceAnswers.LoadModes` | src/api.c:657-715 | And says the mode, the bit, `local_only` and the remembered mode of any saved configuration |
| `AudioOwner.Host.RestartPipeline` | src/api.c:560-599 | Runs exactly the stops whose scripts are there, then exactly the starts the rules allow, and succeeds exactly when all of that did |
| `AudioOwner.RestartKeepsOneOwner` | src/api.c:560-599 | Whatever failed stops and all starts do to their services, a restart leaves no satellite beside a local daemon exactly unless the stop of the satellite and that of a local daemon both failed and left them up |
| `AudioOwner.AlwaysOneOwner` | src/api.c:560-599 | Over any sequence of forward and rollback restarts there is always one owner exactly if none of them had both stops fail so |
| `AudioOwner.OneFailedSideIsSafe` | src/api.c:560-599 | A restart without a failed satellite stop, or without a failed local one, is such a restart |
| `AudioOwner.TwoOwners` | src/api.c:560-599 | An input on which it fails: both stops fail and leave the satellite up beside the recogniser |
| `AudioOwner.StartsInTrace` | src/api.c:586-596 | In the commands a restart appends, the local starts appear exactly outside Home Assistant mode unless the satellite was told to stop and failed to, the satellite start exactly in it after every stop succeeded |
| `FactoryReset.Device.Quiesce` | src/backend_linux.c:3004-3021 | Each running service is probed, stopped and probed again in table order; at the first that stays up everything stopped before it is resumed |
| `FactoryReset.Device.Resume` | src/backend_linux.c:2986-3002 | The starts of the specification, capture unit last |
| `FactoryReset.Device.RestoreCapture` | src/backend_linux.c:2967-2984 | The capture unit comes back as one, through a stop of a micd that survived |
| `FactoryReset.Device.Reset` | src/backend_linux.c:3038-3064 | For every pattern of answers: the legacy files are cleared exactly if the caller is root and every running service stops, the data root exactly if that went well too, sync and reboot exactly if both clears did; Ok exactly if the reboot did, and then the commands behind the quiescing are these four in order |
| `FactoryReset.ResettingMeans` | src/backend_linux.c:3038-3064 | The same over the specified commands |
| `FactoryReset.CaptureIndexes` | src/backend_linux.c:2948-2973 | The capture scripts are in the table, so the guard on their indexes never fires |
| `FactoryReset.ClearedOnlyWhenQuiet` | src/backend_linux.c:3004-3053 | State is cleared only after every installed service that reported running was stopped and then probed as not running |
| `FactoryReset.RefusedResetResumes` | src/backend_linux.c:2986-3064 | A refused reset starts exactly what it had stopped, micd and waked both or neither; one that goes through starts nothing |
| `FactoryReset.ResumingHas` | src/backend_linux.c:2967-3002 | A service is started again exactly if it was marked stopped, the capture unit if either was |
| `FactoryReset.ResumingOrder` | src/backend_linux.c:2967-3002 | The supervisor is started first, micd before waked and both last |
| `FactoryReset.SupervisorStopsFirst` | src/backend_linux.c:2911-3021 | A running supervisor is stopped before anything else |
| `SnapshotGate.TakeSnapshotFrom` | src/authority_provenance.c:385-410 | The snapshot is determined by what each path is at that moment and the hashes the reference still vouches for |
| `SnapshotGate.ReuseIsFresh` | src/authority_provenance.c:385-415 | Reusing hashes gives the snapshot hashed afresh exactly when each reused hash is what reading would give |
| `SnapshotGate.ObservedHash` | src/authority_provenance.c:385-410 | The hash of a content path is the earlier one exactly if the reference has it under the same path with the same stat in every field, else what reading gives |
| `SnapshotGate.ObservedOther` | src/authority_provenance.c:385-410 | What stands for paths that are absent, unreadable, not content, or not listed |
| `SnapshotGate.EqualReadsSame` | src/authority_provenance.c:385-444 | Where stat tells content, files that compare equal to a snapshot read to its hashes |
| `SnapshotGate.SnapshotEqual` | src/authority_provenance.c:419-444 | The loop answers true exactly if version, generation, paths and flags agree, every path was observed both times and is there both times or neither, and each that is there agrees in hash, mode and size, or for other than content in all eight stat fields |
| `SnapshotGate.EqualSymmetric` | src/authority_provenance.c:419-444 | The comparison is symmetric |
| `SnapshotGate.EqualTransitive` | src/authority_provenance.c:419-444 | The comparison is transitive |
| `SnapshotGate.EqualReflexive` | src/authority_provenance.c:419-444 | A snapshot equals itself exactly when nothing in it failed to be observed |
| `SnapshotGate.KeptComparesAlike` | src/authority_provenance.c:725-823 | A valid snapshot written to the cache file and read back compares like the original |
| `ProvenanceJob.Authority.Start` | src/authority_provenance.c:906-941 | A helper starts exactly when nothing runs or is completed or adopted, the retry time has come, and helper, paths and fork are there, on a fresh snapshot |
| `ProvenanceJob.Authority.PersistLoad` | src/authority_provenance.c:772-825 | The persisted record is adopted exactly when its snapshot compares equal to the files and record, generation and target go with it |
| `ProvenanceJob.Authority.Complete` | src/authority_provenance.c:972-990 | A record is taken exactly if the helper ended well, it fits the snapshot from before the run, and the files still compare equal to it; then it is stored |
| `ProvenanceJob.Authority.Tick` | src/authority_provenance.c:943-997 | Every tick keeps the gate, and says what it leaves for every input, wait and clock: a job that goes on, one that is cancelled, or the end of a run with its record taken exactly if it verifies |
| `ProvenanceJob.ReadsWhole` | src/authority_provenance.c:951-962 | However the output is cut into reads, its end gives all of it, up to 8192 bytes |
| `ProvenanceJob.Authority.Json` | src/authority_provenance.c:999-1006 | A report is available exactly when the current files compare equal to the completed snapshot and the text fits the buffer; where stat tells content, every content file then reads to the hash that was recorded |
| `ProvenanceJob.StaysBacked` | src/authority_provenance.c:999-1006 | Equality carries a record from one snapshot to the next |
| `ProvenanceJob.LoadBacked` | src/authority_provenance.c:816-825 | A persisted record stays backed by the run of an earlier boot |
| `ProvenanceJob.ReportedIsFresh` | src/authority_provenance.c:999-1006 | Where stat tells content, a report would have been confirmed by hashing everything afresh |
| `UpdateStderr.StderrTail.Capture` | src/http_server.c:167 | After any reads the buffer holds the last 65536 bytes of all that came in |
| `UpdateStderr.ReasonScanner.Feed` | src/http_server.c:166 | Byte by byte the scanner holds the reason of what was read so far, or the token being collected |
| `UpdateStderr.UpdateFailureReason` | src/http_server.c:166 | The reason is the token behind the last marker of the whole input, cut to the buffers, however the reads cut it |
| `UpdateStderr.ReportedReason` | src/http_server.c:166-167 | From stderr to reply: the reason of the last 65536 bytes |
| `UpdateStderr.MarkerBehindToken` | src/http_server.c:166 | Skipping token bytes and emptying the window never hides a marker |
| `UpdateStderr.ReasonMeans` | src/http_server.c:166 | The reason is what stands behind the last "ERROR:" up to the first byte that is no token byte, at most 63 bytes and what the caller has room for |
| `UpdateStderr.NoReason` | src/http_server.c:166 | Without the marker there is none |
| `UpdateStderr.TokenBytesMean` | src/http_server.c:166 | The token bytes, by their characters |
| `UpdateStderr.TailKeepsReason` | src/http_server.c:166-167 | The tail gives the reason of the whole stderr as long as its last marker is in it whole |
| `WorkerRegistry.FreeSlotExists` | src/http_server.c:71-85 | While a kind is below its limit there is a free slot |
| `WorkerRegistry.Registry.FindSlot` | src/http_server.c:84-85 | A slot is refused exactly for an unknown kind or one at its limit; else it is the first free one |
| `WorkerRegistry.Registry.Register` | src/http_server.c:87 | The slot is taken and every count is still the number of live slots of its kind |
| `WorkerRegistry.Registry.Reap` | src/http_server.c:88-89 | Exactly the slots whose process ended are freed, and the counts follow |

## Left out

- `find_key` and the getters built on it: a substring search without a member-level specification.
- `timer_array_parse` and the timer entry parser: a caller of the scanners and checks that are modelled.
- `persist_load` and `persist_store` of the hash cache: file input and output around `cache_hash`.
- The HTTP server's sockets, TLS relay, deadlines and request routing, and all response rendering.
- `setup_apply` and `import_configuration`: they write voice fields without the coupling checks and are not steps of the voice machine.
- `redact_text`, path-traversal checks, radio, USB, Wi-Fi, LEDs, OTA status: outside the modelled components.
- Authentication disabled: the limiter is modelled with authentication on and a clock that does not go back.
- VoiceToggle.ReloadKeeps: the saved configuration is the record, not its JSON text.
- AudioOwner.RestartKeepsOneOwner: only services whose script is there run or come up; the scripts themselves are parameters.
- Sessions.NoSessionComesBack: `Issues` excludes logins that draw the same token again, as 256 random bits do.
- Sessions.Table.SetHttpsActive: the removal of the session file is taken to succeed, as the code does not look; one that fails leaves what a boot that makes no call leaves.
- VoiceLedger.ToggleSettles: its statuses, and those of the pipeline and privacy requests, are those of `api.c`; after a 2xx PUT on `/privacy` or `/integrations/` src/http_server.c:284 polls and saves once more, which is the step `Saving`, and answers 503 when that save fails.
- News.ParseItem: on the text of one element, not on a pointer into the document.
- HashCache.ReserveHolds: for consecutive new paths on a full table; reuse of a path or a free slot may raise the digests above the cap, as the code allows.
- UpdateStderr.ReportedReason: the temporary file between tail and scanner is taken to work; when it does not, the reason is empty.
- WorkerRegistry.Registry.Reap: the sweep runs between the other operations, as the blocked signal makes it.
- ProvenanceJob.Authority.Tick: the parsers of the helper output and of the target manifest are parameters, and the cache file holds what this code wrote.
- NULL arguments, and `snprintf` truncation of paths and names that the callers have already bounded.
