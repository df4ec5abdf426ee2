# Verified models of the algorithms inside ssh2incus

ssh2incus is an SSH server in front of Incus instances. Most of its intricate
logic sits in a handful of small packages: password hashing, a cron scheduler, an
expiring cache, the authentication chain, a shell lexer, a serial work queue and
the parser of its login strings. This project models that logic and proves what
the packages promise.

`dafny verify dfyconfig.toml` checks all of it. Code that works on arrays or
objects stays in that form (arrays, classes, loops) and each such method is proved
against a function or relation on values; the theorems are about those. The
functions themselves are tied to the RFC, the calendar, the texts users write or
what callers observe in the modules named `...Laws` and in `LoginGrammar`.

| modules | what they hold |
|---|---|
| `ScryptSpec` | Salsa20, scryptBlockMix and scryptROMix as sections 3 to 5 of RFC 7914 define them |
| `Smix`, `ScryptSmix`, `ScryptKey` | the packed, shuffled, two-steps-a-turn form in place on arrays, proved equal to `ScryptSpec` |
| `Pwxform`, `Yescrypt`, `YescryptKey` | the yescrypt path: rotating S-box windows, the self-rewriting memory, the two-pass key derivation |
| `Crypt64`, `HashString`, `YescryptHash` | the base-64 codec, the hash string with its fixpoint, and both on the real key derivation |
| `Calendar`, `CronNext`, `CronSchedules` | the proleptic Gregorian calendar and the search for the next activation |
| `CronRun`, `CronLoop`, `CronParser` | the scheduler as a step machine, the object that implements its steps, the field parser |
| `TimedCache`, `ShardedStores`, `CacheObjects`, `Djb33` | the lazy cache, the sharded cache, their objects, the key hash |
| `AuthChain`, `PtyWriter` | nested partial-success callbacks; newline normalisation |
| `Shlex`, `ShellQuote` | the lexer and the command line that the server quotes for it |
| `LoginUser`, `LoginRoundTrip`, `LoginObject` | the login string: parser, printer, what survives the round trip, the object |
| `WorkQueue` | the queue as an interleaving protocol |
| `ScryptLaws`, `YescryptLaws`, `HashLaws`, `CronLaws`, `CronRunLaws`, `CacheLaws`, `ShlexLaws`, `LoginGrammar` | what the definitions above mean, in independent words: test vectors, step-by-step runs, texts and answers |
| `Bits`, `BitSets`, `Words`, `Machine`, `Strings`, `Sequences` | shared definitions on bits, words, integer sizes, strings and sequences |

## Main results

- **smix is scryptROMix.** For every r >= 1 and N = 2^k up to 2^32 the in-place code
  computes section 5 of RFC 7914, byte for byte. Its 32-bit index agrees with
  Integerify for every X exactly up to N = 2^32 (`ScryptSmix.IndexAgreesIff`).
- **yescrypt stays in bounds and in its windows.** The three S-box windows are a
  permutation of the thirds of one array after every call, the fill loop reads only
  blocks already written, and every access fits the buffers that `deriveKey`
  allocates. The in-place code equals a version with three separate S-boxes, and
  password, salt and parameters determine the key (`YescryptHash.DerivesUnique`).
- **Next is the least matching second** within the five-year horizon, and the zero
  time exactly if there is none; the search always ends.
- **Every run of the scheduler** fires exactly the due entries, once each, at
  strictly increasing times, along consecutive iterates of each schedule, with the
  next iterate always pending; removed IDs never run again.
- **A crontab line fires when it says**: `CronLaws.NextWeekday` takes the text
  "0 0 0 * * mon" and its like through the parser and the search to the first midnight
  of that day of the week, and `CronLaws.DayRule` states the rule for the two day fields.
- **The cache is a timed map**, wherever the janitor runs, and the sharded cache is
  the flat cache exactly if the number of shards, as a uint32, is not zero.
  A value is found exactly until its duration, or the default, has passed
  (`CacheLaws.WriteThenGet`). `Item.Expired` agrees with its inlined copies exactly
  while now + d fits an int64.
- **Authentication completes exactly** when the listed methods were accepted in
  order, and only the next one is ever offered. With an empty valid list it can
  complete exactly if the server has no handler at all.
- **A password verifies against its own hash**, and another one exactly if it derives
  the same key. `Hash` fails exactly on an unsupported setting or a badly encoded
  salt, never in the key derivation.
- **Splitting distributes over white space**, and undoes the server's `shell -c %q`
  exactly for nonempty printable commands and nonempty shell paths without white
  space, quotes and backslashes.
- **Login strings mean what people write**, with every optional part left out or not
  (`LoginGrammar.SessionWritten`, `CreationWritten`, `CommandWritten`).
- **Login strings recover what they print exactly** when the login names a project, is
  not both persistent and remote, and is not a command other than explain or remove.
  They recover the host users as well exactly if, in addition, every creation login
  and command in them belongs to the owner of the server, because the printer drops
  that user (`LoginRoundTrip.FullRoundTripIff`).
- **The work queue** runs operations one at a time in push order, always has a
  receiver for a finished one and never deadlocks; without new calls every run is
  bounded and ends with all calls returned. Calls that do not overlap each
  get their own result; as soon as two overlap, a wrong one can be delivered, and
  only then.
- **Newlines on a PTY** are normalised in one pass, and two writes send what one write
  of both would exactly if no CR LF is torn apart between them.

## Where code and expectation differ

- Section 5 of RFC 7914 reduces the whole last block modulo N; the code masks its low
  32 bits. `ScryptSmix.IndexAgreesIff` gives the exact bound.
- `Item.Expired` tests `Expiration != 0`, its inlined copies `Expiration > 0`. They
  differ on the negative expiry that an overflowing now + d stores
  (`TimedCache.ExpiredAgreesIff`).
- A cron step of zero is accepted by the parser and makes `getBits` loop forever
  (`CronParser.EndsIff`; `CronParser.RangeField` for the text "a-b/0").
- `%q` writes control characters as escape sequences that the lexer does not undo, and
  an empty quoted token is dropped (`ShellQuote.SplitCommandLine`).
- The printer puts the persistence flag after the remote, where the parser does not
  look for it (`LoginRoundTrip.PersistentRemoteLost`); a command such as `/shell`
  prints with `@user`, which the parser takes as part of the command
  (`LoginRoundTrip.CommandNotReadBack`).
- The parser reads a host user from a creation login such as `+i.p~alice`, the printer
  drops it, and the login comes back for the owner of the server
  (`LoginRoundTrip.HostUserLost`).
- Callers of the queue share one result channel, so results can be swapped
  (`WorkQueue.ResultsCanSwap`, exact condition in `WorkQueue.ForeignResultIff`).
- A CR that ends one write to a PTY and an LF that starts the next come out as
  CR CR LF (`PtyWriter.ChunksAgreeIff`).
- An empty valid list of methods does not mean that nobody gets in: without any
  handler the server asks for no authentication (`AuthChain.EmptyListAuthenticatesIff`).
- A number of shards that is a multiple of 2^32 has the modulus zero, so that every
  keyed operation panics; no shards at all is the smallest case
  (`ShardedStores.NewTotalRun`, exact condition in `ShardedStores.ShardedIsFlatIff`).
- The comment on the sharded `Items` says that expired items may be included; the
  code filters them (`CacheObjects.ShardedCache.Items`).

## Model

| member | source | states |
|---|---|---|
| Smix.UnpackXor | pkg/yescrypt/yescrypt.go:41-60 | exclusive or of packed 64-bit words is exclusive or of the sixteen words they stand for |
| Smix.SalsaDoubleRound | pkg/yescrypt/yescrypt.go:60-100 | the unrolled assignments are one column round and one row round of section 3 of RFC 7914 |
| Smix.AbsorbUnpacks | pkg/yescrypt/yescrypt.go:41-119 | the word shuffle commutes with Salsa20: absorbing in packed form unpacks to Salsa20 of the unpacked exclusive or |
| Smix.SalsaXor | pkg/yescrypt/yescrypt.go:41-119 | tmp and the destination both become Salsa20 of tmp xor source, also when source and destination overlap; nothing else changes |
| Smix.BlockMixInto | pkg/yescrypt/yescrypt.go:121-127 | the destination holds scryptBlockMix of the source (section 4), even results in the first half and odd ones in the second; nothing else changes |
| Smix.FillStep | pkg/yescrypt/yescrypt.go:240-246 | one step of the fill loop stores V[i] and leaves V[i + 1] in the other half-buffer, whichever half that is |
| Smix.MixStep | pkg/yescrypt/yescrypt.go:247-255 | one step of the mixing loop leaves the next X in the other half-buffer and reads V in bounds |
| Smix.Integer | pkg/yescrypt/yescrypt.go:193-196 | the packed word read is the first word of the last block |
| Smix.ScryptLoops | pkg/yescrypt/yescrypt.go:239-256 | the x/y ping-pong loops equal the one-step loops, and v ends up holding V[0] to V[N - 1] |
| ScryptSmix.Load | pkg/yescrypt/yescrypt.go:216-223 | after the shuffled load the packed words stand for the blocks of the octets |
| ScryptSmix.Store | pkg/yescrypt/yescrypt.go:257-263 | the shuffled store inverts the load: the octets read as the blocks held, and bytes outside the lane keep their value |
| ScryptSmix.BlocksInjective | pkg/yescrypt/yescrypt.go:216-223 | the blocks determine every octet, so results stated on blocks fix the bytes |
| ScryptSmix.SmixPlain | pkg/yescrypt/yescrypt.go:210-264 | smix with a nil context, for even N and Nloop, bytes to bytes; v keeps the filled memory, which seeds the S-boxes |
| ScryptSmix.IndexIsIntegerify | pkg/yescrypt/yescrypt.go:193-196 | for N = 2^k up to 2^32 the masked low word is Integerify(X) mod N |
| ScryptSmix.IndexAgreesIff | pkg/yescrypt/yescrypt.go:248-252 | for every r, the 32-bit index is the one of section 5 for all X of 2r blocks if and only if N <= 2^32 |
| ScryptSmix.CodeMixIsMix | pkg/yescrypt/yescrypt.go:247-255 | up to N = 2^32 the code's mixing loop is that of section 5 after any number of steps |
| ScryptSmix.SmixIsROMix | pkg/yescrypt/yescrypt.go:210-264 | smix with a nil context and Nloop = N = 2^k <= 2^32 is scryptROMix and touches only its lane |
| Bits.PowerOfTwoTest | pkg/yescrypt/yescrypt.go:280-282 | N & (N - 1) is zero exactly for powers of two |
| ScryptKey.TooLargeIff | pkg/yescrypt/yescrypt.go:292-294 | the size checks, with their wrapping 64-bit product, reject exactly r*p >= 2^30 or 128*N*r > maxInt |
| ScryptKey.MixLanes | pkg/yescrypt/yescrypt.go:331-333 | every 128r-byte lane is mixed on its own, none is disturbed by another, with the buffer sizes allocated |
| ScryptKey.ScryptKey | pkg/yescrypt/yescrypt.go:279-355 | an error exactly on unsupported parameters, a panic exactly on a negative keyLen after that, otherwise the truncated PBKDF2 of the mixed lanes |
| ScryptKey.LanesAreROMix | pkg/yescrypt/yescrypt.go:331-333 | up to N = 2^32 each mixed lane is scryptROMix of the original lane, as section 6 of RFC 7914 asks |
| ScryptKey.SupportedEdges | pkg/yescrypt/yescrypt.go:280-294 | the smallest and largest N, r and p on either side of each bound |
| ScryptLaws.SalsaVector | pkg/yescrypt/yescrypt.go:41-119 | the Salsa20/8 core at the test vector of section 8 of RFC 7914 |
| ScryptLaws.LittleEndianWords | pkg/yescrypt/yescrypt.go:216-223 | words are read and written little-endian, at the octets of that vector |
| ScryptLaws.WordOrder | pkg/yescrypt/yescrypt.go:216-223 | which octets each word of a block is read from |
| ScryptLaws.BlockMixSteps | pkg/yescrypt/yescrypt.go:121-127 | section 4 step by step: the even Y in the first half, the odd Y in the second |
| ScryptLaws.ROMixSteps | pkg/yescrypt/yescrypt.go:239-256 | section 5 step by step: V, X and the N mixing steps |
| ScryptLaws.IntegerifyWords | pkg/yescrypt/yescrypt.go:193-196 | Integerify is the little-endian number in the last block |
| Pwxform.StepInPlace | pkg/yescrypt/yescrypt.go:151-174 | one gather step reads and writes inside its windows and equals the step on three separate S-boxes |
| Pwxform.Rotate | pkg/yescrypt/yescrypt.go:175-178 | the windows change roles without moving data and w wraps to a multiple of 32 below 512 |
| Pwxform.PwxformInPlace | pkg/yescrypt/yescrypt.go:151-178 | a whole call equals pwxform on separate S-boxes; the windows stay a permutation of the three thirds of S |
| YescryptLaws.GatherIs | pkg/yescrypt/yescrypt.go:160-162 | a gather takes bits 4 to 11 of a word as the index of a pair |
| YescryptLaws.MulMixVectors | pkg/yescrypt/yescrypt.go:159-166 | the product of the halves plus one word, exclusive or the other, at fixed words |
| YescryptLaws.GatherStep | pkg/yescrypt/yescrypt.go:154-173 | which words step t reads and writes: low half to S0, high half to S1, and S2 in the four middle rounds |
| YescryptLaws.CallRotates | pkg/yescrypt/yescrypt.go:151-178 | a call makes 24 steps, writes 32 words of S2 from w on, and passes the roles on |
| Bits.ClearLowest | pkg/yescrypt/yescrypt.go:198-203 | x & (x - 1) decreases x, keeps the highest bit, and is zero exactly at a power of two |
| Yescrypt.P2Floor | pkg/yescrypt/yescrypt.go:198-203 | the loop ends at the largest power of two not above x |
| Yescrypt.Recent | pkg/yescrypt/yescrypt.go:205-208 | the wrapped index lies in [i - p2floor(i), i) |
| Yescrypt.WrapIndex | pkg/yescrypt/yescrypt.go:227-230 | with the truncation of i to 32 bits, the block read in step i is always one already written |
| Yescrypt.Wrap | pkg/yescrypt/yescrypt.go:205-208 | the masked form computes that index for every x and every step i >= 1 |
| YescryptLaws.WrapIs | pkg/yescrypt/yescrypt.go:205-208 | wrap keeps the low bits of x below p2floor(i) and counts from i - p2floor(i) |
| Yescrypt.BlockMixPwxInPlace | pkg/yescrypt/yescrypt.go:180-191 | xy holds the chained pwxform blocks with Salsa20/2 on the last one; the S-boxes advance accordingly |
| Yescrypt.FillOneInPlace | pkg/yescrypt/yescrypt.go:225-232 | one fill step appends X to the memory and mixes it with an earlier block |
| Yescrypt.MixOneInPlace | pkg/yescrypt/yescrypt.go:233-238 | one mixing step rewrites the block it read and leaves all others alone |
| Yescrypt.PwxLoops | pkg/yescrypt/yescrypt.go:224-238 | both loops on arrays equal the loops on lists of blocks with separate S-boxes |
| Yescrypt.PackUnpack | pkg/yescrypt/yescrypt.go:216-223 | the word shuffle is a bijection: packing undoes unpacking |
| Yescrypt.SmixPwx | pkg/yescrypt/yescrypt.go:210-264 | smix with a context, bytes to bytes, for every N and Nloop; bytes beyond the lane keep their value |
| Yescrypt.SmixYescrypt | pkg/yescrypt/yescrypt.go:266-277 | seeding, rehashing and mixing with the buffers that deriveKey allocates, all accesses in bounds |
| YescryptLaws.BlockMixPwxSteps | pkg/yescrypt/yescrypt.go:180-191 | blockMixPwxform step by step, with one double round of Salsa20 on the last block |
| YescryptLaws.SmixSteps | pkg/yescrypt/yescrypt.go:224-238 | both loops step by step: what is saved, absorbed from the third step on, written back and mixed |
| YescryptLaws.LoopCountIs | pkg/yescrypt/yescrypt.go:276-276 | the second loop has the least even number of steps that is at least a third of N |
| YescryptLaws.SeedOrder | pkg/yescrypt/yescrypt.go:270-272 | the first third of the seeded memory is S2, the second S1, the last S0 |
| YescryptKey.SmallerFits | pkg/yescrypt/yescrypt.go:300-309 | the first pass with N / 64 fits the memory allocated for N |
| YescryptKey.RunPass | pkg/yescrypt/yescrypt.go:314-336 | one pass maps a password to a key of the asked length |
| YescryptKey.Key | pkg/yescrypt/yescrypt.go:279-355 | an error exactly on unsupported parameters or p other than 1, a panic exactly on a negative keyLen after that, otherwise the key of one or two passes, sealed and truncated |
| YescryptLaws.Texts | pkg/yescrypt/yescrypt.go:298-344 | the prehash is "yescrypt-prehash", in the last pass "yescrypt", and the sealing text "Client Key" |
| YescryptLaws.PassSteps | pkg/yescrypt/yescrypt.go:314-336 | one pass step by step: which bytes key and feed HMAC and PBKDF2 |
| YescryptLaws.TwoPassesIff | pkg/yescrypt/yescrypt.go:306-309 | two passes if and only if N is at least 256 and the memory at least 16 MiB |
| YescryptLaws.DerivesIff | pkg/yescrypt/yescrypt.go:306-349 | with two passes the first runs over a sixty-fourth of the blocks and its first 32 bytes are the password of the last |
| YescryptLaws.LastPassSteps | pkg/yescrypt/yescrypt.go:338-348 | the last pass uses the short prehash and replaces 32 bytes by the hash of the keyed "Client Key" |
| YescryptLaws.UsualSetting | pkg/yescrypt/yescrypt_wrapper.go:89-98 | "$y$j9T$" asks for N = 4096 and r = 32 |
| YescryptLaws.UsualDerivation | pkg/yescrypt/yescrypt.go:306-349 | there the key comes from a pass over 64 blocks and one over 4096 |
| Crypt64.AtoiItoa | pkg/yescrypt/yescrypt_wrapper.go:20-37 | looking up the character of a digit gives the digit, and the character is never '$' |
| Crypt64.ItoaAtoi | pkg/yescrypt/yescrypt_wrapper.go:32-37 | a character with a value below 64 is the alphabet's character for that value |
| Crypt64.Encode64 | pkg/yescrypt/yescrypt_wrapper.go:39-53 | the shifting loop encodes groups of three bytes as base-64 numbers, least digit first |
| Crypt64.Decode64 | pkg/yescrypt/yescrypt_wrapper.go:55-79 | the loop decodes groups of four and fails exactly on a foreign character, a lone last character or leftover bits |
| Crypt64.DecodeEncode | pkg/yescrypt/yescrypt_wrapper.go:39-79 | decode64(encode64(b)) = b for every byte string |
| Crypt64.EncodeDecode | pkg/yescrypt/yescrypt_wrapper.go:39-79 | whenever decode64(s) succeeds, encode64 of the result is s |
| Crypt64.EncodedLength | pkg/yescrypt/yescrypt_wrapper.go:39-53 | the encoded length is ceil(8 * len / 6) |
| Crypt64.NoDollar | pkg/yescrypt/yescrypt_wrapper.go:39-53 | an encoded string never contains '$' |
| HashLaws.Alphabet | pkg/yescrypt/yescrypt_wrapper.go:20-20 | the digits are the 64 characters of itoa64, in order |
| HashLaws.AlphabetValue | pkg/yescrypt/yescrypt_wrapper.go:22-37 | a character is worth its place in the alphabet, and 64 outside of it |
| HashLaws.EncodedValue | pkg/yescrypt/yescrypt_wrapper.go:39-53 | an encoding is the same number as its bytes, both read little-endian |
| HashLaws.EncodeVectors | pkg/yescrypt/yescrypt_wrapper.go:39-53 | the low bits come first, at fixed bytes |
| HashString.SaltEndKept | pkg/yescrypt/yescrypt_wrapper.go:100-104 | a hash ends its salt where its setting did |
| HashString.HashFixpoint | pkg/yescrypt/yescrypt_wrapper.go:85-117 | if Hash(pw, s) = h then Hash(pw, h) = h |
| HashString.HashLength | pkg/yescrypt/yescrypt_wrapper.go:85-117 | a hash is the setting up to its salt end, a '$' and 43 characters |
| HashLaws.SupportedIff | pkg/yescrypt/yescrypt_wrapper.go:86-98 | the supported settings character by character |
| HashLaws.HashParts | pkg/yescrypt/yescrypt_wrapper.go:85-117 | Hash of a setting, with or without an old hash after it, part by part |
| HashString.VerifyAccepts | pkg/util/shadow/shadow.go:170-180 | VerifyYescrypt accepts a password against every hash made from it |
| HashString.VerifyIffSameKey | pkg/util/shadow/shadow.go:170-180 | another password is accepted if and only if it derives the same key under the same salt and parameters |
| YescryptHash.FilledInjective | pkg/yescrypt/yescrypt.go:269-272 | the first block determines every word of the S-boxes |
| YescryptHash.MixedUnique | pkg/yescrypt/yescrypt.go:266-277 | smixYescrypt determines its bytes and the rehashed password |
| YescryptHash.DerivesUnique | pkg/yescrypt/yescrypt.go:314-354 | password, salt and parameters determine the key, through both passes and the sealing |
| YescryptHash.DeriveKey | pkg/yescrypt/yescrypt_wrapper.go:109-112 | Key(pw, salt, N, r, 1, 32) is a function of its arguments and fails exactly on unsupported parameters |
| YescryptHash.Conversions | pkg/yescrypt/yescrypt_wrapper.go:109-112 | the bytes are the same on both sides |
| YescryptHash.SettingSupported | pkg/yescrypt/yescrypt_wrapper.go:89-98 | every N and r that a setting can ask for is supported by the key derivation |
| YescryptHash.Hash | pkg/yescrypt/yescrypt_wrapper.go:85-117 | the whole Hash on the real derivation: the hash string of that key function, failing exactly on an unsupported setting or a bad salt |
| YescryptHash.Verify | pkg/util/shadow/shadow.go:170-180 | VerifyYescrypt on the real derivation |
| YescryptHash.HashThenVerify | pkg/util/shadow/shadow.go:170-180 | for every usable setting the hash ends in 43 characters after the salt and the password verifies against it |
| CronNext.Carry | pkg/cron/spec.go:86-148 | the step behind the invariant of `added`: a field that matched and stops matching does so at the start of its unit, where all lower fields are at their minimum |
| CronNext.MonthMismatch | pkg/cron/spec.go:86-99 | a month without a match is skipped to its end exactly, with or without the reset, and nothing in between matches |
| CronNext.DayMismatch | pkg/cron/spec.go:102-112 | the same for a day; it stays in its month unless it lands on the first |
| CronNext.HourMismatch | pkg/cron/spec.go:114-124 | the same for an hour; it stays in its day unless it lands on hour zero |
| CronNext.MinuteMismatch | pkg/cron/spec.go:126-136 | the same for a minute |
| CronNext.SecondMismatch | pkg/cron/spec.go:138-148 | the same for a second |
| CronNext.FindMonth | pkg/cron/spec.go:86-99 | the month loop ends at a matching month or wraps into a later year, skipping no match |
| CronNext.FindDay | pkg/cron/spec.go:102-112 | the day loop ends at a matching day of the same month or wraps, skipping no match |
| CronNext.FindHour | pkg/cron/spec.go:114-124 | the hour loop, likewise |
| CronNext.FindMinute | pkg/cron/spec.go:126-136 | the minute loop, likewise |
| CronNext.FindSecond | pkg/cron/spec.go:138-148 | the second loop ends at a full match or wraps, skipping no match |
| CronNext.PastHorizon | pkg/cron/spec.go:78-82 | once the search passes the year limit no eligible second exists |
| CronNext.Next | pkg/cron/spec.go:56-165 | the least matching whole second strictly after t with year at most five after the first candidate's, or the zero time exactly if there is none; always terminates |
| CronLaws.WeekdaysCycle | pkg/cron/spec.go:158-158 | days of the week follow one another and 1970-01-01 is a Thursday |
| CronLaws.WeekdayIff | pkg/cron/spec.go:158-158 | a day is on weekday w exactly if whole weeks separate it from 1970-01-04 + w |
| CronLaws.LeapDay | pkg/cron/spec.go:86-112 | February has 29 days exactly in leap years |
| CronLaws.MonthLengths | pkg/cron/spec.go:86-112 | the lengths of the other months |
| CronLaws.TimeOfDay | pkg/cron/spec.go:114-148 | a second is its date, hour, minute and second |
| CronLaws.HorizonIs | pkg/cron/spec.go:75-82 | a match counts exactly if it is after t and before the sixth New Year after the first candidate |
| CronLaws.NextWeekday | pkg/cron/spec.go:56-165 | from the text of a weekday at midnight to its next activation, at most a week later and in whole weeks from 1970-01-04 |
| CronSchedules.NextIsSpecNext | pkg/cron/spec.go:54-56 | the result is a function of schedule and instant: the earliest eligible second |
| CronSchedules.SpecLawful | pkg/cron/cron.go:28-32 | a crontab schedule meets the Schedule contract: later than the given time, or zero |
| CronSchedules.Every | pkg/cron/constantdelay.go:14-21 | the delay is a whole number of seconds: exactly one for less than that, otherwise what was asked less a fraction |
| CronSchedules.DelayLawful | pkg/cron/constantdelay.go:25-27 | the next activation is after t, on a whole second, and exactly the delay after the start of the second of t |
| CronSchedules.EveryVector | pkg/cron/constantdelay.go:14-27 | the rounding at fixed durations and instants, in nanoseconds |
| CronRun.StepKeeps | pkg/cron/cron.go:162-211 | every event keeps the scheduler invariant, for any order that the sort leaves among equal times |
| CronRun.RunKeeps | pkg/cron/cron.go:155-236 | the invariant holds in every state of every run |
| CronRun.FiringExact | pkg/cron/cron.go:183-193 | a firing runs exactly the entries whose Next is the effective time, once each, and that time is the earliest |
| CronRun.OnlyTimersRun | pkg/cron/cron.go:182-207 | no other event runs a job; the log and the IDs only grow |
| CronRun.FiringsIncrease | pkg/cron/cron.go:171-193 | firings that run jobs have strictly increasing effective times, also across Stop and Start |
| CronRun.EntryRuns | pkg/cron/cron.go:185-192 | an entry's run times are consecutive iterates of its Schedule.Next, none skipped or repeated, and on a running scheduler its Next is the iterate after them |
| CronRun.RemovedNeverRuns | pkg/cron/cron.go:146-152 | once removed, an assigned ID is in no later state and no later firing |
| CronRunLaws.AddEffect | pkg/cron/cron.go:111-124 | a new entry under the next ID, its first time computed from the instant of the last turn of the loop |
| CronRunLaws.RemoveEffect | pkg/cron/cron.go:228-236 | exactly the entries of other IDs stay, as they are |
| CronRunLaws.StartEffect | pkg/cron/cron.go:162-167 | every entry computes its time from the clock |
| CronRunLaws.TimerEffect | pkg/cron/cron.go:183-193 | an entry that is due has Prev at the firing and computes Next from it; any other stays as it is |
| CronRunLaws.QuietEffect | pkg/cron/cron.go:199-210 | a snapshot and Stop leave the entries as they are |
| CronRunLaws.SleepsIff | pkg/cron/cron.go:171-181 | the loop only sleeps exactly if no entry has a time, and otherwise waits for the earliest |
| CronRunLaws.NewScheduler | pkg/cron/cron.go:80-124 | a new scheduler is stopped and empty, and its first ID is 1 |
| CronLoop.Insert | pkg/cron/cron.go:62-77 | insertion keeps the list sorted by byTime, zero times last, and its multiset |
| CronLoop.Cron.SortEntries | pkg/cron/cron.go:171-171 | sorted and a permutation |
| CronLoop.Cron.Schedule | pkg/cron/cron.go:111-124 | one Add step of the machine, stopped or running; returns a new ID |
| CronLoop.Cron.RemoveEntry | pkg/cron/cron.go:228-236 | the entries of other IDs, in order |
| CronLoop.Cron.Remove | pkg/cron/cron.go:146-152 | one Remove step of the machine |
| CronLoop.Cron.Start | pkg/cron/cron.go:155-171 | one Start step: every entry computes its next time from now, then they are sorted |
| CronLoop.Cron.Stop | pkg/cron/cron.go:214-217 | one Stop step |
| CronLoop.Cron.RunDue | pkg/cron/cron.go:185-192 | stopping at the first entry that is not due still runs and advances every due entry |
| CronLoop.Cron.Fire | pkg/cron/cron.go:171-193 | one Timer step of the machine |
| CronParser.ShiftForm | pkg/cron/parser.go:160-162 | the shift form sets exactly the bits from min to max |
| CronParser.EndsIff | pkg/cron/parser.go:164-168 | the loop variable, in 64-bit arithmetic, passes max after some number of turns if and only if the step is not zero |
| CronParser.GetBits | pkg/cron/parser.go:156-169 | returns exactly if its loop ends, and then shift form and loop form set exactly the bits v in [min, max] with step dividing v - min |
| CronParser.Multiples | pkg/cron/parser.go:156-169 | the two forms of the calls that return, bit by bit |
| CronParser.GetRange | pkg/cron/parser.go:81-130 | panics exactly on malformed or out-of-range items, hangs exactly if the loop of getBits never ends, otherwise sets exactly the item's values and its star |
| CronParser.RangeStepText | pkg/cron/parser.go:81-117 | the text "a-b/c" means from a to b in steps of c |
| CronParser.SingleText | pkg/cron/parser.go:81-117 | "a" means a alone and "a/c" from a to the maximum in steps of c |
| CronParser.StarText | pkg/cron/parser.go:81-117 | "*" and "?" mean the whole field and carry the star, with or without a step |
| CronParser.RangeField | pkg/cron/parser.go:68-130 | in each of the six fields "a-b/c" is accepted and selects every c-th value from a to b, and hangs the parser if c is zero |
| CronParser.SingleField | pkg/cron/parser.go:68-130 | in each of the six fields "a" selects a, and "a/c" every c-th value from a on or a hang |
| CronParser.StarField | pkg/cron/parser.go:68-130 | in each of the six fields a star selects all values, with a step every c-th or a hang, and sets the star |
| CronLaws.RangeTexts | pkg/cron/parser.go:81-127 | "a-b" and "a-b/c" are accepted exactly within the bounds and in order |
| CronLaws.NameRangeText | pkg/cron/parser.go:81-127 | the same for a range of names |
| CronLaws.NameText | pkg/cron/parser.go:133-141 | a name in any case stands for its number |
| CronLaws.Names | pkg/cron/spec.go:24-51 | the months are numbered from one and the days of the week from zero |
| CronLaws.DayNameField | pkg/cron/parser.go:68-141 | the name of a day of the week selects that day |
| CronLaws.NumbersNeeded | pkg/cron/parser.go:133-153 | a step or a value that is neither a number nor a name is refused |
| CronLaws.TooManyParts | pkg/cron/parser.go:81-117 | two hyphens or two slashes are refused |
| CronLaws.ListField | pkg/cron/parser.go:68-76 | a list selects the union of its parts, and is accepted exactly if they are |
| CronLaws.EmptyItems | pkg/cron/parser.go:68-76 | empty items count for nothing |
| CronLaws.FieldRange | pkg/cron/spec.go:19-51 | the bounds of each field are exactly the values that it can take |
| CronParser.GetField | pkg/cron/parser.go:68-76 | the bits are the union over the items, bit 63 is set exactly if some item is a star; it hangs exactly if the first item that is not fine has a loop that never ends |
| CronParser.InFieldWithinBounds | pkg/cron/parser.go:119-127 | an accepted field sets no other bit outside its bounds |
| CronParser.All | pkg/cron/parser.go:172-174 | every value of the bounds, and the star bit |
| CronParser.ParseFields | pkg/cron/parser.go:53-61 | a schedule results exactly if all six fields are accepted, each in its place; it never returns exactly if the first field not accepted hangs, and is refused otherwise |
| CronParser.ParsedMeaning | pkg/cron/spec.go:153-165 | a parsed schedule matches a second exactly when the crontab line describes it, day rule included |
| CronLaws.DateLineIs | pkg/cron/parser.go:53-61 | six fields in their places: one time on one day of the year |
| CronLaws.DayRule | pkg/cron/spec.go:153-165 | with both days given either is enough; with a star the other decides |
| BitSets.TestIsBit | pkg/cron/spec.go:86-86 | the masked test in the search is membership in the bit set |
| TimedCache.StepAgrees | pkg/cache/cache.go:51-178 | on stores with the same live items the cache and the timed map answer alike and stay alike |
| TimedCache.CacheRefinesTimedMap | pkg/cache/cache.go:51-178 | on a monotone clock every run of the cache, with DeleteExpired anywhere, answers as a timed map without a janitor |
| TimedCache.JanitorInvisible | pkg/cache/cache.go:929-946 | two runs that differ only in their DeleteExpired calls answer alike |
| TimedCache.ExpiredAgreesIff | pkg/cache/cache.go:19-24 | on an item stored with duration d, Expired agrees with its inlined copies at all later times if and only if now + d < 2^63 |
| TimedCache.ExpiredAgreesReachable | pkg/cache/cache.go:19-24 | in every state reached by calls whose expiries fit, the two definitions agree on every item |
| CacheLaws.WriteThenGet | pkg/cache/cache.go:51-164 | after a successful write and calls that do not touch the key, the janitor among them, a lookup finds the value exactly until the duration in force has passed |
| CacheLaws.AddReplaceAnswer | pkg/cache/cache.go:90-114 | Add succeeds exactly where Get would miss, Replace exactly where it would find; a failure changes nothing |
| CacheLaws.DeleteAnswer | pkg/cache/cache.go:903-921 | Delete and Flush remove what they name and nothing else |
| CacheLaws.ItemsAnswer | pkg/cache/cache.go:1032-1047 | Items lists exactly what Get would find |
| CacheLaws.OthersKept | pkg/cache/cache.go:51-178 | no call changes what other keys answer later, nor does the janitor |
| CacheObjects.Cache.constructor | pkg/cache/cache.go:1096-1105 | an empty cache; a default of zero means no expiration |
| CacheObjects.Cache.Set | pkg/cache/cache.go:51-66 | the Set step of the cache, with the int64 sum |
| CacheObjects.Cache.Get | pkg/cache/cache.go:118-134 | the Get step; nothing changes |
| CacheObjects.Cache.GetWithExpiration | pkg/cache/cache.go:140-164 | the same with the expiry, none if the item never expires |
| CacheObjects.Cache.Add | pkg/cache/cache.go:90-100 | stores only if no live item has the key, otherwise an error and no change |
| CacheObjects.Cache.Replace | pkg/cache/cache.go:104-114 | stores only if a live item has the key, otherwise an error and no change |
| CacheObjects.Cache.Delete | pkg/cache/cache.go:903-924 | the key is gone, and its value is reported if a callback is set |
| CacheObjects.Cache.DeleteExpired | pkg/cache/cache.go:929-946 | deleting while iterating, in any order, leaves exactly the live items and reports each evicted one exactly once |
| CacheObjects.Cache.Items | pkg/cache/cache.go:1032-1047 | exactly the live items |
| CacheObjects.Cache.Flush | pkg/cache/cache.go:1059-1063 | no items |
| Djb33.Unrolled | pkg/cache/sharded.go:34-63 | the four-way unrolled loop and tail switch equal the plain fold over all bytes but the last, for every length, in bounds |
| CacheLaws.HashVector | pkg/cache/sharded.go:34-63 | the hash of "abc" under a fixed seed |
| CacheLaws.BucketIs | pkg/cache/sharded.go:65-67 | below 2^32 shards the bucket is the hash modulo their number |
| ShardedStores.KeyedAgrees | pkg/cache/sharded.go:69-99 | a keyed operation on its bucket equals the operation on the flat store and keeps keys in their buckets |
| ShardedStores.LiveAgrees | pkg/cache/sharded.go:101-118 | dropping expired items shard by shard is dropping them from the flat store |
| ShardedStores.ShardStepAgrees | pkg/cache/sharded.go:65-124 | one step of the sharded cache is one step of the flat cache, and a key only lives in its own bucket |
| ShardedStores.ShardedIsFlat | pkg/cache/sharded.go:65-124 | from any shards with keys in their buckets, a sequence of operations returns what it returns on one cache |
| ShardedStores.NewShardedIsFlat | pkg/cache/sharded.go:156-179 | the same from newly made shards |
| ShardedStores.NewTotalRun | pkg/cache/sharded.go:65-179 | for every n, a run on n new shards answers as one cache, or panics exactly if uint32(n) is zero and some operation has a key |
| ShardedStores.ShardedIsFlatIff | pkg/cache/sharded.go:65-179 | every run on n new shards answers as one cache if and only if uint32(n) is not zero |
| CacheObjects.ShardedCache.constructor | pkg/cache/sharded.go:156-192 | n distinct empty shards, for every n, with the normalised default |
| CacheObjects.ShardedCache.BucketOf | pkg/cache/sharded.go:65-67 | the hash of the key modulo uint32 of the number of shards, or a panic exactly if that is zero |
| CacheObjects.ShardedCache.Set | pkg/cache/sharded.go:69-71 | the Set step on shards and its answer, or a panic and no change; every key stays in its bucket |
| CacheObjects.ShardedCache.Add | pkg/cache/sharded.go:73-75 | the Add step on shards and its answer, or a panic and no change; every key stays in its bucket |
| CacheObjects.ShardedCache.Replace | pkg/cache/sharded.go:77-79 | the Replace step on shards and its answer, or a panic and no change; every key stays in its bucket |
| CacheObjects.ShardedCache.Get | pkg/cache/sharded.go:81-83 | the answer of the key's own shard, or a panic; nothing changes |
| CacheObjects.ShardedCache.Delete | pkg/cache/sharded.go:97-99 | the Delete step on shards and its answer, or a panic and no change; every key stays in its bucket |
| CacheObjects.ShardedCache.DeleteExpired | pkg/cache/sharded.go:101-105 | every shard keeps exactly its live items |
| CacheObjects.ShardedCache.Flush | pkg/cache/sharded.go:120-124 | every shard is empty |
| CacheObjects.ShardedCache.Items | pkg/cache/sharded.go:112-118 | one map of live items per shard; together they are the live items of the flat store |
| AuthChain.ValidMethodsIs | pkg/ssh/server.go:172-194 | the list of methods that take part holds exactly the listed ones with a handler, without repeats, in order of first listing |
| AuthChain.FilterMethods | pkg/ssh/server.go:172-194 | the loop with its seen set computes that list |
| AuthChain.BuildChain | pkg/ssh/server.go:200-241 | the reverse loop installs the first method's callback, nested over all later ones |
| AuthChain.ConfigureAuthChain | pkg/ssh/server.go:171-242 | filter and chain together; an empty valid list installs nothing |
| AuthChain.ConfigureAllAuthMethods | pkg/ssh/server.go:247-257 | exactly the methods with a handler are offered, each on its own |
| AuthChain.Configure | pkg/ssh/server.go:127-165 | no client authentication exactly without any handler (or if preset), a chain if methods are listed, every method on its own otherwise; on a blank base a client gets in exactly with enough attempts |
| AuthChain.AuthenticatesIff | pkg/ssh/server.go:127-165 | from names and handlers to the session: it completes if and only if all methods that take part were accepted in order, or any one if none is listed, or "none" was tried without handlers |
| AuthChain.ChainOpens | pkg/ssh/server.go:140-142 | a server with a chain has a handler, so its session never accepts "none" |
| AuthChain.SessionIsProgress | pkg/ssh/server.go:260-291 | after any attempts the session is authenticated or offers the chain from the next method on |
| AuthChain.ProgressWitness | pkg/ssh/server.go:260-291 | the methods passed so far were accepted at increasing positions among the attempts |
| AuthChain.ProgressIsLongest | pkg/ssh/server.go:260-291 | no longer prefix of the list was accepted in order |
| AuthChain.CompletesIffAllInOrder | pkg/ssh/server.go:171-242 | authentication completes if and only if every listed method was accepted, in listed order |
| AuthChain.OnlyNextOffered | pkg/ssh/server.go:214-239 | before completion exactly the next method is offered |
| AuthChain.EmptyListSession | pkg/ssh/server.go:140-142 | without a valid method only "none" can succeed, and only on a server without any handler |
| AuthChain.EmptyListAuthenticatesIff | pkg/ssh/server.go:196-198 | with an empty valid list some session authenticates if and only if the server has no handler |
| AuthChain.AnyMethodSuffices | pkg/ssh/server.go:244-257 | without a list of methods a session authenticates exactly when one attempt is accepted |
| AuthChain.MethodNames | pkg/ssh/server.go:15-17 | each of the three names asks for its own method, and any other for none |
| AuthChain.OnlyKeysCount | pkg/ssh/server.go:171-242 | a server that lists "publickey" lets in exactly who has an accepted key |
| PtyWriter.TwoPasses | pkg/ssh/session.go:130-144 | the two replacements together insert a CR before exactly the LFs that have none |
| PtyWriter.UnchangedIff | pkg/ssh/session.go:130-144 | text is left unchanged if and only if it has no bare LF |
| PtyWriter.ResultHasNoBareLF | pkg/ssh/session.go:130-144 | the result has no bare LF |
| PtyWriter.Idempotent | pkg/ssh/session.go:130-144 | normalising twice is normalising once |
| PtyWriter.NormaliseConcat | pkg/ssh/session.go:130-144 | text in two parts is normalised part by part if the second knows whether the first ended in CR |
| PtyWriter.NormaliseChar | pkg/ssh/session.go:130-144 | one character alone, which with the law for parts fixes the whole function |
| PtyWriter.ChunksAgreeIff | pkg/ssh/session.go:130-144 | two writes send what one write of both would if and only if the first does not end in CR with the second starting in LF |
| PtyWriter.Write | pkg/ssh/session.go:130-144 | with a PTY the normalised text is sent and the count is capped at the length given; without one the text is sent as it is |
| Shlex.Lexer.ReadToken | pkg/shlex/shlex.go:105-193 | reads one token or reaches the end, consuming a rune unless it ends, and leaves the meaning of the rest intact |
| Shlex.Lexer.Split | pkg/shlex/shlex.go:88-103 | terminates on every input with the tokens and error of the whole string |
| Shlex.FeedSound | pkg/shlex/shlex.go:105-193 | between tokens nothing is pending; inside a word something is |
| Shlex.LexThenSpace | pkg/shlex/shlex.go:105-193 | from any sound state, a white space after an error-free text ends the token and starts afresh |
| Shlex.SplitConcat | pkg/shlex/shlex.go:79-103 | if a splits without error, a + space + b splits into the tokens of a and then those of b, with b's error |
| ShlexLaws.SpaceIs | pkg/shlex/shlex.go:41-43 | white space by code point |
| ShlexLaws.SingleQuoted | pkg/shlex/shlex.go:105-193 | a single-quoted text adds itself to the token, backslashes and all, and the quotes nothing |
| ShlexLaws.DoubleQuoted | pkg/shlex/shlex.go:105-193 | so does a double-quoted text without quotes and backslashes |
| ShlexLaws.Backslashed | pkg/shlex/shlex.go:105-193 | outside quotes a backslash makes the next character stand for itself |
| ShlexLaws.BackslashedInQuotes | pkg/shlex/shlex.go:105-193 | inside double quotes only before a quote or a backslash, and it stays otherwise |
| ShlexLaws.SplitScript | pkg/shlex/shlex.go:79-103 | a command line with a single-quoted script splits into shell, -c and the script |
| ShlexLaws.SplitNothing | pkg/shlex/shlex.go:88-103 | quotes around nothing give no token |
| ShlexLaws.EndsTooEarly | pkg/shlex/shlex.go:105-193 | the error of an unclosed quotation and of a last backslash |
| ShellQuote.LexQuoted | pkg/shlex/shlex.go:105-193 | what the lexer reads back from any quoted text |
| ShellQuote.ReadBackLength | pkg/shlex/shlex.go:105-193 | printable text is read back unchanged and any other text longer |
| ShellQuote.SplitCommandLine | server/shell.go:97-101 | for every path that splits without error and every command, the line splits into the tokens of the path, -c and the command as read back |
| ShellQuote.UnbalancedTail | pkg/shlex/shlex.go:105-193 | a quoted text read from outside double quotes always ends inside a quotation |
| ShellQuote.SplitBadShell | server/shell.go:97-101 | a path that leaves a quotation open makes the line fail, and one that ends in a backslash fails or glues -c to a token |
| ShellQuote.TotalBound | pkg/shlex/shlex.go:105-193 | the tokens together are never longer than the text |
| ShellQuote.OwnToken | pkg/shlex/shlex.go:105-193 | a text is its own only token if and only if it is nonempty and without white space, quotes and backslashes |
| ShellQuote.QuotingUndoneIff | server/shell.go:97-101 | splitting gives back shell, -c and the command if and only if the path is nonempty without white space, quotes and backslashes and the command is nonempty and printable |
| ShlexLaws.EscapeVectors | server/shell.go:97-101 | the escapes that %q writes for control characters with a letter |
| ShlexLaws.HexEscapes | server/shell.go:97-101 | the hexadecimal escapes by size of the character |
| LoginUser.CutShorter | server/user.go:357-367 | each nested target is shorter than the string holding it, so ParseFrom terminates |
| LoginGrammar.SessionWritten | server/user.go:450-504 | every session login, with any of its optional parts: what is written comes out as it is, the rest as no remote, "root", "default" and the owner |
| LoginGrammar.BareInstance | server/user.go:450-504 | a bare name is an instance of the default project |
| LoginGrammar.CreationWritten | server/user.go:389-412 | every creation login: ephemeral or not, the names, the options in order, the host user |
| LoginGrammar.FlagOptions | server/user.go:507-545 | the flags in their long and short forms |
| LoginGrammar.NumberOptions | server/user.go:507-545 | memory, processors and disk with their numbers |
| LoginGrammar.TextOptions | server/user.go:507-545 | images have a slash, profiles follow a percent sign, one or several |
| LoginGrammar.UnreadableNumber | server/user.go:507-545 | a number that cannot be read changes nothing |
| LoginGrammar.UnknownOption | server/user.go:507-545 | nor does an option of no known kind |
| LoginGrammar.CommandWritten | server/user.go:415-447 | a command alone and with a target, with all names of remove and their force |
| LoginGrammar.PrintedSession | server/user.go:164-164 | a session login as it is printed |
| LoginGrammar.PrintedCommand | server/user.go:146-163 | commands as they are printed |
| LoginGrammar.PrintedCreation | server/user.go:96-140 | a creation login as it is printed, options last |
| LoginGrammar.PrintedParts | server/user.go:101-135 | the options in the order in which they are printed |
| LoginRoundTrip.SessionReadBack | server/user.go:450-504 | every field of a session login is read back as printed, an empty project as "default" |
| LoginRoundTrip.PersistentRemoteLost | server/user.go:148-164 | a persistent session on a remote always comes back as not persistent |
| LoginRoundTrip.OptionsReadBack | server/user.go:507-545 | printed creation options parse to the same image, profiles and numbers, with unset flags as not set |
| LoginRoundTrip.CreationParsed | server/user.go:394-412 | a printed creation login, with or without a host user after it, parses to all its fields and that user |
| LoginRoundTrip.CreationReadBack | server/user.go:394-412 | a creation login is read back with every printed field, and with the owner of the server as its host user |
| LoginRoundTrip.TargetReadBack | server/user.go:417-447 | /explain/ and /remove/ parse their target as ParseFrom would alone |
| LoginRoundTrip.CommandNotReadBack | server/user.go:417-447 | any other command comes back under another name |
| LoginRoundTrip.RoundTripIff | server/user.go:86-164 | for delimiter-free fields, ParseFrom(String()) recovers the printed fields if and only if the login survives, at any nesting of targets |
| LoginRoundTrip.FullRoundTripIff | server/user.go:86-164 | it recovers the host users at every level as well if and only if, besides, those of creation logins and commands are the owner of the server |
| LoginRoundTrip.HostUserLost | server/user.go:394-412 | every creation login that names a host user is parsed with it, printed without it and read back for the owner |
| LoginRoundTrip.RecoveredPrintsSame | server/user.go:86-164 | a recovered login prints the same string again |
| LoginObject.LoginObject.ParseFrom | server/user.go:357-367 | the object ends up as the parsed value; the recursion terminates |
| LoginObject.LoginObject.ParseCreationInto | server/user.go:394-412 | the creation branch, field by field |
| LoginObject.LoginObject.ParseExplainInto | server/user.go:417-447 | the explain branch parses its target into an object of its own |
| LoginObject.LoginObject.ParseRemoveInto | server/user.go:417-447 | the remove branch, with or without force |
| LoginObject.LoginObject.ParseCommandInto | server/user.go:417-447 | the command branch with its nested objects |
| LoginObject.LoginObject.ParseSessionInto | server/user.go:450-467 | the session branch |
| LoginObject.LoginObject.ParseRemoteAndInstanceInto | server/user.go:470-476 | remote, then the rest |
| LoginObject.LoginObject.ParseInstanceAndUserInto | server/user.go:479-490 | instance user after undoing the encodings of '@', then the rest |
| LoginObject.LoginObject.ParseInstanceAndProjectInto | server/user.go:493-504 | instance and project, "default" for an empty one |
| LoginObject.LoginObject.ParseCreateConfigInto | server/user.go:507-545 | the loop over the options is the fold of the single-option parser |
| WorkQueue.StepKeeps | pkg/queue/queue.go:30-51 | every step of caller or worker keeps the protocol invariant |
| WorkQueue.RunKeeps | pkg/queue/queue.go:30-51 | the invariant holds in every interleaving |
| WorkQueue.InPushOrder | pkg/queue/queue.go:30-41 | operations run one at a time, once and in push order; the k-th result delivered is that of the k-th push |
| WorkQueue.MutualExclusion | pkg/queue/queue.go:43-46 | no two calls are between their lock and their unlock |
| WorkQueue.QueueBounded | pkg/queue/queue.go:43-46 | the queue never holds more than its capacity, or than the one operation handed over |
| WorkQueue.AlwaysAReceiver | pkg/queue/queue.go:43-51 | waiting callers are pushes minus deliveries, so a finished operation has a receiver |
| WorkQueue.NeverStuck | pkg/queue/queue.go:30-51 | while a call has not returned some step is possible, whatever the queue's capacity, zero included |
| WorkQueue.StepLowers | pkg/queue/queue.go:30-51 | every step other than a new call lowers the weight of the state |
| WorkQueue.RunsEnd | pkg/queue/queue.go:30-51 | without new calls no more steps can follow than the weight of the state |
| WorkQueue.MaximalReturns | pkg/queue/queue.go:43-51 | a run that can only go on with new calls has returned from every call |
| WorkQueue.CanFinish | pkg/queue/queue.go:43-51 | every run can be finished within its weight, without new calls, with every call returned |
| WorkQueue.RunMatched | pkg/queue/queue.go:30-51 | while every result went to its own caller, the callers that wait are exactly those with a pending operation |
| WorkQueue.AloneGetsOwn | pkg/queue/queue.go:43-51 | in every run whose calls do not overlap each call gets the result of its own operation |
| WorkQueue.OverlapGetsForeign | pkg/queue/queue.go:43-51 | from every reachable state with two overlapping calls some continuation delivers a wrong result, without a further push |
| WorkQueue.ForeignResultIff | pkg/queue/queue.go:43-51 | with every result right so far, the calls in progress can be given a wrong one if and only if two of them overlap |
| WorkQueue.ResultsCanSwap | pkg/queue/queue.go:43-51 | a run in which two callers get each other's results |

## Left out

- Everything that talks to Incus, the SSH transport, WebSocket, HTTP or the file system, and the command-line program around it.
- HMAC, SHA-256 and PBKDF2 are function parameters with fixed output lengths; the crypt library for other hash kinds is not modelled.
- Bit operations on unsigned integers are functions on natural numbers; rotations, additions and exclusive ors of words are bit-vectors. Go's int is taken as 64 bits wide.
- Time zones other than UTC, daylight saving, and the monotonic reading that Go keeps in a time value. Times are whole nanoseconds, and `e.Next != effective` compares instants.
- The `goto WRAP` of Next is a result flag of each finder that sends the caller back to the top.
- sort.Sort is written as an insertion sort; only that it sorts and permutes is used.
- CronLoop.Cron.Start: does not model Start on a running scheduler, which starts a second loop that races with the first over the same entries.
- CronLoop.Cron.Stop: does not model Stop on a stopped scheduler, which waits forever for a loop to receive.
- Data races on `running` are not modelled. The clock never runs backwards and a timer fires at or after the time it was set for.
- Parsing of "TZ=", of descriptors and durations, and the split of a crontab line into its five or six fields.
- The typed Increment and Decrement family, gob Save and Load, ItemCount, finalizers and when eviction callbacks run relative to the lock.
- Each cache operation sees a single clock reading. A negative number of shards, on which make panics, is not modelled.
- The internals of x/crypto/ssh: assumed is only that a partial success replaces the offered callbacks, a failure keeps them, a plain success ends the exchange, and that "none" is accepted before a partial success if NoClientAuth is set. MaxAuthTries and key caching are not modelled.
- shlex without posix or whitespace-split mode, custom tokenizers, and invalid UTF-8 input. The Unicode tables of strconv.IsPrint are a parameter that is fixed on ASCII.
- LoginObject.LoginObject.ParseFrom: keeps a nested target as the value its object had, so later changes through the pointer are not captured; the default host user is a parameter.
- LoginRoundTrip.RoundTripIff: is about names without delimiter characters; other names are cut at them by the grammar.
- IsValid, Hash, InstanceHash and the host user lookups of server/user.go.
- Shutdown of the work queue and its typed wrappers; an operation that never returns is one that never takes its Finish step.
- Profile merging, shadow field parsing, the device registry, logging, banners and embedded binaries: field-by-field code with easy properties.
