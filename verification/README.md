# go-lib core, modelled in Dafny

This project models six pieces of the Go library `go-lib` and proves what they promise.

- **sign** (`sign/sign.go`): Ed25519 keypairs and the password-protected private-key container.
  - The secret key is XORed with an scrypt keystream.
  - A SHA-256 tag over salt and keystream is checked before decrypting.
  - Signatures carry a 16-byte hint of the public key.
  - Files are signed and verified over their SHA-512 digest, which is computed in 1 GiB memory-mapped windows.
- **Q** (`util/q.go`): a fixed-size circular queue.
  - It has a power-of-two slot array, a mask, and read and write indices.
  - A queue of capacity N holds N - 1 elements, first in, first out.
- **MT** (`mtrand/mtrand.go`): the 32-bit Mersenne Twister.
  - Seeding, the in-place twist, and tempering, all on `bv32`.
  - The index starts at 0, so the first 624 outputs need no twist.
- **MmapReader** (`util/mmap.go`): hands a byte range of a file to a writer, one window of at most 1 GiB at a time. `fileCksum` uses the same loop.
- **Readline / Genlines** (`fileio/readline.go`): normalises configuration lines.
  - Strips one newline and trims white space.
  - Skips blank and `#` lines.
  - Reports the end of input with -1.
- **logger** (`logger/logger.go`):
  - `itoa` and the timestamp header built from it.
  - `ofmt`, which assembles a log line.
  - The `Logger` object: its constructors, sub-loggers, the priority filter, `Close`, `EnableRotation` and the setters.

## Abstractions

- **Library routines.** The routines the code calls are fields of the `Sign.Crypto` datatype, as total functions: SHA-256, SHA-512, scrypt, Ed25519 key generation, signing and verification, and base64.
  - The error returns of scrypt, key generation and signing are `Option` results.
  - Properties of these routines that a lemma needs are stated as ghost predicates, in its `requires`:
    - `KeyLengthExact`: scrypt returns exactly `keyLen` bytes.
    - `Base64RoundTrips`: decoding undoes encoding.
    - `SignaturesVerify`: a signature verifies under the matching public key.
    - `PrivateKeysEndInPublic`: a generated Ed25519 private key is 64 bytes, and its last 32 are the public key.
  - `subtle.ConstantTimeCompare` is plain equality.
- **YAML documents** are record datatypes. They carry the field names of the YAML tags.
- **A file** is its byte sequence.
- **The environment is given as parameters.**
  - `mapOk(off, len)` says whether `syscall.Mmap` succeeds. A negative offset never maps.
  - `statOk` says whether `fd.Stat()` succeeds.
  - The random salt is an `Option`, `None` when `rand.Read` fails.
  - The entropy for key generation is a byte sequence.
- **The hash state and the writer** are the sequence of bytes written to them.
- **The logger:**
  - The header text `formatHeader` makes of `time.Now()` is a parameter of `ofmt`.
  - So is the result of `runtime.Caller`.
  - The output channel is an object holding its closed flag and the queued lines.
  - The flag word is the set of positions of its 1 bits.
- **MT:** the clock reading that replaces a zero seed is a parameter of the constructor.
- **Readline:** one `ReadString('\n')` result, the text and the error, is the input of `Readline`. `Genlines` works on the sequence of such results.

## Model

| member | source | states |
|---|---|---|
| `Chunked.WindowsTile` | sign/sign.go:547-568 | The loop's windows tile [off, off + sz). Each window is non-empty and at most 1 GiB. They are laid end to end from `off`, every window but the last is a full chunk, and the lengths add up to `sz`. |
| `Chunked.SpanOfWindows` | util/mmap.go:43-61 | The bytes of the loop's windows, concatenated in order, are exactly `file[off .. off + sz]`. |
| `Chunked.FirstFailure` | util/mmap.go:53-54 | The index of the first window that fails to map: every window before it maps, and the window at it does not. |
| `Chunked.FeedStopsAtFirstFailure` | util/mmap.go:53-57 | Feeding windows stops at the first window that fails and reports it. The bytes already handed on are the span of the windows before it, so windows written before the failure stay written. |
| `Chunked.FeedRangeIsFeed` | sign/sign.go:550-568 | Decrementing `sz` and advancing `off` turn by turn visits exactly the windows `Windows(off, sz)`, so the loop is the window feed. |
| `Chunked.FeedRangeComplete` | util/mmap.go:43-61 | When no window fails, the loop hands on exactly `source[off .. off + sz]`, and `off` was not negative. |
| `Chunked.FeedRangeStep` | sign/sign.go:554-567 | One turn of the loop. A window of `min(sz, chunk)` bytes that fails ends the feed with that window reported. One that maps is appended to what was already handed on. |
| `Mmap.MmapReader` | util/mmap.go:29-64 | A zero `sz` means the whole file size, or the stat error. `off >= sz` is refused and nothing is written. Otherwise the writer receives the window feed of [off, off + sz), and an error means the first window failed. With no error, the writer holds exactly `file[off .. off + sz]`. |
| `Mmap.MapWindows` | util/mmap.go:43-61 | The `for sz > 0` loop: what is written and the error equal the window feed. With no error, what is written is the whole range. |
| `Mmap.WholeFileOverrun` | util/mmap.go:35-41 | With `sz == 0` and an offset inside the file other than 0, the range check passes and the range ends past the end of the file. |
| `Mmap.MmapReaderRest` | util/mmap.go:35-61 | Corrected reader. A zero `sz` means the rest of the file after `off`, and an offset past the end is refused. With no error, the writer holds exactly `file[off..]`. |
| `Sign.NewKeypair` | sign/sign.go:136-152 | Fails exactly when key generation fails. Otherwise the pair holds the generated keys, and the private key caches the public key. |
| `Sign.KeyHint` | sign/sign.go:300-302 | The hint is 16 bytes, a prefix of SHA-256 of the key. |
| `Sign.XorTwice` | sign/sign.go:266-268 | XOR with the keystream keeps the length and undoes itself. |
| `Sign.XorBytes` | sign/sign.go:220-223 | The XOR loop: a buffer of `len(data)` bytes, each the data byte XOR the keystream byte at its index. |
| `Sign.EncryptKey` | sign/sign.go:243-268 | A missing salt is the salt error. A keystream of `len(Sk)` bytes is requested, and its failure is the scrypt error. On success: a 32-byte salt, a ciphertext of `len(Sk)` bytes, the tag SHA-256(salt‖keystream), algo "scrypt-sha256", and N = 2^17, r = 16, p = 1. |
| `Sign.SerializePrivateKey` | sign/sign.go:234-283 | `serialize` up to YAML: the record is the base64 encoding of the encrypted key, with the comment. |
| `Sign.DecryptKey` | sign/sign.go:190-225 | The first of Esk, Salt and Verify that is not valid base64 is the error, in that order. Once all three decode, a failed key derivation is the scrypt error. A keystream whose SHA-256(salt‖keystream) differs from the stored tag is "incorrect password", whatever the record. A matching tag always succeeds. On success, all three fields decoded. The keystream comes from the record's own N, r and p. The stored tag equals SHA-256(salt‖keystream), the key is the ciphertext XOR the keystream, and no public key is cached. |
| `Sign.ReadPrivateKey` | sign/sign.go:181-226 | The decode, derive, tag-check and XOR steps, in order, with an error at each. The XOR is reached only after the tag matches. |
| `Sign.RecordParameters` | sign/sign.go:245-277 | Every written record carries algo "scrypt-sha256", N = 131072, r = 16, p = 1 and the given comment. |
| `Sign.EncryptDecrypt` | sign/sign.go:207-223 | Reading a record back with the password it was written with gives back the original secret key bytes. |
| `Sign.WrongPasswordRejected` | sign/sign.go:210-217 | A password whose keystream gives a different tag is refused with "incorrect password", and nothing is decrypted. |
| `Sign.SignMessage` | sign/sign.go:292-303 | Fails exactly when signing fails. Otherwise the signature is the Ed25519 one, with the hint of the cached public key. |
| `Sign.FreshKeyHintMatches` | sign/sign.go:385-388 | A signature made with a fresh keypair's private key matches its public key under `IsPKMatch`. |
| `Sign.IsPKMatch` | sign/sign.go:385-388 | A match holds exactly when the signature's hint is 16 bytes long and is a prefix of SHA-256 of the public key. |
| `Sign.LoadedKeyHint` | sign/sign.go:202-225 | A key read back from its file caches no public key. Its signatures carry the hint of the empty byte string, and they match a public key only if that key has the same hint. |
| `Sign.Reloaded` | sign/sign.go:202-225 | A key saved with a password and read back with it has its secret bytes and no cached public key. |
| `Sign.LoadedKeyMismatch` | sign/sign.go:292-303 | As written: a keypair's private key, saved and loaded, signs with a hint that its own public key does not match, whenever that key's hint differs from the empty string's. |
| `Sign.PublicHalf` | sign/sign.go:292-303 | The public half of a 64-byte Ed25519 private key is its last 32 bytes. For a key of another length it is the cached public key. |
| `Sign.SignMessageHinted` | sign/sign.go:292-303 | Corrected signing. It fails exactly when signing fails. Otherwise it carries the Ed25519 signature and the hint of the key's own public half. |
| `Sign.HintedKeyMatches` | sign/sign.go:385-388 | With the corrected hint, a keypair's signatures match its public key under `IsPKMatch`, from the fresh key and from the key after a save and load. This holds when generated private keys end in their public key. |
| `Sign.MakeSignature` | sign/sign.go:336-354 | Errors exactly when `signature` or `pkhash` is invalid base64. The `signature` field is decoded first. Otherwise the decoded pair is returned. |
| `Sign.SerializeSignature` | sign/sign.go:359-363 | The record keeps the comment. When base64 round-trips, both of its fields decode back to the signature bytes and the hint. `SignatureRoundTrip` builds on this. |
| `Sign.SignatureRoundTrip` | sign/sign.go:359-371 | A serialized signature parses back to the same signature. |
| `Sign.MissingSignatureAccepted` | sign/sign.go:343-346 | A document with no `signature` field is accepted, with an empty signature. |
| `Sign.ReadPublicKey` | sign/sign.go:396-421 | Invalid base64 and an empty decoded key are errors. Otherwise the key is the decoded bytes. |
| `Sign.SerializePublicKey` | sign/sign.go:425-429 | The record keeps the comment. When base64 round-trips, its field decodes back to the key bytes. `PublicKeyRoundTrip` builds on this. |
| `Sign.PublicKeyRoundTrip` | sign/sign.go:425-435 | A non-empty public key reads back from its record. An empty one is refused. |
| `Sign.FileDigestIsOnePass` | sign/sign.go:536-573 | When every window maps, the windowed digest is SHA-512 of the whole file. |
| `Sign.FileCksum` | sign/sign.go:547-568 | The loop hashes the windows in order and returns the mmap error of the first window that fails. |
| `Sign.SignFile` | sign/sign.go:312-318 | Signs the file digest, or returns the digest's error. |
| `Sign.VerifyMessage` | sign/sign.go:453-457 | Never an error; the result is the Ed25519 verdict. |
| `Sign.VerifyFile` | sign/sign.go:442-448 | Verifies against the digest computed exactly as `SignFile` computes it, or returns its error. |
| `Sign.SignThenVerifyFile` | sign/sign.go:442-457 | A file signed with a fresh keypair's private key verifies under its public key, and the signature's hint selects that key. |
| `CircularQueue.NextPow2` | util/q.go:31-39 | For 1 <= n <= 2^32: the result is a power of two, at least `n`, and half of it is below `n`. So it is the least power of two at or above `n`. |
| `CircularQueue.NextPow2OfPow2` | util/q.go:29-30 | A power of two is returned unchanged. |
| `CircularQueue.SlotCount` | util/q.go:42-45 | The slot count `mask + 1` is 2^j for some j <= 32. |
| `CircularQueue.AndLowMask` | util/q.go:65 | `x & (2^j - 1)` is `x mod 2^j`. |
| `CircularQueue.Step` | util/q.go:65 | `(1 + x) & mask` is the slot after `x` around the ring. |
| `CircularQueue.NextSlot` | util/q.go:81 | `(rd + 1) & mask` computed bitwise is the next slot around the ring. |
| `CircularQueue.RingEmpty` | util/q.go:10 | Under the ring invariant, `rd == wr` exactly when nothing is held. |
| `CircularQueue.RingFull` | util/q.go:9-11 | Under the ring invariant, the slot after `wr` is `rd` exactly when N - 1 elements are held, and never more are held. |
| `CircularQueue.RingWrite` | util/q.go:65-70 | Writing the slot after `wr` appends the element as the newest and keeps the invariant. |
| `CircularQueue.RingRead` | util/q.go:78-85 | The slot after `rd` holds the oldest element. Clearing it and moving `rd` there leaves the rest in order. |
| `CircularQueue.Q.constructor` | util/q.go:42-50 | `nextpow2(n)` slots, all nil, both indices 0, and empty. |
| `CircularQueue.Q.Flush` | util/q.go:54-57 | Both indices back to 0, and the queue is empty. |
| `CircularQueue.Q.Enq` | util/q.go:61-71 | Accepts exactly when fewer than `mask` elements are held. Then the element is appended last, in slot `(wr + 1) & mask`, and `wr` moves there. A full queue is left unchanged. |
| `CircularQueue.Q.Deq` | util/q.go:75-86 | Succeeds exactly when the queue is not empty. Then it returns the oldest element, removes it, advances `rd` and clears that slot. An empty queue is left unchanged. |
| `CircularQueue.Q.IsEmpty` | util/q.go:90-94 | `rd == wr`, exactly when nothing is held. |
| `CircularQueue.Q.IsFull` | util/q.go:97-101 | `rd == (wr + 1) & mask`, exactly when `mask` elements are held. |
| `CircularQueue.Q.Size` | util/q.go:130-138 | The number of held elements, never above `mask`. |
| `CircularQueue.NewQ4` | util/q_test.go:31 | `NewQ(4)` has mask 3 and is empty. |
| `CircularQueue.EnqThree` | util/q_test.go:36-44 | Three insertions into an empty queue of capacity 4 all succeed, fill it, and give size 3. |
| `CircularQueue.FillAndDrain` | util/q_test.go:27-68 | Empty and not full at first. Three inserts fit and fill it, and a fourth is refused. The elements come out 10, 20, 30, and then it is empty and a further removal fails. |
| `CircularQueue.WrapAround` | util/q_test.go:72-100 | After two removals, two insertions wrap the write index. The queue holds 30, 40, 50, in order, and has size 3. |
| `MersenneTwister.SeedFill` | mtrand/mtrand.go:41-45 | `mt[0] = seed`, and `mt[i] = 1812433253 * (mt[i-1] ^ (mt[i-1] >> 30)) + uint32(i)` mod 2^32. |
| `MersenneTwister.TwistUpToFrozen` | mtrand/mtrand.go:53-60 | The first k twist steps leave words k and above untouched. |
| `MersenneTwister.TwistUpToSettled` | mtrand/mtrand.go:53-60 | A word keeps the value its own twist step gave it. |
| `MersenneTwister.TwistAt` | mtrand/mtrand.go:56-59 | New word i is step i applied to the state as it stood after steps 0 .. i - 1. |
| `MersenneTwister.Twist` | mtrand/mtrand.go:51-63 | The state keeps its 624 words. The recurrence it follows is stated by `TwistRecurrenceLow`, `TwistRecurrenceHigh` and `TwistRecurrenceLast`. |
| `MersenneTwister.TwistRecurrenceLow` | mtrand/mtrand.go:56-59 | For i + 397 < 624, new word i combines old words i, i + 1 and i + 397. It joins the upper and lower bits, shifts, XORs, and applies the 0x9908b0df constant when odd. |
| `MersenneTwister.TwistRecurrenceHigh` | mtrand/mtrand.go:56-59 | From i = 227 on, the in-place order makes step i read the already rewritten word i - 227. |
| `MersenneTwister.TwistRecurrenceLast` | mtrand/mtrand.go:56-59 | The last step wraps round to the rewritten word 0. |
| `MersenneTwister.TemperStepsInvertible` | mtrand/mtrand.go:72-76 | Each of the four tempering steps can be undone, so tempering maps distinct words to distinct outputs. |
| `MersenneTwister.Temper` | mtrand/mtrand.go:72-76 | `Untemper`, the four inverse steps applied in reverse order, gives back the word. So distinct words temper to distinct outputs. |
| `MersenneTwister.Step` | mtrand/mtrand.go:66-80 | One `Next` keeps the index within 1 .. 624 and the state at 624 words. |
| `MersenneTwister.StepNoTwist` | mtrand/mtrand.go:70-78 | Below index 624, `Next` returns the tempered word at the index, advances the index by one and changes no word. |
| `MersenneTwister.OutputsBeforeTwist` | mtrand/mtrand.go:66-80 | Until the index reaches 624, the outputs are the tempered words from the index on. |
| `MersenneTwister.OutputAtTwist` | mtrand/mtrand.go:70 | The output after the index reaches 624 is the tempered first word of the twisted state. |
| `MersenneTwister.FirstOutputs` | mtrand/mtrand.go:35-48 | From index 0, the first 624 outputs are the tempered seed words in order, and the 625th comes from the first twisted word. |
| `MersenneTwister.MT.constructor` | mtrand/mtrand.go:35-48 | The words are the seeded state of the seed, or of the clock for seed 0, and the index is 0. |
| `MersenneTwister.MT.TwistState` | mtrand/mtrand.go:51-63 | Rewrites the words in place, in index order, into the twisted state, and resets the index to 0. |
| `MersenneTwister.MT.Next` | mtrand/mtrand.go:66-80 | Twists only when the index is 624. Returns the tempered word at the index and advances the index by one. Below 624 no word changes. |
| `MersenneTwister.Draw` | mtrand/mtrand.go:66-80 | n calls of `Next` return the first n outputs of the state they started from. |
| `MersenneTwister.SameSeedSameStream` | mtrand/mtrand.go:35-80 | Two generators with the same non-zero seed give identical outputs, whatever the clock reads. |
| `ConfigLines.TrimSpace` | fileio/readline.go:40-42 | Empty exactly when the text is all white space. Otherwise it starts and ends with a non-space and is the text between the leading and the trailing white space. |
| `ConfigLines.Chomp` | fileio/readline.go:33-36 | Removes at most one trailing newline. |
| `ConfigLines.Readline` | fileio/readline.go:25-45 | The count is at least -1, and a count of 0 or -1 comes with the empty line. |
| `ConfigLines.ReadlineEnd` | fileio/readline.go:28-30 | -1 exactly when nothing was read and the error is EOF. Nothing read with any other error is ("", 0). |
| `ConfigLines.ReadlineSkips` | fileio/readline.go:38-42 | Blank lines and lines whose first non-space character is `#` give ("", 0). |
| `ConfigLines.ReadlineKeeps` | fileio/readline.go:40-44 | A positive count exactly when the trimmed line is non-empty and not a comment. The line is then the trimmed text, the count is its length, it has no white space at either end, and it does not start with `#`. |
| `ConfigLines.ReadlineOneNewline` | fileio/readline.go:33-36 | Only one newline is stripped: a line reads the same with one newline added. |
| `ConfigLines.GenlinesStep` | fileio/readline.go:54-57 | Each read before the end of input contributes its line when its count is positive, and nothing otherwise. |
| `ConfigLines.Genlines` | fileio/readline.go:49-59 | At most one line per read. `GenlinesUpToEnd` states the output exactly: the kept lines before the first end of input. |
| `ConfigLines.GenlinesUpToEnd` | fileio/readline.go:54-59 | `Genlines` emits exactly the lines with a positive count, in order, from the reads before the first -1. Nothing after it is read. |
| `ConfigLines.GenlinesClean` | fileio/readline.go:54-57 | Every emitted line is non-empty, trimmed at both ends, and not a comment. |
| `Logging.EmitPadded` | logger/logger.go:383-387 | The loop writes the digits of `u`, after enough `'0'`s to fill `wid`. |
| `Logging.ItoaPadded` | logger/logger.go:374-390 | `itoa` is the canonical decimal form of `u`, left-padded with `'0'` to at least `wid` characters. This includes "0" for zero and `wid <= 1`. |
| `Logging.ItoaDigits` | logger/logger.go:383-389 | The result holds only `'0'..'9'`, its decimal value is `u`, and its length is the larger of `wid` and the number of digits of `u`. |
| `Logging.ItoaWidth` | logger/logger.go:399-416 | A value below 10^wid takes exactly `wid` characters. |
| `Logging.EmitFits` | logger/logger.go:372-382 | A 64-bit value and a width of at most 32 fit the 32-byte buffer. |
| `Logging.Itoa` | logger/logger.go:374-390 | The buffer is filled from the end and the filled tail returned. The result is `itoa`'s value for `uint(i)`. |
| `Logging.HeaderWidth` | logger/logger.go:392-421 | The header is 10 characters for the date, 9 for the time, and 7 more for microseconds, each only when its flag is set. |
| `Logging.Header` | logger/logger.go:392-421 | Empty exactly when none of Ldate, Ltime and Lmicroseconds is set. Without Ldate, a non-empty header starts with the space before the clock. `HeaderWidth` and `HeaderStd` give the widths and field values. |
| `Logging.HeaderStd` | logger/logger.go:396-413 | With `LstdFlags` the header is "yyyy/mm/dd hh:mm:ss", and each field reads back as its value. |
| `Logging.IntString` | logger/logger.go:463 | `%d`: the digits of `i`, after a minus sign when negative. |
| `Logging.ShortNameSpec` | logger/logger.go:453-461 | `Lshortfile` keeps the text after the last `/` past position 0, which holds no `/`. A name with no such `/` is kept whole. |
| `Logging.ShortFile` | logger/logger.go:453-461 | The backward scan returns the short name. |
| `Logging.FormatLine` | logger/logger.go:429-479 | An empty message gives "". Otherwise the line ends with the message and exactly one added newline, which is added only when the message lacks one. |
| `Logging.Format` | logger/logger.go:429-479 | Empty exactly for an empty message. Otherwise the line is the lead text, then the message, then at most one more character, and it ends in a newline. |
| `Logging.FormatSameLead` | logger/logger.go:432-469 | The text before the message does not depend on the message. |
| `Logging.FormatBare` | logger/logger.go:434-440 | A syslog logger without prefix or caller information writes the message alone, newline-terminated. |
| `Logging.CallerInfo` | logger/logger.go:442-469 | The "(file:line) " part: "???" and 0 for an unknown caller, and the short name under `Lshortfile`. |
| `Logging.Ofmt` | logger/logger.go:429-479 | Assembles stamp, prefix, caller information, the message and the final newline, as `Format` says. |
| `Logging.OutCh.constructor` | logger/logger.go:200 | A fresh output channel is open and empty. |
| `Logging.OutCh.CloseCh` | logger/logger.go:214-222 | Marks the channel closed and reports whether it already was. Queued lines stay. |
| `Logging.OutCh.Put` | logger/logger.go:483-493 | Queues the line unless the channel is closed. |
| `Logging.Logger.Init` | logger/logger.go:198-212 | A fresh channel. A non-empty prefix gets ": " appended and sets `lPrefix`. Nothing else changes. |
| `Logging.Logger.constructor` | logger/logger.go:240-242 | A logger on the given writer and priority, with a fresh open channel. A non-empty prefix becomes "prefix: " and sets `lPrefix`; otherwise the flags are kept as given. |
| `Logging.Logger.Filelog` | logger/logger.go:273-287 | The caller's syslog, prefix and close bits are cleared, and `lClose` is set. The logger writes to the named file. |
| `Logging.Logger.Syslog` | logger/logger.go:292-302 | As `NewFilelog`, but `lSyslog` is set instead of `lClose`. |
| `Logging.Logger.New` | logger/logger.go:248-267 | Same writer and channel. `LOG_NONE` inherits the parent's priority. The prefix is "parent-child: " or "child: ". The flags are the parent's plus `lSublog`, plus `lPrefix` for a non-empty prefix. |
| `Logging.Logger.Sub` | logger/logger.go:248-267 | Corrected sub-logger: as `New`, but an empty prefix keeps the parent's prefix. The prefix invariant is kept. |
| `Logging.Logger.Close` | logger/logger.go:226-233 | A no-op on a sub-logger. Otherwise the shared channel is closed. |
| `Logging.Logger.Loggable` | logger/logger.go:552-554 | Only priorities at or above `LOG_NONE` pass. |
| `Logging.Logger.Output` | logger/logger.go:497-502 | Formats with the call depth one deeper and queues the line, unless the channel is closed. |
| `Logging.Logger.EnableRotation` | logger/logger.go:328-368 | Refused for a logger that is not file backed, and for hh, mm or ss out of range, with nothing changed. Otherwise it keeps `max` logs, or `MAX_LOGFILES` (7) when `max <= 0`, and sets `lRotate`. |
| `Logging.Logger.SetPrio` | logger/logger.go:643-647 | Sets the priority and nothing else. |
| `Logging.Logger.SetFlags` | logger/logger.go:657-661 | Sets the flags and nothing else. |
| `Logging.Logger.SetPrefix` | logger/logger.go:671-675 | Sets the prefix and nothing else. |
| `Logging.LoggableUpward` | logger/logger.go:552-554 | What passes at p passes at every higher priority. |
| `Logging.LoggableThreshold` | logger/logger.go:552-554 | With a priority at or above `LOG_NONE`, exactly the priorities at or above it pass. With a negative priority nothing passes. |
| `Logging.SubLoggerChain` | logger/logger.go:248-267 | Sub-loggers chain prefixes ("parent-child: ", then "parent-child-g: ") and inherit the priority for `LOG_NONE`. |
| `Logging.CloseShared` | logger/logger.go:226-233 | Closing a sub-logger leaves the shared channel open. Closing the parent closes it, and later lines are dropped. |
| `Logging.EmptySubPrefix` | logger/logger.go:254-263 | A sub-logger with an empty prefix under a prefixed logger keeps `lPrefix` but has an empty prefix, so it cannot be nested further. |
| `Logging.SubNests` | logger/logger.go:248-267 | With `Sub`, the same nesting keeps "app: " and extends it to "app-db: ". |
| `Logging.RotationCases` | logger/logger.go:332-353 | Rotation is accepted on a file logger at 03:00:00, keeping 7 logs. It is refused at 24:00:00, and on a logger that writes elsewhere. |

## Left out

- Concurrency is not modelled: the queue's mutex, the logger's `qrunner` goroutine, the buffered channel's delivery to the writer, the atomic closed flag, `Backtrace`, and the `Genlines` goroutine and channel. Operations are sequential.
- File, terminal and network I/O are not modelled.
  - Reading and writing key, signature and log files, `writeFile` (its temp file, its permissions, and its ignored rename error), `Keypair.Serialize`, `SerializeFile` and `ReadSignature`.
  - `Askpass`, opening and stating the file in `fileCksum`, `syscall.Munmap`, syslog, and `rotateLog`.
- YAML marshalling and its errors are not modelled; the records are datatypes. The hashing, key-derivation, signature and base64 routines are given, not computed.
- The clock is not modelled:
  - `time.Now()` in `ofmt`. The header text is a parameter. `Header` models `formatHeader` on a given broken-down time.
  - The next rotation time `rot_tm` that `EnableRotation` computes.
  - The clock reading MT uses for a zero seed, which is a parameter.
- `Logging.Logger.EnableRotation`: the informational log line it writes when rotation is enabled is not modelled.
- `Logging.Logger.Close`: waiting on the `wait` channel for the writer goroutine to drain is not modelled.
- The `PrioName`/`PrioString` tables, `NewLogger`'s dispatch on the upper-cased name, the error when `NewFilelog` cannot open its file, `directWrite`, the `Printf`-style wrappers and the `Prio`/`Flags`/`Prefix` accessors are not modelled. They are table lookups, I/O or plain field reads.
- `Logging.Logger.New`: requires that the parent's prefix has two characters when it is cut. In Go, cutting a shorter prefix is a run-time panic. See the first finding.
- `Logging.Itoa`: requires `wid <= 32`, the capacity of the buffer; `itoa`'s callers pass at most 6. Negative widths are allowed.
- `Logging.Header`: the fields of the time are naturals. Go's `t.Date()` gives a negative year for instants before year 1. `ofmt` only ever passes `time.Now()`, so those instants do not arise.
- `CircularQueue.Q.constructor`: requires `1 <= n <= 2^32`. That is the range where the shifts by 1, 2, 4, 8 and 16 reach every set bit, so `nextpow2` gives the least power of two at or above `n`. Above it, the result is right for some `n` but not others: 2^32 + 2 gives 2^33, but 2^32 + 1 gives 2^33 - 1. `n = 0` wraps round to 0. A negative `n` becomes a huge `uint`: -2^63 gives 2^63, a slice Go cannot allocate. So no `n <= 0` gives a queue Go can build.
- `Mmap.MmapReader`: requires the range to end inside the file, but only where the range check is reached and passes: a non-zero `sz`, or a zero `sz` with a successful stat. Mapping past the end of the file is not modelled (see the second finding).
- `ConfigLines.Readline`: lengths count characters, not UTF-8 bytes. Go's `len` counts bytes, so the positive count differs for non-ASCII lines; the line itself is the same.
- MT: `uint32(i)` in the seeding step is counted up in 32-bit arithmetic (`Index32`). That this count equals `i` for the indices 1 .. 623 holds by definition but is not proved: relating `bv32` values to integers runs out of solver resources.
- `ConfigLines.Genlines`: in Go, a reader that keeps failing with an error other than EOF yields ("", 0) forever. `Genlines` then skips each result and never closes its channel. The model's input is a finite sequence of reads, so this endless loop is not shown.
- `Sign.SignMessage`, `Sign.VerifyMessage`: golang.org/x/crypto/ed25519 panics when `Sign` gets a private key that is not 64 bytes, or `Verify` a public key that is not 32 bytes. The model's `sign` and `verify` are total. A 5-byte key that `ReadPublicKey` accepts therefore gets a verdict from `verify`, where Go would crash.

## Findings

| source | as written | input that shows it | evidently intended | confidence | as-written member | corrected member |
|---|---|---|---|---|---|---|
| logger/logger.go:254-263 | A sub-logger made with an empty prefix copies the parent's `lPrefix` flag but not its prefix. | `New("", LOG_NONE)` on a logger with prefix "app: ", then `New("db", …)` on the result. It cuts two characters off "" and panics. | An empty prefix keeps the parent's prefix, so `lPrefix` still describes the prefix. | not executed | `Logging.EmptySubPrefix` | `Logging.Logger.Sub` |
| util/mmap.go:35-41 | `sz == 0` is replaced by the whole file size, not by the size left after `off`. | An 8192-byte file with `off = 4096` and `sz = 0`: 8192 bytes are mapped from offset 4096. The second page lies wholly past the end of the file, and writing it out faults. (`mmap` refuses an offset that is not page-aligned, so `off` must be a multiple of the page size.) | A zero `sz` means the rest of the file after `off`. | not executed | `Mmap.WholeFileOverrun` | `Mmap.MmapReaderRest` |
| sign/sign.go:292-303 | `SignMessage` takes the key hint from the cached public key `sk.pk`. Only `NewKeypair` sets it, and `ReadPrivateKey` (sign/sign.go:202-225) leaves it empty, so a key loaded from its file signs with the hint of SHA-256 of the empty string. | Generate a keypair, save its private key, load it back with the same password and sign a file. The signature's `Pkhash` is SHA-256("")[:16], and `IsPKMatch` with the keypair's own public key is false. | The hint is the first 16 bytes of SHA-256 of the signer's public key, taken from the public half of the Ed25519 private key, so it matches however the key was obtained. | not executed | `Sign.LoadedKeyMismatch` | `Sign.SignMessageHinted` |
