# A verified model of a document password cracker

The system is a multi-threaded password cracker for encrypted documents
(ZIP archives, Office files, PDFs). A candidate generator produces
passwords. It works either by brute force over a character set, from
a minimum to a maximum length, or from a dictionary of words read from a
file or a directory tree, optionally widened by mutation rules. A
producer thread cuts the candidate stream into batches of 500. Worker
threads test each candidate against the document until one is accepted.
The ZIP cracker (`src/formats/archive.rs`) tests a candidate by asking
the `zip` crate to decrypt and read the archive's first entry. Beside it,
the public library module `formats::zip_crypto` implements the traditional
PKWARE password check itself: it derives three 32-bit key registers from
the password, decrypts the 12-byte encryption header and compares its last
byte with a byte taken from the entry's metadata. Nothing in the program
calls that module; only its own tests and outside users of the library
do.

This project models that core in Dafny and proves properties of the
model:

- `crc32.dfy` (module `Crc32`) holds the table-driven CRC-32 step of the
  key schedule. It is checked, entry by entry, against the bitwise reflected
  CRC-32 over 0xEDB88320, and the whole step is shown equal to eight bitwise
  division steps on the register.
- `stream_cipher.dfy` (module `StreamCipher`) is a generic
  plaintext-feedback (autokey) stream cipher: its key state is fed with each
  plaintext byte, so the keystream depends on the earlier plaintext, and one
  wrong ciphertext byte spoils the key state for the rest of the stream. It
  proves the encrypt/decrypt round trip once for any key schedule.
- `zip_crypto.dfy` (module `ZipCrypto`) models the key registers, the
  keystream byte, `decrypt_byte`, encryption-type detection and
  `verify_traditional_password`. The method keeps the source's two loops.
- `odometer.dfy` (module `Odometer`) models the index vector of the
  brute-force generator as a base-`|charset|` numeral, and the source's
  `increment_indices` as adding one to it.
- `brute_force.dfy` (module `BruteForce`) models the brute-force generator:
  construction errors, `next`, `reset` and the 64-bit
  `total_combinations`. It proves the whole output equals a reference
  enumeration: every length in turn, each in odometer order.
- `ascii.dfy` (module `Ascii`) covers trimming and case mapping.
  `mutations.dfy` (module `Mutations`) covers the mutation rules.
  `dictionary.dfy` (module `Dictionary`) covers the dictionary generator:
  - the line filter of `load_file`;
  - the directory walk;
  - order-preserving de-duplication;
  - `with_mutations`, `next`, `reset` and `total_combinations`.
- `generators.dfy` (module `Generators`) holds the generator mode and
  `create_generator`. The two generators are a sum type behind the common
  interface.
- `format.dfy` (module `Format`) models `format_number` (thousands
  separators) and `format_duration`, each with a reading-back partner.
  `charsets.dfy` (module `Charsets`) holds the ready-made character sets.
- `formats.dfy` (module `Formats`) models the choice of document cracker
  from the file extension.
- `cracker.dfy` (module `Cracker`) models the engine:
  - the thread-count rule;
  - the producer's batching;
  - a worker's loop over a batch;
  - a whole run with the batches checked one after another.

  The document's password check is a parameter.

The file system is data: a file is its lines, and a line that cannot be
decoded is `None`. The CPU counts are parameters. Another thread setting
the shared "found" flag is given as the number of times the flag reads as
clear.

Where the code and the design description disagree, the model follows the
code:

- `verify_traditional_password` returns an error for a header shorter than
  12 bytes. It does not return "no match".
- The check compares the low byte of the modification time for streamed
  entries (see Findings). `formats::zip_crypto` is a public library module
  that the cracker does not call (the ZIP cracker goes through the `zip`
  crate), so the wrong refusal reaches only direct callers of
  `verify_traditional_password`, never a cracking run.
- A worker that finds the password writes it into the shared slot without
  a compare-and-set. So nothing here claims that the first success wins.

## Model

| member | source | states |
|---|---|---|
| Crc32.TableIsReflectedCrc | src/formats/zip_crypto.rs:56-110 | the table has 256 entries; entry n is the CRC-32 remainder of byte n computed bit by bit with polynomial 0xEDB88320; entry 128 is the polynomial |
| Crc32.Update | src/formats/zip_crypto.rs:112-115 | by its definition: the register shifted down one byte, xored with the table entry at `(crc ^ b) & 0xff`; the mask stands for the `as usize` of the masked value, so the index is always below 256; its meaning as CRC-32 division is stated by `Crc32.UpdateIsBitwise` |
| Crc32.UpdateIsBitwise | src/formats/zip_crypto.rs:112-115 | the table-driven step equals eight steps of bitwise reflected CRC-32 division over 0xEDB88320 applied to the whole register mixed with the input byte |
| ZipCrypto.Update | src/formats/zip_crypto.rs:36-41 | by its definition: the second register is the wrapping u32 add and multiply (bv32 arithmetic is arithmetic modulo 2^32) on the NEW first register's low byte; the third is a CRC step on the top byte of the NEW second register |
| ZipCrypto.FirstRegisterIsBitwise | src/formats/zip_crypto.rs:37 | the first register of a key step is one byte of bitwise CRC-32 division of the old register mixed with the input byte |
| ZipCrypto.StreamByte | src/formats/zip_crypto.rs:43-46 | the keystream byte is bits 8..15 of t * (t ^ 1) modulo 2^16; the `as u16` truncation of the third register with bit 1 set is `& 0xffff`, and `wrapping_mul` is bv16 multiplication |
| ZipCrypto.DecryptByte | src/formats/zip_crypto.rs:48-52 | the plaintext byte is the cipher byte xored with the keystream byte, and the keys advance with the plaintext, not the ciphertext |
| ZipCrypto.RoundTrip | src/formats/zip_crypto.rs:36-52 | decrypting then re-encrypting from the same keys gives the ciphertext back, and encrypting then decrypting gives the plaintext back |
| ZipCrypto.PasswordStep0 | src/formats/zip_crypto.rs:228-240 | feeding 'p' into the seed registers gives the stated first key state |
| ZipCrypto.PasswordStep1 | src/formats/zip_crypto.rs:228-240 | feeding 'a' gives the second key state of "password" |
| ZipCrypto.PasswordStep2 | src/formats/zip_crypto.rs:228-240 | feeding 's' gives the third key state of "password" |
| ZipCrypto.PasswordStep3 | src/formats/zip_crypto.rs:228-240 | feeding 's' gives the fourth key state of "password" |
| ZipCrypto.PasswordStep4 | src/formats/zip_crypto.rs:228-240 | feeding 'w' gives the fifth key state of "password" |
| ZipCrypto.PasswordStep5 | src/formats/zip_crypto.rs:228-240 | feeding 'o' gives the sixth key state of "password" |
| ZipCrypto.PasswordStep6 | src/formats/zip_crypto.rs:228-240 | feeding 'r' gives the seventh key state of "password" |
| ZipCrypto.PasswordStep7 | src/formats/zip_crypto.rs:228-240 | feeding 'd' gives the final key state, and each of its three registers differs from its seed, as the source's key test asserts |
| ZipCrypto.DetectEncryptionType | src/formats/zip_crypto.rs:118-133 | no encryption exactly when flag bit 0 is clear; AES-256 exactly when it is set and the method is 99; traditional otherwise; AES-128 and AES-192 are never reported |
| ZipCrypto.FeedPassword | src/formats/zip_crypto.rs:150-153 | the password loop leaves the keys that the password's bytes, fed in order from the seeds, define |
| ZipCrypto.DecryptHeader | src/formats/zip_crypto.rs:155-159 | the header loop yields the decryption of the first 12 header bytes |
| ZipCrypto.DecryptHeaderStep | src/formats/zip_crypto.rs:155-159 | one turn of the header loop extends the decrypted prefix by one byte and feeds it into the keys |
| ZipCrypto.VerifyTraditionalPassword | src/formats/zip_crypto.rs:136-177 | an error exactly when the header is shorter than 12 bytes, with the source's message; otherwise true exactly when decrypted byte 11 equals the chosen check byte |
| ZipCrypto.RightPasswordAcceptedIff | src/formats/zip_crypto.rs:155-177 | for a header encrypted under the password, the check passes exactly when plaintext byte 11 is the compared byte; bytes after the twelfth are never read |
| ZipCrypto.StreamedHeaderRefused | src/formats/zip_crypto.rs:169-172 | as written, a streamed entry whose header ends in the high time byte is refused under its own password whenever the two time bytes differ |
| ZipCrypto.WrittenHeaderAcceptedCorrected | src/formats/zip_crypto.rs:161-177 | with the high time byte, every such header passes under its own password, streamed or not |
| ZipCrypto.VerifyTraditionalPasswordCorrected | src/formats/zip_crypto.rs:136-177 | the same check with the corrected byte: the same error case, otherwise true exactly when byte 11 equals the corrected check byte |
| Odometer.Increment | src/generator/brute_force.rs:38-52 | the step reports success exactly when some index is below the maximum; the vector keeps its length and stays in range |
| Odometer.IncrementValue | src/generator/brute_force.rs:38-52 | a successful step adds one to the vector read as a base-n numeral; a failed one happens only at the largest numeral and leaves all zeros |
| Odometer.IncrementScansFromTheBack | src/generator/brute_force.rs:41-48 | on success, one position is bumped by one, every later position was at the maximum and is now zero, and every earlier one is unchanged |
| Odometer.IncrementCounts | src/generator/brute_force.rs:38-52 | stepping the digits of k gives the digits of k + 1, or all zeros with failure after the last numeral |
| Odometer.ValueDigits | src/generator/brute_force.rs:38-52 | every in-range index vector is the digit vector of its own value, so numbering the vectors loses nothing |
| BruteForce.New | src/generator/brute_force.rs:14-36 | an error exactly for an empty charset, min above max, or max above 20, with the source's messages in that order of precedence; otherwise a live generator at the minimum length with zero indices |
| BruteForce.Render | src/generator/brute_force.rs:54-59 | the candidate has one character per index: the charset character it selects |
| BruteForce.Next | src/generator/brute_force.rs:63-88 | exhausted stays put and returns None; a length of zero exhausts and returns None; otherwise the candidate has the current length and is drawn from the charset |
| BruteForce.NextAdvances | src/generator/brute_force.rs:73-87 | after a candidate the indices count up by one; after the last of a length the next length starts at zero; after the last of the maximum length the generator is exhausted |
| BruteForce.ExhaustedStaysExhausted | src/generator/brute_force.rs:64-66 | once exhausted, every later call returns None and changes nothing |
| BruteForce.Reset | src/generator/brute_force.rs:90-94 | reset gives a live generator with the same settings |
| BruteForce.ResetIsNew | src/generator/brute_force.rs:90-94 | resetting any state gives exactly the generator the constructor builds from the same settings |
| BruteForce.DrainFrom | src/generator/brute_force.rs:63-88 | from any live state the rest of the output is the remaining words of the current length, then every longer length up to the maximum |
| BruteForce.DrainNew | src/generator/brute_force.rs:63-88 | a new generator with minimum length at least 1 outputs exactly the reference enumeration: each length in turn, each word in odometer order |
| BruteForce.DrainNewFromZero | src/generator/brute_force.rs:68-71 | with minimum length 0 the generator outputs nothing at all, although its count is at least 1 |
| BruteForce.EnumerateLength | src/generator/brute_force.rs:96-108 | the reference enumeration has n^min + ... + n^max words |
| BruteForce.TotalCombinations | src/generator/brute_force.rs:96-108 | None exactly when some length's count exceeds 2^64 - 1; otherwise the sum of the powers, saturated at 2^64 - 1 |
| BruteForce.NoSaturation | src/generator/brute_force.rs:100-105 | for minimum length at least 1 and maximum at most 20, the sum never saturates once the largest power fits in 64 bits |
| BruteForce.CountMatchesDrain | src/generator/brute_force.rs:96-108 | when the count is defined and the minimum length is at least 1, the count is the number of candidates the generator outputs |
| BruteForce.AbcExample | src/generator/brute_force.rs:116-126 | charset "abc" from length 1 to 2 starts a, b, c, aa, ab |
| BruteForce.AbCount | src/generator/brute_force.rs:129-132 | charset "ab" from length 1 to 3 has 2 + 4 + 8 candidates |
| Ascii.Trim | src/generator/dictionary.rs:50 | the result is a contiguous slice of the line that neither starts nor ends with whitespace, and nothing but whitespace was cut |
| Ascii.TrimIdempotent | src/generator/dictionary.rs:50 | trimming twice changes nothing more |
| Dictionary.LoadLines | src/generator/dictionary.rs:48-55 | at most one word per line; every loaded word is trimmed, non-empty and not a comment |
| Dictionary.LoadedIff | src/generator/dictionary.rs:48-55 | a word is loaded exactly when some decodable line trims to it and it is neither empty nor a comment |
| Dictionary.LoadFile | src/generator/dictionary.rs:43-58 | the line loop appends the file's words, in file order, to the words gathered so far |
| Dictionary.LoadLinesAppend | src/generator/dictionary.rs:60-80 | loading two files in a row gives the first file's words, then the second's |
| Dictionary.TreeIsOneFile | src/generator/dictionary.rs:60-80 | a directory loads as if its `.txt` files, in walk order and recursing into sub-directories, were one file; other files add nothing |
| Dictionary.FirstOccurrencesFacts | src/generator/dictionary.rs:31-33 | removing repeats keeps exactly the same set of words, each once |
| Dictionary.FirstOccurrencesOfDistinct | src/generator/dictionary.rs:31-33 | a list without repeats is left as it is |
| Dictionary.FirstOccurrencesIdempotent | src/generator/dictionary.rs:31-33 | removing repeats twice removes nothing more |
| Dictionary.Dedup | src/generator/dictionary.rs:31-33 | the `retain` pass with a set of seen words keeps each word at its first occurrence |
| Dictionary.New | src/generator/dictionary.rs:13-41 | an error exactly when the path is neither file nor directory, or provides no word, with the source's messages; otherwise the loaded words in first-seen order with later repeats dropped, at position 0 |
| Dictionary.DrainNew | src/generator/dictionary.rs:13-41 | a new generator hands out each loaded word once, in first-seen order |
| Dictionary.WithMutations | src/generator/dictionary.rs:82-97 | the new list is each word followed by its successful variants, in rule order; the position is kept |
| Dictionary.ExpandAppend | src/generator/dictionary.rs:82-97 | expansion works word by word and distributes over concatenation |
| Dictionary.ExpandBounds | src/generator/dictionary.rs:82-97 | every word survives expansion, and each adds at most one variant per rule |
| Dictionary.ExpandWithoutEffect | src/generator/dictionary.rs:150 | rules that are declared but not implemented leave the list unchanged |
| Dictionary.Next | src/generator/dictionary.rs:101-109 | the word at the position and the position moved on by one, or None with nothing changed past the end |
| Dictionary.Reset | src/generator/dictionary.rs:111-113 | reset keeps the list and goes back to position 0 |
| Dictionary.DrainIsSuffix | src/generator/dictionary.rs:101-109 | the generator hands out the rest of its list from the current position, in order |
| Dictionary.ResetReplays | src/generator/dictionary.rs:111-117 | after a reset the whole list is replayed, and the count is the length of that replay |
| Dictionary.ThreeWordFile | src/generator/dictionary.rs:162-169 | a file of password1, password2, password3 builds the generator over those three words |
| Dictionary.ThreeWordRun | src/generator/dictionary.rs:171-177 | such a generator yields the three words, then None; after a reset it yields password1 again |
| Mutations.Replace | src/generator/dictionary.rs:143-148 | every occurrence of one character is replaced and all others kept, position by position |
| Mutations.Apply | src/generator/dictionary.rs:132-152 | a variant exactly for Uppercase, Lowercase, leet, and Capitalize of a non-empty word; with case mapping on ASCII letters, a variant has the word's length |
| Mutations.LeetIsPerCharacter | src/generator/dictionary.rs:142-149 | the five replacements in a row act as one per-character substitution |
| Mutations.CapitalizeShape | src/generator/dictionary.rs:134-139 | the first character is upper-cased and the rest lower-cased; capitalizing again changes nothing |
| Mutations.CaseRulesAbsorb | src/generator/dictionary.rs:140-141 | upper- and lower-casing are idempotent, and each forgets what the other did |
| Mutations.CapitalizeExample | src/generator/dictionary.rs:183-185 | "hello" capitalizes to "Hello" |
| Mutations.LeetExample | src/generator/dictionary.rs:187-188 | "password" becomes "p@$$w0rd" |
| Generators.Create | src/generator/mod.rs:32-44 | a dictionary or brute-force mode builds its generator, and a construction error comes back with its message unchanged |
| Generators.Next | src/generator/mod.rs:26-30 | a step through the common interface keeps the generator valid and of the same kind |
| Generators.TotalCombinations | src/generator/mod.rs:26-30 | the dictionary count is its list length; the brute-force count is None exactly when some length class overflows 64 bits, and otherwise the number of words of all lengths from the minimum to the maximum, saturated at 2^64 - 1 |
| Generators.DrainDelegates | src/generator/mod.rs:26-30 | driving a generator through the common interface yields exactly what the implementation yields |
| Generators.CreateYields | src/generator/mod.rs:32-39 | a created dictionary yields its loaded words without repeats; a created brute-force generator yields the reference enumeration |
| Generators.ResetStartsOver | src/generator/mod.rs:26-30 | after a reset a dictionary replays its list, and a brute-force generator is the one its settings create |
| Format.DecimalValue | src/utils/mod.rs:77 | reading the decimal digits of n back gives n |
| Format.GroupAddsCommas | src/utils/mod.rs:76-91 | grouping only inserts commas: removing them gives the digits back, and a d-digit number gains (d - 1) / 3 commas |
| Format.CommaPositions | src/utils/mod.rs:81-88 | a comma stands exactly at the positions a multiple of four from the end |
| Format.FormatNumber | src/utils/mod.rs:76-91 | the reversed loop with its counter produces the digits of n grouped in threes from the right |
| Format.FormatNumberExamples | src/utils/mod.rs:98-102 | 1234567890, 999 and 1000 format as the source's tests expect |
| Format.Split | src/utils/mod.rs:61-64 | minutes and seconds are below 60, and hours, minutes and seconds recombine to the total |
| Format.SplitInjective | src/utils/mod.rs:61-64 | two totals with the same hours, minutes and seconds are equal |
| Format.FormatDuration | src/utils/mod.rs:60-73 | the text ends in 's', has an 'h' exactly from one hour on, and an 'm' exactly from one minute on |
| Format.DurationReadsBack | src/utils/mod.rs:60-73 | reading the displayed duration back gives the number of seconds |
| Format.FormatDurationInjective | src/utils/mod.rs:60-73 | different numbers of seconds never display alike |
| Format.FormatDurationExamples | src/utils/mod.rs:105-111 | 45, 125 and 3665 seconds display as "45s", "2m 5s" and "1h 1m 5s" |
| Charsets.Alphanumeric | src/utils/mod.rs:12-14 | the alphanumeric set has 62 characters |
| Charsets.All | src/utils/mod.rs:16-18 | the full set has 93 characters |
| Charsets.RangesInOrder | src/utils/mod.rs:7-9 | the digit, lower-case and upper-case constants each run through their range in code-point order |
| Charsets.AlphanumericIsDigitsAndLetters | src/utils/mod.rs:12-14 | the alphanumeric set holds exactly the ASCII digits and letters, each once |
| Charsets.SpecialIsApart | src/utils/mod.rs:10-18 | no special character is a digit or a letter, and the full set is the alphanumeric set followed by the 31 special characters |
| Charsets.AlphanumericCountLimit | src/utils/mod.rs:12-14 | over the alphanumeric set, lengths up to 10 have a 64-bit count and length 11 does not |
| Formats.Dispatch | src/formats/mod.rs:22-33 | no extension is an error; pdf, the three Office extensions and zip select their crackers, ignoring case; anything else is an error naming the extension as written; the RAR cracker is never selected |
| Formats.UpperCaseSelectsTheSame | src/formats/mod.rs:27 | upper-casing an extension does not change the cracker it selects |
| Cracker.ThreadCount | src/cracker/mod.rs:50-62 | an explicit count wins; "balanced" takes one less than the physical cores but at least one; any other mode, the default included, takes the logical count |
| Cracker.AlwaysAWorker | src/cracker/mod.rs:50-62 | without an explicit count there is always at least one worker on a machine reporting a CPU |
| Cracker.Produce | src/cracker/mod.rs:129-155 | the generator thread reads the flag before each batch and stops once it reads as set; every batch it sends is non-empty and at most 500 long; a partial batch is sent only when the generator runs out |
| Cracker.Take | src/cracker/mod.rs:135-145 | the batch loop pulls exactly n candidates, or all that are left when the generator runs out, in generator order |
| Cracker.BatchesAreFull | src/cracker/mod.rs:129-155 | every batch sent is non-empty and at most 500 long, all but the last are full, and there is at most one batch per clear read of the flag |
| Cracker.BatchesSpellTheOutput | src/cracker/mod.rs:129-155 | the batches, in send order, spell a prefix of the generator's output, and all of it when the flag is never set |
| Cracker.Scan | src/cracker/mod.rs:200-225 | a worker's check in order never counts more attempts than there are candidates, and when no candidate is accepted every one of them was checked |
| Cracker.ScanFindsFirst | src/cracker/mod.rs:199-226 | checking in order finds the first accepted candidate, after every earlier one was rejected, and counts it; otherwise every candidate is tried; a check error counts as a rejection |
| Cracker.ScanAppend | src/cracker/mod.rs:187-228 | checking two lists in a row is checking the first and, only if nothing was found, the second |
| Cracker.CheckBatch | src/cracker/mod.rs:199-226 | a worker checks its batch in order up to the first acceptance, stopping early once the flag reads as set, and counts one attempt per candidate checked |
| Cracker.CheckBatches | src/cracker/mod.rs:187-228 | batches checked one after another give the same result and attempt count as checking the joined list |
| Cracker.Crack | src/cracker/mod.rs:129-228 | with one idealised worker checking the batches in sending order, a whole run finds the first accepted candidate in generator order, after exactly as many attempts as candidates up to it; with none accepted, every candidate is tried once |

## Left out

- `ZipCrypto.PasswordStep7`: the key test feeds the whole word "password". The model proves each of the eight key-schedule steps separately. It does not join them into one statement about `KeysFor("password")`, because evaluating the chain of 32-bit multiplications at once is too costly for the solver.
- `ZipCrypto.Update`: no contract of its own; `ZipCrypto.FirstRegisterIsBitwise` states the first register's step against the bitwise CRC-32, and the `PasswordStep` lemmas pin all three registers on the source's test word. The second and third registers are otherwise stated by the definition only: the solver cannot relate the symbolic 32-bit multiplication to the bitwise CRC of its top byte within the resource limit.
- `ZipCrypto.StreamByte`: no contract beyond the definition. Facts about the symbolic 16-bit product, such as its independence of bit 0 of the register, are out of the solver's reach.
- `ZipCrypto.DetectEncryptionType`: the AES strength is stored in an extra field that the source does not read. AES is always reported as AES-256, as in the source.
- `Charsets.SpecialIsApart`: the special characters are shown to be no digits or letters. That they are pairwise distinct is not proved.
- `Formats.Dispatch`: lower-casing is ASCII only. Rust's Unicode case mapping is not modelled.
- `Ascii.Trim`: whitespace is the ASCII part of the Unicode White_Space set. Non-ASCII whitespace is not modelled.
- `Mutations.Apply`: upper- and lower-casing map ASCII letters only. Rust's `to_uppercase` and `to_lowercase` follow Unicode and can change the length of a word ("ß" upper-cases to "SS"), so "a variant has the word's length" holds for ASCII words only.
- `Dictionary.New`: the "neither a file nor a directory" message quotes the path. Rust's Debug escaping of special characters inside the path is not modelled.
- `Generators.Create`: the hybrid mode is excluded by its precondition, because the source stops there with a `todo!` panic.
- `Cracker.Crack`: the proved result order and attempt count are those of an idealised single worker that checks the batches in the order they were sent. No thread count of the program behaves like that. With two or more threads, workers check batches concurrently and all add to one shared attempt counter. With one thread, by rayon's scheduling, `ThreadPool::scope` runs the dispatcher loop on the only pool thread and `scope.spawn` pushes each batch onto that thread's last-in-first-out deque. So no batch is checked until the generator runs out, and the batches are then checked newest first. Channel capacity is not modelled. A found password is stored without a compare-and-set, so no claim is made about which of two concurrent successes wins.
- `Cracker.BatchesAreFull`: sends are modelled as always succeeding, which is faithful. The receiver `rx` belongs to `crack` and is dropped only after `generator_thread.join()` (src/cracker/mod.rs:231), so the `send(..).is_err()` exit at src/cracker/mod.rs:147-153 cannot fire while the producer runs. A send on the bounded channel may block, which is a matter of timing, not of output.
- Reading files and directories is not modelled: open and read errors, `read_dir` errors, and the order in which the operating system lists a directory. The model takes files as line sequences and directory listings in a given order.
- Passwords are handed to the cipher as bytes. UTF-8 encoding of the Rust `&str` is not modelled.
- 64-bit counts are unbounded numbers, except where the source checks for overflow (`total_combinations`), which is modelled with the explicit bound 2^64 - 1.
- `verify_data_crc`, the ZIP, Office and PDF crackers, the CLI in `main.rs` and `lib.rs`, `validate_file` and `validate_wordlist` are not part of this model: they are I/O and foreign library calls.
- The `println!` messages of `Dictionary::new` and `load_directory` (the loaded count and each file loaded) are not modelled: they are console output only.
- The progress bar, the monitor thread, the timing, and the speed in floating point are not modelled. The `CrackResult` record is not modelled either.
- `num_cpus` is not modelled. The logical and physical CPU counts are parameters of `Cracker.ThreadCount`.
- The brute-force generator with minimum length 0 outputs nothing, as written (`BruteForce.DrainNewFromZero`). The intent there is unclear, so it is recorded but not listed as a finding.

## Findings

| source | as written | input that shows it | evidently intended | confidence | as-written member | corrected member |
|---|---|---|---|---|---|---|
| src/formats/zip_crypto.rs:169-172 | for an entry with the data-descriptor flag (bit 3) set, the last decrypted header byte is compared with the LOW byte of the modification time | flags with bit 3 set, a header written by a standard ZIP tool, which puts the HIGH byte of the time last, and a time whose two bytes differ (e.g. 0x1234): the right password is refused. Only direct callers of the public `verify_traditional_password` see this; the cracker itself checks ZIP passwords through the `zip` crate | compare with the high byte of the modification time, `(last_mod_time >> 8) as u8`, as Info-ZIP writes and checks it | medium, not executed | ZipCrypto.StreamedHeaderRefused | ZipCrypto.WrittenHeaderAcceptedCorrected, ZipCrypto.VerifyTraditionalPasswordCorrected |
