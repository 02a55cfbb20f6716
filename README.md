# BHD5 archive reader — a Dafny model

This project models the lookup core of BHDReader. BHDReader is a read-only reader for the "BHD5" archives of FromSoftware games. Each archive is a `.bhd` header and a `.bdt` data blob. The model covers six parts:

- **The path hasher** (`PathHash`, from `Util.ComputeHash`).
  - A path is trimmed, its backslashes become slashes, it is lower-cased, and it gets a leading `/` if it lacks one.
  - The result is then folded into a polynomial hash. Before Elden Ring the hash is 32 bits with multiplier 37. From Elden Ring on it is 64 bits with multiplier 0x85.
  - Wrap-around is written out as `% 2^w` at every step. A lemma proves the wrapping fold equals the exact polynomial reduced once.
- **The bucketed index** (`ArchiveIndex`, from `BHD5Data`).
  - The bucket is `hash % bucketCount`. That bucket is scanned in order, and the first entry with exactly the hash asked for is read.
  - The header and the data stream are lazy values. Each is an `Option` field that is filled at most once, with a ghost counter of factory runs.
  - A factory gives a value or an exception. Like `Lazy<T>`, the field keeps whichever it got, so a factory that threw is not run again and the same exception is raised again.
- **The reader of one archive** (`ArchiveReader`, from `BHD5Reader`).
  - It checks that both companion files exist, and derives the base path, archive name and cache path from the path it is given.
  - A lookup by path is a lookup by the path's hash for the reader's own archive variant.
- **The reader of a game** (`Aggregator`, from `GameReader`).
  - It builds one archive reader per archive of the game's table, in table order.
  - A lookup returns the first non-null answer.
  - A lookup within an archive asks only the first reader with that name.
  - Each reader asked loads its header, and opens its data stream exactly when the lookup hits. The readers not asked are left as they were.
- **The game tables** (`Games`, `BhdUtil`, `GameExtensions`, `BhdNames`): archive names, key policy, archive variant and Steam application id.
  - Two revisions exist. `BHDUtil.cs`, the one `GameReader` calls, names a ninth game `DarkSouls1Remasterd` that the enum declaration lacks.
  - Both revisions are modelled over one nine-member `BHDGame`, and their agreement is proved.
- **RSA block framing** (`Crypto`, from `CryptoUtil.DecryptRsa`).
  - Input is read in chunks of the engine's input block size into one reused buffer.
  - Each buffer is decrypted by an abstract engine. A short result is left-padded with zeros to the output block size, and the blocks are concatenated in order.

Exceptions of the source are `Err` values of `Types.Result`, and `null` is `Types.Option.None`.

A short final chunk is decrypted together with the tail of the previous chunk, which stays in the reused buffer. Only the first chunk's tail is zeros. `Crypto.ShortFinalChunkKeepsStaleBytes` states this.

## Model

| member | source | states |
|---|---|---|
| PathHash.Normalize | BHDReader/BHD5Utils/Util.cs:16-19 | the string that is hashed is rooted (starts with `/`), trimmed, and has no backslash or upper-case letter |
| PathHash.TrimStart | BHDReader/BHD5Utils/Util.cs:16 | the result is a suffix of the input, everything dropped is white space, and the result does not start with white space |
| PathHash.TrimEnd | BHDReader/BHD5Utils/Util.cs:16 | the result is a prefix of the input, everything dropped is white space, and the result does not end with white space |
| PathHash.CanonChar | BHDReader/BHD5Utils/Util.cs:16 | per character, normalisation keeps white space, removes backslashes and capitals, maps only `/` and `\` to `/`, and is idempotent |
| PathHash.CanonPointwise | BHDReader/BHD5Utils/Util.cs:16 | replacing backslashes and lower-casing keeps the length and acts character by character |
| PathHash.RootedIsNormalized | BHDReader/BHD5Utils/Util.cs:17-19 | prefixing `/` when it is missing makes a canonical string rooted |
| PathHash.TrimOfTrimmed | BHDReader/BHD5Utils/Util.cs:16 | trimming a string without edge white space changes nothing |
| PathHash.CanonOfNormalized | BHDReader/BHD5Utils/Util.cs:16 | replacing backslashes and lower-casing leave a normalised string unchanged |
| PathHash.NormalizedIsFixed | BHDReader/BHD5Utils/Util.cs:16-19 | a normalised string is its own normal form |
| PathHash.NormalizeIdempotent | BHDReader/BHD5Utils/Util.cs:16-19 | normalising twice equals normalising once |
| PathHash.TrimStartSameCut | BHDReader/BHD5Utils/Util.cs:16 | strings with white space at the same positions lose equally many leading characters |
| PathHash.TrimEndSameCut | BHDReader/BHD5Utils/Util.cs:16 | strings with white space at the same positions lose equally many trailing characters |
| PathHash.SamePathSameWhiteSpace | BHDReader/BHD5Utils/Util.cs:16 | paths that differ only in case and slash direction have white space at the same positions |
| PathHash.TrimStartSamePath | BHDReader/BHD5Utils/Util.cs:16 | `TrimStart` maps such paths to such paths |
| PathHash.TrimEndSamePath | BHDReader/BHD5Utils/Util.cs:16 | `TrimEnd` maps such paths to such paths |
| PathHash.TrimSamePath | BHDReader/BHD5Utils/Util.cs:16 | `Trim` maps such paths to such paths |
| PathHash.CanonOfSamePath | BHDReader/BHD5Utils/Util.cs:16 | replacing backslashes and lower-casing map such paths to one string |
| PathHash.NormalizeIgnoresCaseAndSlashes | BHDReader/BHD5Utils/Util.cs:16-19 | paths that differ only in letter case and slash direction normalise alike |
| PathHash.TrimStartWhiteSpacePrefix | BHDReader/BHD5Utils/Util.cs:16 | leading white space added to a string is removed by `TrimStart` |
| PathHash.TrimEndWhiteSpaceSuffix | BHDReader/BHD5Utils/Util.cs:16 | trailing white space added to a string is removed by `TrimEnd` |
| PathHash.TrimStartAppend | BHDReader/BHD5Utils/Util.cs:16 | `TrimStart` of a concatenation trims into the second part only when the first part is all white space |
| PathHash.TrimSurroundingWhiteSpace | BHDReader/BHD5Utils/Util.cs:16 | `Trim` removes white space around a path and nothing else |
| PathHash.NormalizeIgnoresSurroundingWhiteSpace | BHDReader/BHD5Utils/Util.cs:16-19 | surrounding white space does not change the normal form |
| PathHash.CanonPrependSlash | BHDReader/BHD5Utils/Util.cs:16-18 | the character-wise steps commute with prefixing `/` |
| PathHash.PrependSlashTrimmed | BHDReader/BHD5Utils/Util.cs:16-18 | prefixing `/` to a trimmed path leaves it trimmed |
| PathHash.NormalizeOfTrimmed | BHDReader/BHD5Utils/Util.cs:16-19 | on a trimmed path, normalisation is the character-wise steps followed by rooting |
| PathHash.NormalizeAddsMissingSlash | BHDReader/BHD5Utils/Util.cs:17-19 | a path given with or without its leading `/` normalises alike |
| PathHash.BlankPathIsRoot | BHDReader/BHD5Utils/Util.cs:16-19 | the empty and the all-white-space path normalise to `/` |
| PathHash.Fold | BHDReader/BHD5Utils/Util.cs:20 | the wrapping fold stays below `2^w` |
| PathHash.ComputeHash | BHDReader/BHD5Utils/Util.cs:15-21 | a hash for a pre-Elden Ring variant is below `2^32` |
| PathHash.FoldAppend | BHDReader/BHD5Utils/Util.cs:20 | appending a character multiplies the fold by the prime, adds the code, and wraps |
| PathHash.HashOfNormalized | BHDReader/BHD5Utils/Util.cs:15-20 | on a normalised string the hash is the fold from 0 |
| PathHash.HashAppend | BHDReader/BHD5Utils/Util.cs:20 | `H(s + [c]) == (H(s) * P + code(c)) % 2^w` for normalised `s` and `s + [c]` |
| PathHash.ModStep | BHDReader/BHD5Utils/Util.cs:20 | reducing the accumulator before a step does not change the step modulo `2^w` |
| PathHash.FoldIsPolynomial | BHDReader/BHD5Utils/Util.cs:7-20 | the wrapping fold equals the exact polynomial `sum code(s[i]) * P^(n-1-i)` modulo `2^w` |
| PathHash.HashIsPolynomial | BHDReader/BHD5Utils/Util.cs:7-21 | the hash is the polynomial of the normal form modulo `2^w`, with `w = 64` exactly for the Elden Ring variant |
| PathHash.EquivalentPathsHashAlike | BHDReader/BHD5Utils/Util.cs:16-20 | paths that differ only in case and slash direction hash alike |
| PathHash.FoldOfRoot | BHDReader/BHD5Utils/Util.cs:20 | folding `/` gives 47 at both widths |
| PathHash.RootHash | BHDReader/BHD5Utils/Util.cs:15-21 | a path whose normal form is `/` hashes to 47 |
| PathHash.BlankPathHash | BHDReader/BHD5Utils/Util.cs:15-21 | the empty and the all-white-space path hash to 47 at both widths |
| PathHash.SpellingsAreSamePath | BHDReader/BHD5Utils/Util.cs:16 | `/a/B.txt` and `\A\b.TXT` differ from `/a/b.txt` only in case and slashes |
| PathHash.RootedSpellingNormalizesAlike | BHDReader/BHD5Utils/Util.cs:17-19 | `/a/b.txt` and `a/b.txt` normalise alike |
| PathHash.SpellingsNormalizeAlike | BHDReader/BHD5Utils/Util.cs:16-19 | `/a/B.txt`, `\A\b.TXT` and `a/b.txt` normalise alike |
| PathHash.SpellingsHashAlike | BHDReader/BHD5Utils/Util.cs:15-21 | those three spellings hash alike for every variant |
| ArchiveIndex.BucketIndex | BHDReader/BHD5Utils/BHD5Data.cs:16 | the bucket index lies below the bucket count, and a hash below the count is its own index |
| ArchiveIndex.FirstMatch | BHDReader/BHD5Utils/BHD5Data.cs:18-22 | the position found holds the hash and no earlier entry does; none is found exactly when no entry holds the hash |
| ArchiveIndex.Lookup | BHDReader/BHD5Utils/BHD5Data.cs:16 | the lookup fails exactly for a header without buckets, and then with a division by zero |
| ArchiveIndex.LookupFindsFirstMatch | BHDReader/BHD5Utils/BHD5Data.cs:16-24 | the entry found holds exactly the hash and is the first in the selected bucket that does; null exactly when no entry of that bucket has the hash |
| ArchiveIndex.Answer | BHDReader/BHD5Utils/BHD5Data.cs:15-25 | a header factory that throws decides the answer; a non-null answer means a hit and a stream that opened |
| ArchiveIndex.AnswerCases | BHDReader/BHD5Utils/BHD5Data.cs:15-25 | the answer is the header's exception, or null exactly when the lookup finds nothing, or the division by zero of an empty header, or on a hit the stream's exception or the entry read from the stream |
| ArchiveIndex.AnswerIgnoresStreamUnlessHit | BHDReader/BHD5Utils/BHD5Data.cs:15-25 | unless the lookup hits, the stream factory has no effect on the answer |
| ArchiveIndex.WellPlacedLookupIsComplete | BHDReader/BHD5Utils/BHD5Data.cs:16-24 | when every entry sits in the bucket of its hash, the lookup misses exactly when no entry of the whole header has the hash |
| ArchiveIndex.MisplacedEntryIsMissed | BHDReader/BHD5Utils/BHD5Data.cs:16-24 | an entry stored in another bucket than its hash selects is not found |
| ArchiveIndex.CollidingHashesNeverMatch | BHDReader/BHD5Utils/BHD5Data.cs:18-24 | a different hash that selects the same bucket never matches |
| ArchiveIndex.BHD5Data.constructor | BHDReader/BHD5Utils/BHD5Data.cs:10-14 | the factories are stored and neither runs |
| ArchiveIndex.BHD5Data.HeaderValue | BHDReader/BHD5Utils/BHD5Data.cs:8-16 | the header factory's value or exception, computed on first use only and then kept; the data stream is untouched |
| ArchiveIndex.BHD5Data.StreamValue | BHDReader/BHD5Utils/BHD5Data.cs:7-20 | the stream factory's value or exception, computed on first use only and then kept; the header is untouched |
| ArchiveIndex.BHD5Data.GetFile | BHDReader/BHD5Utils/BHD5Data.cs:15-25 | the answer is `Answer` for the factories' results; afterwards the header is loaded, the stream is opened exactly when the lookup hits, and otherwise left as it was |
| ArchiveIndex.BHD5Data.GetSalt | BHDReader/BHD5Utils/BHD5Data.cs:26-28 | the salt of the header, or the header factory's exception; it forces the header load and leaves the stream alone |
| ArchiveReader.NameStart | BHDReader/BHD5Utils/BHD5Reader.cs:29 | the last component starts at 0 or right after a separator |
| ArchiveReader.NoSeparatorInLastComponent | BHDReader/BHD5Utils/BHD5Reader.cs:29 | the last component holds no separator |
| ArchiveReader.ExtensionDot | BHDReader/BHD5Utils/BHD5Reader.cs:25 | the dot found is a dot of the last component |
| ArchiveReader.ExtensionDotIsLastDot | BHDReader/BHD5Utils/BHD5Reader.cs:25 | the dot found is the last dot of the last component, and none is found exactly when that component has no dot |
| ArchiveReader.ChangeExtensionRemovesExtension | BHDReader/BHD5Utils/BHD5Reader.cs:24-25 | the result is a prefix of the path; it is the path exactly when the last component has no dot, and otherwise ends before the last dot of the last component |
| ArchiveReader.FileNameIsLastComponent | BHDReader/BHD5Utils/BHD5Reader.cs:29 | the file name is the suffix after the last separator and holds no separator |
| ArchiveReader.Prepare | BHDReader/BHD5Utils/BHD5Reader.cs:25-31 | the only error is a missing companion file |
| ArchiveReader.PreparedSetup | BHDReader/BHD5Utils/BHD5Reader.cs:25-31 | it fails exactly when `<base>.bhd` or `<base>.bdt` is missing; otherwise `<base>` is the path less its extension, the name is its last component, and the cache path is null exactly when no cache directory is given, else `<cache>/<name>` |
| ArchiveReader.FileNameOfDirEntry | BHDReader/BHD5Utils/BHD5Reader.cs:29 | a separator-free name under a directory is the file name of the path |
| ArchiveReader.NoExtensionInDirEntry | BHDReader/BHD5Utils/BHD5Reader.cs:24-25 | a dot-free name under a directory has no extension to remove |
| ArchiveReader.CompanionExtensionRemoved | BHDReader/BHD5Utils/BHD5Reader.cs:25-26 | the `.bhd` and `.bdt` extensions are removed whole |
| ArchiveReader.ArchiveNameOfGamePath | BHDReader/BHD5Utils/BHD5Reader.cs:25-29 | a dot-free name under a directory is the archive name and the base path, with or without `.bhd`/`.bdt` |
| ArchiveReader.SoundArchiveIsNamedSd | BHDReader/BHD5Utils/BHD5Reader.cs:25-29 | the table entry `sd\sd` gives a reader named `sd` |
| ArchiveReader.BHD5Reader.constructor | BHDReader/BHD5Utils/BHD5Reader.cs:29-32 | it stores the derived name and variant, and builds an index that has loaded nothing |
| ArchiveReader.BHD5Reader.Open | BHDReader/BHD5Utils/BHD5Reader.cs:23-33 | it fails with `FileNotFound` exactly when a companion file is missing, before any index is built; otherwise it holds a fresh reader of the prepared setup |
| ArchiveReader.BHD5Reader.ArchiveName | BHDReader/BHD5Utils/BHD5Reader.cs:10-40 | the name fixed at construction |
| ArchiveReader.BHD5Reader.GetFile | BHDReader/BHD5Utils/BHD5Reader.cs:46-49 | the index's answer for the path hashed with the reader's own variant, and the index's lookup step for that hash: header loaded, stream opened exactly on a hit |
| ArchiveReader.BHD5Reader.GetFileByHash | BHDReader/BHD5Utils/BHD5Reader.cs:55-57 | the index's answer for the hash, unchanged, and the index's lookup step for that hash |
| Aggregator.FirstHitIsFirstNonNull | BHDReader/GameReader.cs:38-48 | the scan gives null exactly when every answer is null; otherwise the first non-null answer, with only nulls before it |
| Aggregator.FirstHitStep | BHDReader/GameReader.cs:39-45 | a non-null answer ends the scan, and a null one continues it |
| Aggregator.Asked | BHDReader/GameReader.cs:39-47 | the scan asks at least one reader when there is one, never more than all; all but the last asked answered null, and the last answered non-null when the scan stopped early |
| Aggregator.FirstHitAt | BHDReader/GameReader.cs:39-45 | a first non-null answer at `i` means `i + 1` readers asked and that answer returned |
| Aggregator.NoHit | BHDReader/GameReader.cs:39-47 | only null answers means every reader asked and null returned |
| Aggregator.AskReader | BHDReader/GameReader.cs:40 | one reader asked by path or by hash gives its index's answer for its own hash and makes that index's lookup step |
| Aggregator.AnswerAt | BHDReader/GameReader.cs:39-40 | the answer at position `i` is reader `i`'s answer for the hash it computes itself |
| Aggregator.HashAt | BHDReader/GameReader.cs:40 | reader `i` looks up the path hashed for its own variant, or the given hash |
| Aggregator.FirstNamed | BHDReader/GameReader.cs:73-78 | the first reader with the name, and none exactly when no reader has it |
| Aggregator.FirstNamedAt | BHDReader/GameReader.cs:73-77 | a match at `i` with none before it is the reader selected |
| Aggregator.NameWithSeparatorSelectsNothing | BHDReader/GameReader.cs:73-80 | a name with a separator selects no reader when no reader name has one |
| Aggregator.OpenAll | BHDReader/GameReader.cs:24-31 | a completed loop has one setup per archive name |
| Aggregator.OpenAllStep | BHDReader/GameReader.cs:24-31 | each pass adds one reader or ends with that archive's exception |
| Aggregator.OpenAllNext | BHDReader/GameReader.cs:24-31 | after `i` archives the next either ends construction with its exception or adds its reader |
| Aggregator.OpenAllStopsAtError | BHDReader/GameReader.cs:24-31 | after an archive throws, the later archives change nothing |
| Aggregator.OpenAllPointwise | BHDReader/GameReader.cs:24-31 | the reader at each position is the one built for the archive named there |
| Aggregator.OpenAllFailsAtAnArchive | BHDReader/GameReader.cs:24-31 | a failed loop fails with the exception of one of its archives |
| Aggregator.OpenArchive | BHDReader/GameReader.cs:25-30 | the reader of one archive: variant, key and reader checks, failing with the first exception |
| Aggregator.OpenNext | BHDReader/GameReader.cs:24-31 | one pass of the constructor's loop: the next archive's exception ends construction, otherwise its fresh unloaded reader is appended, sharing no index with the others |
| Aggregator.OpenEach | BHDReader/GameReader.cs:24-31 | one unloaded reader per archive name, in order, built for the setup planned for that name, no two sharing an index, or the first archive's exception |
| Aggregator.OnlyFourGamesOpen | BHDReader/GameReader.cs:19-32 | only Dark Souls 3, Sekiro, Elden Ring and Armored Core 6 can be opened |
| Aggregator.HowTheOtherGamesFail | BHDReader/GameReader.cs:22-28 | Sekiro Bonus has no app id; with no Steam install the error is `DirectoryNotFound`; DS1R has no archive table; DS1 has no variant; DS2 has no key policy |
| Aggregator.PlanArchive | BHDReader/GameReader.cs:25-30 | a reader that can be built has the game's archive variant and the key the key policy gives for that archive |
| Aggregator.Plan | BHDReader/GameReader.cs:19-32 | a game reader that can be built has an application id, a Steam install and an archive table, and one setup per table entry |
| Aggregator.PlannedArchive | BHDReader/GameReader.cs:25-30 | an archive with a plain name is read from `<steam>/Game/<archive>` by a reader of that name and the game's variant |
| Aggregator.PlanFollowsTable | BHDReader/GameReader.cs:19-32 | a game that opens has one reader per table entry, in table order, each plain-named one at `<steam>/Game/<archive>` |
| Aggregator.GameReader.constructor | BHDReader/GameReader.cs:19-21 | it stores the game and the readers |
| Aggregator.GameReader.Create | BHDReader/GameReader.cs:19-32 | it fails exactly as the plan does, and otherwise is a fresh game reader holding one unloaded reader per archive |
| Aggregator.GameReader.Ask | BHDReader/GameReader.cs:39-40 | asking reader `i` gives its answer and extends the set of readers that made their lookup step by `i`, leaving every other reader as it was |
| Aggregator.GameReader.FirstHitScan | BHDReader/GameReader.cs:38-64 | the first non-null answer; the readers up to it made their lookup steps and the later ones are untouched |
| Aggregator.GameReader.NamedScan | BHDReader/GameReader.cs:72-97 | the first reader with the name answers, even null; it alone makes its lookup step, and with no such reader nothing changes |
| Aggregator.GameReader.GetFile | BHDReader/GameReader.cs:38-48 | the first non-null answer of the readers, in order, null when all are null; every reader up to that answer loaded its header (and opened its stream exactly on a hit) for the path hashed with its own variant; the later readers are untouched |
| Aggregator.GameReader.GetFileByHash | BHDReader/GameReader.cs:54-64 | the same first-match scan and the same state, for the hash |
| Aggregator.GameReader.GetFileInArchive | BHDReader/GameReader.cs:72-81 | the answer of the first reader with the name, even when null; null when none has it; only that reader loads its header (and opens its stream exactly on a hit); every other reader is untouched |
| Aggregator.GameReader.GetFileByHashInArchive | BHDReader/GameReader.cs:88-97 | the same, by hash |
| Aggregator.GameReader.SoundArchiveTableNameAnswersNull | BHDReader/GameReader.cs:72-80 | asking for archive `sd\sd` always answers null |
| Games.DeclaredMembersExactly | BHDReader/BHDGame.cs:8-48 | the enum declares eight distinct members; every game but DS1R is one of them |
| Games.Index | BHDReader/BHDUtil.cs:42-50 | a dictionary lookup gives the value or `KeyNotFound` |
| BhdUtil.ArchiveNames | BHDReader/BHDUtil.cs:6-24 | every game but DS1R has a non-empty list; DS1R gives `KeyNotFound` |
| BhdUtil.GetArchiveKey | BHDReader/BHDUtil.cs:33-55 | null for both DS1 editions, `ArgumentOutOfRange` for both DS2 editions, and otherwise that game's dictionary at the archive name |
| BhdUtil.ToBHD5Game | BHDReader/BHDUtil.cs:63-83 | it throws exactly for both DS1 editions |
| BhdUtil.SixtyFourBitHashOnlyForEldenRingAndArmoredCore6 | BHDReader/BHDUtil.cs:70-79 | only Elden Ring and Armored Core 6 get the 64-bit hash |
| BhdUtil.GetAppId | BHDReader/BHDUtil.cs:91-115 | it throws exactly for Sekiro Bonus |
| BhdUtil.AppIdsDistinct | BHDReader/BHDUtil.cs:91-115 | no two games share an app id |
| BhdUtil.ArchiveNamesDistinct | BHDReader/BHDUtil.cs:6-15 | each game's archive names are pairwise distinct |
| BhdUtil.RevisionsAgree | BHDReader/BHDGame.cs:51-113 | on the eight declared members both revisions agree; on DS1R they differ in app id and key policy |
| GameExtensions.ToBHD5Game | BHDReader/BHDGame.cs:51-68 | it throws exactly for DS1, whose case is commented out, and for DS1R |
| GameExtensions.GetAppId | BHDReader/BHDGame.cs:70-91 | it throws exactly for Sekiro Bonus and DS1R |
| GameExtensions.GetArchiveKey | BHDReader/BHDGame.cs:93-113 | null for DS1, `ArgumentOutOfRange` for both DS2 editions and DS1R; a key comes only from the five games with dictionaries |
| BhdNames.GetBHDPaths | BHDReader/BHDNames.cs:4-17 | every declared game has a non-empty list |
| BhdNames.PathsDistinct | BHDReader/BHDNames.cs:4-13 | each game's archive names are pairwise distinct |
| BhdNames.EldenRingOrder | BHDReader/BHDNames.cs:11-16 | Elden Ring's list has seven names, from `Data0` to `sd\sd_dlc02` |
| BhdNames.SameAsBhdUtil | BHDReader/BHDNames.cs:4-13 | the table equals the `BHDUtil` table on every declared game |
| Crypto.Zeros | BHDReader/CryptoUtil.cs:38-46 | a fresh byte array of `n` zeros |
| Crypto.ReadCount | BHDReader/CryptoUtil.cs:39 | a read copies at most the buffer size and what is left, and copies nothing exactly at the end of input |
| Crypto.Refill | BHDReader/CryptoUtil.cs:39 | a read keeps the buffer's length |
| Crypto.Inputs | BHDReader/CryptoUtil.cs:38-39 | every chunk decrypted has the buffer's length |
| Crypto.StepOutcome | BHDReader/CryptoUtil.cs:40-51 | a chunk fails with `OperationCanceled` exactly when the token is cancelled, and with `DataLength` exactly when the engine refuses it; otherwise it gives the engine result behind leading zeros, `max(|result|, outputBlockSize)` bytes long |
| Crypto.Emit | BHDReader/CryptoUtil.cs:39-52 | a completed loop keeps what was written before it in front; a failed one fails only with `OperationCanceled` or `DataLength` |
| Crypto.LoopIsEmit | BHDReader/CryptoUtil.cs:39-52 | running the read loop is processing the chunks its reads produce, in order |
| Crypto.InputsCount | BHDReader/CryptoUtil.cs:36-39 | the loop runs `ceil(|input| / size)` times, and not at all on empty input |
| Crypto.FirstChunkIsZeroFilled | BHDReader/CryptoUtil.cs:38-39 | an input of one block or less is one chunk: the input followed by zeros |
| Crypto.ShortFinalChunkKeepsStaleBytes | BHDReader/CryptoUtil.cs:38-42 | a short second chunk is decrypted with the stale tail of the first chunk behind it |
| Crypto.EmitOkIffEveryStepOk | BHDReader/CryptoUtil.cs:39-52 | the loop completes exactly when every chunk passes the token check and the engine |
| Crypto.EmitFailures | BHDReader/CryptoUtil.cs:40-42 | the loop fails only by cancellation before some chunk or by an engine refusal of some chunk |
| Crypto.UnobservedCancellationChangesNothing | BHDReader/CryptoUtil.cs:35-40 | a token never cancelled before a chunk gives the same result as no token |
| Crypto.EmitFirst | BHDReader/CryptoUtil.cs:42-51 | a completed loop wrote the padded first result, exactly one output block when results fit, then went on |
| Crypto.EmitLength | BHDReader/CryptoUtil.cs:39-51 | when results fit, the output grows by one output block per chunk and keeps what came before |
| Crypto.EmitBlockAt | BHDReader/CryptoUtil.cs:42-51 | output block `j` is chunk `j`'s engine result, padded: blocks are written in input order |
| Crypto.DecryptedStreamSize | BHDReader/CryptoUtil.cs:36-55 | a successful decryption is a stream at position 0 holding `#chunks * outputBlockSize` bytes, with `#chunks = ceil(|file| / inputBlockSize)` |
| Crypto.DecryptionErrors | BHDReader/CryptoUtil.cs:21-42 | null file first, then null key, an undecodable key exactly when the reader gives no key, and otherwise only cancellation or an engine refusal |
| Crypto.Read | BHDReader/CryptoUtil.cs:39 | the count copied and the buffer after the read: input bytes in front, old contents behind |
| Crypto.CopyTo | BHDReader/CryptoUtil.cs:47 | the target after the copy: its old prefix, the source, its old suffix |
| Crypto.PadBlock | BHDReader/CryptoUtil.cs:44-49 | a short result becomes exactly `size` bytes, zeros then the result; a result of full size or more is kept |
| Crypto.Decryption | BHDReader/CryptoUtil.cs:20-57 | a decryption succeeds only with a file, a key and a key that decodes, and gives a stream rewound to position 0 |
| Crypto.DecryptRsa | BHDReader/CryptoUtil.cs:20-57 | the result is `Decryption`: the argument checks, the key, the block loop and a rewound stream |
| Crypto.DecryptBlocks | BHDReader/CryptoUtil.cs:30-53 | the bytes written are the chunks of the input processed in order, as `Emit` over `Chunks` |
| Crypto.ProcessChunks | BHDReader/CryptoUtil.cs:39-52 | the loop after the first read is the `Loop` function from that buffer on |
| Crypto.EmitFirstBlock | BHDReader/CryptoUtil.cs:42-51 | the first output block is the first chunk's engine result, padded |

## Left out

- The `BHDReader` interface (`BHDReader/BHDReader.cs`) has no behaviour. `GameReader` holds `BHD5Reader` objects directly.
- `SteamPath.Find` is a registry and file system probe. It is the parameter `findSteam`.
- `File.Exists` is the parameter `storage.fileExists`.
- `BHD5Data.MakeBHD5Data` (header caching, magic detection and header decryption) is not part of this model. What the header and stream factories give for a prepared archive, a value or an exception, is the abstract functions `storage.headerOf` and `storage.dataOf`.
- The SoulsFormats `BHD5` parser and `FileHeader.ReadFile` are foreign code. Buckets are `seq<seq<FileHeader>>`, and reading an entry is the abstract function `DataStream.readFile`.
- The PEM contents of the `ArchiveKeys` dictionaries are not modelled. They are abstract maps from archive name to key text.
- BouncyCastle (`PemReader`, `RsaEngine.Init`, `GetInputBlockSize`, `GetOutputBlockSize`, `ProcessBlock`) is foreign cryptography. It is the abstract record `Crypto.Rsa`. Failures of `Init` are not modelled. `DataLengthException` is the only engine exception modelled.
- `Lazy<T>` thread safety and `CancellationToken` mechanics are concurrency. The model is single-threaded, and a token is the answer it gives before each chunk.
- `MemoryStream` is its contents and position. `Dispose` of the input stream has no modelled effect.
- PathHash.ToLowerInvariant: lower-cases ASCII letters only. Full Unicode case mapping is not modelled.
- PathHash.Rooted: ordinal comparison; characters the culture ignores are not modelled. `StartsWith("/")` is culture-sensitive, so a path like `\u00AD/a` counts as rooted in the source but not in the model.
- PathHash.Code: a character's code is its Unicode scalar value. UTF-16 surrogate pairs, which the source folds as two code units, are not modelled.
- ArchiveReader.ChangeExtension: both `/` and `\` separate directories, as on Windows. On other platforms only `/` does, and a table name like `sd\sd` would keep its backslash.
- `Path.ChangeExtension` and `Path.GetFileName` are modelled only for the separator and dot rules above. Drive letters, invalid characters and trailing dots are not modelled.
- The `ArchiveKeys.DarkSouls2Keys` lookup after the `throw` at `BHDReader/BHDUtil.cs:39-40` is unreachable. It is not modelled.
- Aggregator.OpenEach: does not state that the readers are newly allocated. `Aggregator.OpenArchive` states it for each reader it builds.
