# image2pdf: the copy task, modelled in Dafny

image2pdf is a small Kotlin console program (`src/main/kotlin/Main.kt`) with two tasks.
This project models the core of its **copy** task, plus the pure helpers that both tasks use.

For every source project folder under `from`, `copyTask` does three things:

- It finds the destination folder under `to` whose trimmed name starts with the project's four-character id. If no folder matches, it creates `to/<project name>` and remembers it for later projects.
- It syncs every regular file of the project into that folder. A missing file is copied. A file whose XXH3-64 checksum differs is deleted and copied again. A file with the same checksum is skipped; only its last-modified time is brought in line.
- It counts the files it copied.

The model also covers:

- `File.checksum()`: 8192-byte streaming into a digest, then `", "`-joined `%02x` rendering;
- `File.files()`, `File.imageFiles()` and `windowsComparator`, the page order of the PDF task.

Modules, one per file:

| module | file | what it is |
|---|---|---|
| `Wrappers` | wrappers.dfy | `Option` (Kotlin's nullable results) and `Result` (a value or the exception thrown) |
| `Text` | text.dfy | `trim()`, `startsWith`, `endsWith(ignoreCase = true)`, `substringBeforeLast`, `String.compareTo` |
| `HexFormat` | hex_format.dfy | `joinToString { "%02x".format(it) }` and a parser that reads it back |
| `Fs` | file_system.dfy | an abstract filesystem, plus a `FileSystem` class whose methods are the `java.io.File` / `Files` calls the copy task makes; `File.files` |
| `Checksums` | checksums.dfy | `File.checksum()`: the read loop over an `InputStream` into a streaming digest |
| `Projects` | projects.dfy | `File.destination(list)` |
| `Counters` | counters.dfy | the `Counter` class |
| `SyncPolicy` | sync_policy.dfy | the per-file decision, and the sync of a whole project, as specification functions |
| `CopyTask` | copy_task.dfy | `copyTask` itself, as methods on the filesystem, proved against the specification function `Run` |
| `RunProperties` | run_properties.dfy | what a whole run does: where it stops, what it leaves alone, and when running it again is a no-op |
| `Images` | images.dfy | `File.imageFiles()` |
| `Comparators` | comparators.dfy | `windowsComparator`, as written and as intended |

How the filesystem is modelled:

- A `Tree` maps each directory path to its regular files; each file has bytes and a last-modified time.
- `dir in tree` is `isDirectory`.
- A directory listing (`listFiles()`, which may be null) is a parameter, because its order is not specified.
- XXH3-64 is a parameter too: any function from the whole content to eight bytes.

The methods of `CopyTask` change a `FileSystem` object and a `Counter`. Their postconditions state the new tree and count in terms of these specification functions:

- `SyncDir` and `CopiedNames` for one project;
- `Step` and `Run` for the loop over projects.

The lemmas of `SyncPolicy` and `RunProperties` state what those functions promise.

## Model

| member | source | states |
|---|---|---|
| Counters.Counter.constructor | src/main/kotlin/Main.kt:20-22 | a new counter starts at zero |
| Counters.Counter.Tap | src/main/kotlin/Main.kt:24 | `tap()` adds exactly one to the count and returns the new count |
| Fs.WithDirectory | src/main/kotlin/Main.kt:81 | `mkdirs()` makes the folder exist, adds no other folder and keeps the files of every existing folder; a folder it creates is empty |
| Fs.FileSystem.Exists | src/main/kotlin/Main.kt:92 | `dep.exists()` is true exactly when the folder holds a file of that name |
| Fs.FileSystem.LastModified | src/main/kotlin/Main.kt:99-100 | `lastModified()` is the file's time, or 0 for a missing file |
| Fs.FileSystem.SetLastModified | src/main/kotlin/Main.kt:104 | `setLastModified(sd)` changes only that file's time and keeps its bytes |
| Fs.FileSystem.Delete | src/main/kotlin/Main.kt:110 | `delete()` removes only that file |
| Fs.FileSystem.CopyWithAttributes | src/main/kotlin/Main.kt:113-118 | `Files.copy` with COPY_ATTRIBUTES and REPLACE_EXISTING gives the target the source's bytes and time, and changes nothing else |
| Fs.FileSystem.Mkdirs | src/main/kotlin/Main.kt:81 | the filesystem after `mkdirs()` is `WithDirectory` of the one before |
| Fs.Filter | src/main/kotlin/Main.kt:229 | `filter` keeps exactly the accepted entries and never adds any |
| Fs.FilterAppend | src/main/kotlin/Main.kt:229 | filtering keeps the order of the listing: filtering a concatenation filters each part in turn |
| Fs.FilterIdempotent | src/main/kotlin/Main.kt:229 | filtering twice with the same test is filtering once |
| Fs.ListFiles | src/main/kotlin/Main.kt:225-233 | `files()` gives no entries for a null listing, the whole listing without a filter, and exactly the accepted entries with one |
| HexFormat.Hex | src/main/kotlin/Main.kt:206 | the rendering is empty exactly for an empty digest, and otherwise starts with the two digits of the first byte |
| HexFormat.HexByte | src/main/kotlin/Main.kt:206 | `%02x` gives exactly two lower-case hexadecimal digits |
| HexFormat.HexByteRoundTrip | src/main/kotlin/Main.kt:206 | the two digits of `%02x` read back as the byte they came from |
| HexFormat.HexLength | src/main/kotlin/Main.kt:206 | the joined rendering has four characters per byte, less the trailing separator |
| HexFormat.HexAlphabet | src/main/kotlin/Main.kt:206 | the rendering holds only hexadecimal digits, commas and spaces |
| HexFormat.HexRoundTrip | src/main/kotlin/Main.kt:206 | the `", "`-joined rendering parses back to the digest it came from |
| HexFormat.HexInjective | src/main/kotlin/Main.kt:206 | two digests render to the same string exactly when they are equal |
| Checksums.ChecksumOf | src/main/kotlin/Main.kt:190-207 | the checksum of a file is null exactly when the file does not exist, and otherwise 30 characters long |
| Checksums.Fingerprint | src/main/kotlin/Main.kt:206 | the checksum of an eight-byte XXH3-64 digest is 30 characters long |
| Checksums.FingerprintMatchesDigest | src/main/kotlin/Main.kt:93-96 | comparing two checksum strings is comparing the two digests |
| Checksums.InputStream.Read | src/main/kotlin/Main.kt:197-202 | `read(buffer)` gives 0 for an empty buffer and -1 at the end of the file; otherwise it gives 1 to `buffer.size` next bytes of the file at the start of the buffer and advances by that many; the rest of the buffer is left as it was |
| Checksums.StreamingDigest.Update | src/main/kotlin/Main.kt:201 | `update(buffer, 0, n)` feeds exactly the first `n` bytes of the buffer |
| Checksums.StreamingDigest.Digest | src/main/kotlin/Main.kt:206 | `digest()` is the algorithm applied to everything fed |
| Checksums.Feed | src/main/kotlin/Main.kt:199-202 | one pass of the read loop feeds the bytes just read, so the digest has seen the file up to the read position, and then reads the next bytes |
| Checksums.Checksum | src/main/kotlin/Main.kt:190-207 | `checksum()` is null for a missing file; otherwise it is the rendering of the digest of the whole file. The chunks fed are each 1 to 8192 bytes and together form the file's bytes |
| Text.TrimStartSpec | src/main/kotlin/Main.kt:181 | dropping leading whitespace leaves a suffix that starts with a non-whitespace character, and drops only whitespace |
| Text.TrimEndSpec | src/main/kotlin/Main.kt:181 | dropping trailing whitespace leaves a prefix that ends with a non-whitespace character, and drops only whitespace |
| Text.TrimIsInnerSlice | src/main/kotlin/Main.kt:181 | `trim()` is a slice of the string with only whitespace cut off at either end, and none left at its ends |
| Text.TrimUnchanged | src/main/kotlin/Main.kt:181-183 | `trim()` leaves a string unchanged exactly when it is empty or neither starts nor ends with whitespace |
| Text.TrimKeepsPrefix | src/main/kotlin/Main.kt:187 | a prefix with no whitespace at either end is still a prefix after `trim()` |
| Text.LastIndexOf | src/main/kotlin/Main.kt:236-237 | the index of the last occurrence of the character, or none when it does not occur |
| Text.SubstringBeforeLast | src/main/kotlin/Main.kt:236-237 | `substringBeforeLast(".")` is the whole name when it has no dot, and otherwise the prefix before the last dot |
| Text.CompareToAntisymmetric | src/main/kotlin/Main.kt:243 | `compareTo` changes sign when the operands swap |
| Text.CompareToZero | src/main/kotlin/Main.kt:243 | `compareTo` is zero exactly for equal strings |
| Text.CompareToProperPrefix | src/main/kotlin/Main.kt:243 | a proper prefix compares below the string, by the difference in length |
| Text.CompareToTransitive | src/main/kotlin/Main.kt:243 | `compareTo` is transitive |
| Projects.ProjectId | src/main/kotlin/Main.kt:181-185 | an id that is accepted is the first four characters of a name of at least four, unchanged by `trim()` |
| Projects.ProjectIdSpec | src/main/kotlin/Main.kt:181-185 | a name has an id exactly when it has at least four characters and neither the first nor the fourth is whitespace; the id is then the first four characters; a shorter name throws |
| Projects.FirstIndex | src/main/kotlin/Main.kt:187 | `find` gives the first accepted element, and none exactly when no element is accepted |
| Projects.Destination | src/main/kotlin/Main.kt:180-188 | `destination` throws exactly when the id is rejected, and a folder it returns is in the list and its trimmed name starts with the id |
| Projects.DestinationSpec | src/main/kotlin/Main.kt:180-188 | `destination` throws exactly when the name has no id; otherwise it gives null exactly when no folder's trimmed name starts with the id, and else the first such folder |
| Projects.FirstIndexStable | src/main/kotlin/Main.kt:82 | appending to `dps` never changes a folder an id already resolved to |
| Projects.RegisteredFolderResolves | src/main/kotlin/Main.kt:78-83 | the folder `to/sp.name` created for an unmatched project is where every later project with the same id resolves |
| SyncPolicy.Decide | src/main/kotlin/Main.kt:92-111 | a file is copied without a delete exactly when the destination file does not exist |
| SyncPolicy.Synced | src/main/kotlin/Main.kt:96-118 | the destination file after one file task has the source's time and the source's digest |
| SyncPolicy.SyncDir | src/main/kotlin/Main.kt:85-127 | a project's sync leaves the destination folder with its own files and the project's files, and no others |
| SyncPolicy.DecideByChecksum | src/main/kotlin/Main.kt:92-111 | a file is skipped exactly when the destination exists with an equal checksum, and overwritten exactly when it exists with a different one |
| SyncPolicy.SyncedSpec | src/main/kotlin/Main.kt:92-122 | the destination file ends with the source's time; a copied or overwritten file ends as the source; a skipped file keeps its bytes; a copy happens exactly when the destination file is missing |
| SyncPolicy.SameContentSkipped | src/main/kotlin/Main.kt:96-107 | a destination file with the source's bytes is skipped whatever its time, and only its time is updated |
| SyncPolicy.SyncNamesStep | src/main/kotlin/Main.kt:85-127 | syncing one more file of the project changes that file's destination entry only |
| SyncPolicy.CopiedAmongStep | src/main/kotlin/Main.kt:122 | syncing one more file adds one to the count exactly when that file is not skipped |
| SyncPolicy.SyncDirSpec | src/main/kotlin/Main.kt:85-127 | after a project's sync every source file has its synced counterpart, other destination files are untouched, and only source files are counted |
| SyncPolicy.SyncDirIdempotent | src/main/kotlin/Main.kt:85-127 | syncing the same project again copies nothing and changes nothing |
| SyncPolicy.SyncDirSelf | src/main/kotlin/Main.kt:85-127 | a project synced into itself is left as it was, with nothing copied |
| SyncPolicy.SyncIntoEmpty | src/main/kotlin/Main.kt:85-127 | a project synced into an empty folder is copied whole, every file counting |
| SyncPolicy.SyncedDigest | src/main/kotlin/Main.kt:92-118 | after a sync the destination file has the source file's checksum |
| CopyTask.SyncFile | src/main/kotlin/Main.kt:90-122 | one file task takes the branch `Decide` names, leaves the destination file as `Synced` describes with nothing else changed, and taps the counter exactly when it copied |
| CopyTask.SyncNext | src/main/kotlin/Main.kt:85-127 | one more file task moves the destination folder from the sync of the files done so far to the sync of one more |
| CopyTask.SyncProject | src/main/kotlin/Main.kt:85-127 | the file tasks of a project, in any order, leave the destination folder as `SyncDir` and add the size of `CopiedNames` to the count |
| CopyTask.Step | src/main/kotlin/Main.kt:77-128 | one iteration throws exactly when the project has no id; otherwise it never lowers the count, removes no folder and only appends to `dps` |
| CopyTask.Run | src/main/kotlin/Main.kt:77-128 | the run over all projects never lowers the count and removes no folder |
| CopyTask.ProcessProject | src/main/kotlin/Main.kt:77-128 | one project's iteration changes the filesystem, `dps` and the count exactly as `Step`, or throws with the filesystem, `dps` and the count unchanged |
| CopyTask.ProcessAll | src/main/kotlin/Main.kt:77-128 | the loop over the projects ends with the filesystem, count and exception of `Run` |
| CopyTask.CopyTask | src/main/kotlin/Main.kt:64-134 | `copyTask` over the directory entries of the two listings ends with `Run`'s filesystem, count and exception |
| RunProperties.StepFails | src/main/kotlin/Main.kt:78 | an iteration throws exactly when the project has no id, with `destination`'s exception |
| RunProperties.StepTarget | src/main/kotlin/Main.kt:78-83 | a project goes to a folder that matches its id and that it resolves to from then on; `dps` grows by at most `to/sp.name` |
| RunProperties.StepFrame | src/main/kotlin/Main.kt:77-128 | an iteration changes only its destination folder, removes no folder and never lowers the count |
| RunProperties.StepSettles | src/main/kotlin/Main.kt:77-128 | after its iteration a project is in place: syncing it again would copy and change nothing |
| RunProperties.StepIntoNewFolder | src/main/kotlin/Main.kt:78-83 | an unmatched project, whose folder `to/sp.name` does not exist yet, is copied whole into that new folder, which is appended to `dps`, and every file counts |
| RunProperties.StepIntoFolder | src/main/kotlin/Main.kt:78 | a matched project is synced into its folder, with `dps` unchanged |
| RunProperties.RunCompletes | src/main/kotlin/Main.kt:77-78 | a run ends without an exception exactly when every source project has an id |
| RunProperties.RunAppend | src/main/kotlin/Main.kt:77 | processing two lists of projects in turn is processing their concatenation, stopping at an exception |
| RunProperties.RunAbortsAt | src/main/kotlin/Main.kt:77-78 | a run stops at the first project without an id, with its exception, and keeps what the earlier projects copied |
| RunProperties.RunGrows | src/main/kotlin/Main.kt:75-83 | `dps` keeps its folders in order and gains only folders `to/sp.name`; no folder disappears; the count never goes down |
| RunProperties.RunKeepsSettled | src/main/kotlin/Main.kt:77-128 | a project in place stays in place while projects with other ids are processed |
| RunProperties.RunSettles | src/main/kotlin/Main.kt:77-128 | a run over projects with distinct ids leaves every one of them in place |
| RunProperties.SettledRunIsNoop | src/main/kotlin/Main.kt:77-128 | a run over projects that are all in place changes nothing, copies nothing and ends normally |
| RunProperties.RerunCopiesNothing | src/main/kotlin/Main.kt:64-134 | when no two source projects share an id, running again on the first run's result copies nothing and changes nothing |
| RunProperties.SharedIdSecondWins | src/main/kotlin/Main.kt:77-128 | two projects with one id sync into the same folder; the first project's own files are untouched, and a file the second holds is left with the second one's checksum |
| RunProperties.SharedIdRerunCopies | src/main/kotlin/Main.kt:77-128 | two projects with one id, holding a same-named file with different checksums, make the rerun copy again: such a destination never settles |
| Images.EndsWithIgnoreCaseLowered | src/main/kotlin/Main.kt:219 | `endsWith(suffix, ignoreCase = true)` for a lower-case suffix is: the lowered name ends with it |
| Images.IsJpgNameSpec | src/main/kotlin/Main.kt:218-220 | a page is accepted exactly when its lowered name ends with `.jpg` or `.jpeg` |
| Images.JpgFolder | src/main/kotlin/Main.kt:210-214 | the folder `imageFiles` reads is none exactly when no candidate is a directory, and otherwise the first of `jpg`, `jpeg`, `JPG`, `JPEG`, in that order, that is one |
| Images.ImageFiles | src/main/kotlin/Main.kt:209-223 | `imageFiles()` throws exactly when none of `jpg`, `jpeg`, `JPG`, `JPEG` is a directory. Otherwise it reads the first of them that is, in that order, and returns exactly the JPEG-named entries of its listing in listing order, or none for a null listing |
| Comparators.WindowsCompare | src/main/kotlin/Main.kt:235-245 | the comparator as written gives zero exactly for names with equal stems |
| Comparators.WindowsCompareIntended | src/main/kotlin/Main.kt:239-243 | the comparator as intended is negative exactly when the natural order puts a's stem before b's |
| Comparators.WindowsCompareSpec | src/main/kotlin/Main.kt:235-245 | as written, a name compares above every name whose stem extends its own; otherwise names compare as their stems do; the result is zero exactly for equal stems |
| Comparators.WindowsCompareNotAntisymmetric | src/main/kotlin/Main.kt:235-245 | as written, `001.jpg` and `001-1.jpg` each compare above the other |
| Comparators.WindowsCompareDiffers | src/main/kotlin/Main.kt:239-243 | the intended comparator differs from the written one exactly when b's stem extends a's, where it gives a negative value instead of 1 |
| Comparators.WindowsCompareIntendedSign | src/main/kotlin/Main.kt:235-245 | the intended comparator has the sign of the natural order of the stems |
| Comparators.WindowsCompareIntendedIsOrder | src/main/kotlin/Main.kt:235-245 | the intended comparator is antisymmetric in sign and transitive |
| Comparators.WindowsCompareIntendedExample | src/main/kotlin/Main.kt:239-240 | with the intended comparator `001.jpg` sorts before `001-1.jpg`, from either side |

## Left out

- Console input and output are not modelled: the menu, `readInput`, `print`/`println` and `exitProcess`. `CopyTask.CopyTask` takes the `to` path and the two listings as parameters; the `from` path appears only through its listing.
- CopyTask.CopyTask: the two listings, `File(from).listFiles()` and `File(to).listFiles()`, are free parameters. They are not tied to the folders of the tree under `from` and `to`; the model only filters them with `isDirectory` against the tree.
- Coroutines and the `Semaphore(8)` are not modelled. The file tasks of one project run one after the other, in an unspecified order; each writes only its own destination file. `CopyTask.SyncProject` proves the result is the same for every order. The unsynchronised `++count` in `Counter.tap`, and the lost updates it allows, are not modelled.
- Checksums.Checksum: XXH3-64 itself is a parameter (`Algorithm`), since it is a foreign library. Nothing is assumed about it beyond giving eight bytes.
- Checksums.Checksum: the stream is opened and closed by `use`; closing, and any I/O error, are not modelled.
- Counters.Counter.Tap: the count is unbounded; the 32-bit wrap-around of Kotlin's `Int` after 2147483647 copies is not modelled.
- Fs.FileSystem.Exists: only regular files are modelled inside a folder. So a directory named like a source file, which `exists()` also reports, is not modelled.
- Fs.FileSystem.Delete: the boolean results of `delete()`, `setLastModified()` and `mkdirs()` are ignored by the program, and the model assumes each call succeeds.
- Fs.FileSystem.Mkdirs: missing parent folders that `mkdirs()` would also create are not represented. Only the folder itself is added.
- Exceptions are not modelled by their class: `destination` throws `StringIndexOutOfBoundsException` for a short name and `Exception` for a bad id. Both are `Projects.MatchError` values. `imageFiles` throws `IllegalArgumentException`, modelled as `Images.ImageError`.
- An exception from `destination` is not caught by `copyTask`. It ends the program before the count is printed. The model returns the exception and the state at that point.
- Text.CompareTo: Dafny characters are Unicode scalar values. `String.compareTo` compares UTF-16 code units, so names with characters outside the Basic Multilingual Plane may order differently.
- Images.IsJpgNameSpec: case is folded for ASCII letters only. For the suffixes `.jpg` and `.jpeg` this agrees with Kotlin's `ignoreCase`, since no other character folds to those letters.
- The PDF task is not modelled: `createTask`, `create`, `sortWith` and the PDF library. Only its helpers `imageFiles` and `windowsComparator` are modelled.
- Projects.ProjectId: the id is `substring(0, 4).trim()` (Main.kt:181) and must still be four characters long, so a name whose first or fourth character is whitespace has no id, and the run aborts there.
- RunProperties.RunAbortsAt: a project without an id aborts the run after the earlier projects were already copied; those copies stay.
- Projects.ProjectIdSpec: Dafny characters are Unicode scalar values, while `substring(0, 4)` and `length` count UTF-16 code units. A name with a character outside the Basic Multilingual Plane among its first four gets a different id in Kotlin (for `ab😀x` the id is `ab😀`), or an id where the model has none (`ab😀`).
- Projects.DestinationSpec: for the same reason `startsWith` and the id compare UTF-16 code units in Kotlin, so for names with characters outside the Basic Multilingual Plane the folder found may differ from the model's (`ab😀x` finds `ab😀y` in Kotlin, and none in the model).
- `RunProperties.RerunCopiesNothing` assumes the rerun sees the same destination list that the first run left. This holds when the listing of `to` gives the folders in that order.

## Findings

| source | as written | input that shows it | evidently intended | confidence | as-written member | corrected member |
|---|---|---|---|---|---|---|
| src/main/kotlin/Main.kt:241-243 | When b's stem strictly extends a's, the comparator returns 1, so a sorts after b. The swapped comparison falls through to `compareTo` and is positive too. | `compare("001.jpg", "001-1.jpg") == 1` and `compare("001-1.jpg", "001.jpg") == 2`, so both compare positive | -1 in that case, so `001` sorts before `001-1` as the comment at Main.kt:239-240 says. The comparator then has the sign of `compareTo` on the stems, and is a valid order. | high; not executed | Comparators.WindowsCompareNotAntisymmetric | Comparators.WindowsCompareIntendedIsOrder |
