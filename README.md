# file-split-to-directory, modelled in Dafny

`FileSplitToDirectory` reorganises a flat directory. It lists the directory and
keeps the entries that were read without error and whose file type is "regular
file". It sorts them with an injected comparison and cuts the sorted sequence
into consecutive chunks of `chunk` files. For chunk `i` it computes the
subdirectory `directory_name(i)`, creates it unless that path already exists,
and renames every file of the chunk into it under its base name. The first
failing call ends the run with that error. `FileSplitToDirectoryBuilder`
collects the path, the chunk size, the comparison and the naming function, and
`build` validates them into an operation.

The model has these parts:

- `wrappers.dfy` (`Wrappers`): `Option` and `Result`.
- `decimal.dfy` (`Decimal`): the decimal rendering of a chunk index
  (`usize::to_string`) and its inverse, used by the default directory naming.
- `sorting.dfy` (`Sorting`): three-way comparisons, the stable sort
  (`sorted_by`, as an insertion sort), and what it guarantees.
- `partition.dfy` (`Partition`): itertools' `chunks`, with its count, boundaries
  and exact cover.
- `fs.dfy` (`FileSystem`): the directory being reorganised.
  - The class `Volume` holds the root's contents, a map from base names to
    entries (`File`, `Dir` with its own map, or `Special`).
  - Its methods `CreateDir` and `Rename` change that map in place; `ReadDir`
    and `Exists` only read it.
  - Faults the operating system can produce are fixed sets of names: entries
    the listing cannot read, entries whose type cannot be determined, and
    names where creating is refused and, separately, names whose rename is
    refused (`Refusals`; a full volume, a quota or a link limit can refuse
    `create_dir` at a name whose file was just renamed away). `listError` is
    the failure to list the root at all.
  - The pure functions `Apply` and `Run` give the meaning of a sequence of
    relocation steps (`EnsureDir(d)`, `Move(name, d)`): they are performed in
    order and the first failure stops them.
- `run_properties.dfy` (`RunProperties`): what any run of steps guarantees.
- `split.dfy` (`FileSplit`): the builder as values, and the pure pipeline
  (`Eligible`, `Plan`, `Relocation`).
  - `Execute` is an imperative method. Its two nested loops call the `Volume`
    methods and return early on the first error, like the source.
  - It is proved to leave the directory exactly as `Run` of the plan's steps
    does, for the order in which the listing visited the names.
- `split_properties.dfy` (`SplitProperties`): end-to-end properties of the
  builder, the plan and a run of `Execute`.

The code decides what happens when a destination path exists as a regular
file (or as any other entry that is neither a directory nor a symbolic link).
`execute` skips `create_dir` because the path exists. The first rename into
it then fails with "not a directory", and everything before it stays done.
`execute` does not look for this case up front or report it in its own words:
the rename's error is what it returns. This model follows the code;
`ConflictingChunkFails` states the behaviour.

A rename whose destination is already another hard link to the same file
does nothing and succeeds, as rename(2) specifies. The model keeps that case:
the file's name then stays in the root.

## Model

| member | source | states |
|---|---|---|
| FileSplit.Default | src/lib.rs:102-111 | The default builder has no path, 4400 files per directory, the natural-order comparison of base names and decimal directory names |
| FileSplit.DefaultSortCmp | src/lib.rs:54-59 | Two entries compare as the natural-order comparison of their base names |
| FileSplit.DefaultDirectoryName | src/lib.rs:61-63 | The name of chunk `i` is a canonical decimal numeral (digits only, no leading zero unless it is "0") that parses back to `i` |
| FileSplit.WithPath | src/lib.rs:65-68 | Sets the path to `Some(path)` and leaves chunk, comparison and naming unchanged |
| FileSplit.WithChunk | src/lib.rs:70-73 | Sets the chunk size and leaves the other three fields unchanged |
| FileSplit.WithSortCmp | src/lib.rs:75-78 | Sets the comparison and leaves the other three fields unchanged |
| FileSplit.WithDirectoryName | src/lib.rs:80-83 | Sets the naming function and leaves the other three fields unchanged |
| FileSplit.Build | src/lib.rs:85-99 | Fails exactly when no path is set, with the error "path is not set"; otherwise the operation carries the builder's path, chunk, comparison and naming |
| FileSplit.Eligible | src/lib.rs:16-24 | An entry is kept exactly when it was read without error and its file type is known to be "regular file" |
| FileSplit.Execute | src/lib.rs:15-40 | If listing the root fails, returns that error and changes nothing. Otherwise the listing visits every name of the root exactly once, and the result and the new contents are those of performing the plan's steps in order and stopping at the first failure |
| FileSystem.Volume.ReadDir | src/lib.rs:16-18 | Fails with the listing error if there is one; otherwise yields one item per name of the root, each name once, in an order the filesystem chooses |
| FileSystem.Volume.Exists | src/lib.rs:30 | True exactly when the name is present in the root |
| FileSystem.Volume.CreateDir | src/lib.rs:31 | Fails with "already exists" if the path exists and with "refused" where creation is denied, changing nothing; otherwise adds an empty directory and nothing else |
| FileSystem.Volume.Rename | src/lib.rs:35-36 | On failure nothing changes. On success the file is in the destination directory under its base name with its old contents, and its name is gone from the root unless the destination already held another link to the same file (then nothing changes) |
| Decimal.DecimalString | src/lib.rs:61-63 | The rendering is canonical, and starts with '0' exactly when the number is 0 |
| Decimal.ParseDecimalString | src/lib.rs:124-132 | Parsing the decimal rendering of `n` gives `n` back |
| Decimal.DecimalStringOfParse | src/lib.rs:61-63 | Every canonical numeral parses, and rendering the parsed number gives the same text: the rendering is onto the canonical numerals |
| Decimal.DecimalStringInjective | src/lib.rs:61-63 | Different numbers have different renderings |
| Sorting.Sort | src/lib.rs:25 | The sorted sequence is a permutation of the input |
| Sorting.SortSorted | src/lib.rs:25 | When the comparison is a total preorder, the sorted sequence is ordered by it |
| Sorting.SortImage | src/lib.rs:25 | Sorting keeps every key (such as the entry names) exactly as often as in the input |
| Partition.Chunks | src/lib.rs:26 | Every chunk is non-empty and holds at most `c` elements |
| Partition.FlattenChunks | src/lib.rs:26 | The chunks laid end to end give the input back |
| Partition.ChunkCount | src/lib.rs:26-28 | There are n/c chunks rounded up (`RoundsUp`: `(k-1)*c < n <= k*c`), and none exactly when the input is empty |
| Partition.ChunkAt | src/lib.rs:26-28 | Chunk `i` is exactly the positions `[i*c, min((i+1)*c, n))` of the input |
| RunProperties.FailureKeepsPrefix | src/lib.rs:28-38 | A failed run stopped at some step `k`: the steps before it all succeeded and are not undone, and step `k` fails on the contents they left with the reported error |
| RunProperties.UntouchedEntries | src/lib.rs:28-38 | An entry that no step names keeps its presence and contents, whether the run succeeds or fails |
| RunProperties.StaysAbsent | src/lib.rs:29-32 | A name absent before the run is still absent afterwards unless a directory step names it |
| RunProperties.ExistingDirectoryKept | src/lib.rs:29-32 | An existing destination directory is reused, and its contents survive unless a move with the same name replaces them |
| RunProperties.ConflictingDestinationFails | src/lib.rs:30-36 | If the destination exists but is not a directory, creating it is skipped and the first move into it fails with "not a directory", changing nothing |
| RunProperties.Persists | src/lib.rs:34-37 | A file placed in a destination stays there through the remaining steps |
| RunProperties.Placement | src/lib.rs:34-37 | After a successful run of steps with intact sources, every moved file is in its destination directory under its own name with its old contents |
| RunProperties.Reached | src/lib.rs:28-38 | The number `p` of steps the run performed: all of them exactly when it succeeded. The first `p` steps run alone succeed and leave the run's final contents, and when `p` is not the end, step `p` applied to those contents fails with the run's reported error |
| RunProperties.CreateRefusedAfterMove | src/lib.rs:30-36 | A `create_dir` can be refused at the name of a file that the previous chunk just renamed away: the run stops there with the file already in its destination |
| RunProperties.Vacated | src/lib.rs:34-37 | For every move the run performed, success or failure: its source was in the root, and a name still there afterwards is either the very same file, which its destination also holds under that name (the rename found another link to it there and did nothing), or a directory created by a later directory step of the run |
| RunProperties.CreatedBefore | src/lib.rs:29-32 | A name absent before the run is present afterwards only if a directory step among those performed names it |
| RunProperties.SourceKept | src/lib.rs:28-38 | A file that no step moves is still in the root with the same contents, whether the run succeeds or fails |
| RunProperties.CreatedAsDirectory | src/lib.rs:29-32 | A name that was absent or a directory, and that no step moves, can only be a directory after the run |
| RunProperties.Progress | src/lib.rs:28-38 | No moved file is lost, success or failure. With `p` the steps performed (`Reached`): every file moved before `p` is in its destination with its old contents and has left the root (as `Vacated` states it), and every file due from `p` on is still in the root, unchanged |
| SplitProperties.DefaultFailsToBuild | src/lib.rs:119-121 | Building the default builder fails with "path is not set" |
| SplitProperties.BuildWithPath | src/lib.rs:85-92 | Once a path is set, building succeeds and the operation carries every setting |
| SplitProperties.DefaultSortCmpIsTotalPreorder | src/lib.rs:54-59 | The default comparison is a total preorder whenever the natural-order comparison of names is one |
| SplitProperties.DefaultDirectoryNamesDistinct | src/lib.rs:124-132 | Distinct chunk indices get distinct default directory names |
| SplitProperties.EligibleOfListing | src/lib.rs:16-24 | The kept entries are exactly the root's readable regular files of known type, and no name is kept more often than the listing visits it |
| SplitProperties.PlannedEntries | src/lib.rs:16-26 | A name is in the plan exactly when it is a regular file of the root that was read and whose type is known |
| SplitProperties.PlanOrder | src/lib.rs:16-26 | The chunks laid end to end are a permutation of the kept entries, ordered by the comparison when it is a total preorder |
| SplitProperties.PlanCount | src/lib.rs:26-28 | With `n` kept entries there are n/chunk chunks rounded up (`RoundsUp`), and none exactly when `n = 0` |
| SplitProperties.PlanChunk | src/lib.rs:26-28 | Chunk `i` is non-empty, holds at most `chunk` entries, and is the sorted positions `[i*chunk, min((i+1)*chunk, n))` |
| SplitProperties.PlanMovesFiles | src/lib.rs:16-36 | The steps of a plan move no name twice, and move only readable regular files of known type present in the root |
| SplitProperties.PlanSourcesIntact | src/lib.rs:34-36 | Every file the plan moves is present and not a directory before the run |
| SplitProperties.ChunksPlaced | src/lib.rs:28-37 | After a successful run of the steps for any chunks with intact sources, every entry of chunk `i` is in `directory_name(i)` under its base name with its old contents |
| SplitProperties.ChunksVacated | src/lib.rs:28-37 | After such a run, the name of an entry of chunk `i` is still in the root only as a directory that some chunk's destination is named after, or as the same file when `directory_name(i)` also holds it under that name (another link the rename left alone) |
| SplitProperties.ChunksCreated | src/lib.rs:28-32 | After such a run, every chunk's directory exists as a directory, and the names added to the root are exactly the chunk directories that were absent before |
| SplitProperties.SuccessPlacesEveryFile | src/lib.rs:28-37 | After a successful execution, every planned file of chunk `i` is in `directory_name(i)` under its base name with its old contents |
| SplitProperties.SuccessVacatesSources | src/lib.rs:34-37 | After a successful execution, the name of a planned file of chunk `i` is gone from the root, except as a directory that some chunk's destination is named after, or as the same file when `directory_name(i)` also holds it under that name |
| SplitProperties.ChunksAccounted | src/lib.rs:28-38 | For the steps of any chunks with intact sources, with `p` the steps performed (`Reached`; all of them exactly when the run succeeded): entry `j` of chunk `i` is moved by step `StepsBefore(i) + 1 + j` (`MovedAtStep`). If that is before `p`, the entry is in `directory_name(i)` with its old contents and its name has left the root (`FilesVacatedAt`: only a chunk directory or the same, doubly linked file remains under it); otherwise it is still in the root, unchanged |
| SplitProperties.EveryFileAccounted | src/lib.rs:15-40 | The same for a run of `execute`'s plan, whether it succeeds or fails: the planned files moved before the failing step are in their chunk's directory and gone from the root, and the rest are still in the root unchanged; none is lost |
| SplitProperties.OthersLeftInPlace | src/lib.rs:16-37 | Unreadable entries, entries of unknown type, directories and special files that no destination is named after keep their place and contents, whether the run succeeds or fails |
| SplitProperties.ExistingDestinationKept | src/lib.rs:29-32 | An existing destination directory keeps what it held, success or failure, except entries replaced by a planned file of the same name |
| SplitProperties.CreatedDirectories | src/lib.rs:29-32 | After a successful execution, every destination is a directory, and the names added to the root are exactly the destinations that did not exist before |
| SplitProperties.ConflictingChunkFails | src/lib.rs:30-36 | If chunk `i`'s destination exists but is not a directory, the run from that chunk stops with "not a directory" at its first rename and changes nothing more |

## Left out

- The real filesystem calls (`fs::read_dir`, `DirEntry::file_type`, `Path::exists`, `fs::create_dir`, `fs::rename`, `Path::join`) are replaced by operations on the map in `Volume`. Operating-system refusals (permissions, read-only or full volumes, cross-device renames) are fixed sets of names, not a model of their causes.
- Path resolution: the volume is the directory at the operation's path. Names containing separators, `..`, `.` or the empty name are single names here. For a directory name of `""` or `"."`, `root.join(name)` is the root itself, which exists, so the source skips `create_dir` and each rename is a rename of a file onto itself (nothing happens); the model instead creates an entry with that name and moves the files into it. `Operation.path` is carried but not interpreted.
- Directory listing errors: on Unix, the standard library's `ReadDir` iterator stops after yielding its first error. The model's `unreadable` set is fixed and the listing continues past each unreadable name, which over-approximates this: taking as `unreadable` every name the iterator had not yet visited when the error occurred gives the same plan as the source.
- Symbolic links are opaque `Special` entries. `Path::exists` follows links, which is not modelled: with a link to a directory as a destination, the renames go through the link; with a dangling link, `exists()` is false and `create_dir` then fails with "already exists".
- FileSplit.DefaultSortCmp: `natord::compare` and `to_string_lossy` are foreign code, so the comparison is a parameter `natord`. Its properties are assumed only where a lemma says so (`DefaultSortCmpIsTotalPreorder`).
- Sorting.Sort: stability (equal entries keep listing order) is built into the insertion but not stated as a property; only "permutation" and "ordered under a total preorder" are proved. For a comparison that is not a total preorder, the model fixes one output where Rust's `sort_by` may give another or panic.
- `usize` width: chunk indices are unbounded naturals. Overflow of the index or of `i * chunk` cannot occur for a listing that fits in memory.
- `src/main.rs` (command-line parsing) and the programs under `examples/` (usage demonstrations; the size comparator there reads file metadata) are not part of this model.
- Other processes changing the directory during a run are not modelled. The operation itself is single-threaded.
