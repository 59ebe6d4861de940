/** The file-splitting operation: a builder that validates its configuration
    into an immutable operation, and the operation's `Execute`, which lists the
    root, keeps the regular files, sorts them, cuts them into chunks and moves
    chunk `i` into the directory `directoryName(i)` under the root. */
module FileSplit {

  import opened Wrappers
  import opened FileSystem
  import opened Sorting
  import opened Partition
  import Decimal

  type Path = string

  /** `NonZeroUsize`: a positive machine-word count. */
  type ChunkSize = n: nat | 0 < n < 0x1_0000_0000_0000_0000 witness 1

  /** The injected comparison of listing entries. */
  type SortCmp = (DirEntry, DirEntry) -> Ordering

  /** The injected naming of the destination directory of chunk `i`. */
  type NameFn = nat -> string

  /** A validated, ready-to-run operation (`FileSplitToDirectory`). */
  datatype Operation = Operation(path: Path, chunk: ChunkSize, sortCmp: SortCmp, directoryName: NameFn)

  /** The configuration accumulator (`FileSplitToDirectoryBuilder`). */
  datatype Builder = Builder(path: Option<Path>, chunk: ChunkSize, sortCmp: SortCmp, directoryName: NameFn)

  /** The number of files per directory when none is given. */
  const DefaultChunk: ChunkSize := 4400

  /** The default order: the natural-order comparison `natord` of the entries'
      base names. */
  function DefaultSortCmp(natord: (string, string) -> Ordering): (cmp: SortCmp)
    ensures forall a, b :: cmp(a, b) == natord(a.name, b.name)
  {
    (a: DirEntry, b: DirEntry) => natord(a.name, b.name)
  }

  /** The default naming: the chunk index in decimal. */
  function DefaultDirectoryName(i: nat): (name: string)
    ensures Decimal.Canonical(name)
    ensures Decimal.ParseDecimal(name) == Some(i)
  {
    Decimal.ParseDecimalString(i);
    Decimal.DecimalString(i)
  }

  /** The builder `Default` produces: no path, 4400 files per directory,
      natural name order and decimal directory names. */
  function Default(natord: (string, string) -> Ordering): (b: Builder)
    ensures b.path == None && b.chunk == 4400
    ensures b.sortCmp == DefaultSortCmp(natord) && b.directoryName == DefaultDirectoryName
  {
    Builder(None, DefaultChunk, DefaultSortCmp(natord), DefaultDirectoryName)
  }

  function WithPath(b: Builder, path: Path): (r: Builder)
    ensures r.path == Some(path)
    ensures r.chunk == b.chunk && r.sortCmp == b.sortCmp && r.directoryName == b.directoryName
  {
    b.(path := Some(path))
  }

  function WithChunk(b: Builder, chunk: ChunkSize): (r: Builder)
    ensures r.chunk == chunk
    ensures r.path == b.path && r.sortCmp == b.sortCmp && r.directoryName == b.directoryName
  {
    b.(chunk := chunk)
  }

  function WithSortCmp(b: Builder, sortCmp: SortCmp): (r: Builder)
    ensures r.sortCmp == sortCmp
    ensures r.path == b.path && r.chunk == b.chunk && r.directoryName == b.directoryName
  {
    b.(sortCmp := sortCmp)
  }

  function WithDirectoryName(b: Builder, directoryName: NameFn): (r: Builder)
    ensures r.directoryName == directoryName
    ensures r.path == b.path && r.chunk == b.chunk && r.sortCmp == b.sortCmp
  {
    b.(directoryName := directoryName)
  }

  /** Validates the builder: fails with "path is not set" exactly when no path
      was given; otherwise the operation carries the builder's four settings. */
  function Build(b: Builder): (r: Result<Operation, IoError>)
    ensures r.Failure? <==> b.path.None?
    ensures r.Failure? ==> r.error == OtherError("path is not set")
    ensures r.Success? ==> r.value.path == b.path.value && r.value.chunk == b.chunk
    ensures r.Success? ==> r.value.sortCmp == b.sortCmp && r.value.directoryName == b.directoryName
  {
    match b.path
    case Some(path) => Success(Operation(path, b.chunk, b.sortCmp, b.directoryName))
    case None => Failure(OtherError("path is not set"))
  }

  /** The listing entries `Execute` relocates: those read without error whose
      file type is known and is "regular file", in listing order. */
  function Eligible(items: seq<Listed>): (r: seq<DirEntry>)
    ensures forall e :: e in r <==> Entry(e) in items && e.fileType == Some(RegularFile)
  {
    if items == [] then []
    else
      var rest := Eligible(items[1..]);
      assert forall x :: x in items <==> x == items[0] || x in items[1..];
      if items[0].Entry? && items[0].entry.fileType == Some(RegularFile) then [items[0].entry] + rest else rest
  }

  /** The chunks of a listing: eligible entries, sorted by the operation's
      comparison, cut into consecutive groups of `chunk`. */
  function Plan(op: Operation, items: seq<Listed>): seq<seq<DirEntry>> {
    Chunks(Sort(op.sortCmp, Eligible(items)), op.chunk)
  }

  /** The steps for one chunk: make sure its directory exists, then move its
      files in order. */
  function ChunkSteps(dir: Name, chunk: seq<DirEntry>): seq<Op> {
    [EnsureDir(dir)] + Moves(dir, chunk)
  }

  /** One `Move` into `dir` per file of the chunk, in the chunk's order. */
  function Moves(dir: Name, chunk: seq<DirEntry>): seq<Op> {
    if chunk == [] then [] else [Move(chunk[0].name, dir)] + Moves(dir, chunk[1..])
  }

  /** The base name of a listing entry, the name a file keeps when moved. */
  function EntryName(e: DirEntry): Name {
    e.name
  }

  /** The steps for chunks `i`, `i + 1`, ... in ascending order. */
  function Relocation(chunks: seq<seq<DirEntry>>, directoryName: NameFn, i: nat): seq<Op>
    requires i <= |chunks|
    decreases |chunks| - i
  {
    if i == |chunks| then [] else ChunkSteps(directoryName(i), chunks[i]) + Relocation(chunks, directoryName, i + 1)
  }

  /** Runs the operation on the directory `vol`. Listing failures leave
      everything unchanged; otherwise the new contents and the result are those
      of performing the relocation steps of the listing's plan in order,
      stopping at the first failure. */
  method Execute(op: Operation, vol: Volume) returns (r: Outcome, ghost order: seq<Name>)
    modifies vol
    ensures vol.listError.Some? ==> r == Failed(vol.listError.value) && vol.root == old(vol.root)
    ensures vol.listError.None? ==> IsEnumeration(order, old(vol.root).Keys)
    ensures vol.listError.None? ==>
      var plan := Plan(op, ListingOf(old(vol.root), vol.unreadable, vol.typeUnknown, order));
      Run(old(vol.root), vol.denied, Relocation(plan, op.directoryName, 0)) == RunState(r, vol.root)
  {
    var listing;
    listing, order := vol.ReadDir();
    if listing.Failure? {
      return Failed(listing.error), order;
    }
    var chunks := Plan(op, listing.value);
    ghost var start := vol.root;
    for i := 0 to |chunks|
      invariant Run(start, vol.denied, Relocation(chunks, op.directoryName, 0))
             == Run(vol.root, vol.denied, Relocation(chunks, op.directoryName, i))
    {
      var target := op.directoryName(i);
      ghost var rest := Relocation(chunks, op.directoryName, i + 1);
      RelocationAt(chunks, op.directoryName, i);
      ghost var before := vol.root;
      var present := vol.Exists(target);
      if !present {
        var created := vol.CreateDir(target);
        if created.Failed? {
          RunFirst(before, vol.denied, EnsureDir(target), Moves(target, chunks[i][0..]) + rest);
          return created, order;
        }
      }
      assert Apply(before, vol.denied, EnsureDir(target)) == Success(vol.root);
      RunFirst(before, vol.denied, EnsureDir(target), Moves(target, chunks[i][0..]) + rest);
      for j := 0 to |chunks[i]|
        invariant Run(start, vol.denied, Relocation(chunks, op.directoryName, 0))
               == Run(vol.root, vol.denied, Moves(target, chunks[i][j..]) + rest)
      {
        MovesAt(target, chunks[i], j, rest);
        ghost var prior := vol.root;
        var moved := vol.Rename(chunks[i][j].name, target);
        RunFirst(prior, vol.denied, Move(chunks[i][j].name, target), Moves(target, chunks[i][j + 1..]) + rest);
        if moved.Failed? {
          return moved, order;
        }
      }
      MovesDone(target, chunks[i], rest);
    }
    return Done, order;
  }

  /** The moves of a chunk from position `j` on start with the move of
      element `j`. */
  lemma MovesAt(dir: Name, chunk: seq<DirEntry>, j: nat, rest: seq<Op>)
    requires j < |chunk|
    ensures Moves(dir, chunk[j..]) + rest == [Move(chunk[j].name, dir)] + (Moves(dir, chunk[j + 1..]) + rest)
  {
    assert chunk[j..][1..] == chunk[j + 1..];
  }

  /** The steps from chunk `i` on: its directory step, its moves, then the
      steps of the later chunks. */
  lemma RelocationAt(chunks: seq<seq<DirEntry>>, directoryName: NameFn, i: nat)
    requires i < |chunks|
    ensures Relocation(chunks, directoryName, i) ==
      [EnsureDir(directoryName(i))] + (Moves(directoryName(i), chunks[i][0..]) + Relocation(chunks, directoryName, i + 1))
  {
    assert chunks[i][0..] == chunks[i];
  }

  lemma MovesDone(dir: Name, chunk: seq<DirEntry>, rest: seq<Op>)
    ensures Moves(dir, chunk[|chunk|..]) + rest == rest
  {
    assert chunk[|chunk|..] == [];
  }

  /** A run performs its first step and then the rest. */
  lemma RunFirst(root: map<Name, Node>, denied: Refusals, op: Op, tail: seq<Op>)
    ensures Apply(root, denied, op).Failure? ==>
      Run(root, denied, [op] + tail) == RunState(Failed(Apply(root, denied, op).error), root)
    ensures Apply(root, denied, op).Success? ==>
      Run(root, denied, [op] + tail) == Run(Apply(root, denied, op).value, denied, tail)
  {
    assert ([op] + tail)[0] == op && ([op] + tail)[1..] == tail;
  }
}
