/** What the file-splitting operation guarantees, stated over the model: the
    builder's validation, the default naming, the shape of the plan, and the
    state a run of `Execute` leaves behind when it succeeds and when it fails. */
module SplitProperties {

  import opened Wrappers
  import opened FileSystem
  import opened Sorting
  import opened Partition
  import opened RunProperties
  import opened FileSplit
  import Decimal

  // ---------------------------------------------------------------- builder

  /** The default builder has no path, so building it fails. */
  lemma DefaultFailsToBuild(natord: (string, string) -> Ordering)
    ensures Build(Default(natord)) == Failure(OtherError("path is not set"))
  {
  }

  /** Once a path is set, building succeeds and carries every setting over. */
  lemma BuildWithPath(b: Builder, path: Path)
    ensures Build(WithPath(b, path)) == Success(Operation(path, b.chunk, b.sortCmp, b.directoryName))
  {
  }

  /** The default order is a total preorder whenever the natural-order
      comparison of names is one. */
  lemma DefaultSortCmpIsTotalPreorder(natord: (string, string) -> Ordering)
    requires TotalPreorder(natord)
    ensures TotalPreorder(DefaultSortCmp(natord))
  {
    var cmp := DefaultSortCmp(natord);
    forall a: DirEntry, b: DirEntry ensures cmp(a, b) == Less <==> cmp(b, a) == Greater {
      assert natord(a.name, b.name) == Less <==> natord(b.name, a.name) == Greater;
    }
    forall a: DirEntry, b: DirEntry, c: DirEntry | cmp(a, b) != Greater && cmp(b, c) != Greater
      ensures cmp(a, c) != Greater
    {
      assert natord(a.name, b.name) != Greater && natord(b.name, c.name) != Greater;
    }
  }

  /** Distinct chunk indices get distinct default directory names. */
  lemma DefaultDirectoryNamesDistinct(i: nat, j: nat)
    requires i != j
    ensures DefaultDirectoryName(i) != DefaultDirectoryName(j)
  {
    Decimal.DecimalStringInjective(i, j);
  }

  // ------------------------------------------------------------------- plan

  /** The plan's chunks laid end to end are the eligible entries of the
      listing, each exactly as often as it occurs there, and in ascending order
      whenever the comparison is a total preorder. */
  lemma PlanOrder(op: Operation, items: seq<Listed>)
    ensures multiset(Flatten(Plan(op, items))) == multiset(Eligible(items))
    ensures TotalPreorder(op.sortCmp) ==> SortedBy(op.sortCmp, Flatten(Plan(op, items)))
  {
    FlattenChunks(Sort(op.sortCmp, Eligible(items)), op.chunk);
    if TotalPreorder(op.sortCmp) {
      SortSorted(op.sortCmp, Eligible(items));
    }
  }

  /** There are |eligible| / chunk chunks, rounded up: none exactly when
      nothing is eligible. */
  lemma PlanCount(op: Operation, items: seq<Listed>)
    ensures RoundsUp(|Plan(op, items)|, |Eligible(items)|, op.chunk)
    ensures |Eligible(items)| == 0 <==> Plan(op, items) == []
  {
    var sorted := Sort(op.sortCmp, Eligible(items));
    assert |sorted| == |Eligible(items)| by {
      assert |multiset(sorted)| == |multiset(Eligible(items))|;
    }
    ChunkCount(sorted, op.chunk);
  }

  /** Chunk `i` is non-empty, holds at most `chunk` entries, and is the slice
      [i*chunk, min((i+1)*chunk, n)) of the sorted entries. */
  lemma PlanChunk(op: Operation, items: seq<Listed>, i: nat)
    requires i < |Plan(op, items)|
    ensures 0 < |Plan(op, items)[i]| <= op.chunk
    ensures i * op.chunk < |Flatten(Plan(op, items))|
    ensures Plan(op, items)[i] == Flatten(Plan(op, items))[i * op.chunk .. Min(i * op.chunk + op.chunk, |Flatten(Plan(op, items))|)]
  {
    var sorted := Sort(op.sortCmp, Eligible(items));
    assert Plan(op, items) == Chunks(sorted, op.chunk);
    ChunkInFlatten(sorted, op.chunk, i);
  }

  /** The eligible entries of a listing are exactly the entries of the root
      that were read, whose type is known, and that are regular files; each
      name occurs at most as often as the listing visits it. */
  lemma EligibleOfListing(root: map<Name, Node>, unreadable: set<Name>, typeUnknown: set<Name>, order: seq<Name>)
    requires forall n :: n in order ==> n in root
    ensures var eligible := Eligible(ListingOf(root, unreadable, typeUnknown, order));
      && (forall e :: e in eligible <==>
            e.name in order && e.name !in unreadable && e.name !in typeUnknown
            && root[e.name].File? && e.fileType == Some(RegularFile))
      && (forall x :: multiset(Image(EntryName, eligible))[x] <= multiset(order)[x])
  {
    EligibleMembers(root, unreadable, typeUnknown, order);
    EligibleNames(root, unreadable, typeUnknown, order);
  }

  lemma EligibleMembers(root: map<Name, Node>, unreadable: set<Name>, typeUnknown: set<Name>, order: seq<Name>)
    requires forall n :: n in order ==> n in root
    ensures var eligible := Eligible(ListingOf(root, unreadable, typeUnknown, order));
      forall e :: e in eligible <==>
        e.name in order && e.name !in unreadable && e.name !in typeUnknown
        && root[e.name].File? && e.fileType == Some(RegularFile)
  {
    var items := ListingOf(root, unreadable, typeUnknown, order);
    var eligible := Eligible(items);
    forall e ensures e in eligible <==>
      e.name in order && e.name !in unreadable && e.name !in typeUnknown
      && root[e.name].File? && e.fileType == Some(RegularFile)
    {
      if e in eligible {
        var k :| 0 <= k < |items| && items[k] == Entry(e);
        assert order[k] == e.name;
      }
      if e.name in order && e.name !in unreadable && e.name !in typeUnknown
         && root[e.name].File? && e.fileType == Some(RegularFile) {
        var k :| 0 <= k < |order| && order[k] == e.name;
        assert items[k] == Entry(e);
      }
    }
  }

  lemma {:induction false} EligibleNames(root: map<Name, Node>, unreadable: set<Name>, typeUnknown: set<Name>, order: seq<Name>)
    requires forall n :: n in order ==> n in root
    ensures forall x :: multiset(Image(EntryName, Eligible(ListingOf(root, unreadable, typeUnknown, order))))[x] <= multiset(order)[x]
    decreases |order|
  {
    if order != [] {
      var items := ListingOf(root, unreadable, typeUnknown, order);
      var eligible := Eligible(items);
      var tail := ListingOf(root, unreadable, typeUnknown, order[1..]);
      assert items == [items[0]] + tail;
      assert items[1..] == tail;
      EligibleNames(root, unreadable, typeUnknown, order[1..]);
      assert order == [order[0]] + order[1..];
      var rest := Eligible(tail);
      if items[0].Entry? && items[0].entry.fileType == Some(RegularFile) {
        assert eligible == [items[0].entry] + rest;
        assert Image(EntryName, eligible) == [order[0]] + Image(EntryName, rest);
      } else {
        assert eligible == rest;
      }
    }
  }

  lemma {:induction false} ImageAppend<T, K>(key: T -> K, a: seq<T>, b: seq<T>)
    ensures Image(key, a + b) == Image(key, a) + Image(key, b)
  {
  }

  lemma {:induction false} MoveNamesOfMoves(dir: Name, chunk: seq<DirEntry>)
    ensures MoveNames(Moves(dir, chunk)) == Image(EntryName, chunk)
    decreases |chunk|
  {
    if chunk != [] {
      MoveNamesOfMoves(dir, chunk[1..]);
      MoveNamesAppend([Move(chunk[0].name, dir)], Moves(dir, chunk[1..]));
      assert chunk == [chunk[0]] + chunk[1..];
      ImageAppend(EntryName, [chunk[0]], chunk[1..]);
    }
  }

  /** The entries the relocation moves are the plan's entries, in plan order. */
  lemma {:induction false} MoveNamesOfRelocation(chunks: seq<seq<DirEntry>>, directoryName: NameFn, i: nat)
    requires i <= |chunks|
    ensures MoveNames(Relocation(chunks, directoryName, i)) == Image(EntryName, Flatten(chunks[i..]))
    decreases |chunks| - i
  {
    if i < |chunks| {
      var d := directoryName(i);
      MoveNamesOfRelocation(chunks, directoryName, i + 1);
      MoveNamesAppend(ChunkSteps(d, chunks[i]), Relocation(chunks, directoryName, i + 1));
      MoveNamesAppend([EnsureDir(d)], Moves(d, chunks[i]));
      MoveNamesOfMoves(d, chunks[i]);
      assert chunks[i..][0] == chunks[i] && chunks[i..][1..] == chunks[i + 1..];
      ImageAppend(EntryName, chunks[i], Flatten(chunks[i + 1..]));
    } else {
      assert chunks[i..] == [];
    }
  }

  /** The relocation of chunks `i`, `i + 1`, ... makes sure the directory of
      each of those chunks exists. */
  lemma {:induction false} RelocationEnsuresDirs(chunks: seq<seq<DirEntry>>, directoryName: NameFn, i: nat)
    requires i <= |chunks|
    ensures forall j :: i <= j < |chunks| ==> EnsureDir(directoryName(j)) in Relocation(chunks, directoryName, i)
    decreases |chunks| - i
  {
    if i < |chunks| {
      RelocationEnsuresDirs(chunks, directoryName, i + 1);
      var d := directoryName(i);
      assert EnsureDir(d) in ChunkSteps(d, chunks[i]);
    }
  }

  /** It moves every entry of each of those chunks into that chunk's directory. */
  lemma {:induction false} RelocationMovesEntries(chunks: seq<seq<DirEntry>>, directoryName: NameFn, i: nat)
    requires i <= |chunks|
    ensures forall j, e :: i <= j < |chunks| && e in chunks[j] ==>
      Move(e.name, directoryName(j)) in Relocation(chunks, directoryName, i)
    decreases |chunks| - i
  {
    if i < |chunks| {
      RelocationMovesEntries(chunks, directoryName, i + 1);
      MovesMembers(directoryName(i), chunks[i]);
    }
  }

  /** And it names no directory but those of the chunks. */
  lemma {:induction false} RelocationDirs(chunks: seq<seq<DirEntry>>, directoryName: NameFn, i: nat)
    requires i <= |chunks|
    ensures forall op :: op in Relocation(chunks, directoryName, i) ==>
      exists j :: i <= j < |chunks| && op.dir == directoryName(j)
    decreases |chunks| - i
  {
    if i < |chunks| {
      RelocationDirs(chunks, directoryName, i + 1);
      var d := directoryName(i);
      MovesMembers(d, chunks[i]);
      forall op | op in ChunkSteps(d, chunks[i]) ensures op.dir == d {
      }
    }
  }

  lemma {:induction false} MovesMembers(dir: Name, chunk: seq<DirEntry>)
    ensures forall e :: e in chunk ==> Move(e.name, dir) in Moves(dir, chunk)
    ensures forall op :: op in Moves(dir, chunk) ==> op.Move? && op.dir == dir
    decreases |chunk|
  {
    if chunk != [] {
      MovesMembers(dir, chunk[1..]);
      assert forall e :: e in chunk ==> e == chunk[0] || e in chunk[1..];
    }
  }

  /** The relocation of a listing's plan moves no entry twice, and only entries
      that were read, whose type is known and that are regular files. */
  lemma PlanMovesFiles(op: Operation, root: map<Name, Node>, unreadable: set<Name>, typeUnknown: set<Name>, order: seq<Name>)
    requires IsEnumeration(order, root.Keys)
    ensures Distinct(MoveNames(Relocation(Plan(op, ListingOf(root, unreadable, typeUnknown, order)), op.directoryName, 0)))
    ensures forall f :: f in MoveNames(Relocation(Plan(op, ListingOf(root, unreadable, typeUnknown, order)), op.directoryName, 0)) ==>
      (f in root && root[f].File? && f !in unreadable && f !in typeUnknown)
  {
    var eligible := Eligible(ListingOf(root, unreadable, typeUnknown, order));
    var sorted := Sort(op.sortCmp, eligible);
    var plan := Plan(op, ListingOf(root, unreadable, typeUnknown, order));
    var names := MoveNames(Relocation(plan, op.directoryName, 0));
    MoveNamesOfRelocation(plan, op.directoryName, 0);
    FlattenChunks(sorted, op.chunk);
    assert plan[0..] == plan;
    assert names == Image(EntryName, sorted);
    SortImage(op.sortCmp, EntryName, eligible);
    EligibleOfListing(root, unreadable, typeUnknown, order);
    assert Distinct(names) by {
      forall x ensures multiset(names)[x] <= 1 {
        assert multiset(names)[x] == multiset(Image(EntryName, eligible))[x];
      }
    }
    forall f | f in names ensures f in root && root[f].File? && f !in unreadable && f !in typeUnknown {
      assert f in multiset(Image(EntryName, eligible));
      var k :| 0 <= k < |eligible| && Image(EntryName, eligible)[k] == f;
      assert eligible[k] in eligible;
    }
  }

  /** Hence the sources of the plan's moves are intact before the run. */
  lemma PlanSourcesIntact(op: Operation, root: map<Name, Node>, unreadable: set<Name>, typeUnknown: set<Name>, order: seq<Name>)
    requires IsEnumeration(order, root.Keys)
    ensures SourcesIntact(root, Relocation(Plan(op, ListingOf(root, unreadable, typeUnknown, order)), op.directoryName, 0))
  {
    PlanMovesFiles(op, root, unreadable, typeUnknown, order);
  }

  /** Every regular file of the root that was read and whose type is known is
      in the plan, and only those are. */
  lemma PlannedEntries(op: Operation, root: map<Name, Node>, unreadable: set<Name>, typeUnknown: set<Name>, order: seq<Name>, n: Name)
    requires IsEnumeration(order, root.Keys)
    ensures n in Image(EntryName, Flatten(Plan(op, ListingOf(root, unreadable, typeUnknown, order)))) <==>
      n in root && root[n].File? && n !in unreadable && n !in typeUnknown
  {
    var items := ListingOf(root, unreadable, typeUnknown, order);
    var eligible := Eligible(items);
    var names := Image(EntryName, Flatten(Plan(op, items)));
    FlattenChunks(Sort(op.sortCmp, eligible), op.chunk);
    SortImage(op.sortCmp, EntryName, eligible);
    assert n in names <==> n in Image(EntryName, eligible) by {
      assert multiset(names) == multiset(Image(EntryName, eligible));
      assert n in names <==> n in multiset(names);
    }
    EligibleOfListing(root, unreadable, typeUnknown, order);
    InImage(EntryName, eligible, n);
    if n in root && root[n].File? && n !in unreadable && n !in typeUnknown {
      assert EntryName(DirEntry(n, Some(RegularFile))) == n;
    }
  }

  /** A key occurs in the image exactly when some element has it. */
  lemma {:induction false} InImage<T, K>(key: T -> K, s: seq<T>, k: K)
    ensures k in Image(key, s) <==> exists x :: x in s && key(x) == k
  {
    if k in Image(key, s) {
      var i :| 0 <= i < |s| && Image(key, s)[i] == k;
      assert s[i] in s;
    }
    if exists x :: x in s && key(x) == k {
      var x :| x in s && key(x) == k;
      var i :| 0 <= i < |s| && s[i] == x;
      assert Image(key, s)[i] == k;
    }
  }

  // -------------------------------------------------------------- execution

  /** Every entry of chunk `i` sits in `after` in the directory
      `directoryName(i)` under its base name, with the contents it had in
      `before`. */
  predicate AllPlaced(chunks: seq<seq<DirEntry>>, directoryName: NameFn, before: map<Name, Node>, after: map<Name, Node>) {
    forall i, e :: 0 <= i < |chunks| && e in chunks[i] ==>
      e.name in before && Holds(after, directoryName(i), e.name, before[e.name])
  }

  /** After a successful run of the steps for `chunks`, every entry of chunk
      `i` sits in the directory `directoryName(i)` under its base name, with the
      contents it had before. */
  lemma ChunksPlaced(chunks: seq<seq<DirEntry>>, directoryName: NameFn, root: map<Name, Node>, denied: Refusals)
    requires SourcesIntact(root, Relocation(chunks, directoryName, 0))
    requires Run(root, denied, Relocation(chunks, directoryName, 0)).status.Done?
    ensures AllPlaced(chunks, directoryName, root, Run(root, denied, Relocation(chunks, directoryName, 0)).root)
  {
    var ops := Relocation(chunks, directoryName, 0);
    RelocationMovesEntries(chunks, directoryName, 0);
    Placement(root, denied, ops);
    forall i: nat, e: DirEntry | i < |chunks| && e in chunks[i]
      ensures e.name in root && Holds(Run(root, denied, ops).root, directoryName(i), e.name, root[e.name])
    {
      var k :| 0 <= k < |ops| && ops[k] == Move(e.name, directoryName(i));
      assert e.name in MoveNames(ops);
    }
  }

  /** After a successful run of the steps for `chunks`, a moved entry's name
      is still in the root only as a directory some chunk's destination is
      named after, or as the same file when its chunk's directory already held
      another link to it (the rename then did nothing). */
  lemma ChunksVacated(chunks: seq<seq<DirEntry>>, directoryName: NameFn, root: map<Name, Node>, denied: Refusals)
    requires SourcesIntact(root, Relocation(chunks, directoryName, 0))
    requires Run(root, denied, Relocation(chunks, directoryName, 0)).status.Done?
    ensures var last := Run(root, denied, Relocation(chunks, directoryName, 0)).root;
      forall i, e :: 0 <= i < |chunks| && e in chunks[i] && e.name in last ==>
        && e.name in root
        && (|| (last[e.name] == root[e.name] && Holds(root, directoryName(i), e.name, root[e.name]))
            || (last[e.name].Dir? && exists j :: 0 <= j < |chunks| && directoryName(j) == e.name))
  {
    var ops := Relocation(chunks, directoryName, 0);
    var last := Run(root, denied, ops).root;
    RelocationMovesEntries(chunks, directoryName, 0);
    RelocationDirs(chunks, directoryName, 0);
    forall i: nat, e: DirEntry | i < |chunks| && e in chunks[i] && e.name in last
      ensures e.name in root
      ensures || (last[e.name] == root[e.name] && Holds(root, directoryName(i), e.name, root[e.name]))
              || (last[e.name].Dir? && exists j :: 0 <= j < |chunks| && directoryName(j) == e.name)
    {
      var k :| 0 <= k < |ops| && ops[k] == Move(e.name, directoryName(i));
      Vacated(root, denied, ops, k);
      if !(last[e.name] == root[e.name] && Holds(root, directoryName(i), e.name, root[e.name])) {
        var j :| k < j < |ops| && ops[j] == EnsureDir(e.name);
        assert ops[j] in ops;
        assert EnsureDir(e.name).dir == e.name;
      }
    }
  }

  /** After a successful run of the steps for non-empty chunks, every chunk's
      directory exists as a directory, and the names added to the root are
      exactly the chunk directories that did not exist before. */
  lemma ChunksCreated(chunks: seq<seq<DirEntry>>, directoryName: NameFn, root: map<Name, Node>, denied: Refusals)
    requires forall k :: 0 <= k < |chunks| ==> |chunks[k]| > 0
    requires SourcesIntact(root, Relocation(chunks, directoryName, 0))
    requires Run(root, denied, Relocation(chunks, directoryName, 0)).status.Done?
    ensures var last := Run(root, denied, Relocation(chunks, directoryName, 0)).root;
      && (forall i :: 0 <= i < |chunks| ==> directoryName(i) in last && last[directoryName(i)].Dir?)
      && (forall n :: n !in root ==> (n in last <==> exists i :: 0 <= i < |chunks| && directoryName(i) == n))
  {
    var ops := Relocation(chunks, directoryName, 0);
    var last := Run(root, denied, ops).root;
    ChunksPlaced(chunks, directoryName, root, denied);
    RelocationDirs(chunks, directoryName, 0);
    forall i | 0 <= i < |chunks| ensures directoryName(i) in last && last[directoryName(i)].Dir? {
      var e := chunks[i][0];
      assert e in chunks[i];
      assert Holds(last, directoryName(i), e.name, root[e.name]);
    }
    forall n | n !in root ensures n in last <==> exists i :: 0 <= i < |chunks| && directoryName(i) == n {
      if n in last {
        if EnsureDir(n) !in ops {
          StaysAbsent(root, denied, ops, n);
        }
        assert EnsureDir(n).dir == n;
      }
    }
  }

  /** After a successful run, every planned file of chunk `i` sits in the
      directory `directoryName(i)` under its base name, unchanged. */
  lemma SuccessPlacesEveryFile(op: Operation, root: map<Name, Node>, unreadable: set<Name>, typeUnknown: set<Name>, denied: Refusals, order: seq<Name>)
    requires IsEnumeration(order, root.Keys)
    ensures var plan := Plan(op, ListingOf(root, unreadable, typeUnknown, order));
      var last := Run(root, denied, Relocation(plan, op.directoryName, 0));
      last.status.Done? ==> AllPlaced(plan, op.directoryName, root, last.root)
  {
    var plan := Plan(op, ListingOf(root, unreadable, typeUnknown, order));
    if Run(root, denied, Relocation(plan, op.directoryName, 0)).status.Done? {
      PlanSourcesIntact(op, root, unreadable, typeUnknown, order);
      ChunksPlaced(plan, op.directoryName, root, denied);
    }
  }

  /** After a successful run, a planned file's name is gone from the root,
      except as a directory some chunk's destination is named after, or as
      the same file when its chunk's directory already held another link to
      it. */
  lemma SuccessVacatesSources(op: Operation, root: map<Name, Node>, unreadable: set<Name>, typeUnknown: set<Name>, denied: Refusals, order: seq<Name>)
    requires IsEnumeration(order, root.Keys)
    ensures var plan := Plan(op, ListingOf(root, unreadable, typeUnknown, order));
      var last := Run(root, denied, Relocation(plan, op.directoryName, 0));
      last.status.Done? ==>
        forall i, e :: 0 <= i < |plan| && e in plan[i] && e.name in last.root ==>
          && e.name in root
          && (|| (last.root[e.name] == root[e.name] && Holds(root, op.directoryName(i), e.name, root[e.name]))
              || (last.root[e.name].Dir? && exists j :: 0 <= j < |plan| && op.directoryName(j) == e.name))
  {
    var plan := Plan(op, ListingOf(root, unreadable, typeUnknown, order));
    if Run(root, denied, Relocation(plan, op.directoryName, 0)).status.Done? {
      PlanSourcesIntact(op, root, unreadable, typeUnknown, order);
      ChunksVacated(plan, op.directoryName, root, denied);
    }
  }

  /** The number of steps for chunks `0 .. i - 1`: a directory step and one
      move per entry each. */
  function StepsBefore(chunks: seq<seq<DirEntry>>, i: nat): nat
    requires i <= |chunks|
  {
    if i == 0 then 0 else StepsBefore(chunks, i - 1) + 1 + |chunks[i - 1]|
  }

  lemma {:induction false} MovesLength(dir: Name, chunk: seq<DirEntry>)
    ensures |Moves(dir, chunk)| == |chunk|
    decreases |chunk|
  {
    if chunk != [] {
      MovesLength(dir, chunk[1..]);
    }
  }

  lemma {:induction false} MovesIndex(dir: Name, chunk: seq<DirEntry>, j: nat)
    requires j < |chunk|
    ensures j < |Moves(dir, chunk)| && Moves(dir, chunk)[j] == Move(chunk[j].name, dir)
    decreases |chunk|
  {
    if j > 0 {
      MovesIndex(dir, chunk[1..], j - 1);
      assert chunk[1..][j - 1] == chunk[j];
    }
  }

  /** Entry `j` of chunk `i` is moved by step `StepsBefore(chunks, i) + 1 + j`
      (counted from the steps of chunk `i0`). */
  lemma {:induction false} RelocationIndex(chunks: seq<seq<DirEntry>>, directoryName: NameFn, i0: nat, i: nat, j: nat)
    requires i0 <= i < |chunks| && j < |chunks[i]|
    ensures StepsBefore(chunks, i0) <= StepsBefore(chunks, i)
    ensures var k := StepsBefore(chunks, i) - StepsBefore(chunks, i0) + 1 + j;
      k < |Relocation(chunks, directoryName, i0)| && Relocation(chunks, directoryName, i0)[k] == Move(chunks[i][j].name, directoryName(i))
    decreases i - i0
  {
    if i0 == i {
      MovesIndex(directoryName(i), chunks[i], j);
    } else {
      RelocationIndex(chunks, directoryName, i0 + 1, i, j);
      MovesLength(directoryName(i0), chunks[i0]);
    }
  }

  /** Entry `j` of chunk `i` is moved by step `StepsBefore(plan, i) + 1 + j`.
      The files whose moves come before step `p` sit in their chunk's
      directory with their old contents; the others are still in the root,
      unchanged. */
  ghost predicate FilesSplitAt(plan: seq<seq<DirEntry>>, directoryName: NameFn, root: map<Name, Node>, last: map<Name, Node>, p: nat) {
    forall i, j :: 0 <= i < |plan| && 0 <= j < |plan[i]| ==>
      && plan[i][j].name in root
      && (StepsBefore(plan, i) + 1 + j < p ==>
            Holds(last, directoryName(i), plan[i][j].name, root[plan[i][j].name]))
      && (StepsBefore(plan, i) + 1 + j >= p ==>
            plan[i][j].name in last && last[plan[i][j].name] == root[plan[i][j].name])
  }

  /** The files whose moves come before step `p` have left the root: a name
      still there is a directory some chunk's destination is named after, or
      the same file when its chunk's directory already held another link to
      it. */
  ghost predicate FilesVacatedAt(plan: seq<seq<DirEntry>>, directoryName: NameFn, root: map<Name, Node>, last: map<Name, Node>, p: nat) {
    forall i, j :: 0 <= i < |plan| && 0 <= j < |plan[i]| && StepsBefore(plan, i) + 1 + j < p && plan[i][j].name in last ==>
      && plan[i][j].name in root
      && (|| (last[plan[i][j].name] == root[plan[i][j].name] && Holds(root, directoryName(i), plan[i][j].name, root[plan[i][j].name]))
          || (last[plan[i][j].name].Dir? && exists c :: 0 <= c < |plan| && directoryName(c) == plan[i][j].name))
  }

  /** For the steps of any chunks whose sources are intact, with `p` the steps
      the run performed: the files moved before `p` are in their chunk's
      directory and have left the root, and the others are still in the root,
      unchanged. */
  lemma ChunksAccounted(chunks: seq<seq<DirEntry>>, directoryName: NameFn, root: map<Name, Node>, denied: Refusals)
    requires SourcesIntact(root, Relocation(chunks, directoryName, 0))
    ensures var ops := Relocation(chunks, directoryName, 0);
      FilesSplitAt(chunks, directoryName, root, Run(root, denied, ops).root, Reached(root, denied, ops))
    ensures var ops := Relocation(chunks, directoryName, 0);
      FilesVacatedAt(chunks, directoryName, root, Run(root, denied, ops).root, Reached(root, denied, ops))
    ensures StepsLocated(chunks, directoryName)
  {
    ChunksSplitAt(chunks, directoryName, root, denied);
    ChunksVacatedAt(chunks, directoryName, root, denied);
    RelocationSteps(chunks, directoryName);
  }

  lemma ChunksSplitAt(chunks: seq<seq<DirEntry>>, directoryName: NameFn, root: map<Name, Node>, denied: Refusals)
    requires SourcesIntact(root, Relocation(chunks, directoryName, 0))
    ensures var ops := Relocation(chunks, directoryName, 0);
      FilesSplitAt(chunks, directoryName, root, Run(root, denied, ops).root, Reached(root, denied, ops))
  {
    var ops := Relocation(chunks, directoryName, 0);
    MovesSplit(root, denied, ops);
    RelocationSteps(chunks, directoryName);
    forall i, j | 0 <= i < |chunks| && 0 <= j < |chunks[i]|
      ensures StepsBefore(chunks, i) + 1 + j < |ops| && ops[StepsBefore(chunks, i) + 1 + j] == Move(chunks[i][j].name, directoryName(i))
    {
      assert MovedAtStep(chunks, directoryName, i, j);
    }
  }

  /** Where each planned entry's move sits among the steps. */
  lemma RelocationSteps(chunks: seq<seq<DirEntry>>, directoryName: NameFn)
    ensures forall i, j :: 0 <= i < |chunks| && 0 <= j < |chunks[i]| ==> MovedAtStep(chunks, directoryName, i, j)
  {
    forall i, j | 0 <= i < |chunks| && 0 <= j < |chunks[i]|
      ensures MovedAtStep(chunks, directoryName, i, j)
    {
      RelocationIndex(chunks, directoryName, 0, i, j);
    }
  }

  /** Every entry's move sits where `MovedAtStep` says. */
  ghost predicate StepsLocated(chunks: seq<seq<DirEntry>>, directoryName: NameFn) {
    forall i, j :: 0 <= i < |chunks| && 0 <= j < |chunks[i]| ==> MovedAtStep(chunks, directoryName, i, j)
  }

  /** Entry `j` of chunk `i` is moved by step `StepsBefore(chunks, i) + 1 + j`. */
  ghost predicate MovedAtStep(chunks: seq<seq<DirEntry>>, directoryName: NameFn, i: nat, j: nat)
    requires i < |chunks| && j < |chunks[i]|
  {
    var ops := Relocation(chunks, directoryName, 0);
    StepsBefore(chunks, i) + 1 + j < |ops| && ops[StepsBefore(chunks, i) + 1 + j] == Move(chunks[i][j].name, directoryName(i))
  }

  lemma ChunksVacatedAt(chunks: seq<seq<DirEntry>>, directoryName: NameFn, root: map<Name, Node>, denied: Refusals)
    requires SourcesIntact(root, Relocation(chunks, directoryName, 0))
    ensures var ops := Relocation(chunks, directoryName, 0);
      FilesVacatedAt(chunks, directoryName, root, Run(root, denied, ops).root, Reached(root, denied, ops))
  {
    var ops := Relocation(chunks, directoryName, 0);
    var last := Run(root, denied, ops).root;
    var p := Reached(root, denied, ops);
    RelocationSteps(chunks, directoryName);
    RelocationDirs(chunks, directoryName, 0);
    forall i, j | 0 <= i < |chunks| && 0 <= j < |chunks[i]| && StepsBefore(chunks, i) + 1 + j < p && chunks[i][j].name in last
      ensures chunks[i][j].name in root
      ensures var f := chunks[i][j].name;
        || (last[f] == root[f] && Holds(root, directoryName(i), f, root[f]))
        || (last[f].Dir? && exists c :: 0 <= c < |chunks| && directoryName(c) == f)
    {
      var f := chunks[i][j].name;
      var k := StepsBefore(chunks, i) + 1 + j;
      assert MovedAtStep(chunks, directoryName, i, j);
      Vacated(root, denied, ops, k);
      if !(last[f] == root[f] && Holds(root, directoryName(i), f, root[f])) {
        var m :| k < m < p && ops[m] == EnsureDir(f);
        assert ops[m] in ops;
        assert EnsureDir(f).dir == f;
      }
    }
  }

  /** No planned file is lost or duplicated, whether the run succeeds or
      fails. With `p` the steps the run performed (all of them exactly when it
      succeeded, the failing step otherwise): every file moved before `p` is
      in its chunk's directory with its old contents and has left the root,
      and every file due from `p` on is still in the root, unchanged. */
  lemma EveryFileAccounted(op: Operation, root: map<Name, Node>, unreadable: set<Name>, typeUnknown: set<Name>, denied: Refusals, order: seq<Name>)
    requires IsEnumeration(order, root.Keys)
    ensures var plan := Plan(op, ListingOf(root, unreadable, typeUnknown, order));
      var ops := Relocation(plan, op.directoryName, 0);
      FilesSplitAt(plan, op.directoryName, root, Run(root, denied, ops).root, Reached(root, denied, ops))
    ensures var plan := Plan(op, ListingOf(root, unreadable, typeUnknown, order));
      var ops := Relocation(plan, op.directoryName, 0);
      FilesVacatedAt(plan, op.directoryName, root, Run(root, denied, ops).root, Reached(root, denied, ops))
    ensures StepsLocated(Plan(op, ListingOf(root, unreadable, typeUnknown, order)), op.directoryName)
  {
    PlanSourcesIntact(op, root, unreadable, typeUnknown, order);
    ChunksAccounted(Plan(op, ListingOf(root, unreadable, typeUnknown, order)), op.directoryName, root, denied);
  }

  /** Entries the plan does not move, and that no chunk's directory is named
      after, stay exactly as they were, whether the run succeeds or fails. In
      particular unreadable entries, entries of unknown type, directories and
      special files are left in place unless a destination is named after them. */
  lemma OthersLeftInPlace(op: Operation, root: map<Name, Node>, unreadable: set<Name>, typeUnknown: set<Name>, denied: Refusals, order: seq<Name>, n: Name)
    requires IsEnumeration(order, root.Keys)
    requires n in root && (n in unreadable || n in typeUnknown || !root[n].File?)
    requires forall i :: 0 <= i < |Plan(op, ListingOf(root, unreadable, typeUnknown, order))| ==> op.directoryName(i) != n
    ensures var plan := Plan(op, ListingOf(root, unreadable, typeUnknown, order));
      var last := Run(root, denied, Relocation(plan, op.directoryName, 0));
      n in last.root && last.root[n] == root[n]
  {
    var plan := Plan(op, ListingOf(root, unreadable, typeUnknown, order));
    var ops := Relocation(plan, op.directoryName, 0);
    PlanMovesFiles(op, root, unreadable, typeUnknown, order);
    RelocationDirs(plan, op.directoryName, 0);
    assert n !in MoveNames(ops);
    forall k | 0 <= k < |ops| ensures !Touches(ops[k], n) {
      assert ops[k] in ops;
    }
    UntouchedEntries(root, denied, ops, n);
  }

  /** A destination that already exists as a directory is reused, not
      replaced: whatever it held is still there after the run, successful or
      not, unless a planned file of the same name was moved into it. */
  lemma ExistingDestinationKept(op: Operation, root: map<Name, Node>, unreadable: set<Name>, typeUnknown: set<Name>, denied: Refusals, order: seq<Name>, d: Name, c: Name)
    requires IsEnumeration(order, root.Keys)
    requires d in root && root[d].Dir? && c in root[d].children
    requires c !in Image(EntryName, Flatten(Plan(op, ListingOf(root, unreadable, typeUnknown, order))))
    ensures var plan := Plan(op, ListingOf(root, unreadable, typeUnknown, order));
      Holds(Run(root, denied, Relocation(plan, op.directoryName, 0)).root, d, c, root[d].children[c])
  {
    var plan := Plan(op, ListingOf(root, unreadable, typeUnknown, order));
    var ops := Relocation(plan, op.directoryName, 0);
    PlanMovesFiles(op, root, unreadable, typeUnknown, order);
    MoveNamesOfRelocation(plan, op.directoryName, 0);
    assert plan[0..] == plan;
    forall k | 0 <= k < |ops| ensures ops[k] != Move(c, d) && !(ops[k].Move? && ops[k].name == d) {
      if ops[k].Move? {
        assert ops[k].name in MoveNames(ops);
      }
    }
    ExistingDirectoryKept(root, denied, ops, d, c);
  }

  /** After a successful run, the names added to the root are exactly the
      destination directories that did not exist before, and every destination
      is a directory. */
  lemma CreatedDirectories(op: Operation, root: map<Name, Node>, unreadable: set<Name>, typeUnknown: set<Name>, denied: Refusals, order: seq<Name>)
    requires IsEnumeration(order, root.Keys)
    ensures var plan := Plan(op, ListingOf(root, unreadable, typeUnknown, order));
      var last := Run(root, denied, Relocation(plan, op.directoryName, 0));
      last.status.Done? ==>
        && (forall i :: 0 <= i < |plan| ==> op.directoryName(i) in last.root && last.root[op.directoryName(i)].Dir?)
        && (forall n :: n !in root ==> (n in last.root <==> exists i :: 0 <= i < |plan| && op.directoryName(i) == n))
  {
    var plan := Plan(op, ListingOf(root, unreadable, typeUnknown, order));
    if Run(root, denied, Relocation(plan, op.directoryName, 0)).status.Done? {
      PlanSourcesIntact(op, root, unreadable, typeUnknown, order);
      ChunksCreated(plan, op.directoryName, root, denied);
    }
  }

  /** A destination that exists as something other than a directory stops the
      run at that chunk: creating it is skipped and the chunk's first move fails
      with `NotADirectory`, changing nothing further. */
  lemma ConflictingChunkFails(chunks: seq<seq<DirEntry>>, directoryName: NameFn, i: nat, root: map<Name, Node>, denied: Refusals)
    requires i < |chunks| && |chunks[i]| > 0
    requires directoryName(i) in root && !root[directoryName(i)].Dir? && chunks[i][0].name in root
    ensures Run(root, denied, Relocation(chunks, directoryName, i)) == RunState(Failed(NotADirectory), root)
  {
    var d := directoryName(i);
    var later := Relocation(chunks, directoryName, i + 1);
    RelocationAt(chunks, directoryName, i);
    MovesAt(d, chunks[i], 0, later);
    var moves := Moves(d, chunks[i][0..]) + later;
    var tail := Moves(d, chunks[i][1..]) + later;
    assert Apply(root, denied, EnsureDir(d)) == Success(root);
    RunFirst(root, denied, EnsureDir(d), moves);
    assert Apply(root, denied, Move(chunks[i][0].name, d)) == Failure(NotADirectory);
    RunFirst(root, denied, Move(chunks[i][0].name, d), tail);
  }
}
