/** The part of the filesystem the operation sees: the contents of the root
    directory, its listing, and the two mutations it performs (`create_dir` and
    `rename`). A directory's contents are a map from base names to entries;
    the outcome of each call is decided by the current contents and by fault
    sets that stand for what the operating system refuses. */
module FileSystem {

  import opened Wrappers

  type Name = string

  /** A directory entry. `File` carries an identity that a rename keeps;
      `Special` stands for symbolic links, sockets, devices and the like. */
  datatype Node = File(inode: nat) | Dir(children: map<Name, Node>) | Special

  /** The file type that `DirEntry::file_type` reports. */
  datatype FileKind = RegularFile | Directory | OtherKind

  function KindOf(n: Node): FileKind {
    match n
    case File(_) => RegularFile
    case Dir(_) => Directory
    case Special => OtherKind
  }

  /** The I/O error kinds the operation can meet. */
  datatype IoError =
    | NotFound
    | AlreadyExists
    | NotADirectory
    | IsADirectory
    | InvalidInput
    | Refused          // permission denied, read-only or full volume, cross-device
    | OtherError(message: string)

  /** The result of a call that produces nothing but may fail. */
  datatype Outcome = Done | Failed(error: IoError)

  /** What a successfully read listing entry carries: its base name and the
      file type, `None` when `file_type()` fails for it. */
  datatype DirEntry = DirEntry(name: Name, fileType: Option<FileKind>)

  /** One item of `read_dir`'s iterator. */
  datatype Listed = ReadError | Entry(entry: DirEntry)

  /** No element occurs twice. */
  ghost predicate Distinct<T(!new)>(s: seq<T>) {
    forall x :: multiset(s)[x] <= 1
  }

  /** `order` lists every name of `names` exactly once. */
  ghost predicate IsEnumeration(order: seq<Name>, names: set<Name>) {
    Distinct(order) && (forall n :: n in order <==> n in names)
  }

  /** The listing item that name `n` of `root` produces. */
  function ListItem(root: map<Name, Node>, unreadable: set<Name>, typeUnknown: set<Name>, n: Name): Listed
    requires n in root
  {
    if n in unreadable then ReadError
    else Entry(DirEntry(n, if n in typeUnknown then None else Some(KindOf(root[n]))))
  }

  /** The listing `read_dir` yields when it visits the names in `order`. */
  function ListingOf(root: map<Name, Node>, unreadable: set<Name>, typeUnknown: set<Name>, order: seq<Name>): (items: seq<Listed>)
    requires forall n :: n in order ==> n in root
  {
    seq(|order|, k requires 0 <= k < |order| => ListItem(root, unreadable, typeUnknown, order[k]))
  }

  /** One filesystem step of the relocation. `EnsureDir(d)` is "create `d`
      unless the path exists"; `Move(name, dir)` renames `root/name` to
      `root/dir/name`. */
  datatype Op = EnsureDir(dir: Name) | Move(name: Name, dir: Name)

  /** The names at which the operating system refuses each mutation
      (permissions, a read-only or full volume, quotas, link limits,
      cross-device renames). Creating and renaming are refused independently:
      `create_dir` can fail at a name from which a file was just renamed away. */
  datatype Refusals = Refusals(create: set<Name>, rename: set<Name>)

  /** `create_dir(root/d)`. */
  function CreateDirStep(root: map<Name, Node>, denied: Refusals, d: Name): Result<map<Name, Node>, IoError> {
    if d in root then Failure(AlreadyExists)
    else if d in denied.create then Failure(Refused)
    else Success(root[d := Dir(map[])])
  }

  /** `root/dir/name` is another hard link to the regular file `root/name`. */
  predicate AlreadyLinked(root: map<Name, Node>, name: Name, dir: Name) {
    && name in root && root[name].File?
    && dir in root && root[dir].Dir?
    && name in root[dir].children && root[dir].children[name] == root[name]
  }

  /** `rename(root/name, root/dir/name)`: the source must exist, the
      destination's parent must exist and be a directory, a directory cannot be
      moved into itself, and an existing destination is replaced unless it is a
      directory. When the destination is already a link to the same file,
      rename(2) does nothing and succeeds. */
  function MoveStep(root: map<Name, Node>, denied: Refusals, name: Name, dir: Name): Result<map<Name, Node>, IoError> {
    if name !in root || dir !in root then Failure(NotFound)
    else if !root[dir].Dir? then Failure(NotADirectory)
    else if name == dir then Failure(InvalidInput)
    else if name in denied.rename then Failure(Refused)
    else if AlreadyLinked(root, name, dir) then Success(root)
    else if name in root[dir].children && root[dir].children[name].Dir? then Failure(IsADirectory)
    else Success((root - {name})[dir := Dir(root[dir].children[name := root[name]])])
  }

  function Apply(root: map<Name, Node>, denied: Refusals, op: Op): Result<map<Name, Node>, IoError> {
    match op
    case EnsureDir(d) => if d in root then Success(root) else CreateDirStep(root, denied, d)
    case Move(name, d) => MoveStep(root, denied, name, d)
  }

  /** Where a run of steps ended: `Done` after the last step, or the error of
      the first failing step, with the contents as that step found them. */
  datatype RunState = RunState(status: Outcome, root: map<Name, Node>)

  /** Performs `ops` in order and stops at the first one that fails; nothing
      already done is undone. */
  function Run(root: map<Name, Node>, denied: Refusals, ops: seq<Op>): RunState
    decreases |ops|
  {
    if ops == [] then RunState(Done, root)
    else
      match Apply(root, denied, ops[0])
      case Failure(e) => RunState(Failed(e), root)
      case Success(next) => Run(next, denied, ops[1..])
  }

  /** The directory the operation reorganises. The sets of names are the faults
      the environment injects: entries the listing fails to read, entries whose
      type cannot be determined, and names at which creating or moving is
      refused (`denied`). `listError` is the error of listing the directory itself (a
      missing root, a root that is not a directory, no permission). */
  class Volume {
    var root: map<Name, Node>
    const listError: Option<IoError>
    const unreadable: set<Name>
    const typeUnknown: set<Name>
    const denied: Refusals

    constructor (root: map<Name, Node>, listError: Option<IoError>, unreadable: set<Name>, typeUnknown: set<Name>, denied: Refusals)
      ensures this.root == root && this.listError == listError
      ensures this.unreadable == unreadable && this.typeUnknown == typeUnknown && this.denied == denied
    {
      this.root := root;
      this.listError := listError;
      this.unreadable := unreadable;
      this.typeUnknown := typeUnknown;
      this.denied := denied;
    }

    /** `fs::read_dir(root)`: fails with `listError` if there is one; otherwise
        yields one item per entry of the root, in an order the filesystem
        chooses (returned as the ghost `order`). */
    method ReadDir() returns (r: Result<seq<Listed>, IoError>, ghost order: seq<Name>)
      ensures listError.Some? ==> r == Failure(listError.value)
      ensures listError.None? ==> IsEnumeration(order, root.Keys)
      ensures listError.None? ==> r == Success(ListingOf(root, unreadable, typeUnknown, order))
    {
      order := [];
      if listError.Some? {
        return Failure(listError.value), order;
      }
      var items: seq<Listed> := [];
      var remaining := root.Keys;
      while remaining != {}
        invariant remaining <= root.Keys
        invariant Distinct(order)
        invariant forall n :: n in order <==> n in root.Keys && n !in remaining
        invariant items == ListingOf(root, unreadable, typeUnknown, order)
        decreases remaining
      {
        var n :| n in remaining;
        assert n !in order;
        items := items + [ListItem(root, unreadable, typeUnknown, n)];
        order := order + [n];
        remaining := remaining - {n};
      }
      r := Success(items);
    }

    /** `Path::exists` on `root/name`. */
    method Exists(name: Name) returns (present: bool)
      ensures present <==> name in root
    {
      present := name in root;
    }

    /** `fs::create_dir(root/d)`: fails if the path exists or creation is
        refused; otherwise adds an empty directory and nothing else. */
    method CreateDir(d: Name) returns (r: Outcome)
      modifies this
      ensures d in old(root) ==> r == Failed(AlreadyExists)
      ensures d !in old(root) && d in denied.create ==> r == Failed(Refused)
      ensures r.Failed? ==> root == old(root)
      ensures r.Done? <==> d !in old(root) && d !in denied.create
      ensures r.Done? ==> root == old(root)[d := Dir(map[])]
    {
      match CreateDirStep(root, denied, d)
      case Failure(e) => r := Failed(e);
      case Success(next) => root := next; r := Done;
    }

    /** `fs::rename(root/name, root/dir/name)`: on success the file is in
        `dir` under its own name, and gone from the root unless `dir` already
        held another link to it (then nothing changes). */
    method Rename(name: Name, dir: Name) returns (r: Outcome)
      modifies this
      ensures r.Failed? ==> MoveStep(old(root), denied, name, dir) == Failure(r.error) && root == old(root)
      ensures r.Done? ==> MoveStep(old(root), denied, name, dir) == Success(root)
      ensures r.Done? ==> dir in root && root[dir].Dir?
      ensures r.Done? ==> (name in root <==> AlreadyLinked(old(root), name, dir))
      ensures r.Done? ==> root[dir].children == old(root)[dir].children[name := old(root)[name]]
    {
      match MoveStep(root, denied, name, dir)
      case Failure(e) => r := Failed(e);
      case Success(next) => root := next; r := Done;
    }
  }
}
