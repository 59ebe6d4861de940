/** Properties of a run of relocation steps (`FileSystem.Run`): what a failure
    leaves behind, which entries a run can touch, and where moved files end up. */
module RunProperties {

  import opened Wrappers
  import opened FileSystem

  /** The names of the entries the `Move` steps take out of the root, in order. */
  function MoveNames(ops: seq<Op>): (names: seq<Name>)
    ensures forall f :: f in names <==> exists k :: 0 <= k < |ops| && ops[k].Move? && ops[k].name == f
  {
    if ops == [] then []
    else
      var rest := MoveNames(ops[1..]);
      assert forall k :: 1 <= k < |ops| ==> ops[k] == ops[1..][k - 1];
      (if ops[0].Move? then [ops[0].name] else []) + rest
  }

  lemma {:induction false} MoveNamesAppend(a: seq<Op>, b: seq<Op>)
    ensures MoveNames(a + b) == MoveNames(a) + MoveNames(b)
  {
    if a == [] {
      assert a + b == b;
    } else {
      assert (a + b)[0] == a[0] && (a + b)[1..] == a[1..] + b;
      MoveNamesAppend(a[1..], b);
    }
  }

  /** Step `op` names `n`: as the directory it creates or fills, or as the
      entry it moves away. */
  predicate Touches(op: Op, n: Name) {
    op.dir == n || (op.Move? && op.name == n)
  }

  /** Directory `d` of `root` holds `v` under the name `f`. */
  predicate Holds(root: map<Name, Node>, d: Name, f: Name, v: Node) {
    d in root && root[d].Dir? && f in root[d].children && root[d].children[f] == v
  }

  /** The entries to be moved are distinct, present, and not directories. */
  ghost predicate SourcesIntact(root: map<Name, Node>, ops: seq<Op>) {
    Distinct(MoveNames(ops)) && forall f :: f in MoveNames(ops) ==> f in root && !root[f].Dir?
  }

  /** A failed run stopped at its first failing step: the contents it leaves are
      exactly those after the steps before it, which all succeeded and are not
      undone, and that step failed on them with the reported error. */
  lemma {:induction false} FailureKeepsPrefix(root: map<Name, Node>, denied: Refusals, ops: seq<Op>)
    requires Run(root, denied, ops).status.Failed?
    ensures exists k :: (0 <= k < |ops|
      && Run(root, denied, ops[..k]) == RunState(Done, Run(root, denied, ops).root)
      && Apply(Run(root, denied, ops).root, denied, ops[k]) == Failure(Run(root, denied, ops).status.error))
    decreases |ops|
  {
    var last := Run(root, denied, ops);
    match Apply(root, denied, ops[0])
    case Failure(e) =>
      assert ops[..0] == [];
      assert Run(root, denied, ops[..0]) == RunState(Done, last.root);
    case Success(next) =>
      FailureKeepsPrefix(next, denied, ops[1..]);
      var k :| 0 <= k < |ops[1..]|
        && Run(next, denied, ops[1..][..k]) == RunState(Done, last.root)
        && Apply(last.root, denied, ops[1..][k]) == Failure(last.status.error);
      assert ops[..k + 1][1..] == ops[1..][..k];
      assert Run(root, denied, ops[..k + 1]) == RunState(Done, last.root);
      assert ops[k + 1] == ops[1..][k];
  }

  /** Creating and renaming are refused independently: with files "1" and
      "a" split one per chunk, chunk 0 moves "1" into "0", and the volume
      may then refuse `create_dir` at "1" for chunk 1. */
  lemma CreateRefusedAfterMove()
    ensures var root := map["1" := File(1), "a" := File(2), "0" := Dir(map[])];
      Run(root, Refusals({"1"}, {}), [Move("1", "0"), EnsureDir("1"), Move("a", "1")])
        == RunState(Failed(Refused), map["a" := File(2), "0" := Dir(map["1" := File(1)])])
  {
    var root := map["1" := File(1), "a" := File(2), "0" := Dir(map[])];
    var moved := map["a" := File(2), "0" := Dir(map["1" := File(1)])];
    assert (root - {"1"})["0" := Dir(map["1" := File(1)])] == moved;
    assert "1" !in moved;
  }

  /** An entry that no step names keeps its presence and its contents, whether
      the run succeeds or fails. */
  lemma {:induction false} UntouchedEntries(root: map<Name, Node>, denied: Refusals, ops: seq<Op>, n: Name)
    requires forall k :: 0 <= k < |ops| ==> !Touches(ops[k], n)
    ensures n in Run(root, denied, ops).root <==> n in root
    ensures n in root ==> Run(root, denied, ops).root[n] == root[n]
    decreases |ops|
  {
    if ops != [] {
      assert !Touches(ops[0], n);
      match Apply(root, denied, ops[0])
      case Failure(_) =>
      case Success(next) =>
        assert n in next <==> n in root;
        assert n in root ==> next[n] == root[n];
        assert forall k :: 0 <= k < |ops[1..]| ==> ops[1..][k] == ops[k + 1];
        UntouchedEntries(next, denied, ops[1..], n);
    }
  }

  /** A run never adds a name to the root except by a directory step for it:
      `EnsureDir` creates a directory only where the path did not exist, and a
      move only removes its source. */
  lemma {:induction false} StaysAbsent(root: map<Name, Node>, denied: Refusals, ops: seq<Op>, n: Name)
    requires n !in root && EnsureDir(n) !in ops
    ensures n !in Run(root, denied, ops).root
    decreases |ops|
  {
    if ops != [] {
      match Apply(root, denied, ops[0])
      case Failure(_) =>
      case Success(next) =>
        assert n !in next;
        assert forall op :: op in ops[1..] ==> op in ops;
        StaysAbsent(next, denied, ops[1..], n);
    }
  }

  /** A directory that already exists is reused, not replaced: everything it
      held is still there after the run, except what a move into it with the
      same name replaced, provided no step moves the directory itself away. */
  lemma {:induction false} ExistingDirectoryKept(root: map<Name, Node>, denied: Refusals, ops: seq<Op>, d: Name, c: Name)
    requires d in root && root[d].Dir? && c in root[d].children
    requires forall k :: 0 <= k < |ops| ==> ops[k] != Move(c, d) && !(ops[k].Move? && ops[k].name == d)
    ensures Holds(Run(root, denied, ops).root, d, c, root[d].children[c])
    decreases |ops|
  {
    if ops != [] {
      match Apply(root, denied, ops[0])
      case Failure(_) =>
      case Success(next) =>
        assert Holds(next, d, c, root[d].children[c]);
        assert forall k :: 0 <= k < |ops[1..]| ==> ops[1..][k] == ops[k + 1];
        ExistingDirectoryKept(next, denied, ops[1..], d, c);
    }
  }

  /** The path of a destination exists but is not a directory: the directory
      step skips creating it and the first move into it fails with
      `NotADirectory`, leaving everything as it was. */
  lemma ConflictingDestinationFails(root: map<Name, Node>, denied: Refusals, d: Name, f: Name, rest: seq<Op>)
    requires d in root && !root[d].Dir? && f in root
    ensures Run(root, denied, [EnsureDir(d), Move(f, d)] + rest) == RunState(Failed(NotADirectory), root)
  {
    var ops := [EnsureDir(d), Move(f, d)] + rest;
    assert ops[1..] == [Move(f, d)] + rest;
    assert Run(root, denied, ops) == Run(root, denied, ops[1..]);
  }

  /** Once directory `d` holds `v` under `f`, the remaining steps leave it there
      (as long as `f` is not moved again and the entries still to be moved are
      intact), whether they succeed or fail. */
  lemma {:induction false} Persists(root: map<Name, Node>, denied: Refusals, ops: seq<Op>, d: Name, f: Name, v: Node)
    requires Holds(root, d, f, v) && SourcesIntact(root, ops) && f !in MoveNames(ops)
    ensures Holds(Run(root, denied, ops).root, d, f, v)
    decreases |ops|
  {
    if ops != [] {
      match Apply(root, denied, ops[0])
      case Failure(_) =>
      case Success(next) =>
        SourcesIntactStep(root, denied, ops, next);
        assert Holds(next, d, f, v);
        Persists(next, denied, ops[1..], d, f, v);
    }
  }

  /** After a successful first step, the entries still to be moved are intact. */
  lemma SourcesIntactStep(root: map<Name, Node>, denied: Refusals, ops: seq<Op>, next: map<Name, Node>)
    requires ops != [] && SourcesIntact(root, ops) && Apply(root, denied, ops[0]) == Success(next)
    ensures SourcesIntact(next, ops[1..])
    ensures ops[0].Move? ==> ops[0].name !in MoveNames(ops[1..])
    ensures forall f :: f in MoveNames(ops[1..]) ==> next[f] == root[f]
  {
    var rest := MoveNames(ops[1..]);
    var head := if ops[0].Move? then [ops[0].name] else [];
    assert MoveNames(ops) == head + rest;
    assert multiset(MoveNames(ops)) == multiset(head) + multiset(rest);
    assert Distinct(rest) by {
      forall x ensures multiset(rest)[x] <= 1 {
        assert multiset(rest)[x] <= multiset(MoveNames(ops))[x];
      }
    }
    if ops[0].Move? {
      assert multiset(MoveNames(ops))[ops[0].name] == 1 + multiset(rest)[ops[0].name];
    }
    forall f | f in rest ensures f in next && next[f] == root[f] {
      assert f in MoveNames(ops);
      StepKeepsSource(root, denied, ops[0], next, f);
    }
  }

  /** A successful step leaves alone every entry that is not a directory and
      that the step does not move. */
  lemma StepKeepsSource(root: map<Name, Node>, denied: Refusals, op: Op, next: map<Name, Node>, f: Name)
    requires Apply(root, denied, op) == Success(next)
    requires f in root && !root[f].Dir? && !(op.Move? && op.name == f)
    ensures f in next && next[f] == root[f]
  {
  }

  /** After a successful run, every moved entry sits in its destination
      directory under its own name, with the contents it had before the run. */
  lemma {:induction false} Placement(root: map<Name, Node>, denied: Refusals, ops: seq<Op>)
    requires SourcesIntact(root, ops) && Run(root, denied, ops).status.Done?
    ensures forall k :: 0 <= k < |ops| && ops[k].Move? ==>
      Holds(Run(root, denied, ops).root, ops[k].dir, ops[k].name, root[ops[k].name])
    decreases |ops|
  {
    if ops != [] {
      var final := Run(root, denied, ops).root;
      match Apply(root, denied, ops[0])
      case Failure(_) =>
      case Success(next) =>
        SourcesIntactStep(root, denied, ops, next);
        Placement(next, denied, ops[1..]);
        forall k | 0 <= k < |ops| && ops[k].Move?
          ensures Holds(final, ops[k].dir, ops[k].name, root[ops[k].name])
        {
          if k == 0 {
            assert ops[0].name in MoveNames(ops);
            Persists(next, denied, ops[1..], ops[0].dir, ops[0].name, root[ops[0].name]);
          } else {
            assert ops[k] == ops[1..][k - 1];
          }
        }
    }
  }

  /** How many steps a run performs successfully: all of them when it
      succeeds; otherwise the index of the step that fails. The steps before
      it, run alone, succeed and leave the contents the whole run leaves, and
      the failing step meets those contents with the reported error. */
  function Reached(root: map<Name, Node>, denied: Refusals, ops: seq<Op>): (p: nat)
    ensures p <= |ops|
    ensures Run(root, denied, ops).status.Done? <==> p == |ops|
    ensures Run(root, denied, ops[..p]) == RunState(Done, Run(root, denied, ops).root)
    ensures p < |ops| ==> Apply(Run(root, denied, ops).root, denied, ops[p]) == Failure(Run(root, denied, ops).status.error)
    decreases |ops|
  {
    if ops == [] then 0
    else
      match Apply(root, denied, ops[0])
      case Failure(_) =>
        assert ops[..0] == [];
        0
      case Success(next) =>
        var q := Reached(next, denied, ops[1..]);
        assert ops[..q + 1][0] == ops[0] && ops[..q + 1][1..] == ops[1..][..q];
        assert forall k :: 1 <= k < |ops| ==> ops[k] == ops[1..][k - 1];
        1 + q
  }

  /** A file moved by a step the run performed has left the root: its name is
      there afterwards only as a directory that a later performed step
      created, or as the very same file when its destination already held
      another link to it (the rename then did nothing). */
  lemma {:induction false} Vacated(root: map<Name, Node>, denied: Refusals, ops: seq<Op>, k: nat)
    requires SourcesIntact(root, ops)
    requires k < Reached(root, denied, ops) && ops[k].Move?
    ensures ops[k].name in root
    ensures var f, last := ops[k].name, Run(root, denied, ops).root;
      f in last ==>
        || (last[f] == root[f] && Holds(root, ops[k].dir, f, root[f]))
        || (last[f].Dir? && exists j :: k < j < Reached(root, denied, ops) && ops[j] == EnsureDir(f))
    decreases |ops|
  {
    var f := ops[k].name;
    var last := Run(root, denied, ops).root;
    assert f in MoveNames(ops);
    match Apply(root, denied, ops[0])
    case Failure(_) =>
    case Success(next) =>
      SourcesIntactStep(root, denied, ops, next);
      if k == 0 {
        if f in next {
          assert next == root && AlreadyLinked(root, f, ops[0].dir);
          SourceKept(next, denied, ops[1..], f);
        } else {
          CreatedAsDirectory(next, denied, ops[1..], f);
          CreatedBefore(next, denied, ops[1..], f);
          if f in last {
            var j :| 0 <= j < Reached(next, denied, ops[1..]) && ops[1..][j] == EnsureDir(f);
            assert ops[j + 1] == EnsureDir(f);
          }
        }
      } else {
        assert ops[1..][k - 1] == ops[k];
        assert f in MoveNames(ops[1..]);
        Vacated(next, denied, ops[1..], k - 1);
        if f in last {
          if last[f] == root[f] && Holds(next, ops[k].dir, f, root[f]) {
            HoldsBefore(root, denied, ops[0], next, ops[k].dir, f, root[f]);
          } else {
            var j :| k - 1 < j < Reached(next, denied, ops[1..]) && ops[1..][j] == EnsureDir(f);
            assert ops[j + 1] == EnsureDir(f);
          }
        }
      }
  }

  /** A name absent before the run is present afterwards only if a directory
      step the run performed created it. */
  lemma {:induction false} CreatedBefore(root: map<Name, Node>, denied: Refusals, ops: seq<Op>, n: Name)
    requires n !in root
    ensures n in Run(root, denied, ops).root ==>
      exists j :: 0 <= j < Reached(root, denied, ops) && ops[j] == EnsureDir(n)
    decreases |ops|
  {
    if ops != [] {
      match Apply(root, denied, ops[0])
      case Failure(_) =>
      case Success(next) =>
        if n in next {
          assert ops[0] == EnsureDir(n);
        } else {
          CreatedBefore(next, denied, ops[1..], n);
          if n in Run(root, denied, ops).root {
            var j :| 0 <= j < Reached(next, denied, ops[1..]) && ops[1..][j] == EnsureDir(n);
            assert ops[j + 1] == EnsureDir(n);
          }
        }
    }
  }

  /** What a directory holds after a successful step it already held before,
      unless the step moved that very name. */
  lemma HoldsBefore(root: map<Name, Node>, denied: Refusals, op: Op, next: map<Name, Node>, d: Name, f: Name, v: Node)
    requires Apply(root, denied, op) == Success(next) && Holds(next, d, f, v)
    requires !(op.Move? && op.name == f)
    ensures Holds(root, d, f, v)
  {
  }

  /** A file that no step moves stays in the root unchanged, whether the run
      succeeds or fails. */
  lemma {:induction false} SourceKept(root: map<Name, Node>, denied: Refusals, ops: seq<Op>, f: Name)
    requires f in root && !root[f].Dir? && f !in MoveNames(ops)
    ensures f in Run(root, denied, ops).root && Run(root, denied, ops).root[f] == root[f]
    decreases |ops|
  {
    if ops != [] {
      match Apply(root, denied, ops[0])
      case Failure(_) =>
      case Success(next) =>
        assert f !in MoveNames(ops[1..]);
        StepKeepsSource(root, denied, ops[0], next, f);
        SourceKept(next, denied, ops[1..], f);
    }
  }

  /** A name that is absent or a directory, and that no step moves, can only
      be a directory after the run. */
  lemma {:induction false} CreatedAsDirectory(root: map<Name, Node>, denied: Refusals, ops: seq<Op>, n: Name)
    requires n in root ==> root[n].Dir?
    requires n !in MoveNames(ops)
    ensures n in Run(root, denied, ops).root ==> Run(root, denied, ops).root[n].Dir?
    decreases |ops|
  {
    if ops != [] {
      match Apply(root, denied, ops[0])
      case Failure(_) =>
      case Success(next) =>
        assert n !in MoveNames(ops[1..]);
        assert n in next ==> next[n].Dir?;
        CreatedAsDirectory(next, denied, ops[1..], n);
    }
  }

  /** The moves among the first `p` steps are done: each file sits in its
      destination with the contents it had in `root`. The moves from step `p`
      on are not: each file is still in the root, unchanged. */
  ghost predicate MovedBefore(root: map<Name, Node>, last: map<Name, Node>, ops: seq<Op>, p: nat) {
    && (forall k :: 0 <= k < |ops| && k < p && ops[k].Move? ==>
          ops[k].name in root && Holds(last, ops[k].dir, ops[k].name, root[ops[k].name]))
    && (forall k :: p <= k < |ops| && ops[k].Move? ==>
          ops[k].name in root && ops[k].name in last && last[ops[k].name] == root[ops[k].name])
  }

  /** The files moved among the first `p` steps have left the root: a name
      that is still there is a directory a later step before `p` created, or
      the same file when its destination already held another link to it. */
  ghost predicate VacatedBefore(root: map<Name, Node>, last: map<Name, Node>, ops: seq<Op>, p: nat) {
    forall k :: 0 <= k < |ops| && k < p && ops[k].Move? && ops[k].name in last ==>
      && ops[k].name in root
      && (|| (last[ops[k].name] == root[ops[k].name] && Holds(root, ops[k].dir, ops[k].name, root[ops[k].name]))
          || (last[ops[k].name].Dir? && exists j :: k < j < p && j < |ops| && ops[j] == EnsureDir(ops[k].name)))
  }

  /** No moved file is lost or duplicated, whether the run succeeds or fails:
      with `p` the steps it performed, every file moved before `p` is in its
      destination and has left the root, and every file due from `p` on is
      still in the root, unchanged. */
  lemma Progress(root: map<Name, Node>, denied: Refusals, ops: seq<Op>)
    requires SourcesIntact(root, ops)
    ensures MovedBefore(root, Run(root, denied, ops).root, ops, Reached(root, denied, ops))
    ensures VacatedBefore(root, Run(root, denied, ops).root, ops, Reached(root, denied, ops))
  {
    MovesSplit(root, denied, ops);
    forall k | 0 <= k < |ops| && k < Reached(root, denied, ops) && ops[k].Move?
      ensures ops[k].name in root
      ensures var f, last := ops[k].name, Run(root, denied, ops).root;
        f in last ==>
          || (last[f] == root[f] && Holds(root, ops[k].dir, f, root[f]))
          || (last[f].Dir? && exists j :: k < j < Reached(root, denied, ops) && ops[j] == EnsureDir(f))
    {
      Vacated(root, denied, ops, k);
    }
  }

  lemma {:induction false} MovesSplit(root: map<Name, Node>, denied: Refusals, ops: seq<Op>)
    requires SourcesIntact(root, ops)
    ensures MovedBefore(root, Run(root, denied, ops).root, ops, Reached(root, denied, ops))
    decreases |ops|
  {
    if ops == [] {
      assert MovedBefore(root, root, ops, 0);
    } else {
      match Apply(root, denied, ops[0])
      case Failure(_) =>
        NoneMoved(root, ops);
      case Success(next) =>
        SourcesIntactStep(root, denied, ops, next);
        MovesSplit(next, denied, ops[1..]);
        MovesSplitStep(root, denied, ops, next);
    }
  }

  /** Before any step, no move is done and every source is in place. */
  lemma NoneMoved(root: map<Name, Node>, ops: seq<Op>)
    requires SourcesIntact(root, ops)
    ensures MovedBefore(root, root, ops, 0)
  {
    forall k | 0 <= k < |ops| && ops[k].Move? ensures ops[k].name in root {
      assert ops[k].name in MoveNames(ops);
    }
  }

  /** The inductive step of `MovesSplit`: after a successful first step, the
      split for the remaining steps extends to all of them. */
  lemma MovesSplitStep(root: map<Name, Node>, denied: Refusals, ops: seq<Op>, next: map<Name, Node>)
    requires ops != [] && SourcesIntact(root, ops) && Apply(root, denied, ops[0]) == Success(next)
    requires ops[0].Move? ==> ops[0].name !in MoveNames(ops[1..])
    requires forall f :: f in MoveNames(ops[1..]) ==> next[f] == root[f]
    requires SourcesIntact(next, ops[1..])
    requires MovedBefore(next, Run(next, denied, ops[1..]).root, ops[1..], Reached(next, denied, ops[1..]))
    ensures MovedBefore(root, Run(next, denied, ops[1..]).root, ops, Reached(next, denied, ops[1..]) + 1)
  {
    var last := Run(next, denied, ops[1..]).root;
    forall k | 1 <= k < |ops| && ops[k].Move?
      ensures ops[k].name in root && ops[k].name in next && next[ops[k].name] == root[ops[k].name]
    {
      assert ops[k] == ops[1..][k - 1];
      assert ops[1..][k - 1].name in MoveNames(ops[1..]);
      assert ops[k].name in MoveNames(ops);
    }
    if ops[0].Move? {
      assert ops[0].name in MoveNames(ops);
      Persists(next, denied, ops[1..], ops[0].dir, ops[0].name, root[ops[0].name]);
    }
    MovedBeforeShift(root, next, last, ops, Reached(next, denied, ops[1..]));
  }

  /** `MovedBefore` for the steps after the first carries over to all steps
      when the first move (if any) is done and left the other sources alone. */
  lemma MovedBeforeShift(root: map<Name, Node>, next: map<Name, Node>, last: map<Name, Node>, ops: seq<Op>, p: nat)
    requires |ops| > 0 && MovedBefore(next, last, ops[1..], p)
    requires forall k :: 1 <= k < |ops| && ops[k].Move? ==> ops[k].name in root
    requires forall k :: 1 <= k < |ops| && ops[k].Move? ==> ops[k].name in next && next[ops[k].name] == root[ops[k].name]
    requires ops[0].Move? ==> ops[0].name in root && Holds(last, ops[0].dir, ops[0].name, root[ops[0].name])
    ensures MovedBefore(root, last, ops, p + 1)
  {
    forall k | 1 <= k < |ops| ensures ops[k] == ops[1..][k - 1] { }
  }
}
