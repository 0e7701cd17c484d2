/** common/build_target_steps.py and lib/build_target_maintenance.py: enrolling a build target
    under a durable serving hold, with a plan of the directories to create. */
module BuildTarget {
  import opened Common

  // ---------------------------------------------------------------------------
  // Directories
  // ---------------------------------------------------------------------------

  /** An absolute path, component by component. */
  type Dir = seq<string>

  /** A directory that root controls, or anything else. */
  datatype Kind = Safe | Unsafe
  type Tree = map<Dir, Kind>

  /** Every entry is in a directory. */
  predicate IsTree(tree: Tree) {
    [] in tree && forall d :: d in tree && d != [] ==> d[..|d| - 1] in tree
  }

  /** The chain from the root to the path is safe as far as it is there. */
  predicate IsSafeChain(tree: Tree, d: Dir) {
    forall k :: 0 <= k <= |d| && d[..k] in tree ==> tree[d[..k]] == Safe
  }

  datatype Error =
    | UnsafeAncestor | PlanChanged | Unmarked | InvalidLock | IncompleteEnrollment | Modified | MissingMarker

  /** What `_missing_parent_directories` returns when it does not raise: the prefixes that are
      not there, shortest first. */
  function MissingFrom(tree: Tree, d: Dir, k: nat): seq<Dir>
    requires k <= |d| + 1
    decreases |d| + 1 - k
  {
    if k > |d| then []
    else if d[..k] in tree then MissingFrom(tree, d, k + 1)
    else [d[..k]] + MissingFrom(tree, d, k + 1)
  }

  function Missing(tree: Tree, d: Dir): seq<Dir> { MissingFrom(tree, d, 0) }

  /** `_missing_parent_directories` */
  method MissingParentDirectories(tree: Tree, d: Dir) returns (r: Result<seq<Dir>, Error>)
    ensures r.Success? <==> IsSafeChain(tree, d)
    ensures r.Success? ==> r.value == Missing(tree, d)
  {
    var missing := [];
    for k := 0 to |d| + 1
      invariant missing + MissingFrom(tree, d, k) == Missing(tree, d)
      invariant forall i :: 0 <= i < k && d[..i] in tree ==> tree[d[..i]] == Safe
    {
      if d[..k] !in tree {
        assert missing + [d[..k]] + MissingFrom(tree, d, k + 1) == missing + ([d[..k]] + MissingFrom(tree, d, k + 1));
        missing := missing + [d[..k]];
      } else if tree[d[..k]] != Safe {
        return Failure(UnsafeAncestor);
      }
    }
    return Success(missing);
  }

  predicate IsPrefix(a: Dir, d: Dir) { |a| <= |d| && d[..|a|] == a }

  lemma {:induction false} MissingIsExact(tree: Tree, d: Dir, k: nat, a: Dir)
    requires k <= |d| + 1
    ensures a in MissingFrom(tree, d, k) <==> a !in tree && IsPrefix(a, d) && k <= |a|
    decreases |d| + 1 - k
  {
    if k <= |d| {
      MissingIsExact(tree, d, k + 1, a);
      if IsPrefix(a, d) && |a| == k {
        assert a == d[..k];
      }
    }
  }

  /** A chain is safe if the path, and every directory that it is in, is safe or not there. */
  lemma SafeChainInWords(tree: Tree, d: Dir)
    ensures IsSafeChain(tree, d) <==> forall front, rest :: d == front + rest && front in tree ==> tree[front] == Safe
  {
    if IsSafeChain(tree, d) {
      forall front, rest | d == front + rest && front in tree ensures tree[front] == Safe {
        assert d[..|front|] == front;
      }
    }
    if forall front, rest :: d == front + rest && front in tree ==> tree[front] == Safe {
      forall k | 0 <= k <= |d| && d[..k] in tree ensures tree[d[..k]] == Safe {
        assert d == d[..k] + d[k..];
      }
    }
  }

  /** In a tree that has the parent, the path itself is all that can be missing. */
  lemma OnlyItselfIsMissing(tree: Tree, d: Dir)
    requires IsTree(tree) && d != [] && d[..|d| - 1] in tree
    ensures Missing(tree, d) == if d in tree then [] else [d]
  {
    AncestorsAreThere(tree, d[..|d| - 1], 0);
    assert forall k :: 0 <= k < |d| ==> d[..|d| - 1][..k] == d[..k];
    NothingMissingBelow(tree, d, 0);
  }

  lemma {:induction false} NothingMissingBelow(tree: Tree, d: Dir, k: nat)
    requires k <= |d| && forall i :: 0 <= i < |d| ==> d[..i] in tree
    ensures MissingFrom(tree, d, k) == if d in tree then [] else [d]
    decreases |d| - k
  {
    if k < |d| {
      NothingMissingBelow(tree, d, k + 1);
    } else {
      assert d[..k] == d;
      assert MissingFrom(tree, d, k + 1) == [];
    }
  }

  lemma {:induction false} AncestorsAreThere(tree: Tree, d: Dir, k: nat)
    requires IsTree(tree) && d in tree && k <= |d|
    ensures forall i :: k <= i <= |d| ==> d[..i] in tree
    decreases |d| - k
  {
    if k == |d| {
      assert d[..k] == d;
    } else {
      AncestorsAreThere(tree, d, k + 1);
      assert d[..k + 1][..k] == d[..k];
    }
  }

  /** What `_deployment_parent_plan` promises: every missing ancestor of the parents and the
      parents themselves, once each, and none before a shorter one. */
  ghost predicate IsPlan(tree: Tree, parents: set<Dir>, plan: seq<Dir>) {
    && (forall a :: a in plan <==> IsPlanned(tree, parents, a))
    && IsByDepth(plan)
  }

  ghost predicate IsPlanned(tree: Tree, parents: set<Dir>, a: Dir) {
    a !in tree && exists d :: d in parents && IsPrefix(a, d)
  }

  lemma ShortestExists(dirs: set<Dir>)
    requires dirs != {}
    ensures exists d :: d in dirs && forall e :: e in dirs ==> |d| <= |e|
  {
    var d :| d in dirs;
    if exists e :: e in dirs && |e| < |d| {
      var shorter := set e | e in dirs && |e| < |d|;
      var e :| e in dirs && |e| < |d|;
      assert e in shorter && d !in shorter;
      assert shorter < dirs;
      ShortestExists(shorter);
    }
  }

  /** `_deployment_parent_plan`; directories of the same depth come in any order. */
  method DeploymentParentPlan(tree: Tree, parents: set<Dir>) returns (r: Result<seq<Dir>, Error>)
    ensures r.Success? <==> forall d :: d in parents ==> IsSafeChain(tree, d)
    ensures r.Success? ==> IsPlan(tree, parents, r.value)
  {
    var missing: set<Dir> := {};
    var left := parents;
    while left != {}
      invariant left <= parents
      invariant forall d :: d in parents && d !in left ==> IsSafeChain(tree, d)
      invariant forall a :: a in missing <==> IsPlanned(tree, parents - left, a)
      decreases left
    {
      var d :| d in left;
      var chain := MissingParentDirectories(tree, d);
      if chain.Failure? {
        return Failure(chain.error);
      }
      forall a ensures a in chain.value <==> a !in tree && IsPrefix(a, d) {
        MissingIsExact(tree, d, 0, a);
      }
      hide IsPrefix, Missing;
      forall a ensures IsPlanned(tree, parents - (left - {d}), a) <==>
                         IsPlanned(tree, parents - left, a) || a in chain.value
      {
        assert parents - (left - {d}) == parents - left + {d};
      }
      missing := missing + (set a | a in chain.value);
      left := left - {d};
    }
    assert parents - left == parents;
    var plan := ByDepth(missing);
    return Success(plan);
  }

  ghost predicate IsByDepth(sorted: seq<Dir>) {
    forall i, j :: 0 <= i < j < |sorted| ==> |sorted[i]| <= |sorted[j]| && sorted[i] != sorted[j]
  }

  lemma NextByDepth(sorted: seq<Dir>, d: Dir)
    requires IsByDepth(sorted) && forall a :: a in sorted ==> |a| <= |d| && a != d
    ensures IsByDepth(sorted + [d])
    ensures forall a :: a in sorted + [d] <==> a in sorted || a == d
  {}

  method ByDepth(dirs: set<Dir>) returns (sorted: seq<Dir>)
    ensures IsByDepth(sorted) && forall a :: a in sorted <==> a in dirs
  {
    hide IsByDepth;
    sorted := [];
    NothingByDepth();
    var left := dirs;
    while left != {}
      invariant left <= dirs && IsByDepth(sorted)
      invariant forall a :: a in sorted <==> a in dirs && a !in left
      invariant forall a, b :: a in sorted && b in left ==> |a| <= |b|
      decreases left
    {
      ShortestExists(left);
      var d :| d in left && forall e :: e in left ==> |d| <= |e|;
      NextByDepth(sorted, d);
      sorted := sorted + [d];
      left := left - {d};
    }
  }

  lemma NothingByDepth()
    ensures IsByDepth([])
  {}

  /** A plan has its missing ancestors, each before what is in it. */
  lemma ParentComesFirst(tree: Tree, parents: set<Dir>, plan: seq<Dir>, i: nat)
    requires IsTree(tree) && IsPlan(tree, parents, plan) && i < |plan|
    ensures plan[i] != [] && plan[i] !in tree
    ensures var parent := plan[i][..|plan[i]| - 1]; parent in tree || parent in plan[..i]
  {
    var a := plan[i];
    assert IsPlanned(tree, parents, a);
    var parent := a[..|a| - 1];
    if parent !in tree {
      var d :| d in parents && IsPrefix(a, d);
      assert parent == d[..|parent|];
      assert IsPrefix(parent, d) && IsPlanned(tree, parents, parent);
      var j :| 0 <= j < |plan| && plan[j] == parent;
      assert j < i;
      assert plan[..i][j] == parent;
    }
  }

  function Created(tree: Tree, dirs: seq<Dir>): Tree {
    tree + map d | d in dirs :: Safe
  }

  ghost predicate IsPlanFor(tree: Tree, parents: set<Dir>, plan: seq<Dir>) {
    IsTree(tree) && IsPlan(tree, parents, plan) && forall d :: d in parents ==> IsSafeChain(tree, d)
  }

  lemma AllAreThere(tree: Tree, parents: set<Dir>, plan: seq<Dir>)
    requires IsPlan(tree, parents, plan)
    ensures forall d :: d in parents ==> d in Created(tree, plan)
  {
    forall d | d in parents ensures d in Created(tree, plan) {
      assert IsPrefix(d, d);
      assert d !in tree ==> IsPlanned(tree, parents, d);
    }
  }

  lemma StaysATree(tree: Tree, d: Dir)
    requires Missing(tree, d) == [d]
    ensures IsTree(tree) ==> IsTree(tree[d := Safe])
  {
    if IsTree(tree) && d != [] {
      var parent := d[..|d| - 1];
      MissingIsExact(tree, d, 0, parent);
      assert |parent| < |d|;
    }
  }

  /** One step of the creation of a plan. */
  lemma PlannedStep(tree: Tree, parents: set<Dir>, plan: seq<Dir>, i: nat)
    requires IsPlanFor(tree, parents, plan) && i < |plan|
    requires IsTree(Created(tree, plan[..i]))
    ensures var now := Created(tree, plan[..i]);
            && Missing(now, plan[i]) == [plan[i]] && IsSafeChain(now, plan[i])
            && now[plan[i] := Safe] == Created(tree, plan[..i + 1])
            && IsTree(Created(tree, plan[..i + 1]))
  {
    var now, path := Created(tree, plan[..i]), plan[i];
    ParentComesFirst(tree, parents, plan, i);
    assert path[..|path| - 1] in now;
    assert path !in plan[..i];
    OnlyItselfIsMissing(now, path);
    StepIsSafe(tree, parents, plan, i);
    CreatedFurther(tree, plan, i);
  }

  lemma CreatedFurther(tree: Tree, plan: seq<Dir>, i: nat)
    requires i < |plan| && plan[i] !in tree
    ensures Created(tree, plan[..i + 1]) == Created(tree, plan[..i])[plan[i] := Safe]
  {
    assert plan[..i + 1] == plan[..i] + [plan[i]];
  }

  lemma StepIsSafe(tree: Tree, parents: set<Dir>, plan: seq<Dir>, i: nat)
    requires IsPlan(tree, parents, plan) && i < |plan|
    requires forall d :: d in parents ==> IsSafeChain(tree, d)
    ensures IsSafeChain(Created(tree, plan[..i]), plan[i])
  {
    assert IsPlanned(tree, parents, plan[i]);
    var d :| d in parents && IsPrefix(plan[i], d);
    forall k | 0 <= k <= |plan[i]| && plan[i][..k] in tree ensures tree[plan[i][..k]] == Safe {
      assert plan[i][..k] == d[..k];
    }
  }

  // ---------------------------------------------------------------------------
  // The serving gate
  // ---------------------------------------------------------------------------

  const HELD := "held\n"
  const READY := "ready\n"

  /** `os.pwrite(descriptor, content, 0)` */
  function Overwritten(lock: string, content: string): string {
    content + if |content| <= |lock| then lock[|content|..] else ""
  }

  /** A request is served only under this content. */
  predicate IsServing(lock: Option<string>) { lock == Some(READY) }

  /** What `target_lease` accepts from an installer that does not create the lock. */
  predicate LeaseAccepts(lock: Option<string>) { lock == Some(HELD) || lock == Some(READY) }

  /** Closing the gate has a point in between at which the content is neither, so nothing is
      served, but no later lease is given either; opening it has none. */
  lemma GateInBetween(lock: string)
    requires lock == HELD || lock == READY
    ensures !IsServing(Some(Overwritten(lock, HELD)))
    ensures LeaseAccepts(Some(Overwritten(lock, HELD))) <==> lock == HELD
    ensures lock == HELD ==> Overwritten(lock, READY) == READY
  {
    if lock == READY {
      assert |Overwritten(lock, HELD)| == |READY| && Overwritten(lock, HELD)[0] == HELD[0] != READY[0];
    } else {
      assert Overwritten(lock, HELD) == HELD && Overwritten(lock, READY) == READY;
    }
  }

  // ---------------------------------------------------------------------------
  // Enrollment
  // ---------------------------------------------------------------------------

  /** The managed files of the target. */
  datatype File = Config | Admission | Sudoers(principal: string) | AuthorizedKeys(principal: string)

  /** What an enrollment wants written, as digests. */
  datatype Enrollment = Enrollment(config: nat, admission: nat, sudoers: map<string, nat>, keys: map<string, nat>,
                                   parents: set<Dir>)

  predicate IsEnrollment(e: Enrollment) { e.sudoers.Keys == e.keys.Keys }

  datatype State = Enabled | Disabled | Updating
  datatype Marker = Marker(state: State, principals: set<string>, files: map<File, nat>, pending: bool)

  datatype Disk = Disk(etc: bool, marker: Option<Marker>, lock: Option<string>, files: map<File, nat>, tree: Tree)

  function FilesOf(e: Enrollment): set<File> {
    {Config, Admission} + (set p | p in e.sudoers :: Sudoers(p)) + (set p | p in e.keys :: AuthorizedKeys(p))
  }

  function Content(e: Enrollment, f: File): nat
    requires f in FilesOf(e)
  {
    match f
    case Config => e.config
    case Admission => e.admission
    case Sudoers(p) => e.sudoers[p]
    case AuthorizedKeys(p) => e.keys[p]
  }

  /** The files of an enrollment; of none for a removal. */
  function Desired(e: Option<Enrollment>): map<File, nat> {
    if e.None? then map[] else map f | f in FilesOf(e.value) :: Content(e.value, f)
  }

  function Principals(e: Option<Enrollment>): set<string> {
    if e.None? then {} else e.value.keys.Keys
  }

  /** `_parse_marker`, without the refusal of an unfinished update. */
  predicate IsWellFormed(m: Marker) {
    && (forall f :: f in m.files ==> (f.Sudoers? || f.AuthorizedKeys? ==> f.principal in m.principals))
    && (m.state == Disabled ==> m.files == map[])
    && (m.state == Enabled ==> Config in m.files)
  }

  predicate IsUnfinished(m: Marker) { m.state == Updating || m.pending }

  /** Serving is on only with an enabled marker and nothing pending, and a marker that is not
      in an update has an inventory that is exactly the managed files with their contents. */
  predicate IsGuarded(d: Disk) {
    && IsTree(d.tree) && (!d.etc ==> d.marker.None? && d.lock.None?)
    && (IsServing(d.lock) ==> d.marker.Some? && d.marker.value.state == Enabled && !d.marker.value.pending)
    && (d.marker.Some? && !IsUnfinished(d.marker.value) ==> d.marker.value.files == d.files)
  }

  /** Whenever keys of a retired principal are gone, so are all retired grants. */
  ghost predicate GrantsGoFirst(before: map<File, nat>, after: map<File, nat>, retired: set<File>) {
    (exists f :: f in retired && f in before && f.AuthorizedKeys? && f !in after) ==>
      forall f :: f in retired && f.Sudoers? ==> f !in after
  }

  /** Whenever a new principal has its keys, it has its grant. */
  ghost predicate GrantsComeFirst(before: map<File, nat>, after: map<File, nat>, desired: map<File, nat>) {
    forall f :: f in after && f.AuthorizedKeys? && f !in before ==>
      && f in desired && after[f] == desired[f] && Sudoers(f.principal) in after && Sudoers(f.principal) in desired
      && after[Sudoers(f.principal)] == desired[Sudoers(f.principal)]
  }

  ghost predicate IsWrittenTo(before: map<File, nat>, after: map<File, nat>, done: seq<File>, desired: map<File, nat>) {
    && (forall f :: f in done && f in desired ==> f in after && after[f] == desired[f])
    && (forall f :: f in after && f !in done ==> f in before && after[f] == before[f])
    && (forall f :: f in before && f !in done ==> f in after)
  }

  /** The order of the dictionary that `_reconcile` builds: grants before keys. */
  ghost predicate IsWriteOrder(order: seq<File>, desired: map<File, nat>) {
    && (forall f :: f in order <==> f in desired)
    && forall i :: 0 <= i < |order| && order[i].AuthorizedKeys? ==> Sudoers(order[i].principal) in order[..i]
  }

  lemma PrefixHasGrants(before: map<File, nat>, after: map<File, nat>, order: seq<File>, k: nat,
                        desired: map<File, nat>)
    requires k <= |order| && IsWriteOrder(order, desired) && IsWrittenTo(before, after, order[..k], desired)
    ensures GrantsComeFirst(before, after, desired)
  {
    forall f | f in after && f.AuthorizedKeys? && f !in before ensures Sudoers(f.principal) in order[..k] {
      assert f in order[..k];
      var i :| 0 <= i < k && order[i] == f;
      var j :| 0 <= j < i && order[j] == Sudoers(f.principal);
      assert order[..k][j] == Sudoers(f.principal);
    }
  }

  /** One run of setup; its history is what an interruption can leave behind. */
  class Target {
    ghost const sound: bool
    var etc: bool
    var marker: Option<Marker>
    var lock: Option<string>
    var files: map<File, nat>
    var tree: Tree
    var history: seq<Disk>

    function Now(): Disk
      reads `etc, `marker, `lock, `files, `tree
    {
      Disk(etc, marker, lock, files, tree)
    }

    ghost predicate Valid()
      reads `etc, `marker, `lock, `files, `tree, `history
    {
      && history != [] && history[|history| - 1] == Now()
      && (sound ==> forall i :: 0 <= i < |history| ==> IsGuarded(history[i]))
    }

    constructor (d: Disk)
      ensures Valid() && Now() == d && history == [d] && sound == IsGuarded(d)
    {
      sound := IsGuarded(d);
      etc, marker, lock, files, tree := d.etc, d.marker, d.lock, d.files, d.tree;
      history := [d];
    }

    /** `set_serving(descriptor, False)`: write, then truncate. */
    method CloseGate()
      requires Valid() && LeaseAccepts(lock)
      modifies `lock, `history
      ensures Valid() && lock == Some(HELD) && old(history) <= history
      ensures forall i :: |old(history)| <= i < |history| ==>
                history[i] == old(Now()).(lock := Some(Overwritten(old(lock.value), HELD))) || history[i] == Now()
      ensures IsOffBetween(|old(history)|, |history|)
    {
      GateInBetween(lock.value);
      hide IsTree, IsGuarded, Overwritten;
      SetLock(Overwritten(lock.value, HELD));
      SetLock(HELD);
    }

    /** None of these states serves. */
    predicate IsOffBetween(from: nat, to: nat)
      reads `history
    {
      forall i :: from <= i < to && i < |history| ==> !IsServing(history[i].lock)
    }

    method SetLock(content: string)
      requires Valid() && lock.Some? && content != READY
      modifies `lock, `history
      ensures Valid() && lock == Some(content) && history == old(history) + [Now()]
    {
      hide IsTree;
      lock := Some(content);
      history := history + [Now()];
    }

    /** `set_serving(descriptor, True)` under a hold. */
    method OpenGate()
      requires Valid() && lock == Some(HELD)
      requires marker.Some? && marker.value == Marker(Enabled, marker.value.principals, files, false)
      modifies `lock, `history
      ensures Valid() && lock == Some(READY) && history == old(history) + [Now()]
    {
      GateInBetween(HELD);
      hide IsTree, Overwritten;
      lock := Some(Overwritten(HELD, READY));
      history := history + [Now()];
    }

    method Save(m: Marker)
      requires Valid() && etc && !IsServing(lock) && (IsUnfinished(m) || m.files == files)
      modifies `marker, `history
      ensures Valid() && marker == Some(m) && old(history) <= history
      ensures history == old(history) + [Now()]
    {
      marker := Some(m);
      history := history + [Now()];
    }

    method SetFiles(f: map<File, nat>)
      requires Valid() && !IsServing(lock) && marker.Some? && IsUnfinished(marker.value)
      modifies `files, `history
      ensures Valid() && files == f && history == old(history) + [Now()]
    {
      files := f;
      history := history + [Now()];
    }

    /** Retired files go, grants before keys: while keys are being removed, no retired grant is
        left. */
    method RemoveFiles(retired: set<File>)
      requires Valid() && !IsServing(lock) && marker.Some? && IsUnfinished(marker.value)
      modifies `files, `history
      ensures Valid() && files == old(files) - retired && old(history) <= history
      ensures forall i :: |old(history)| <= i < |history| ==>
                && history[i] == old(Now()).(files := history[i].files)
                && GrantsGoFirst(old(files), history[i].files, retired)
    {
      var left := retired;
      while left != {}
        invariant Valid() && old(history) <= history && left <= retired
        invariant files == old(files) - (retired - left)
        invariant (exists f :: f in left && !f.AuthorizedKeys?) ==>
                    forall f :: f in retired && f.AuthorizedKeys? ==> f in left
        invariant forall i :: |old(history)| <= i < |history| ==>
                    && history[i] == old(Now()).(files := history[i].files)
                    && GrantsGoFirst(old(files), history[i].files, retired)
        decreases left
      {
        var f :| f in left && (f.AuthorizedKeys? ==> forall g :: g in left ==> g.AuthorizedKeys?);
        SetFiles(files - {f});
        left := left - {f};
      }
    }

    /** Files of the enrollment are written in order, where they differ. */
    method WriteFiles(order: seq<File>, desired: map<File, nat>)
      requires Valid() && !IsServing(lock) && marker.Some? && IsUnfinished(marker.value)
      requires IsWriteOrder(order, desired)
      modifies `files, `history
      ensures Valid() && old(history) <= history
      ensures IsWrittenTo(old(files), files, order, desired)
      ensures forall i :: |old(history)| <= i < |history| ==>
                && history[i] == old(Now()).(files := history[i].files)
                && GrantsComeFirst(old(files), history[i].files, desired)
    {
      hide IsWrittenTo, IsWriteOrder, GrantsComeFirst, IsGuarded;
      NothingWritten(files, order, desired);
      for k := 0 to |order|
        invariant Valid() && old(history) <= history
        invariant Now() == old(Now()).(files := files)
        invariant IsWrittenTo(old(files), files, order[..k], desired)
        invariant forall i :: |old(history)| <= i < |history| ==>
                    && history[i] == old(Now()).(files := history[i].files)
                    && GrantsComeFirst(old(files), history[i].files, desired)
      {
        var f := order[k];
        WrittenFurther(old(files), files, order, k, desired);
        if f !in files || files[f] != desired[f] {
          SetFiles(files[f := desired[f]]);
        }
        PrefixHasGrants(old(files), files, order, k + 1, desired);
      }
      assert order[..|order|] == order;
    }

    /** The marker gets the principals that are new. */
    method AddPrincipals(m: Marker, principals: set<string>) returns (updated: Marker)
      requires Valid() && etc && !IsServing(lock) && marker == Some(m) && IsUnfinished(m)
      modifies `marker, `history
      ensures Valid() && marker == Some(updated) && old(history) <= history
      ensures updated == m.(principals := m.principals + principals)
      ensures forall i :: |old(history)| <= i < |history| ==>
                && history[i].marker.Some? && IsUnfinished(history[i].marker.value)
                && history[i].files == files && history[i].lock == lock
    {
      updated := m;
      var left := principals - m.principals;
      while left != {}
        invariant Valid() && old(history) <= history && left <= principals - m.principals
        invariant marker == Some(updated) && updated == m.(principals := m.principals + (principals - left))
        invariant forall i :: |old(history)| <= i < |history| ==>
                    && history[i].marker.Some? && IsUnfinished(history[i].marker.value)
                    && history[i].files == files && history[i].lock == lock
        decreases left
      {
        var p :| p in left;
        updated := updated.(principals := updated.principals + {p});
        Save(updated);
        left := left - {p};
      }
    }

    /** `_create_deployment_parents`: for a plan of this tree, every step finds just its own
        path missing, and in the end all is there. */
    method CreateDeploymentParents(plan: seq<Dir>, ghost parents: set<Dir>) returns (r: Result<(), Error>)
      requires Valid() && !IsServing(lock) && marker.Some? && IsUnfinished(marker.value)
      modifies `tree, `history
      ensures Valid() && old(history) <= history
      ensures IsPlanFor(old(tree), parents, plan) ==>
                && r == Success(()) && tree == Created(old(tree), plan) && IsTree(tree)
                && forall d :: d in parents ==> d in tree
      ensures forall d :: d in old(tree) ==> d in tree && tree[d] == old(tree)[d]
      ensures forall i :: |old(history)| <= i < |history| ==> history[i] == old(Now()).(tree := history[i].tree)
    {
      hide IsPlan, IsTree, IsSafeChain, IsGuarded;
      ghost var planned := IsPlanFor(tree, parents, plan);
      assert Created(tree, plan[..0]) == tree;
      for i := 0 to |plan|
        invariant Valid() && old(history) <= history
        invariant planned ==> tree == Created(old(tree), plan[..i]) && IsTree(tree)
        invariant forall d :: d in old(tree) ==> d in tree && tree[d] == old(tree)[d]
        invariant forall i :: |old(history)| <= i < |history| ==> history[i] == old(Now()).(tree := history[i].tree)
      {
        var path := plan[i];
        if planned {
          PlannedStep(old(tree), parents, plan, i);
        }
        var missing := MissingParentDirectories(tree, path);
        if missing.Failure? {
          return Failure(missing.error);
        }
        if missing.value != [] {
          if missing.value != [path] {
            return Failure(PlanChanged);
          }
          MissingIsExact(tree, path, 0, path);
          StaysATree(tree, path);
          SetTree(tree[path := Safe]);
        }
      }
      assert plan[..|plan|] == plan;
      if planned {
        AllAreThere(old(tree), parents, plan);
      }
      return Success(());
    }

    method SetTree(t: Tree)
      requires Valid() && (IsTree(tree) ==> IsTree(t))
      modifies `tree, `history
      ensures Valid() && tree == t && history == old(history) + [Now()]
    {
      assert IsGuarded(history[|history| - 1]) ==> IsGuarded(Now().(tree := t));
      tree := t;
      history := history + [Now()];
    }

    /** The files of the enrollment instead of those of the inventory. */
    method ReplaceFiles(e: Option<Enrollment>)
      requires Valid() && !IsServing(lock) && marker.Some? && IsUnfinished(marker.value)
      requires e.Some? ==> IsEnrollment(e.value)
      modifies `files, `history
      ensures Valid() && old(history) <= history && files == Desired(e)
      ensures forall i :: |old(history)| <= i < |history| ==> history[i] == old(Now()).(files := history[i].files)
    {
      hide IsWriteOrder, IsWrittenTo, GrantsGoFirst, GrantsComeFirst, IsGuarded, Desired;
      var desired := Desired(e);
      RemoveFiles(files.Keys - desired.Keys);
      var order := WriteOrder(e);
      WriteFiles(order, desired);
      AllWritten(old(files), files, order, desired);
    }

    /** The part of `_reconcile` between the first and the last write of the marker. */
    method Install(m: Marker, e: Option<Enrollment>, plan: seq<Dir>) returns (updated: Marker)
      requires Valid() && etc && !IsServing(lock) && marker == Some(m) && IsUnfinished(m)
      requires e.Some? ==> IsEnrollment(e.value)
      requires IsPlanFor(tree, ParentsOf(e), plan)
      modifies `marker, `files, `tree, `history
      ensures Valid() && old(history) <= history && files == Desired(e)
      ensures updated == m.(principals := m.principals + Principals(e)) && marker == Some(updated)
      ensures forall d :: d in ParentsOf(e) ==> d in tree
      ensures forall i :: |old(history)| <= i < |history| ==>
                history[i].marker.Some? && IsUnfinished(history[i].marker.value) && history[i].lock == lock
    {
      hide IsPlanFor, IsGuarded, Desired, IsTree, Created;
      updated := m;
      if e.Some? {
        var r := CreateDeploymentParents(plan, ParentsOf(e));
        updated := AddPrincipals(m, Principals(e));
      }
      ReplaceFiles(e);
    }

    /** `_reconcile` under the lease. Between the first and the last write of the marker, every
        state is marked as an unfinished update; from the first write to the gate until the last
        write of the run, no state serves. */
    method Reconcile(m: Marker, e: Option<Enrollment>) returns (r: Result<(), Error>)
      requires Valid() && etc && LeaseAccepts(lock) && marker == Some(m)
      requires e.Some? ==> IsEnrollment(e.value)
      requires IsTree(tree)
      modifies `marker, `lock, `files, `tree, `history
      ensures Valid() && old(history) <= history
      ensures r.Success? <==> forall d :: d in ParentsOf(e) ==> IsSafeChain(old(tree), d)
      ensures r.Failure? ==> Now() == old(Now()) && history == old(history)
      ensures r.Success? ==>
                && lock == Some(if e.Some? then READY else HELD) && files == Desired(e)
                && marker == Some(Marker(if e.Some? then Enabled else Disabled, m.principals + Principals(e), files,
                                         false))
                && forall d :: d in ParentsOf(e) ==> d in tree
      ensures forall i :: |old(history)| <= i < |history| ==>
                || history[i].marker == old(marker)
                || (history[i].marker.Some? && IsUnfinished(history[i].marker.value))
                || (history[i].marker == marker && history[i].files == Desired(e))
      ensures IsOffBetween(|old(history)|, |history| - 1)
      ensures r.Success? ==> |old(history)| < |history|
    {
      hide IsTree, IsPlan, IsSafeChain, Desired, IsGuarded;
      var plan := DeploymentParentPlan(tree, ParentsOf(e));
      if plan.Failure? {
        return Failure(plan.error);
      }
      CloseGate();
      Save(m.(state := Updating, pending := true));
      var updated := Install(m.(state := Updating, pending := true), e, plan.value);
      Save(Marker(if e.Some? then Enabled else Disabled, updated.principals, Desired(e), false));
      if e.Some? {
        OpenGate();
      }
      return Success(());
    }

    /** `configure_build_target`. A run that meets an unfinished update, an unreadable gate or a
        changed file refuses and changes nothing; any other run completes. */
    method Configure(e: Option<Enrollment>) returns (r: Result<(), Error>)
      requires Valid() && IsTree(tree) && (e.Some? ==> IsEnrollment(e.value))
      modifies this
      ensures Valid() && old(history) <= history
      ensures r.Success? <==>
                (forall d :: d in ParentsOf(e) ==> IsSafeChain(old(tree), d)) && IsRunnable(old(Now()))
      ensures r.Failure? ==> Now() == old(Now()) && history == old(history)
      ensures sound ==> IsOffBetween(|old(history)|, |history| - 1)
      ensures r.Success? && e.Some? ==>
                && lock == Some("ready\n") && marker.Some? && files == marker.value.files == Desired(e)
                && marker.value.state == Enabled && !marker.value.pending
                && e.value.keys.Keys <= marker.value.principals
                && forall d :: d in e.value.parents ==> d in tree
      ensures r.Success? && e.None? && old(etc) ==>
                && lock == Some("held\n") && files == map[] && marker.Some?
                && marker.value == Marker(Disabled, old(marker.value.principals), map[], false)
    {
      assert Desired(None) == map[];
      hide IsTree, IsSafeChain, Desired, IsPlan, IsGuarded;
      var plan := DeploymentParentPlan(tree, ParentsOf(e));
      if plan.Failure? {
        return Failure(plan.error);
      }
      if !etc {
        if files != map[] {
          return Failure(Unmarked);
        }
        if e.None? {
          return Success(());
        }
        Bootstrap();
      } else {
        if !LeaseAccepts(lock) {
          return Failure(InvalidLock);
        }
        if marker.None? {
          return Failure(MissingMarker);
        }
        if IsUnfinished(marker.value) || !IsWellFormed(marker.value) {
          return Failure(IncompleteEnrollment);
        }
        if files != marker.value.files {
          return Failure(Modified);
        }
      }
      r := Reconcile(marker.value, e);
    }

    /** The first run leaves a marked directory and a closed gate before anything else. */
    method Bootstrap()
      requires Valid() && !etc && files == map[]
      modifies `etc, `marker, `lock, `history
      ensures Valid() && old(history) <= history
      ensures etc && marker == Some(Marker(Updating, {}, map[], false)) && lock == Some(HELD)
      ensures sound ==> IsOffBetween(|old(history)|, |history|)
    {
      hide IsTree;
      assert sound ==> IsGuarded(history[|history| - 1]);
      etc := true;
      history := history + [Now()];
      marker := Some(Marker(Updating, {}, map[], false));
      history := history + [Now()];
      lock := Some("");
      history := history + [Now()];
      assert Overwritten("", HELD) == HELD;
      lock := Some(Overwritten("", HELD));
      history := history + [Now()];
    }
  }

  /** What a run needs to find. */
  predicate IsRunnable(d: Disk) {
    if !d.etc then d.files == map[]
    else
      && LeaseAccepts(d.lock) && d.marker.Some?
      && !IsUnfinished(d.marker.value) && IsWellFormed(d.marker.value) && d.files == d.marker.value.files
  }

  /** An interruption inside the update, or between the two writes that close the gate, leaves
      the target to its operator; an interruption elsewhere can be repeated by setup. */
  lemma WhatCanBeRepeated(d: Disk)
    requires IsGuarded(d) && d.etc && d.marker.Some? && IsWellFormed(d.marker.value)
    ensures IsRunnable(d) <==> !IsUnfinished(d.marker.value) && LeaseAccepts(d.lock)
    ensures d.lock == Some(Overwritten(READY, HELD)) ==> !IsRunnable(d)
  {
    GateInBetween(READY);
  }

  /** The states of one run, up to its interruption if it is interrupted. */
  datatype Life = Life(disks: seq<Disk>, completed: bool)

  /** Serving at another state than the one the run found means that the run is complete. */
  predicate IsOffUntilComplete(life: Life) {
    forall i :: 0 < i < |life.disks| && IsServing(life.disks[i].lock) ==> life.completed && i == |life.disks| - 1
  }

  /** Each run finds what the one before has left. */
  predicate AreInOrder(start: Disk, lives: seq<Life>) {
    && (forall i :: 0 <= i < |lives| ==> lives[i].disks != [])
    && (forall i :: 0 < i < |lives| ==> lives[i].disks[0] == lives[i - 1].disks[|lives[i - 1].disks| - 1])
    && (lives != [] ==> lives[0].disks[0] == start)
  }

  /** Served is a request only under an enabled marker with nothing pending and all files on it;
      a marker that is not in an update always has all files, and no others. */
  predicate IsServedRight(d: Disk) {
    && (d.lock == Some("ready\n") ==>
          && d.marker.Some? && d.marker.value.state == Enabled && !d.marker.value.pending
          && d.marker.value.files == d.files)
    && (d.marker.Some? && d.marker.value.state != Updating && !d.marker.value.pending ==>
          d.marker.value.files == d.files)
  }

  lemma GuardedInWords(d: Disk)
    requires IsGuarded(d)
    ensures IsServedRight(d)
  {}

  /** What a run needs to find, in full: nothing at all; or a lock of one of two contents, and a
      marker of no update, with nothing pending, whose inventory is what is on the disk, is
      empty if the target is disabled, has the configuration if it is enabled, and has grants
      and keys of recorded principals only. */
  lemma RunnableInWords(d: Disk)
    ensures IsRunnable(d)
       <==> if !d.etc then d.files == map[]
            else
              && (d.lock == Some("held\n") || d.lock == Some("ready\n")) && d.marker.Some?
              && !d.marker.value.pending && d.files == d.marker.value.files
              && (if d.marker.value.state == Enabled then Config in d.files
                  else d.marker.value.state == Disabled && d.files == map[])
              && (forall p :: Sudoers(p) in d.files ==> p in d.marker.value.principals)
              && forall p :: AuthorizedKeys(p) in d.files ==> p in d.marker.value.principals
  {
    if d.etc && d.marker.Some? {
      InventoryInWords(d.marker.value);
    }
    hide IsWellFormed;
  }

  lemma InventoryInWords(m: Marker)
    ensures IsWellFormed(m)
       <==> && (forall p :: Sudoers(p) in m.files ==> p in m.principals)
            && (forall p :: AuthorizedKeys(p) in m.files ==> p in m.principals)
            && (m.state == Disabled ==> m.files == map[]) && (m.state == Enabled ==> Config in m.files)
  {
    if (forall p :: Sudoers(p) in m.files ==> p in m.principals)
       && forall p :: AuthorizedKeys(p) in m.files ==> p in m.principals {
      forall f | f in m.files && (f.Sudoers? || f.AuthorizedKeys?) ensures f.principal in m.principals {
        assert f == Sudoers(f.principal) || f == AuthorizedKeys(f.principal);
      }
    }
  }

  /** The managed files of an enrollment, one by one; without one there are none. */
  lemma DesiredInWords(e: Enrollment)
    requires IsEnrollment(e)
    ensures Config in Desired(Some(e)) && Desired(Some(e))[Config] == e.config
    ensures Admission in Desired(Some(e)) && Desired(Some(e))[Admission] == e.admission
    ensures forall p :: Sudoers(p) in Desired(Some(e)) <==> p in e.sudoers
    ensures forall p :: AuthorizedKeys(p) in Desired(Some(e)) <==> p in e.keys
    ensures forall p :: p in e.sudoers ==> Desired(Some(e))[Sudoers(p)] == e.sudoers[p]
    ensures forall p :: p in e.keys ==> Desired(Some(e))[AuthorizedKeys(p)] == e.keys[p]
    ensures Desired(None) == map[]
  {
    DesiredFiles(e);
  }

  /** Any number of runs, interrupted anywhere: serving is on only with an enabled marker,
      nothing pending, and the inventory exactly the managed files; and an interruption of a
      run that has changed anything leaves it off. */
  method Lifetime(start: Disk, runs: seq<(Option<Enrollment>, nat)>) returns (lives: seq<Life>)
    requires IsGuarded(start)
    requires forall run :: run in runs && run.0.Some? ==> IsEnrollment(run.0.value)
    ensures |lives| == |runs| && AreInOrder(start, lives)
    ensures forall life, d :: life in lives && d in life.disks ==> IsGuarded(d) && IsServedRight(d)
    ensures forall life :: life in lives ==> IsOffUntilComplete(life)
  {
    hide IsTree, IsEnrollment, IsGuarded, IsServedRight;
    lives := [];
    var d := start;
    for i := 0 to |runs|
      invariant |lives| == i && AreInOrder(start, lives) && IsGuarded(d)
      invariant d == if lives == [] then start else lives[i - 1].disks[|lives[i - 1].disks| - 1]
      invariant forall life, v :: life in lives && v in life.disks ==> IsGuarded(v) && IsServedRight(v)
      invariant forall life :: life in lives ==> IsOffUntilComplete(life)
    {
      assert runs[i] in runs;
      var life := Live(d, runs[i].0, runs[i].1);
      forall v | v in life.disks ensures IsServedRight(v) {
        GuardedInWords(v);
      }
      lives := lives + [life];
      d := life.disks[|life.disks| - 1];
    }
  }

  /** One run, interrupted after so many writes if it makes more. */
  method Live(d: Disk, e: Option<Enrollment>, cut: nat) returns (life: Life)
    requires IsGuarded(d) && (e.Some? ==> IsEnrollment(e.value))
    ensures life.disks != [] && life.disks[0] == d && IsOffUntilComplete(life)
    ensures forall v :: v in life.disks ==> IsGuarded(v)
  {
    hide IsTree, IsEnrollment, IsGuarded;
    assert IsTree(d.tree) by {
      GuardedTree(d);
    }
    var target := new Target(d);
    var r := target.Configure(e);
    var interrupted := cut + 1 < |target.history|;
    life := Life(if interrupted then target.history[..cut + 1] else target.history, !interrupted);
  }

  lemma GuardedTree(d: Disk)
    requires IsGuarded(d)
    ensures IsTree(d.tree)
  {}

  function ParentsOf(e: Option<Enrollment>): set<Dir> {
    if e.None? then {} else e.value.parents
  }

  /** What was kept or removed, then written, is what was desired. */
  lemma AllWritten(before: map<File, nat>, after: map<File, nat>, order: seq<File>, desired: map<File, nat>)
    requires IsWriteOrder(order, desired)
    requires IsWrittenTo(before - (before.Keys - desired.Keys), after, order, desired)
    ensures after == desired
  {
    forall f ensures f in after <==> f in desired {
      assert f in order <==> f in desired;
    }
  }

  /** Configuration, admission, then grant and keys of every principal. */
  method WriteOrder(e: Option<Enrollment>) returns (order: seq<File>)
    requires e.Some? ==> IsEnrollment(e.value)
    ensures IsWriteOrder(order, Desired(e))
  {
    if e.None? {
      return [];
    }
    order := [Config, Admission];
    var left := e.value.keys.Keys;
    while left != {}
      invariant left <= e.value.keys.Keys
      invariant forall f :: f in order <==>
                  f.Config? || f.Admission? || (f.principal in e.value.keys && f.principal !in left)
      invariant forall i :: 0 <= i < |order| && order[i].AuthorizedKeys? ==> Sudoers(order[i].principal) in order[..i]
      decreases left
    {
      var p :| p in left;
      OrderedFurther(order, p);
      order := order + [Sudoers(p), AuthorizedKeys(p)];
      left := left - {p};
    }
    DesiredFiles(e.value);
  }

  lemma DesiredFiles(e: Enrollment)
    requires IsEnrollment(e)
    ensures forall f :: f in Desired(Some(e)) <==> f.Config? || f.Admission? || f.principal in e.keys
  {
    forall f ensures f in FilesOf(e) <==> f.Config? || f.Admission? || f.principal in e.keys {
      match f
      case Sudoers(p) => assert p in e.sudoers.Keys <==> p in e.keys.Keys;
      case _ =>
    }
  }

  lemma OrderedFurther(order: seq<File>, p: string)
    requires forall i :: 0 <= i < |order| && order[i].AuthorizedKeys? ==> Sudoers(order[i].principal) in order[..i]
    ensures var longer := order + [Sudoers(p), AuthorizedKeys(p)];
            && (forall f :: f in longer <==> f in order || f == Sudoers(p) || f == AuthorizedKeys(p))
            && forall i :: 0 <= i < |longer| && longer[i].AuthorizedKeys? ==>
                 Sudoers(longer[i].principal) in longer[..i]
  {
    var longer := order + [Sudoers(p), AuthorizedKeys(p)];
    forall i | 0 <= i < |longer| && longer[i].AuthorizedKeys?
      ensures Sudoers(longer[i].principal) in longer[..i]
    {
      if i < |order| {
        assert longer[..i] == order[..i];
      } else {
        assert longer[..i][|order|] == Sudoers(p);
      }
    }
  }

  lemma NothingWritten(files: map<File, nat>, order: seq<File>, desired: map<File, nat>)
    ensures IsWrittenTo(files, files, order[..0], desired)
  {}

  lemma WrittenFurther(before: map<File, nat>, after: map<File, nat>, order: seq<File>, k: nat, desired: map<File, nat>)
    requires k < |order| && IsWriteOrder(order, desired) && IsWrittenTo(before, after, order[..k], desired)
    ensures order[k] in desired
    ensures IsWrittenTo(before, after[order[k] := desired[order[k]]], order[..k + 1], desired)
    ensures order[k] in after && after[order[k]] == desired[order[k]] ==>
              after[order[k] := desired[order[k]]] == after
  {
    assert order[k] in order;
    assert order[..k + 1] == order[..k] + [order[k]];
  }
}
