/** common/network_steps.py: a live network change that is prepared, committed, aborted or
    finalized, with a journal that makes every interruption recoverable.

    A world is what survives the process: files, addresses, policy rules, routes and the
    journal. Every effect of the code is one atomic step between worlds. */
module NetworkTransition {
  import opened Common

  // ---------------------------------------------------------------------------
  // Files
  // ---------------------------------------------------------------------------

  const BACKUP_SUFFIX := ".basaltwater.bak"
  const MANAGED_NAME := "basaltwater_static"
  const FILE_MODE := 0x1A4  // 0o644

  /** /etc/network/interfaces and its backup, the cloud-init and networkd files, and the
      entries of interfaces.d and of the backup directory beside it. */
  datatype Path = Main | MainBackup | CloudInit | Networkd | InDir(name: string) | Backup(name: string)

  /** One line of an ifupdown file, with what the code's patterns find in it. */
  datatype Line = Line(text: string, blank: bool, indented: bool, stanza: bool, sources: bool)

  type Text = seq<Line>

  /** A link knows what reading through it would give. */
  datatype Node = Regular(text: Text, mode: nat) | Link(target: string, through: Option<Node>) | Directory

  type Files = map<Path, Node>

  function Managed(): Path { InDir(MANAGED_NAME) }

  predicate HasSuffix(name: string) {
    |BACKUP_SUFFIX| <= |name| && name[|name| - |BACKUP_SUFFIX|..] == BACKUP_SUFFIX
  }

  /** `name.removesuffix(".basaltwater.bak")` */
  function WithoutSuffix(name: string): string {
    if HasSuffix(name) then name[..|name| - |BACKUP_SUFFIX|] else name
  }

  /** Names that a shell-style `*` matches. */
  predicate IsVisible(name: string) { name != "" && name[0] != '.' }

  /** `glob(interfaces.d/ *)` */
  function Listed(files: Files): set<string> {
    set p | p in files && p.InDir? && IsVisible(p.name) :: p.name
  }

  /** `os.path.isfile`, which follows links. */
  predicate IsFile(files: Files, p: Path) {
    p in files && (files[p].Regular? || (files[p].Link? && files[p].through.Some? && files[p].through.value.Regular?))
  }

  function Read(files: Files, p: Path): Node
    requires IsFile(files, p)
  {
    if files[p].Regular? then files[p] else files[p].through.value
  }

  /** `os.path.exists`, which is false for a dangling link. */
  predicate Exists(files: Files, p: Path) {
    p in files && (files[p].Link? ==> files[p].through.Some?)
  }

  /** `_ifupdown_backup_path` */
  function BackupPath(p: Path): Path {
    match p
    case InDir(name) => Backup(name + BACKUP_SUFFIX)
    case _ => MainBackup
  }

  datatype Backend = NetworkdBackend | IfupdownBackend

  /** `_ifupdown_snapshot_paths` and its two-path counterpart for networkd. */
  function SnapshotPaths(backend: Backend, files: Files): set<Path> {
    match backend
    case NetworkdBackend => {Networkd, CloudInit}
    case IfupdownBackend =>
      {Main, Managed(), CloudInit, MainBackup}
      + (set n | n in Listed(files) && !files[InDir(n)].Directory? :: InDir(n))
      + (set n | n in Listed(files) :: BackupPath(InDir(WithoutSuffix(n))))
  }

  /** The paths that persistence can create, move or rewrite in these files. */
  function PersistablePaths(backend: Backend, files: Files): set<Path> {
    match backend
    case NetworkdBackend => {Networkd, CloudInit}
    case IfupdownBackend =>
      {Main, MainBackup, Managed(), CloudInit}
      + (set n | n in Listed(files) && IsFile(files, InDir(n)) :: InDir(n))
      + (set n | n in Listed(files) && IsFile(files, InDir(n)) && n != MANAGED_NAME :: BackupOf(n))
  }

  /** Where a listed file's content is saved: an old backup moves, another file is copied. */
  function BackupOf(name: string): Path {
    if HasSuffix(name) then Backup(name) else BackupPath(InDir(name))
  }

  lemma SuffixRestored(name: string)
    ensures HasSuffix(name + BACKUP_SUFFIX)
    ensures WithoutSuffix(name) + BACKUP_SUFFIX == if HasSuffix(name) then name else name + BACKUP_SUFFIX
  {
    var long := name + BACKUP_SUFFIX;
    assert long[|long| - |BACKUP_SUFFIX|..] == BACKUP_SUFFIX;
    if HasSuffix(name) {
      assert name == name[..|name| - |BACKUP_SUFFIX|] + name[|name| - |BACKUP_SUFFIX|..];
    }
  }

  // ---------------------------------------------------------------------------
  // Live state and journal
  // ---------------------------------------------------------------------------

  datatype Family = V4 | V6

  datatype Address = Address(family: Family, ip: nat)
  datatype Rule = Rule(family: Family, priority: nat, from: nat, table: nat)
  datatype Route = Route(family: Family, table: nat, destination: Option<nat>)

  /** What the user asked for: at most one address and one gateway in each family. */
  datatype Request = Request(backend: Backend, addresses: map<Family, nat>, gateways: map<Family, nat>,
                             text: Text)

  datatype State = Prepared | Committed

  datatype Journal = Journal(state: State, request: Request, added: set<Address>, tables: map<Family, nat>,
                             snapshot: map<Path, Option<Node>>)

  datatype World = World(files: Files, addresses: set<Address>, rules: set<Rule>, routes: set<Route>,
                         journal: Option<Journal>)

  const FIRST_TABLE := 20000
  const TABLE_END := 20100

  predicate IsValid(request: Request) { request.gateways.Keys <= request.addresses.Keys }

  function Wanted(request: Request): set<Address> {
    set f | f in request.addresses :: Address(f, request.addresses[f])
  }

  function RuleOf(j: Journal, f: Family): Rule
    requires f in j.tables && f in j.request.addresses
  {
    Rule(f, j.tables[f], j.request.addresses[f], j.tables[f])
  }

  /** `_select_policy_table` regards a table as free when no rule of the family has it as
      its priority or its table and no route is in it. */
  predicate IsFree(w: World, f: Family, table: nat) {
    && (forall r :: r in w.rules && r.family == f ==> r.priority != table && r.table != table)
    && (forall r :: r in w.routes && r.family == f ==> r.table != table)
  }

  function Snapshot(files: Files, p: Path): Option<Node> {
    if p in files then Some(files[p]) else None
  }

  predicate IsAllowed(backend: Backend, p: Path) {
    match backend
    case NetworkdBackend => p == Networkd || p == CloudInit
    case IfupdownBackend => p != Networkd && (p.Backup? ==> HasSuffix(p.name))
  }

  function RequiredPaths(backend: Backend): set<Path> {
    match backend
    case NetworkdBackend => {Networkd, CloudInit}
    case IfupdownBackend => {Main, Managed(), CloudInit}
  }

  /** `_load_network_transition` with `_validate_persistence_rollback`. */
  predicate LoaderAccepts(j: Journal) {
    && IsValid(j.request)
    && j.added <= Wanted(j.request)
    && j.tables.Keys == j.request.gateways.Keys
    && (forall f :: f in j.tables ==> FIRST_TABLE <= j.tables[f] < TABLE_END)
    && (forall p :: p in j.snapshot ==>
          IsAllowed(j.request.backend, p) && (j.snapshot[p].Some? ==> !j.snapshot[p].value.Directory?))
    && RequiredPaths(j.request.backend) <= j.snapshot.Keys
  }

  /** The journal that prepare writes in this world. */
  predicate Captures(w: World, j: Journal) {
    && j.state == Prepared && IsValid(j.request)
    && j.added == Wanted(j.request) - w.addresses
    && j.tables.Keys == j.request.gateways.Keys
    && (forall f :: f in j.tables ==> FIRST_TABLE <= j.tables[f] < TABLE_END && IsFree(w, f, j.tables[f]))
    && j.snapshot.Keys == SnapshotPaths(j.request.backend, w.files)
    && (forall p :: p in j.snapshot ==> j.snapshot[p] == Snapshot(w.files, p))
    && (forall p :: p in j.snapshot && p in w.files ==> !w.files[p].Directory?)
  }

  // ---------------------------------------------------------------------------
  // Effects
  // ---------------------------------------------------------------------------

  datatype Effect =
    | OpenJournal(journal: Journal)
    | AddAddress(address: Address)
    | AddRoute(route: Route)
    | AddRule(family: Family)
    | WriteFile(path: Path, node: Node)
    | MoveFile(path: Path, to: Path)
    | MarkCommitted
    | RestoreFile(path: Path)
    | DropFile(path: Path)
    | DeleteRule(family: Family)
    | FlushTable(family: Family)
    | DeleteAddress(address: Address)
    | CloseJournal

  /** All live objects of the transition are gone: `_verify_transition_cleanup`. */
  predicate IsClean(w: World, j: Journal) {
    && (forall f :: f in j.tables ==> IsUnused(w, f, j.tables[f]))
    && w.addresses !! j.added
  }

  /** Neither a rule nor a route of the family refers to the table. */
  predicate IsUnused(w: World, f: Family, table: nat) {
    && (forall r :: r in w.rules && r.family == f ==> r.table != table)
    && (forall r :: r in w.routes && r.family == f ==> r.table != table)
  }

  predicate IsRestored(files: Files, snapshot: map<Path, Option<Node>>) {
    forall p :: p in snapshot ==> Snapshot(files, p) == snapshot[p]
  }

  /** What the code checks, or knows from the statement before, when it causes the effect. */
  predicate Enabled(w: World, e: Effect) {
    if e.OpenJournal? then w.journal.None? && Captures(w, e.journal)
    else w.journal.Some? && EnabledUnder(w, w.journal.value, e)
  }

  predicate EnabledUnder(w: World, j: Journal, e: Effect) {
    match e
    case OpenJournal(_) => false
    case AddAddress(a) => a in j.added
    case AddRoute(r) => r.family in j.tables && r.table == j.tables[r.family]
    case AddRule(f) => f in j.tables && f in j.request.addresses
    case WriteFile(p, node) => p in PersistablePaths(j.request.backend, w.files) && node.Regular?
    case MoveFile(p, to) =>
      && p in PersistablePaths(j.request.backend, w.files) && to in PersistablePaths(j.request.backend, w.files)
      && p in w.files && !w.files[p].Directory?
    case MarkCommitted => true
    case RestoreFile(p) => p in j.snapshot
    case DropFile(p) => p in j.snapshot
    case DeleteRule(f) => f in j.tables && f in j.request.addresses
    case FlushTable(f) => f in j.tables
    case DeleteAddress(a) => a in j.added
    case CloseJournal => IsRestored(w.files, j.snapshot) && IsClean(w, j)
  }

  function Put(files: Files, p: Path, node: Option<Node>): Files {
    if node.Some? then files[p := node.value] else files - {p}
  }

  function Apply(w: World, e: Effect): World
    requires Enabled(w, e)
  {
    match e
    case OpenJournal(j) => w.(journal := Some(j))
    case AddAddress(a) => w.(addresses := w.addresses + {a})
    case AddRoute(r) => w.(routes := w.routes + {r})
    case AddRule(f) => w.(rules := w.rules + {RuleOf(w.journal.value, f)})
    case WriteFile(p, node) => w.(files := w.files[p := node])
    case MoveFile(p, to) => w.(files := (w.files - {p})[to := w.files[p]])
    case MarkCommitted => w.(journal := Some(w.journal.value.(state := Committed)))
    case RestoreFile(p) => w.(files := Put(w.files, p, w.journal.value.snapshot[p]))
    case DropFile(p) => w.(files := w.files - {p})
    case DeleteRule(f) => w.(rules := w.rules - {RuleOf(w.journal.value, f)})
    case FlushTable(f) =>
      w.(routes := set r | r in w.routes && !(r.family == f && r.table == w.journal.value.tables[f]))
    case DeleteAddress(a) => w.(addresses := w.addresses - {a})
    case CloseJournal => w.(journal := None)
  }

  ghost predicate Next(w: World, v: World) {
    exists e :: Enabled(w, e) && Apply(w, e) == v
  }

  /** Consecutive worlds, one effect apart. */
  ghost predicate IsRun(worlds: seq<World>) {
    && worlds != []
    && forall i :: 0 < i < |worlds| ==> Next(worlds[i - 1], worlds[i])
  }

  // ---------------------------------------------------------------------------
  // The invariant of every run
  // ---------------------------------------------------------------------------

  /** `b` is the world before the transition. Without a journal nothing differs from it;
      with one, every difference is on record, and nothing that was live is missing. */
  ghost predicate Recoverable(b: World, w: World) {
    match w.journal
    case None => w == b
    case Some(j) =>
      && Captures(b, j.(state := Prepared)) && b.journal.None?
      && (forall p :: p !in j.snapshot ==> Snapshot(w.files, p) == Snapshot(b.files, p))
      && (forall p :: p in j.snapshot && p in w.files ==> !w.files[p].Directory?)
      && b.addresses <= w.addresses <= b.addresses + j.added
      && b.rules <= w.rules
      && (forall r :: r in w.rules ==> r in b.rules || (r.family in j.tables && r == RuleOf(j, r.family)))
      && b.routes <= w.routes
      && (forall r :: r in w.routes ==> r in b.routes || (r.family in j.tables && r.table == j.tables[r.family]))
  }

  lemma ListedIsSnapshotted(b: World, w: World, n: string)
    requires Recoverable(b, w) && w.journal.Some? && w.journal.value.request.backend == IfupdownBackend
    requires n in Listed(w.files) && IsFile(w.files, InDir(n))
    ensures InDir(n) in w.journal.value.snapshot
    ensures n != MANAGED_NAME ==> BackupOf(n) in w.journal.value.snapshot
  {
    hide PersistablePaths, IsFree, HasSuffix;
    var j := w.journal.value;
    assert InDir(n) in j.snapshot || Snapshot(w.files, InDir(n)) == Snapshot(b.files, InDir(n));
    if n != MANAGED_NAME {
      assert n in Listed(b.files);
      SuffixRestored(n);
      assert BackupPath(InDir(WithoutSuffix(n))) == BackupOf(n);
    }
  }

  /** Everything persistence may touch now was snapshotted before, even after earlier
      interrupted attempts at persistence have moved and created files. */
  lemma PersistableIsSnapshotted(b: World, w: World)
    requires Recoverable(b, w) && w.journal.Some?
    ensures PersistablePaths(w.journal.value.request.backend, w.files) <= w.journal.value.snapshot.Keys
  {
    var j := w.journal.value;
    assert RequiredPaths(j.request.backend) <= j.snapshot.Keys;
    assert j.request.backend == IfupdownBackend ==> MainBackup in j.snapshot;
    hide Captures, IsFree, HasSuffix, BackupOf, IsVisible, SnapshotPaths;
    forall n | j.request.backend == IfupdownBackend && n in Listed(w.files) && IsFile(w.files, InDir(n))
      ensures InDir(n) in j.snapshot && (n != MANAGED_NAME ==> BackupOf(n) in j.snapshot)
    {
      ListedIsSnapshotted(b, w, n);
    }
    hide Recoverable, Listed;
  }

  lemma FileEffectKeepsRecoverable(b: World, w: World, e: Effect)
    requires Recoverable(b, w) && Enabled(w, e)
    requires e.WriteFile? || e.MoveFile? || e.RestoreFile? || e.DropFile?
    ensures Recoverable(b, Apply(w, e))
  {
    PersistableIsSnapshotted(b, w);
    hide PersistablePaths, SnapshotPaths, IsFree;
  }

  lemma LiveEffectKeepsRecoverable(b: World, w: World, e: Effect)
    requires Recoverable(b, w) && Enabled(w, e)
    requires e.AddAddress? || e.AddRoute? || e.AddRule? || e.DeleteRule? || e.FlushTable? || e.DeleteAddress?
    ensures Recoverable(b, Apply(w, e))
  {
    hide PersistablePaths, SnapshotPaths;
  }

  /** Files in the snapshot are as they were there, the others never changed. */
  lemma RestoredFilesAreTheBaselines(b: World, w: World)
    requires Recoverable(b, w) && w.journal.Some? && IsRestored(w.files, w.journal.value.snapshot)
    ensures w.files == b.files
  {
    hide PersistablePaths, SnapshotPaths, IsFree;
    var j := w.journal.value;
    forall p ensures Snapshot(w.files, p) == Snapshot(b.files, p) {
      assert p in j.snapshot ==> Snapshot(w.files, p) == j.snapshot[p];
    }
    assert w.files.Keys == b.files.Keys by {
      forall p ensures p in w.files <==> p in b.files {
        assert Snapshot(w.files, p) == Snapshot(b.files, p);
      }
    }
    forall p | p in w.files ensures w.files[p] == b.files[p] {
      assert Snapshot(w.files, p) == Snapshot(b.files, p);
    }
  }

  lemma ClosingRestores(b: World, w: World)
    requires Recoverable(b, w) && Enabled(w, CloseJournal)
    ensures Apply(w, CloseJournal) == b
  {
    hide PersistablePaths, SnapshotPaths;
    RestoredFilesAreTheBaselines(b, w);
    assert w.addresses == b.addresses && w.rules == b.rules && w.routes == b.routes;
  }

  /** The invariant is kept by every effect, in whatever order effects come. */
  lemma EffectKeepsRecoverable(b: World, w: World, e: Effect)
    requires Recoverable(b, w) && Enabled(w, e)
    ensures Recoverable(b, Apply(w, e))
  {
    match e
    case OpenJournal(_) =>
    case MarkCommitted =>
      hide PersistablePaths, SnapshotPaths, IsFree;
      assert w.journal.value.(state := Committed).(state := Prepared) == w.journal.value.(state := Prepared);
    case CloseJournal => ClosingRestores(b, w);
    case WriteFile(_, _) => FileEffectKeepsRecoverable(b, w, e);
    case MoveFile(_, _) => FileEffectKeepsRecoverable(b, w, e);
    case RestoreFile(_) => FileEffectKeepsRecoverable(b, w, e);
    case DropFile(_) => FileEffectKeepsRecoverable(b, w, e);
    case _ => LiveEffectKeepsRecoverable(b, w, e);
  }

  lemma StepKeepsRecoverable(b: World, w: World, v: World)
    requires Recoverable(b, w) && Next(w, v)
    ensures Recoverable(b, v)
  {
    hide Recoverable, EnabledUnder, PersistablePaths;
    var e :| Enabled(w, e) && Apply(w, e) == v;
    EffectKeepsRecoverable(b, w, e);
  }

  /** Over any run from the baseline or from a recoverable world, interrupted anywhere:
      every world is recoverable, no address that was live is ever missing, and whenever
      anything differs from the baseline the journal is there. */
  lemma {:induction false} RunStaysRecoverable(b: World, worlds: seq<World>, i: nat)
    requires IsRun(worlds) && Recoverable(b, worlds[0]) && i < |worlds|
    ensures Recoverable(b, worlds[i])
    ensures b.addresses <= worlds[i].addresses
    ensures worlds[i] != b ==> worlds[i].journal.Some?
  {
    hide Next, Captures;
    if i != 0 {
      RunStaysRecoverable(b, worlds, i - 1);
      StepKeepsRecoverable(b, worlds[i - 1], worlds[i]);
    }
  }

  /** Whatever baseline w can be taken back to, v can be. */
  ghost predicate Keeps(w: World, v: World) {
    forall b :: Recoverable(b, w) ==> Recoverable(b, v)
  }

  lemma EffectKeeps(w: World, e: Effect)
    requires Enabled(w, e)
    ensures Keeps(w, Apply(w, e))
  {
    forall b | Recoverable(b, w) ensures Recoverable(b, Apply(w, e)) {
      EffectKeepsRecoverable(b, w, e);
    }
  }

  /** Once the commands of the cleanup have had their effect, verification finds nothing. */
  lemma CleanupSuffices(b: World, w: World, v: World)
    requires Recoverable(b, w) && w.journal.Some?
    requires v.addresses == w.addresses - w.journal.value.added
    requires forall r :: r in v.rules ==>
               r in w.rules && (r.family in w.journal.value.tables ==> r != RuleOf(w.journal.value, r.family))
    requires forall r :: r in v.routes ==>
               !(r.family in w.journal.value.tables && r.table == w.journal.value.tables[r.family])
    ensures IsClean(v, w.journal.value)
  {
    hide SnapshotPaths;
  }

  lemma SnapshotPathsAreAllowed(backend: Backend, files: Files)
    ensures forall p :: p in SnapshotPaths(backend, files) ==> IsAllowed(backend, p)
    ensures RequiredPaths(backend) <= SnapshotPaths(backend, files)
  {
    forall n ensures HasSuffix(WithoutSuffix(n) + BACKUP_SUFFIX) {
      SuffixRestored(WithoutSuffix(n));
    }
    hide HasSuffix, WithoutSuffix, IsVisible;
  }

  /** The loader accepts the journal of every recoverable world: abort never refuses the
      record that prepare wrote. */
  lemma OwnJournalLoads(b: World, w: World)
    requires Recoverable(b, w) && w.journal.Some?
    ensures LoaderAccepts(w.journal.value)
  {
    SnapshotPathsAreAllowed(w.journal.value.request.backend, b.files);
    hide SnapshotPaths, HasSuffix, IsFree;
  }

  // ---------------------------------------------------------------------------
  // Stanzas
  // ---------------------------------------------------------------------------

  /** What `_strip_ifupdown_stanzas` keeps, from a line on, inside a dropped stanza or not. */
  function Stripped(lines: Text, skipping: bool): Text {
    if lines == [] then []
    else if skipping && (lines[0].blank || lines[0].indented) then Stripped(lines[1..], true)
    else if lines[0].stanza then Stripped(lines[1..], true)
    else [lines[0]] + Stripped(lines[1..], false)
  }

  predicate HasStanza(lines: Text) {
    exists i :: 0 <= i < |lines| && lines[i].stanza
  }

  /** `_strip_ifupdown_stanzas` */
  method StripStanzas(lines: Text) returns (output: Text)
    ensures output == Stripped(lines, false)
  {
    output := [];
    var skipping := false;
    assert lines[0..] == lines;
    for i := 0 to |lines|
      invariant output + Stripped(lines[i..], skipping) == Stripped(lines, false)
    {
      var line, rest := lines[i], lines[i + 1..];
      assert lines[i..][1..] == rest && lines[i..][0] == line;
      ghost var before := output;
      if skipping {
        if line.blank || line.indented {
          continue;
        }
        skipping := false;
      }
      if line.stanza {
        skipping := true;
        continue;
      }
      output := output + [line];
      assert before + ([line] + Stripped(rest, false)) == output + Stripped(rest, false);
    }
    assert lines[|lines|..] == [];
  }

  function TopLevel(lines: Text): Text {
    if lines == [] then []
    else if lines[0].blank || lines[0].indented || lines[0].stanza then TopLevel(lines[1..])
    else [lines[0]] + TopLevel(lines[1..])
  }

  /** No stanza of the interface is left, stripping again changes nothing, and every other
      top-level line stays, in order. */
  lemma {:induction false} StrippedFacts(lines: Text, skipping: bool)
    ensures !HasStanza(Stripped(lines, skipping))
    ensures Stripped(Stripped(lines, skipping), false) == Stripped(lines, skipping)
    ensures TopLevel(Stripped(lines, skipping)) == TopLevel(lines)
  {
    if lines != [] {
      var more := (skipping && (lines[0].blank || lines[0].indented)) || lines[0].stanza;
      StrippedFacts(lines[1..], more);
      if !more {
        assert ([lines[0]] + Stripped(lines[1..], false))[1..] == Stripped(lines[1..], false);
      }
    }
  }

  /** The file keeps everything when it has no stanza of the interface. */
  lemma {:induction false} NothingStripped(lines: Text)
    requires !HasStanza(lines)
    ensures Stripped(lines, false) == lines
  {
    if lines != [] {
      assert !HasStanza(lines[1..]) by {
        forall i | 0 <= i < |lines[1..]| ensures !lines[1..][i].stanza {
          assert lines[1..][i] == lines[i + 1];
        }
      }
      NothingStripped(lines[1..]);
    }
  }

  /** Line i belongs to a stanza of the interface: a header, or a blank or indented line
      right below one. `skipping` says so of the line above the first. */
  predicate IsDropped(lines: Text, skipping: bool, i: nat)
    requires i < |lines|
  {
    lines[i].stanza
    || ((lines[i].blank || lines[i].indented) && if i == 0 then skipping else IsDropped(lines, skipping, i - 1))
  }

  lemma {:induction false} DroppedBelow(lines: Text, skipping: bool, i: nat)
    requires i + 1 < |lines|
    ensures IsDropped(lines[1..], IsDropped(lines, skipping, 0), i) == IsDropped(lines, skipping, i + 1)
  {
    if i != 0 {
      DroppedBelow(lines, skipping, i - 1);
    }
  }

  /** A source line is left exactly when one was outside the stanzas. */
  lemma {:induction false} IncludeSurvives(lines: Text, skipping: bool)
    ensures HasInclude(Stripped(lines, skipping)) <==>
              exists i :: 0 <= i < |lines| && lines[i].sources && !IsDropped(lines, skipping, i)
  {
    if lines != [] {
      var dropped := IsDropped(lines, skipping, 0);
      var rest := lines[1..];
      IncludeSurvives(rest, dropped);
      forall i | 0 <= i < |rest| ensures IsDropped(rest, dropped, i) == IsDropped(lines, skipping, i + 1) {
        DroppedBelow(lines, skipping, i);
      }
      assert Stripped(lines, skipping) == (if dropped then [] else [lines[0]]) + Stripped(rest, dropped);
      IncludeInParts(if dropped then [] else [lines[0]], Stripped(rest, dropped));
      assert (exists i :: 0 <= i < |lines| && lines[i].sources && !IsDropped(lines, skipping, i)) ==
             ((lines[0].sources && !dropped) ||
              exists i :: 0 <= i < |rest| && rest[i].sources && !IsDropped(rest, dropped, i)) by {
        assert forall i :: 0 <= i < |rest| ==> rest[i] == lines[i + 1];
        assert forall i :: 0 < i < |lines| ==> lines[i] == rest[i - 1];
      }
    }
  }

  lemma IncludeInParts(a: Text, b: Text)
    ensures HasInclude(a + b) <==> HasInclude(a) || HasInclude(b)
  {
    if HasInclude(b) {
      var i :| 0 <= i < |b| && b[i].sources;
      assert (a + b)[|a| + i].sources;
    }
    if HasInclude(a) {
      var i :| 0 <= i < |a| && a[i].sources;
      assert (a + b)[i].sources;
    }
  }

  // ---------------------------------------------------------------------------
  // The machine
  // ---------------------------------------------------------------------------

  datatype Error =
    | InvalidJournal | Conflict | NotAFile | NoTable | CommandFailed | CleanupIncomplete | NotCommitted
    | ManagedBridge

  /** The `ip` commands of prepare, in order. */
  function LiveCommands(j: Journal): seq<Effect> {
    AddressCommands(j, V4) + AddressCommands(j, V6) + RoutingCommands(j, V4) + RoutingCommands(j, V6)
  }

  function AddressCommands(j: Journal, f: Family): seq<Effect> {
    if f in j.request.addresses && Address(f, j.request.addresses[f]) in j.added
    then [AddAddress(Address(f, j.request.addresses[f]))] else []
  }

  function RoutingCommands(j: Journal, f: Family): seq<Effect> {
    if f in j.tables && f in j.request.addresses && f in j.request.gateways then
      [AddRoute(Route(f, j.tables[f], Some(j.request.addresses[f]))), AddRoute(Route(f, j.tables[f], None)), AddRule(f)]
    else []
  }

  /** A command of prepare that the journal covers. */
  predicate IsLive(j: Journal, e: Effect) {
    match e
    case AddAddress(a) => a in j.added
    case AddRoute(r) => r.family in j.tables && r.table == j.tables[r.family]
    case AddRule(f) => f in j.tables && f in j.request.addresses
    case _ => false
  }

  predicate IsInEffect(w: World, j: Journal, e: Effect) {
    match e
    case AddAddress(a) => a in w.addresses
    case AddRoute(r) => r in w.routes
    case AddRule(f) => f in j.tables && f in j.request.addresses && RuleOf(j, f) in w.rules
    case _ => false
  }

  lemma LiveCommandsAreLive(j: Journal)
    ensures forall e :: e in LiveCommands(j) ==> IsLive(j, e)
  {}

  /** Traffic from the new address has its rule, and its table the network and a default route. */
  predicate IsRouted(w: World, j: Journal, f: Family) {
    && f in j.tables && f in j.request.addresses && RuleOf(j, f) in w.rules
    && Route(f, j.tables[f], Some(j.request.addresses[f])) in w.routes && Route(f, j.tables[f], None) in w.routes
  }

  /** The commands add exactly what the request asks for and was not there. */
  lemma CommandsSuffice(start: World, w: World, j: Journal)
    requires IsValid(j.request) && j.added == Wanted(j.request) - start.addresses
    requires j.tables.Keys == j.request.gateways.Keys
    requires start.addresses <= w.addresses
    requires forall e :: e in LiveCommands(j) ==> IsInEffect(w, j, e)
    ensures Wanted(j.request) <= w.addresses
    ensures forall f :: f in j.request.gateways ==> IsRouted(w, j, f)
  {
    forall f | f in j.request.addresses && Address(f, j.request.addresses[f]) in j.added
      ensures Address(f, j.request.addresses[f]) in w.addresses
    {
      assert AddressCommands(j, f)[0] == AddAddress(Address(f, j.request.addresses[f]));
      assert f == V4 || f == V6;
      assert AddressCommands(j, f)[0] in LiveCommands(j);
    }
    forall f | f in j.request.gateways ensures IsRouted(w, j, f) {
      var commands := RoutingCommands(j, f);
      assert commands[0] == AddRoute(Route(f, j.tables[f], Some(j.request.addresses[f])));
      assert commands[1] == AddRoute(Route(f, j.tables[f], None)) && commands[2] == AddRule(f);
      assert f == V4 || f == V6;
      assert commands[0] in LiveCommands(j) && commands[1] in LiveCommands(j) && commands[2] in LiveCommands(j);
    }
  }

  lemma OneWorldIsARun(w: World)
    ensures IsRun([w])
  {}

  const DEFAULT_TEXT: Text := [Line("auto lo", false, false, false, false),
                               Line("iface lo inet loopback", false, false, false, false)]
  const BLANK_LINE := Line("", true, false, false, false)
  const SOURCE_LINE := Line("source /etc/network/interfaces.d/*", false, false, false, true)

  /** `content.rstrip()` */
  function RStrip(lines: Text): Text {
    if lines == [] || !lines[|lines| - 1].blank then lines else RStrip(lines[..|lines| - 1])
  }

  predicate HasInclude(lines: Text) {
    exists i :: 0 <= i < |lines| && lines[i].sources
  }

  /** The ifupdown files that can hold a foreign stanza. */
  predicate IsConfig(p: Path) {
    p == Main || (p.InDir? && p != Managed() && IsVisible(p.name) && !HasSuffix(p.name))
  }

  /** The files after one `_write_with_backup`. */
  function Rewritten(files: Files, p: Path, text: Text): Files
    requires Exists(files, p) ==> IsFile(files, p)
  {
    if !Exists(files, p) then files[p := Regular(text, FILE_MODE)]
    else
      var kept := if Exists(files, BackupPath(p)) then files else files[BackupPath(p) := Read(files, p)];
      kept[p := Regular(text, Read(files, p).mode)]
  }

  /** The present content is in the backup afterwards, unless there was another one before;
      one that an interrupted copy left empty or incomplete counts as well. */
  lemma ContentIsBackedUp(files: Files, p: Path, text: Text)
    requires (p == Main || p.InDir?) && IsFile(files, p)
    ensures BackupPath(p) in Rewritten(files, p, text)
    ensures Rewritten(files, p, text)[BackupPath(p)] == Read(files, p)
       <==> (Exists(files, BackupPath(p)) ==> files[BackupPath(p)] == Read(files, p))
  {}

  /** So a copy that is cut short and tried again loses the first content from the backup. */
  lemma TornBackupIsKept(files: Files, p: Path, text: Text)
    requires (p == Main || p.InDir?) && IsFile(files, p) && !Exists(files, BackupPath(p))
    requires Read(files, p).text != []
    ensures var torn := files[BackupPath(p) := Regular([], FILE_MODE)];
            && IsFile(torn, p)
            && Rewritten(torn, p, text)[BackupPath(p)] == Regular([], FILE_MODE) != Read(files, p)
  {
    ContentIsBackedUp(files[BackupPath(p) := Regular([], FILE_MODE)], p, text);
  }

  /** Backups of earlier versions, inside the directory that is sourced. */
  function OldBackups(files: Files): set<string> {
    set n | n in Listed(files) && HasSuffix(n)
  }

  /** The files in `moved`, and only they, are now in the backup directory. */
  ghost predicate AreRelocated(before: Files, after: Files, moved: set<string>) {
    && (forall n :: n in moved ==>
          InDir(n) in before && InDir(n) !in after && Backup(n) !in before
          && Snapshot(after, Backup(n)) == Snapshot(before, InDir(n)))
    && (forall p: Path :: (p.InDir? || p.Backup? ==> p.name !in moved) ==> Snapshot(after, p) == Snapshot(before, p))
    && (forall n :: n in moved ==> before[InDir(n)].Regular?)
  }

  lemma NoneRelocated(files: Files)
    ensures AreRelocated(files, files, {})
  {}

  lemma NotYetRelocated(before: Files, after: Files, moved: set<string>, n: string)
    requires AreRelocated(before, after, moved) && n !in moved
    ensures Snapshot(after, InDir(n)) == Snapshot(before, InDir(n))
    ensures Snapshot(after, Backup(n)) == Snapshot(before, Backup(n))
  {}

  lemma RelocatedStep(before: Files, after: Files, moved: set<string>, n: string)
    requires AreRelocated(before, after, moved) && n !in moved
    requires InDir(n) in after && after[InDir(n)].Regular? && Backup(n) !in after
    ensures AreRelocated(before, (after - {InDir(n)})[Backup(n) := after[InDir(n)]], moved + {n})
  {
    NotYetRelocated(before, after, moved, n);
  }

  lemma OldBackupIsPersistable(files: Files, n: string)
    requires n in OldBackups(files) && InDir(n) in files && files[InDir(n)].Regular?
    ensures {InDir(n), Backup(n)} <= PersistablePaths(IfupdownBackend, files)
  {
    assert !HasSuffix(MANAGED_NAME);
    hide HasSuffix, IsVisible;
    assert n in Listed(files) && BackupOf(n) == Backup(n);
  }

  lemma BackupOfOldBackup(n: string)
    requires HasSuffix(n)
    ensures BackupPath(InDir(WithoutSuffix(n))) == Backup(n) == BackupOf(n)
  {
    SuffixRestored(n);
  }

  predicate HasReadableMain(files: Files) {
    Exists(files, Main) ==> IsFile(files, Main)
  }

  function MainText(files: Files): Text
    requires HasReadableMain(files)
  {
    if Exists(files, Main) then Read(files, Main).text else DEFAULT_TEXT
  }

  /** The content with the source line after it. */
  function Included(lines: Text): Text {
    var kept := RStrip(lines);
    (if kept == [] then [BLANK_LINE] else kept) + [BLANK_LINE, SOURCE_LINE]
  }

  function Including(files: Files): Files
    requires HasReadableMain(files)
  {
    var content := MainText(files);
    if HasInclude(content) then files else Rewritten(files, Main, Included(content))
  }

  /** What ifupdown reads: the main file and the visible entries of the directory. */
  function Sourced(files: Files): set<Path> {
    {Main} + set n | n in Listed(files) :: InDir(n)
  }

  /** One configuration file has lost its stanzas of the interface, and its first content
      is in its backup. */
  ghost predicate IsStripped(before: Files, after: Files, p: Path) {
    var b := BackupPath(p);
    if !IsFile(before, p) || Stripped(Read(before, p).text, false) == Read(before, p).text then
      Snapshot(after, p) == Snapshot(before, p) && Snapshot(after, b) == Snapshot(before, b)
    else
      && Snapshot(after, p) == Some(Regular(Stripped(Read(before, p).text, false), Read(before, p).mode))
      && Snapshot(after, b) == if Exists(before, b) then Snapshot(before, b) else Some(Read(before, p))
  }

  ghost predicate IsSame(before: Files, after: Files, p: Path) {
    Snapshot(after, p) == Snapshot(before, p) && Snapshot(after, BackupPath(p)) == Snapshot(before, BackupPath(p))
  }

  /** The configuration files in `done` are stripped, nothing else has changed. */
  ghost predicate AreStripped(before: Files, after: Files, done: set<Path>) {
    && (forall p :: IsConfig(p) ==> if p in done then IsStripped(before, after, p) else IsSame(before, after, p))
    && (forall p :: !IsConfig(p) && !p.Backup? && p != MainBackup ==> Snapshot(after, p) == Snapshot(before, p))
    && (forall p: Path :: (p.Backup? || p == MainBackup) && Exists(before, p) ==>
          Snapshot(after, p) == Snapshot(before, p))
  }

  lemma NoneStripped(files: Files)
    ensures AreStripped(files, files, {})
  {}

  lemma BackupPathsDiffer(p: Path, q: Path)
    requires IsConfig(p) && IsConfig(q) && p != q
    ensures BackupPath(p) != BackupPath(q) && BackupPath(p) != q && BackupPath(q) != p
  {
    hide HasSuffix, IsVisible;
    if p.InDir? && q.InDir? {
      var a, b := p.name + BACKUP_SUFFIX, q.name + BACKUP_SUFFIX;
      assert p.name == a[..|a| - |BACKUP_SUFFIX|] && q.name == b[..|b| - |BACKUP_SUFFIX|];
    }
  }

  /** What one round of `_remove_existing_ifupdown_stanzas` does to the files. */
  function StrippedFile(files: Files, p: Path): Files {
    if IsConfig(p) && IsFile(files, p) && Stripped(Read(files, p).text, false) != Read(files, p).text
    then Rewritten(files, p, Stripped(Read(files, p).text, false)) else files
  }

  lemma StrippedStep(before: Files, after: Files, done: set<Path>, p: Path)
    requires AreStripped(before, after, done) && p !in done
    ensures AreStripped(before, StrippedFile(after, p), done + {p})
  {
    hide Stripped, HasSuffix, IsVisible;
    var last := StrippedFile(after, p);
    forall q | IsConfig(q) && q != p
      ensures q in done ==> IsStripped(before, last, q)
      ensures q !in done ==> IsSame(before, last, q)
    {
      if IsConfig(p) {
        BackupPathsDiffer(p, q);
      }
    }
    if IsConfig(p) {
      assert IsSame(before, after, p);
      assert IsStripped(before, last, p);
    }
  }

  predicate IsSourced(p: Path) { p == Main || (p.InDir? && IsVisible(p.name)) }

  const CLOUD_TEXT: Text := [Line("# Managed by basaltwater", false, false, false, false),
                             Line("network: {config: disabled}", false, false, false, false)]

  function WithInclude(lines: Text): Text {
    if HasInclude(lines) then lines else Included(lines)
  }

  /** The managed file holds the request; no other file that ifupdown reads has a stanza of
      the interface; the other configuration files have lost nothing else. */
  ghost predicate IsConfigured(before: Files, after: Files, text: Text) {
    && Snapshot(after, Managed()) == Some(Regular(text, FILE_MODE))
    && (forall p :: IsSourced(p) && p != Managed() && IsFile(after, p) ==> !HasStanza(Read(after, p).text))
    && HasReadableMain(before) && IsFile(after, Main)
    && Read(after, Main).text == Stripped(WithInclude(MainText(before)), false)
    && (forall p :: IsConfig(p) && p != Main && IsFile(before, p) ==>
          IsFile(after, p) && Read(after, p).text == Stripped(Read(before, p).text, false)
          && Read(after, p).mode == Read(before, p).mode)
    && (forall n :: n in OldBackups(before) ==>
          InDir(n) !in after && Snapshot(after, Backup(n)) == Snapshot(before, InDir(n)))
  }

  ghost predicate IsPersisted(before: Files, after: Files, request: Request, cloudInit: bool) {
    && (cloudInit ==> Snapshot(after, CloudInit) == Some(Regular(CLOUD_TEXT, FILE_MODE)))
    && (!cloudInit ==> Snapshot(after, CloudInit) == Snapshot(before, CloudInit))
    && match request.backend
       case NetworkdBackend => Snapshot(after, Networkd) == Some(Regular(request.text, FILE_MODE))
       case IfupdownBackend => IsConfigured(before, after, request.text)
  }

  lemma FixedPathsArePersistable(backend: Backend, files: Files)
    ensures RequiredPaths(backend) <= PersistablePaths(backend, files)
  {
    hide HasSuffix, IsVisible;
  }

  lemma CloudInitIsApart(before: Files, after: Files, text: Text)
    ensures IsConfigured(before, after, text) ==>
              IsConfigured(before, after[CloudInit := Regular(CLOUD_TEXT, FILE_MODE)], text)
  {
    hide HasSuffix, IsVisible, HasStanza, Stripped, WithInclude, OldBackups;
  }

  lemma IncludingChangesMain(files: Files)
    requires HasReadableMain(files)
    ensures IsFile(Including(files), Main) && Read(Including(files), Main).text == WithInclude(MainText(files))
    ensures forall p :: p != Main && p != MainBackup ==> Snapshot(Including(files), p) == Snapshot(files, p)
  {
    hide RStrip;
    assert !HasInclude(DEFAULT_TEXT);
  }

  lemma ConfigAfterStripping(before: Files, after: Files, p: Path)
    requires AreStripped(before, after, Sourced(before)) && IsConfig(p)
    ensures IsFile(after, p) == IsFile(before, p)
    ensures IsFile(before, p) ==>
              && Read(after, p).text == Stripped(Read(before, p).text, false)
              && Read(after, p).mode == Read(before, p).mode
  {
    hide HasSuffix, IsVisible, Stripped;
    if p in Sourced(before) {
      assert IsStripped(before, after, p);
    } else {
      assert IsSame(before, after, p) && p !in before;
    }
  }

  /** Nothing that ifupdown reads, except the managed file, has a stanza left. */
  lemma NoStanzaIsLeft(before: Files, managed: Files, after: Files, p: Path)
    requires forall n :: n in OldBackups(before) ==> InDir(n) !in managed
    requires p != Main && p != Managed() ==> (p in managed ==> p in before)
    requires AreStripped(managed, after, Sourced(managed))
    requires IsSourced(p) && p != Managed() && IsFile(after, p)
    ensures !HasStanza(Read(after, p).text)
  {
    if IsConfig(p) {
      ConfigAfterStripping(managed, after, p);
      StrippedFacts(Read(managed, p).text, false);
    }
  }

  /** The steps of `_configure_ifupdown` together. */
  lemma ConfigurationIsComplete(before: Files, relocated: Files, included: Files, managed: Files, after: Files,
                                text: Text)
    requires AreRelocated(before, relocated, OldBackups(before))
    requires HasReadableMain(relocated) && included == Including(relocated)
    requires managed == included[Managed() := Regular(text, FILE_MODE)]
    requires AreStripped(managed, after, Sourced(managed))
    ensures IsConfigured(before, after, text)
    ensures Snapshot(after, CloudInit) == Snapshot(before, CloudInit)
  {
    hide HasStanza, Stripped, WithInclude, Including, Sourced, HasSuffix, IsVisible;
    IncludingChangesMain(relocated);
    assert Snapshot(relocated, Main) == Snapshot(before, Main);
    assert MainText(relocated) == MainText(before);
    assert !IsConfig(Managed());
    forall p | IsConfig(p)
      ensures IsFile(after, p) == IsFile(managed, p)
      ensures IsFile(managed, p) ==>
                && Read(after, p).text == Stripped(Read(managed, p).text, false)
                && Read(after, p).mode == Read(managed, p).mode
    {
      ConfigAfterStripping(managed, after, p);
    }
    forall n | n in OldBackups(before)
      ensures InDir(n) !in managed && InDir(n) !in after
      ensures Snapshot(after, Backup(n)) == Snapshot(before, InDir(n))
    {
      OldBackupIsNoConfig(before, n);
      assert Snapshot(managed, InDir(n)) == Snapshot(relocated, InDir(n));
      assert Snapshot(after, InDir(n)) == Snapshot(managed, InDir(n));
      assert Snapshot(managed, Backup(n)) == Snapshot(relocated, Backup(n));
    }
    forall p | IsSourced(p) && p != Managed() && IsFile(after, p)
      ensures !HasStanza(Read(after, p).text)
    {
      assert p != Main ==> Snapshot(managed, p) == Snapshot(relocated, p);
      NoStanzaIsLeft(before, managed, after, p);
    }
    forall p | IsConfig(p) && p != Main && IsFile(before, p)
      ensures IsFile(managed, p) && Read(managed, p) == Read(before, p)
    {
      ConfigIsNoOldBackup(before, p);
      assert Snapshot(managed, p) == Snapshot(relocated, p) == Snapshot(before, p);
    }
    hide AreRelocated, AreStripped;
  }

  lemma OldBackupIsNoConfig(files: Files, n: string)
    requires n in OldBackups(files)
    ensures !IsConfig(InDir(n)) && n != MANAGED_NAME
  {}

  lemma ConfigIsNoOldBackup(files: Files, p: Path)
    requires IsConfig(p) && p != Main
    ensures p.name !in OldBackups(files)
  {}

  /** The main file still reads the directory after persistence exactly when it had no source
      line before, or had one outside the stanzas that are dropped. */
  lemma IncludeIsKept(lines: Text)
    ensures HasInclude(Stripped(WithInclude(lines), false)) <==>
              !HasInclude(lines) || exists i :: 0 <= i < |lines| && lines[i].sources && !IsDropped(lines, false, i)
  {
    IncludeSurvives(WithInclude(lines), false);
    if !HasInclude(lines) {
      var all := Included(lines);
      assert all[|all| - 1] == SOURCE_LINE && !IsDropped(all, false, |all| - 1);
    }
  }

  /** The new main file, without the words of its definition: what was there up to the last line
      that is not blank, one blank line, and the source line. */
  lemma MainIsKept(lines: Text) returns (k: nat)
    requires !HasInclude(lines)
    ensures k <= |lines| && (k > 0 ==> !lines[k - 1].blank) && forall i :: k <= i < |lines| ==> lines[i].blank
    ensures WithInclude(lines)
         == (if k == 0 then [Line("", true, false, false, false)] else lines[..k])
            + [Line("", true, false, false, false),
               Line("source /etc/network/interfaces.d/*", false, false, false, true)]
  {
    k := LastText(lines);
  }

  lemma {:induction false} LastText(lines: Text) returns (k: nat)
    ensures k <= |lines| && (k > 0 ==> !lines[k - 1].blank) && forall i :: k <= i < |lines| ==> lines[i].blank
    ensures RStrip(lines) == lines[..k]
  {
    k := |lines|;
    if lines != [] && lines[|lines| - 1].blank {
      k := LastText(lines[..|lines| - 1]);
      assert lines[..|lines| - 1][..k] == lines[..k];
    } else {
      assert lines[..|lines|] == lines;
    }
  }

  lemma {:induction false} TopLevelParts(a: Text, b: Text)
    ensures TopLevel(a + b) == TopLevel(a) + TopLevel(b)
  {
    if a == [] {
      assert a + b == b;
    } else {
      assert (a + b)[1..] == a[1..] + b;
      TopLevelParts(a[1..], b);
    }
  }

  lemma {:induction false} BlanksHaveNoTop(lines: Text)
    requires forall i :: 0 <= i < |lines| ==> lines[i].blank
    ensures TopLevel(lines) == []
  {
    if lines != [] {
      BlanksHaveNoTop(lines[1..]);
    }
  }

  /** Every top-level line outside the stanzas stays, in order; the source line is added if there
      was none. */
  lemma TopLinesAreKept(lines: Text)
    ensures TopLevel(Stripped(WithInclude(lines), false))
         == TopLevel(lines) + if HasInclude(lines) then []
                              else [Line("source /etc/network/interfaces.d/*", false, false, false, true)]
  {
    StrippedFacts(WithInclude(lines), false);
    if !HasInclude(lines) {
      hide Stripped;
      var k := MainIsKept(lines);
      var blank := Line("", true, false, false, false);
      var added := [blank, Line("source /etc/network/interfaces.d/*", false, false, false, true)];
      TopLevelParts(lines[..k], lines[k..]);
      assert lines == lines[..k] + lines[k..];
      BlanksHaveNoTop(lines[k..]);
      BlanksHaveNoTop([blank]);
      TopLevelParts(if k == 0 then [blank] else lines[..k], added);
      assert TopLevel(added) == [added[1]] by {
        assert added[1..] == [added[1]] && added[1..][1..] == [];
      }
    }
  }

  /** So after persistence the main file has the top-level lines it had before, or those of the
      loopback interface if there was no main file. */
  lemma MainKeepsItsLines(before: Files, after: Files, text: Text)
    requires IsConfigured(before, after, text)
    ensures Exists(before, Main) && HasInclude(Read(before, Main).text) ==>
              TopLevel(Read(after, Main).text) == TopLevel(Read(before, Main).text)
    ensures Exists(before, Main) && !HasInclude(Read(before, Main).text) ==>
              TopLevel(Read(after, Main).text)
              == TopLevel(Read(before, Main).text)
                 + [Line("source /etc/network/interfaces.d/*", false, false, false, true)]
    ensures !Exists(before, Main) ==>
              TopLevel(Read(after, Main).text)
              == [Line("auto lo", false, false, false, false),
                  Line("iface lo inet loopback", false, false, false, false),
                  Line("source /etc/network/interfaces.d/*", false, false, false, true)]
  {
    hide HasSuffix, IsVisible, Stripped, WithInclude;
    TopLinesAreKept(MainText(before));
    if !Exists(before, Main) {
      var lo := Line("auto lo", false, false, false, false);
      var face := Line("iface lo inet loopback", false, false, false, false);
      assert MainText(before) == [lo, face] && [lo, face][1..] == [face] && [face][1..] == [];
      assert TopLevel([lo, face]) == [lo, face] && !HasInclude([lo, face]);
    }
  }

  /** A source line indented under a stanza of the interface passes for an include, and then
      goes with the stanza: the managed file is no longer read. */
  lemma IndentedIncludeIsLost(lines: Text)
    requires lines == [Line("iface eth0 inet dhcp", false, false, true, false),
                       Line("  source /etc/network/interfaces.d/*", false, true, false, true)]
    ensures HasInclude(lines) && WithInclude(lines) == lines
    ensures !HasInclude(Stripped(WithInclude(lines), false))
  {
    assert lines[1].sources;
    IncludeIsKept(lines);
    assert IsDropped(lines, false, 0) && IsDropped(lines, false, 1);
  }

  /** What prepare needs to find: a free table for every gateway, and no directory where a file is
      to be recorded. */
  ghost predicate CanPrepare(w: World, request: Request) {
    && (forall f :: f in request.gateways ==> exists t: nat :: FIRST_TABLE <= t < TABLE_END && IsFree(w, f, t))
    && forall p :: p in SnapshotPaths(request.backend, w.files) && p in w.files ==> !w.files[p].Directory?
  }

  /** What persistence needs to find: a readable main file, and backups that can be moved. */
  ghost predicate CanPersist(files: Files, backend: Backend) {
    backend == IfupdownBackend ==>
      && HasReadableMain(files)
      && forall n :: n in OldBackups(files) ==> files[InDir(n)].Regular? && Backup(n) !in files
  }

  lemma RelocationKeepsMain(before: Files, after: Files)
    requires AreRelocated(before, after, OldBackups(before))
    ensures HasReadableMain(before) <==> HasReadableMain(after)
  {
    hide HasSuffix, IsVisible;
    assert Snapshot(after, Main) == Snapshot(before, Main);
  }

  class Machine {
    var files: Files
    var addresses: set<Address>
    var rules: set<Rule>
    var routes: set<Route>
    var journal: Option<Journal>
    ghost var log: seq<World>

    function Now(): World
      reads this
    {
      World(files, addresses, rules, routes, journal)
    }

    ghost predicate Valid()
      reads this
    {
      IsRun(log) && log[|log| - 1] == Now()
    }

    constructor (w: World)
      ensures Valid() && Now() == w && log == [w]
    {
      files, addresses, rules, routes, journal := w.files, w.addresses, w.rules, w.routes, w.journal;
      log := [w];
    }

    /** One effect, and one point at which the process may die. */
    method Do(e: Effect)
      requires Valid() && Enabled(Now(), e)
      modifies this
      ensures Valid() && Now() == Apply(old(Now()), e) && log == old(log) + [Now()]
      ensures Keeps(old(Now()), Now())
    {
      hide Recoverable, EnabledUnder, PersistablePaths;
      ghost var before := Now();
      EffectKeeps(before, e);
      var w := Apply(Now(), e);
      files, addresses, rules, routes, journal := w.files, w.addresses, w.rules, w.routes, w.journal;
      log := log + [w];
      assert Next(before, w);
    }

    /** `_select_policy_table`: the least free table of the range. */
    method SelectPolicyTable(f: Family) returns (table: Option<nat>)
      ensures table.Some? ==>
                && FIRST_TABLE <= table.value < TABLE_END && IsFree(Now(), f, table.value)
                && forall t: nat :: FIRST_TABLE <= t < table.value ==> !IsFree(Now(), f, t)
      ensures table.None? ==> forall t: nat :: FIRST_TABLE <= t < TABLE_END ==> !IsFree(Now(), f, t)
    {
      var used := (set r | r in rules && r.family == f :: r.priority)
                  + (set r | r in rules && r.family == f :: r.table);
      for t := FIRST_TABLE to TABLE_END
        invariant forall u: nat :: FIRST_TABLE <= u < t ==> !IsFree(Now(), f, u)
      {
        if t in used {
          continue;
        }
        var inTable := set r | r in routes && r.family == f && r.table == t;
        if inTable == {} {
          assert forall r :: r in routes && r.family == f && r.table == t ==> r in inTable;
          return Some(t);
        }
        var r :| r in inTable;
      }
      return None;
    }

    /** `_capture_persistence_rollback` for the file backends. */
    method CaptureSnapshot(backend: Backend) returns (r: Result<map<Path, Option<Node>>, Error>)
      ensures r.Success? ==>
                && r.value.Keys == SnapshotPaths(backend, files)
                && forall p :: p in r.value ==>
                     r.value[p] == Snapshot(files, p) && (p in files ==> !files[p].Directory?)
      ensures r.Failure? ==> exists p :: p in SnapshotPaths(backend, files) && p in files && files[p].Directory?
    {
      var left := SnapshotPaths(backend, files);
      var taken: map<Path, Option<Node>> := map[];
      while left != {}
        invariant taken.Keys + left == SnapshotPaths(backend, files)
        invariant forall p :: p in taken ==>
                    taken[p] == Snapshot(files, p) && (p in files ==> !files[p].Directory?)
        decreases left
      {
        var p :| p in left;
        if p in files && files[p].Directory? {
          return Failure(NotAFile);
        }
        taken := taken[p := Snapshot(files, p)];
        left := left - {p};
      }
      return Success(taken);
    }

    /** `_restore_persistence_rollback`: files of the snapshot one by one. */
    method RestoreFiles(faulty: set<Path>) returns (r: Result<(), Error>)
      requires Valid() && journal.Some?
      modifies this
      ensures Valid() && old(log) <= log && Keeps(old(Now()), Now())
      ensures Now() == old(Now()).(files := files)
      ensures forall p :: p !in journal.value.snapshot ==> Snapshot(files, p) == Snapshot(old(files), p)
      ensures r.Success? ==> IsRestored(files, journal.value.snapshot)
      ensures r.Failure? ==> exists p :: p in journal.value.snapshot
                                         && (p in faulty || (p in old(files) && old(files)[p].Directory?))
    {
      hide Recoverable, PersistablePaths, IsRun, Captures;
      var snapshot := journal.value.snapshot;
      var left := snapshot.Keys;
      while left != {}
        invariant Valid() && old(log) <= log && Keeps(old(Now()), Now())
        invariant Now() == old(Now()).(files := files)
        invariant left <= snapshot.Keys
        invariant forall p :: p !in snapshot || p in left ==> Snapshot(files, p) == Snapshot(old(files), p)
        invariant forall p :: p in snapshot && p !in left ==> Snapshot(files, p) == snapshot[p]
        decreases left
      {
        var p :| p in left;
        assert Snapshot(files, p) == Snapshot(old(files), p);
        if p in faulty || (p in files && files[p].Directory?) {
          return Failure(NotAFile);
        }
        if snapshot[p].None? || snapshot[p].value.Link? {
          if p in files {
            Do(DropFile(p));
          }
        }
        if snapshot[p].Some? {
          Do(RestoreFile(p));
        }
        left := left - {p};
      }
      return Success(());
    }

    /** A command whose failure the code ignores. */
    method Try(e: Effect, stuck: set<Effect>)
      requires Valid() && Enabled(Now(), e)
      modifies this
      ensures Valid() && old(log) <= log && Keeps(old(Now()), Now())
      ensures Now() == if e in stuck then old(Now()) else Apply(old(Now()), e)
    {
      if e !in stuck {
        Do(e);
      }
    }

    /** The rule and routes part of `_remove_transition_live_state`; the commands in `stuck`
        fail without notice. */
    method RemovePolicies(stuck: set<Effect>)
      requires Valid() && journal.Some? && LoaderAccepts(journal.value)
      modifies this
      ensures Valid() && old(log) <= log && Keeps(old(Now()), Now())
      ensures journal == old(journal) && files == old(files) && addresses == old(addresses)
      ensures stuck == {} ==>
                forall r :: r in rules ==>
                  r in old(rules) && (r.family in journal.value.tables ==> r != RuleOf(journal.value, r.family))
      ensures stuck == {} ==>
                forall r :: r in routes ==>
                  !(r.family in journal.value.tables && r.table == journal.value.tables[r.family])
    {
      hide Recoverable, PersistablePaths, IsRun, Captures, RuleOf;
      var j := journal.value;
      var families := j.tables.Keys;
      while families != {}
        invariant Valid() && old(log) <= log && Keeps(old(Now()), Now())
        invariant families <= j.tables.Keys
        invariant journal == old(journal) && files == old(files) && addresses == old(addresses)
        invariant stuck == {} ==>
                    forall r :: r in rules ==>
                      r in old(rules) && (r.family in j.tables && r.family !in families ==> r != RuleOf(j, r.family))
        invariant stuck == {} ==>
                    forall r :: r in routes ==>
                      !(r.family in j.tables && r.family !in families && r.table == j.tables[r.family])
        decreases families
      {
        var f :| f in families;
        Try(DeleteRule(f), stuck);
        Try(FlushTable(f), stuck);
        families := families - {f};
      }
    }

    /** The address part of `_remove_transition_live_state`. */
    method DeleteAddresses(stuck: set<Effect>)
      requires Valid() && journal.Some?
      modifies this
      ensures Valid() && old(log) <= log && Keeps(old(Now()), Now())
      ensures Now() == old(Now()).(addresses := addresses)
      ensures stuck == {} ==> addresses == old(addresses) - journal.value.added
    {
      hide Recoverable, PersistablePaths, IsRun, Captures, RuleOf;
      var j := journal.value;
      var left := j.added;
      while left != {}
        invariant Valid() && old(log) <= log && Keeps(old(Now()), Now())
        invariant left <= j.added
        invariant Now() == old(Now()).(addresses := addresses)
        invariant stuck == {} ==> addresses == old(addresses) - (j.added - left)
        decreases left
      {
        var a :| a in left;
        Try(DeleteAddress(a), stuck);
        left := left - {a};
      }
    }

    /** `abort_network_transition`. From any world that a transition can be in, it restores
        the baseline or keeps the journal; with commands that work, it restores. */
    method Abort(faulty: set<Path>, stuck: set<Effect>) returns (r: Result<(), Error>)
      requires Valid()
      modifies this
      ensures Valid() && old(log) <= log && Keeps(old(Now()), Now())
      ensures forall b :: Recoverable(b, old(Now())) && r.Success? ==> Now() == b
      ensures forall b :: Recoverable(b, old(Now())) && faulty == {} && stuck == {} ==> r.Success?
      ensures r.Success? ==> journal == None
      ensures r.Failure? ==> journal == old(journal) && journal.Some?
    {
      hide PersistablePaths, IsRun, SnapshotPaths;
      if journal.None? {
        return Success(());
      }
      var j := journal.value;
      forall b | Recoverable(b, Now()) ensures LoaderAccepts(j) {
        OwnJournalLoads(b, Now());
      }
      if !LoaderAccepts(j) {
        return Failure(InvalidJournal);
      }
      hide LoaderAccepts, Captures;
      r := RestoreFiles(faulty);
      if r.Failure? {
        return;
      }
      ghost var restored := Now();
      RemovePolicies(stuck);
      DeleteAddresses(stuck);
      forall b | Recoverable(b, old(Now())) && stuck == {} ensures IsClean(Now(), j) {
        CleanupSuffices(b, restored, Now());
      }
      if !IsClean(Now(), j) {
        return Failure(CleanupIncomplete);
      }
      Do(CloseJournal);
    }

    /** The command loop of prepare: the first command in `failing` ends it. */
    method RunCommands(commands: seq<Effect>, failing: set<Effect>) returns (ok: bool)
      requires Valid() && journal.Some?
      requires forall e :: e in commands ==> IsLive(journal.value, e)
      modifies this
      ensures Valid() && old(log) <= log && Keeps(old(Now()), Now())
      ensures journal == old(journal) && files == old(files)
      ensures old(addresses) <= addresses && old(rules) <= rules && old(routes) <= routes
      ensures ok <==> forall e :: e in commands ==> e !in failing
      ensures ok ==> forall e :: e in commands ==> IsInEffect(Now(), journal.value, e)
    {
      hide Recoverable, PersistablePaths, IsRun, Captures;
      for i := 0 to |commands|
        invariant Valid() && old(log) <= log && Keeps(old(Now()), Now())
        invariant journal == old(journal) && files == old(files)
        invariant old(addresses) <= addresses && old(rules) <= rules && old(routes) <= routes
        invariant forall k :: 0 <= k < i ==> commands[k] !in failing && IsInEffect(Now(), journal.value, commands[k])
      {
        var e := commands[i];
        assert e in commands;
        if e in failing {
          return false;
        }
        Do(e);
      }
      return true;
    }

    method SelectTables(gateways: set<Family>) returns (r: Option<map<Family, nat>>)
      ensures r.Some? ==>
                && r.value.Keys == gateways
                && forall f :: f in gateways ==>
                     FIRST_TABLE <= r.value[f] < TABLE_END && IsFree(Now(), f, r.value[f])
      ensures r.None? ==>
                exists f :: f in gateways && forall t: nat :: FIRST_TABLE <= t < TABLE_END ==> !IsFree(Now(), f, t)
    {
      hide IsFree;
      var tables: map<Family, nat> := map[];
      var left := [V4, V6];
      assert left[0] == V4 && left[1] == V6;
      assert forall f :: f in gateways ==> f in left by {
        forall f | f in gateways ensures f in left {
          assert f == V4 || f == V6;
        }
      }
      while left != []
        invariant forall f :: f in gateways ==> f in tables || f in left
        invariant forall f :: f in tables ==> f in gateways
        invariant forall f :: f in tables ==> FIRST_TABLE <= tables[f] < TABLE_END && IsFree(Now(), f, tables[f])
      {
        var f := left[0];
        if f in gateways {
          var table := SelectPolicyTable(f);
          if table.None? {
            return None;
          }
          tables := tables[f := table.value];
        }
        left := left[1..];
      }
      return Some(tables);
    }

    /** The part of prepare before the first live change: on failure nothing has happened. */
    method WriteJournal(request: Request) returns (r: Result<(), Error>)
      requires Valid() && journal.None? && IsValid(request)
      modifies this
      ensures Valid() && old(log) <= log && Keeps(old(Now()), Now())
      ensures Now() == old(Now()).(journal := journal)
      ensures r.Success? ==> journal.Some? && journal.value.request == request && Captures(old(Now()), journal.value)
      ensures r.Failure? ==> Now() == old(Now())
      ensures CanPrepare(old(Now()), request) ==> r.Success?
    {
      hide PersistablePaths, IsRun, SnapshotPaths, IsFree, Recoverable;
      var tables := SelectTables(request.gateways.Keys);
      if tables.None? {
        return Failure(NoTable);
      }
      var snapshot := CaptureSnapshot(request.backend);
      if snapshot.Failure? {
        return Failure(snapshot.error);
      }
      Do(OpenJournal(Journal(Prepared, request, Wanted(request) - addresses, tables.value, snapshot.value)));
      return Success(());
    }

    /** `_prepare_live_network_transition`. Commands in `failing` are refused, after which the
        transition is aborted. */
    method Prepare(request: Request, failing: set<Effect>, faulty: set<Path>, stuck: set<Effect>)
      returns (r: Result<(), Error>)
      requires Valid() && IsValid(request)
      modifies this
      ensures Valid() && old(log) <= log && Keeps(old(Now()), Now())
      ensures r.Success? ==>
                && journal.Some? && journal.value.request == request && journal.value.state == Prepared
                && Wanted(request) <= addresses
                && forall f :: f in request.gateways ==> IsRouted(Now(), journal.value, f)
      ensures forall b :: Recoverable(b, old(Now())) && faulty == {} && stuck == {} && r.Failure? ==> Now() == b
      ensures old(journal).None? && failing == {} && CanPrepare(old(Now()), request) ==> r.Success?
      ensures failing == {} && faulty == {} && stuck == {} ==>
                forall b :: Recoverable(b, old(Now())) && CanPrepare(b, request) ==> r.Success?
    {
      hide PersistablePaths, IsRun, SnapshotPaths, LoaderAccepts, RuleOf;
      if journal.Some? {
        r := Abort(faulty, stuck);
        if r.Failure? {
          return;
        }
      }
      ghost var start := Now();
      r := WriteJournal(request);
      if r.Failure? {
        return;
      }
      hide Recoverable;
      LiveCommandsAreLive(journal.value);
      var ok := RunCommands(LiveCommands(journal.value), failing);
      if !ok {
        r := Abort(faulty, stuck);
        return Failure(CommandFailed);
      }
      CommandsSuffice(start, Now(), journal.value);
      return Success(());
    }

    /** `finalize_network_transition`: what is there becomes the next baseline. */
    method Finalize() returns (r: Result<(), Error>)
      requires Valid()
      modifies this
      ensures Valid()
      ensures Now() == old(Now()).(journal := journal)
      ensures r.Success? <==> old(journal).None?
                              || (LoaderAccepts(old(journal).value) && old(journal).value.state == Committed)
      ensures r.Success? ==> journal == None && Recoverable(Now(), Now())
      ensures r.Failure? ==> Now() == old(Now()) && log == old(log)
    {
      hide PersistablePaths, IsRun, SnapshotPaths;
      if journal.None? {
        return Success(());
      }
      if !LoaderAccepts(journal.value) {
        return Failure(InvalidJournal);
      }
      if journal.value.state != Committed {
        return Failure(NotCommitted);
      }
      journal := None;
      log := [Now()];
      OneWorldIsARun(Now());
      return Success(());
    }

    /** One write of persistence. */
    method Write(p: Path, node: Node, faulty: set<Path>) returns (r: Result<(), Error>)
      requires Valid() && Persisting(p) && node.Regular?
      modifies this
      ensures Valid() && old(log) <= log && Keeps(old(Now()), Now())
      ensures r.Success? <==> p !in faulty
      ensures Now() == if r.Success? then old(Now()).(files := old(files)[p := node]) else old(Now())
    {
      hide Recoverable, IsRun, PersistablePaths, Captures;
      if p in faulty {
        return Failure(CommandFailed);
      }
      Do(WriteFile(p, node));
      return Success(());
    }

    predicate Persisting(p: Path)
      reads this
    {
      journal.Some? && p in PersistablePaths(journal.value.request.backend, files)
    }

    /** The copy is no single step: between creating and filling the backup it is empty. */
    method CopyToBackup(p: Path, faulty: set<Path>) returns (r: Result<(), Error>)
      requires Valid() && journal.Some? && journal.value.request.backend == IfupdownBackend
      requires (p == Main || IsConfig(p)) && IsFile(files, p) && !Exists(files, BackupPath(p))
      modifies this
      ensures Valid() && old(log) <= log && Keeps(old(Now()), Now())
      ensures r.Success? <==> BackupPath(p) !in faulty
      ensures Now() == if r.Success? then old(Now()).(files := old(files)[BackupPath(p) := Read(old(files), p)])
                       else old(Now())
      ensures r.Success? ==>
                old(Now()).(files := old(files)[BackupPath(p) := Regular([], FILE_MODE)]) in log
    {
      hide Recoverable, IsRun, Captures, HasSuffix, IsVisible;
      var content := Read(files, p);
      r := Write(BackupPath(p), Regular([], FILE_MODE), faulty);
      if r.Failure? {
        return;
      }
      assert log[|log| - 1] == Now();
      r := Write(BackupPath(p), content, faulty);
    }

    /** `_write_with_backup`: the first content of the file is kept. */
    method WriteWithBackup(p: Path, text: Text, faulty: set<Path>) returns (r: Result<(), Error>)
      requires Valid() && journal.Some? && journal.value.request.backend == IfupdownBackend
      requires p == Main || (IsConfig(p) && IsFile(files, p))
      requires Exists(files, p) ==> IsFile(files, p)
      modifies this
      ensures Valid() && old(log) <= log && Keeps(old(Now()), Now())
      ensures Now() == old(Now()).(files := files)
      ensures r.Success? ==> files == Rewritten(old(files), p, text)
      ensures r.Failure? ==> p in faulty || BackupPath(p) in faulty
    {
      hide Recoverable, IsRun, Captures, HasSuffix, IsVisible;
      var mode := FILE_MODE;
      if Exists(files, p) {
        mode := Read(files, p).mode;
        if !Exists(files, BackupPath(p)) {
          r := CopyToBackup(p, faulty);
          if r.Failure? {
            return;
          }
        }
      }
      assert IsFile(files, p) == IsFile(old(files), p);
      r := Write(p, Regular(text, mode), faulty);
    }

    /** `_relocate_ifupdown_backups`: old backups leave the directory that is sourced. */
    method RelocateBackups(faulty: set<Path>) returns (r: Result<(), Error>)
      requires Valid() && journal.Some? && journal.value.request.backend == IfupdownBackend
      modifies this
      ensures Valid() && old(log) <= log && Keeps(old(Now()), Now())
      ensures Now() == old(Now()).(files := files)
      ensures r.Success? ==> AreRelocated(old(files), files, OldBackups(old(files)))
      ensures r.Failure? ==>
                exists n :: n in OldBackups(old(files))
                            && (InDir(n) in faulty || !old(files)[InDir(n)].Regular? || Backup(n) in old(files))
    {
      hide Recoverable, IsRun, Captures, HasSuffix, IsVisible, AreRelocated, PersistablePaths, BackupPath;
      var left := OldBackups(files);
      var found := left;
      NoneRelocated(files);
      assert found - left == {};
      while left != {}
        invariant Valid() && old(log) <= log && Keeps(old(Now()), Now())
        invariant Now() == old(Now()).(files := files)
        invariant left <= found == OldBackups(old(files))
        invariant AreRelocated(old(files), files, found - left)
        decreases left
      {
        var n :| n in left;
        var p := InDir(n);
        BackupOfOldBackup(n);
        var destination := BackupPath(InDir(WithoutSuffix(n)));
        NotYetRelocated(old(files), files, found - left, n);
        if p in faulty || files[p].Link? || !IsFile(files, p) || destination in files {
          return Failure(Conflict);
        }
        OldBackupIsPersistable(files, n);
        RelocatedStep(old(files), files, found - left, n);
        Do(MoveFile(p, destination));
        assert found - (left - {n}) == (found - left) + {n};
        left := left - {n};
      }
      assert found - left == found;
      return Success(());
    }

    /** `_ensure_ifupdown_include` */
    method EnsureInclude(faulty: set<Path>) returns (r: Result<(), Error>)
      requires Valid() && journal.Some? && journal.value.request.backend == IfupdownBackend
      modifies this
      ensures Valid() && old(log) <= log && Keeps(old(Now()), Now())
      ensures Now() == old(Now()).(files := files)
      ensures r.Success? ==> HasReadableMain(old(files)) && files == Including(old(files))
      ensures r.Failure? ==> !HasReadableMain(old(files)) || Main in faulty || MainBackup in faulty
    {
      hide Recoverable, IsRun, Captures, Rewritten, RStrip;
      if !HasReadableMain(files) {
        return Failure(NotAFile);
      }
      var content := MainText(files);
      if HasInclude(content) {
        return Success(());
      }
      r := WriteWithBackup(Main, Included(content), faulty);
    }

    /** `_remove_existing_ifupdown_stanzas` */
    method RemoveStanzas(faulty: set<Path>) returns (r: Result<(), Error>)
      requires Valid() && journal.Some? && journal.value.request.backend == IfupdownBackend
      modifies this
      ensures Valid() && old(log) <= log && Keeps(old(Now()), Now())
      ensures Now() == old(Now()).(files := files)
      ensures r.Success? ==> AreStripped(old(files), files, Sourced(old(files)))
      ensures faulty == {} ==> r.Success?
    {
      hide Recoverable, IsRun, Captures, Rewritten, HasSuffix, IsVisible, AreStripped, Listed, PersistablePaths;
      var left := Sourced(files);
      ghost var all := left;
      NoneStripped(files);
      assert all - left == {};
      while left != {}
        invariant Valid() && old(log) <= log && Keeps(old(Now()), Now())
        invariant Now() == old(Now()).(files := files)
        invariant left <= all
        invariant AreStripped(old(files), files, all - left)
        decreases left
      {
        var p :| p in left;
        ghost var before := files;
        if IsConfig(p) && IsFile(files, p) {
          var original := Read(files, p).text;
          var updated := StripStanzas(original);
          if updated != original {
            r := WriteWithBackup(p, updated, faulty);
            if r.Failure? {
              return;
            }
          }
        }
        StrippedStep(old(files), before, all - left, p);
        assert all - (left - {p}) == (all - left) + {p};
        left := left - {p};
      }
      assert all - left == all;
      return Success(());
    }

    /** `_configure_ifupdown`: afterwards only the managed file configures the interface. */
    method ConfigureIfupdown(faulty: set<Path>) returns (r: Result<(), Error>)
      requires Valid() && journal.Some? && journal.value.request.backend == IfupdownBackend
      modifies this
      ensures Valid() && old(log) <= log && Keeps(old(Now()), Now())
      ensures Now() == old(Now()).(files := files)
      ensures r.Success? ==> IsConfigured(old(files), files, journal.value.request.text)
      ensures r.Success? ==> Snapshot(files, CloudInit) == Snapshot(old(files), CloudInit)
      ensures faulty == {} && CanPersist(old(files), IfupdownBackend) ==> r.Success?
    {
      hide Recoverable, IsRun, Captures, Rewritten, HasSuffix, IsVisible, AreStripped, Listed, Including;
      hide PersistablePaths, AreRelocated, IsConfigured;
      r := RelocateBackups(faulty);
      if r.Failure? {
        return;
      }
      ghost var relocated := files;
      RelocationKeepsMain(old(files), files);
      r := EnsureInclude(faulty);
      if r.Failure? {
        return;
      }
      ghost var included := files;
      FixedPathsArePersistable(IfupdownBackend, files);
      r := Write(Managed(), Regular(journal.value.request.text, FILE_MODE), faulty);
      if r.Failure? {
        return;
      }
      ghost var managed := files;
      r := RemoveStanzas(faulty);
      if r.Success? {
        ConfigurationIsComplete(old(files), relocated, included, managed, files, journal.value.request.text);
      }
    }

    /** `_persist_static_network` for the file backends, with the cloud-init file that is
        written when its directory is there. */
    method Persist(cloudInit: bool, faulty: set<Path>) returns (r: Result<(), Error>)
      requires Valid() && journal.Some?
      modifies this
      ensures Valid() && old(log) <= log && Keeps(old(Now()), Now())
      ensures Now() == old(Now()).(files := files)
      ensures r.Success? ==> IsPersisted(old(files), files, journal.value.request, cloudInit)
      ensures faulty == {} && CanPersist(old(files), journal.value.request.backend) ==> r.Success?
    {
      hide Recoverable, IsRun, Captures, IsConfigured, PersistablePaths;
      var request := journal.value.request;
      FixedPathsArePersistable(request.backend, files);
      if request.backend == NetworkdBackend {
        r := Write(Networkd, Regular(request.text, FILE_MODE), faulty);
      } else {
        r := ConfigureIfupdown(faulty);
      }
      if r.Success? && cloudInit {
        FixedPathsArePersistable(request.backend, files);
        CloudInitIsApart(old(files), files, request.text);
        r := Write(CloudInit, Regular(CLOUD_TEXT, FILE_MODE), faulty);
      }
    }

    /** `commit_network_transition` after the journal is found. A failure takes the files back
        to the snapshot, and the transition stays prepared. */
    method Commit(bridge: bool, cloudInit: bool, faulty: set<Path>, journalFails: bool, faultyRestore: set<Path>)
      returns (r: Result<(), Error>)
      requires Valid() && journal.Some?
      modifies this
      ensures Valid() && old(log) <= log && Keeps(old(Now()), Now())
      ensures addresses == old(addresses) && rules == old(rules) && routes == old(routes)
      ensures r.Success? ==> journal == Some(old(journal).value.(state := Committed))
      ensures r.Success? && old(journal).value.state == Committed ==> Now() == old(Now())
      ensures r.Success? && old(journal).value.state == Prepared ==>
                IsPersisted(old(files), files, journal.value.request, cloudInit)
      ensures r.Failure? ==> journal == old(journal)
      ensures r.Failure? && faultyRestore == {} && LoaderAccepts(old(journal).value) && !bridge ==>
                forall b :: Recoverable(b, old(Now())) ==> files == b.files
      ensures faulty == {} && !journalFails && !bridge && LoaderAccepts(old(journal).value) ==>
                (CanPersist(old(files), old(journal).value.request.backend) ==> r.Success?)
    {
      hide PersistablePaths, IsRun, SnapshotPaths, LoaderAccepts, IsPersisted, Captures;
      var j := journal.value;
      if !LoaderAccepts(j) {
        return Failure(InvalidJournal);
      }
      if j.state == Committed {
        return Success(());
      }
      if bridge {
        return Failure(ManagedBridge);
      }
      r := Persist(cloudInit, faulty);
      if r.Success? && !journalFails {
        Do(MarkCommitted);
        return;
      }
      ghost var failed := Now();
      var restored := RestoreFiles(faultyRestore);
      forall b | Recoverable(b, old(Now())) && restored.Success? ensures files == b.files {
        RestoredFilesAreTheBaselines(b, Now());
      }
      return Failure(CommandFailed);
    }
  }

  /** From any world of any run that began without a journal, aborting with commands that work
      restores exactly the world at its beginning. */
  method AbortRestores(ghost worlds: seq<World>, w: World) returns (after: World)
    requires IsRun(worlds) && worlds[0].journal.None? && w in worlds
    ensures after == worlds[0]
  {
    ghost var i :| 0 <= i < |worlds| && worlds[i] == w;
    hide IsRun, Captures;
    RunStaysRecoverable(worlds[0], worlds, i);
    var machine := new Machine(w);
    var r := machine.Abort({}, {});
    after := machine.Now();
  }
}
