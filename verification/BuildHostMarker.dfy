/** common/build_host_steps.py: the ownership marker of the managed build host.

    Contents are known by their digests, so a digest stands for the content. A host object
    is one run of setup; its history is every state of the disk that an interruption of
    the run can leave behind. */
module BuildHostMarker {
  import opened Common

  // ---------------------------------------------------------------------------
  // Digest lists of at most two entries
  // ---------------------------------------------------------------------------

  function Insert(x: nat, l: seq<nat>): seq<nat> {
    if l == [] || x < l[0] then [x] + l
    else if x == l[0] then l
    else [l[0]] + Insert(x, l[1..])
  }

  /** `sorted(set(l))` */
  function SortedSet(l: seq<nat>): seq<nat> {
    if l == [] then [] else Insert(l[0], SortedSet(l[1..]))
  }

  /** `sorted(set(l + [h]))[-2:]` */
  function Cap(l: seq<nat>, h: nat): seq<nat> {
    var all := SortedSet(l + [h]);
    if |all| <= 2 then all else all[|all| - 2..]
  }

  predicate Increasing(l: seq<nat>) {
    forall i, j :: 0 <= i < j < |l| ==> l[i] < l[j]
  }

  predicate Distinct(l: seq<nat>) {
    forall i, j :: 0 <= i < j < |l| ==> l[i] != l[j]
  }

  lemma {:induction false} InsertedElements(x: nat, l: seq<nat>, y: nat)
    ensures y in Insert(x, l) <==> y == x || y in l
  {
    if l != [] {
      assert l == [l[0]] + l[1..];
      InsertedElements(x, l[1..], y);
    }
  }

  lemma {:induction false} InsertedIncreasing(x: nat, l: seq<nat>)
    requires Increasing(l)
    ensures Increasing(Insert(x, l))
  {
    if l != [] && l[0] < x {
      var rest := Insert(x, l[1..]);
      InsertedIncreasing(x, l[1..]);
      forall i | 0 <= i < |rest| ensures l[0] < rest[i] {
        InsertedElements(x, l[1..], rest[i]);
      }
    }
  }

  lemma {:induction false} SortedSetSorts(l: seq<nat>)
    ensures Increasing(SortedSet(l))
    ensures forall y :: y in SortedSet(l) <==> y in l
  {
    if l != [] {
      SortedSetSorts(l[1..]);
      InsertedIncreasing(l[0], SortedSet(l[1..]));
      forall y ensures y in SortedSet(l) <==> y in l {
        InsertedElements(l[0], SortedSet(l[1..]), y);
        assert l == [l[0]] + l[1..];
      }
    }
  }

  /** Of an increasing list, the last two are those with at most one larger element. */
  lemma LastTwo(all: seq<nat>, x: nat)
    requires Increasing(all) && |all| > 2
    ensures x in all[|all| - 2..] <==> x in all && !exists a, b :: a in all && b in all && x < a < b
  {
    var last := all[|all| - 2..];
    if x in all {
      var k :| 0 <= k < |all| && all[k] == x;
      if k + 2 < |all| {
        assert all[k + 1] in all && all[k + 2] in all && x < all[k + 1] < all[k + 2];
        assert last == [all[|all| - 2], all[|all| - 1]];
      } else {
        assert last[k - (|all| - 2)] == x;
        forall a, b | a in all && b in all ensures !(x < a < b) {
          var i :| 0 <= i < |all| && all[i] == a;
          var j :| 0 <= j < |all| && all[j] == b;
        }
      }
    }
  }

  lemma AtMostTwo(all: seq<nat>, x: nat)
    requires Increasing(all) && |all| <= 2 && x in all
    ensures !exists a, b :: a in all && b in all && x < a < b
  {
    forall a, b | a in all && b in all ensures !(x < a < b) {
      var k :| 0 <= k < |all| && all[k] == x;
      var i :| 0 <= i < |all| && all[i] == a;
      var j :| 0 <= j < |all| && all[j] == b;
    }
  }

  /** The cap keeps a digest exactly when at most one other is larger. */
  lemma CapKeeps(l: seq<nat>, h: nat, x: nat)
    ensures x in Cap(l, h) <==> x in l + [h] && !exists a, b :: a in l + [h] && b in l + [h] && x < a < b
  {
    var all := SortedSet(l + [h]);
    SortedSetSorts(l + [h]);
    if |all| > 2 {
      LastTwo(all, x);
    } else if x in all {
      AtMostTwo(all, x);
    }
  }

  lemma CapIsShort(l: seq<nat>, h: nat)
    ensures |Cap(l, h)| <= 2 && Distinct(Cap(l, h))
  {
    SortedSetSorts(l + [h]);
  }

  /** A list with a free place, or one that has the digest already, loses nothing. */
  lemma CapLosesNothing(l: seq<nat>, h: nat)
    requires |l| <= 2 && (|l| == 2 ==> h in l)
    ensures forall x :: x in Cap(l, h) <==> x == h || x in l
    ensures |Cap(l, h)| <= 2 && Distinct(Cap(l, h))
  {
    CapIsShort(l, h);
    forall x ensures x in Cap(l, h) <==> x == h || x in l {
      CapKeeps(l, h, x);
      hide Cap;
      assert x in l + [h] <==> x == h || x in l;
      if x in l + [h] {
        forall a, b | a in l + [h] && b in l + [h] ensures !(x < a < b) {
          assert (l + [h])[|l|] == h;
        }
      }
    }
  }

  // ---------------------------------------------------------------------------
  // Marker and disk
  // ---------------------------------------------------------------------------

  /** The transport principals to enroll, and all else of the document. */
  datatype Enrollment = Enrollment(principals: set<string>, policy: nat)

  /** The digests of what one version of the program writes. */
  datatype Release = Release(admission: set<string> -> nat, sudo: string -> nat, config: Enrollment -> nat, unit: nat)

  datatype Record = Record(managed: bool, sudoManaged: bool, sudoHashes: seq<nat>)
  datatype Pending = Pending(enrollment: Enrollment, principals: set<string>, config: nat, unit: nat)
  datatype Action = Create | Remove
  datatype Transition = Transition(action: Action, digest: nat)

  datatype Marker = Marker(disabled: bool, principals: map<string, Record>, config: seq<nat>, unit: seq<nat>,
                           ssh: seq<nat>, pending: Option<Pending>, sshPending: Option<Transition>)

  const EMPTY_MARKER := Marker(false, map[], [], [], [], None, None)

  /** `etc` is the directory that holds marker, configuration and SSH admission. */
  datatype Disk = Disk(etc: bool, stored: Option<Marker>, config: Option<nat>, unit: Option<nat>, ssh: Option<nat>,
                       sudo: map<string, nat>, draining: bool)

  predicate IsHashList(l: seq<nat>) { |l| <= 2 && Distinct(l) }

  /** What `_parse_marker` asks of a marker, whatever the format of the admission file. */
  predicate IsWellFormed(m: Marker) {
    && IsHashList(m.config) && IsHashList(m.unit) && IsHashList(m.ssh)
    && (forall p :: p in m.principals ==> IsHashList(m.principals[p].sudoHashes))
    && (m.sshPending.Some? ==>
          && m.ssh == [m.sshPending.value.digest]
          && match m.sshPending.value.action
             case Create => m.pending.Some?
             case Remove => m.disabled)
  }

  /** An announced first admission file is the one that the pending enrollment has. */
  predicate FormatAgrees(m: Marker, admission: set<string> -> nat) {
    m.sshPending.Some? && m.sshPending.value.action == Create && m.pending.Some? ==>
      m.sshPending.value.digest == admission(m.pending.value.principals)
  }

  /** `_parse_marker` */
  predicate Parses(m: Marker, admission: set<string> -> nat) {
    IsWellFormed(m) && FormatAgrees(m, admission)
  }

  predicate Has(hashes: seq<nat>, content: Option<nat>) {
    content.Some? ==> content.value in hashes
  }

  /** `_preflight_ssh_admission` */
  predicate SshPreflight(m: Marker, ssh: Option<nat>) {
    Has(m.ssh, ssh) && ((ssh.None? <==> m.ssh == []) || (ssh.None? && m.sshPending.Some?))
  }

  predicate OwnsSudo(m: Marker, sudo: map<string, nat>, p: string) {
    p in sudo ==> p in m.principals && m.principals[p].sudoManaged && sudo[p] in m.principals[p].sudoHashes
  }

  /** Every file on the disk has its digest in the marker. */
  predicate OwnsFiles(m: Marker, d: Disk) {
    && SshPreflight(m, d.ssh) && Has(m.config, d.config) && Has(m.unit, d.unit)
    && forall p :: p in d.sudo ==> OwnsSudo(m, d.sudo, p)
  }

  /** The hash and admission part of `_preflight_managed_state`; a sudoers file of a principal
      that is in neither document is refused by the namespace check. */
  predicate Preflight(m: Marker, d: Disk, e: Enrollment) {
    && OwnsFiles(m, d)
    && !(m.sshPending.Some? && m.sshPending.value.action == Remove)
    && (m.pending.Some? ==> m.pending.value.enrollment == e)
  }

  // ---------------------------------------------------------------------------
  // The invariants
  // ---------------------------------------------------------------------------

  /** Under runs of any versions, whatever their formats. A second configuration digest is
      always the one of the pending enrollment, which is why the next run of that enrollment
      evicts nothing. */
  predicate Base(d: Disk) {
    d.stored.Some? ==>
      var m := d.stored.value;
      && d.etc && IsWellFormed(m) && Has(m.config, d.config)
      && (m.pending.Some? ==> d.draining && m.pending.value.principals == m.pending.value.enrollment.principals)
      && (|m.config| == 2 ==> m.pending.Some? && m.pending.value.config in m.config)
  }

  /** And the marker parses for versions with this admission file. */
  predicate Core(d: Disk, admission: set<string> -> nat) {
    Base(d) && (d.stored.Some? ==> FormatAgrees(d.stored.value, admission))
  }

  /** The cap keeps the digest of the file, and the one that is added. */
  predicate Keeps(l: seq<nat>, file: Option<nat>, h: nat) {
    h in Cap(l, h) && Has(Cap(l, h), file)
  }

  /** The list and the two digests are at most two in all. */
  predicate HasRoom(l: seq<nat>, x: nat, y: nat) {
    if x == y then |l| == 2 ==> x in l else forall z :: z in l ==> z == x || z == y
  }

  /** What a list must be like to own its file in a run that adds `h`; with `other`, in
      runs that add `h` or `other`. */
  predicate Room(l: seq<nat>, file: Option<nat>, h: nat, other: Option<nat>) {
    if other.Some? then HasRoom(l, h, other.value) else Keeps(l, file, h)
  }

  function FileOf(sudo: map<string, nat>, p: string): Option<nat> {
    if p in sudo then Some(sudo[p]) else None
  }

  function UnitDigest(release: Option<Release>): Option<nat> {
    if release.Some? then Some(release.value.unit) else None
  }

  function SudoDigest(release: Option<Release>, p: string): Option<nat> {
    if release.Some? then Some(release.value.sudo(p)) else None
  }

  function HashesOf(m: Marker, p: string): seq<nat> {
    if p in m.principals then m.principals[p].sudoHashes else []
  }

  predicate UnitTracked(d: Disk, release: Release, other: Option<Release>) {
    d.stored.Some? ==>
      && Has(d.stored.value.unit, d.unit)
      && Room(d.stored.value.unit, d.unit, release.unit, UnitDigest(other))
  }

  predicate SudoTracked(d: Disk, release: Release, other: Option<Release>, p: string) {
    d.stored.Some? ==>
      var m := d.stored.value;
      && OwnsSudo(m, d.sudo, p)
      && (p in m.principals ==>
            Room(m.principals[p].sudoHashes, FileOf(d.sudo, p), release.sudo(p), SudoDigest(other, p)))
  }

  /** The preflight accepts the admission file. For an enrollment of these principals, the cap
      keeps its digest and that of the new file; for any runs with one format, a second digest
      is always the one of the pending enrollment. */
  predicate SshTracked(d: Disk, admission: set<string> -> nat, enrolled: Option<set<string>>) {
    d.stored.Some? ==>
      var m := d.stored.value;
      && SshPreflight(m, d.ssh)
      && match enrolled
         case Some(principals) => Keeps(m.ssh, d.ssh, admission(principals))
         case None => |m.ssh| == 2 ==> m.pending.Some? && admission(m.pending.value.principals) in m.ssh
  }

  /** The sudoers files, and perhaps the unit and the admission file, that a run keeps on
      record; with `other`, that runs of its release and of the other one keep on record. The
      run is one that enrolls these principals, or any run. */
  datatype Scope = Scope(files: iset<string>, unit: bool, ssh: bool, enrolled: Option<set<string>>,
                         other: Option<Release>)

  ghost function All(other: Release): Scope {
    Scope((iset p: string | |p| >= 0), true, false, None, Some(other))
  }

  ghost function ScopeOf(d: Disk, release: Release, other: Option<Release>, enrolled: Option<set<string>>): Scope {
    Scope((iset p: string | SudoTracked(d, release, other, p)), UnitTracked(d, release, other),
          SshTracked(d, release.admission, enrolled), enrolled, other)
  }

  /** The files in the scope have their digests in the marker. */
  ghost predicate Current(d: Disk, release: Release, scope: Scope) {
    && (scope.unit ==> UnitTracked(d, release, scope.other))
    && (scope.ssh ==> SshTracked(d, release.admission, scope.enrolled))
    && forall p :: p in scope.files ==> SudoTracked(d, release, scope.other, p)
  }

  lemma AllIsSymmetric(d: Disk, a: Release, b: Release)
    requires Current(d, a, All(b))
    ensures Current(d, b, All(a))
  {
    hide OwnsSudo;
    assert UnitTracked(d, a, Some(b));
    forall p ensures SudoTracked(d, b, Some(a), p) {
      assert p in All(b).files;
      assert SudoTracked(d, a, Some(b), p);
    }
  }

  function WithRecord(m: Marker, p: string, record: Record): Marker {
    m.(principals := m.principals[p := record])
  }

  lemma RecordKeepsCore(d: Disk, admission: set<string> -> nat, m: Marker, p: string, record: Record)
    requires Core(d, admission) && d.stored == Some(m) && IsHashList(record.sudoHashes)
    ensures Core(d.(stored := Some(WithRecord(m, p, record))), admission)
  {
    hide Distinct;
  }

  lemma RecordKeepsCurrent(d: Disk, release: Release, scope: Scope, m: Marker, p: string, record: Record)
    requires Current(d, release, scope) && d.stored == Some(m)
    requires p in scope.files ==>
               Room(record.sudoHashes, FileOf(d.sudo, p), release.sudo(p), SudoDigest(scope.other, p))
    requires p in scope.files && p in d.sudo ==> record.sudoManaged && d.sudo[p] in record.sudoHashes
    ensures Current(d.(stored := Some(WithRecord(m, p, record))), release, scope)
  {
    hide Room;
  }

  lemma SudoFileKeepsCore(d: Disk, admission: set<string> -> nat, sudo: map<string, nat>)
    requires Core(d, admission)
    ensures Core(d.(sudo := sudo), admission)
  {
    hide Parses;
  }

  lemma SudoFileKeepsCurrent(d: Disk, release: Release, scope: Scope, p: string, file: Option<nat>)
    requires Current(d, release, scope)
    requires p in scope.files ==> SudoTracked(d.(sudo := WithFile(d.sudo, p, file)), release, scope.other, p)
    ensures Current(d.(sudo := WithFile(d.sudo, p, file)), release, scope)
  {
    hide Room;
    var v := d.(sudo := WithFile(d.sudo, p, file));
    forall q | q in scope.files ensures SudoTracked(v, release, scope.other, q) {
      assert q != p ==> FileOf(v.sudo, q) == FileOf(d.sudo, q);
    }
  }

  function WithFile(sudo: map<string, nat>, p: string, file: Option<nat>): map<string, nat> {
    if file.Some? then sudo[p := file.value] else sudo - {p}
  }

  lemma NextHashes(hashes: seq<nat>, h: nat)
    ensures IsHashList(Cap(hashes, h)) && IsHashList([h]) && IsHashList([])
    ensures IsHashList(hashes) && (|hashes| == 2 ==> h in hashes) ==>
              h in Cap(hashes, h) && forall x :: x in hashes ==> x in Cap(hashes, h)
    ensures |hashes| == 0 ==> Cap(hashes, h) == [h]
    ensures hashes == [h] ==> Cap(hashes, h) == [h]
  {
    CapIsShort(hashes, h);
    if IsHashList(hashes) && (|hashes| == 2 ==> h in hashes) {
      CapLosesNothing(hashes, h);
    }
    CapOfOne(h);
    assert |hashes| == 0 ==> hashes == [];
    hide Cap;
  }

  lemma CapOfOne(h: nat)
    ensures Cap([], h) == [h] && Cap([h], h) == [h]
  {
    assert [] + [h] == [h] && SortedSet([h]) == Insert(h, SortedSet([]));
    assert ([h] + [h])[1..] == [h] && SortedSet([h] + [h]) == Insert(h, SortedSet([h]));
  }

  lemma RoomKeeps(l: seq<nat>, x: nat, y: nat)
    requires IsHashList(l) && HasRoom(l, x, y)
    ensures |l| == 2 ==> x in l
    ensures HasRoom(Cap(l, x), x, y)
  {
    if |l| == 2 {
      assert l[0] in l && l[1] in l;
    }
    CapLosesNothing(l, x);
    CapIsShort(l, x);
  }

  /** A tracked list with the digest added tracks the file that is there and the new one. */
  lemma RoomAfterCap(l: seq<nat>, file: Option<nat>, h: nat, other: Option<nat>)
    requires IsHashList(l) && Has(l, file) && Room(l, file, h, other)
    ensures Keeps(l, file, h)
    ensures Room(Cap(l, h), file, h, other) && Room(Cap(l, h), Some(h), h, other)
  {
    NextHashes(l, h);
    NextHashes(Cap(l, h), h);
    if other.Some? {
      RoomKeeps(l, h, other.value);
    }
    hide Cap;
  }

  lemma RoomOfOne(h: nat, other: Option<nat>)
    ensures Room([h], Some(h), h, other) && Room([], None, h, other)
  {
    NextHashes([], h);
    NextHashes([h], h);
    hide Cap;
  }

  /** A file that is the one to come, or is not there, is no reason to lose the digest. */
  lemma RoomWithout(l: seq<nat>, file: Option<nat>, h: nat, other: Option<nat>)
    requires Room(l, file, h, other)
    ensures Room(l, None, h, other)
  {}

  /** The first write of an enrollment: the intent, and the digests it will need. */
  function Begun(m: Marker, release: Release, e: Enrollment): Marker {
    m.(pending := Some(Pending(e, e.principals, release.config(e), release.unit)),
       config := Cap(m.config, release.config(e)), unit := Cap(m.unit, release.unit))
  }

  predicate MayBegin(m: Marker, release: Release, e: Enrollment) {
    m.pending.Some? ==>
      && m.pending.value.enrollment == e
      && m.pending.value.config == release.config(e) && m.pending.value.unit == release.unit
  }

  lemma BeginKeepsCore(d: Disk, release: Release, e: Enrollment)
    requires Core(d, release.admission) && d.stored.Some? && d.draining && MayBegin(d.stored.value, release, e)
    ensures Core(d.(stored := Some(Begun(d.stored.value, release, e))), release.admission)
  {
    hide Cap, IsHashList;
    var m := d.stored.value;
    NextHashes(m.config, release.config(e));
    NextHashes(m.unit, release.unit);
  }

  lemma BeginKeepsCurrent(d: Disk, release: Release, scope: Scope, e: Enrollment)
    requires Core(d, release.admission) && Current(d, release, scope) && d.stored.Some?
    requires MayBegin(d.stored.value, release, e)
    ensures Current(d.(stored := Some(Begun(d.stored.value, release, e))), release, scope)
  {
    var l := d.stored.value.unit;
    if scope.unit {
      RoomAfterCap(l, d.unit, release.unit, UnitDigest(scope.other));
    }
    hide Cap, SshPreflight, Room;
  }

  const NEW_RECORD := Record(false, false, [])

  function WithPrincipals(m: Marker, principals: set<string>): Marker {
    m.(principals := (map p | p in principals :: NEW_RECORD) + m.principals)
  }

  lemma NewPrincipalsKeepSafe(d: Disk, release: Release, scope: Scope, principals: set<string>)
    requires d.stored.Some?
    ensures Core(d, release.admission) ==>
              Core(d.(stored := Some(WithPrincipals(d.stored.value, principals))), release.admission)
    ensures Current(d, release, scope) ==>
              Current(d.(stored := Some(WithPrincipals(d.stored.value, principals))), release, scope)
  {
    NextHashes([], 0);
    hide Distinct, SshPreflight, Room;
    var m := d.stored.value;
    forall p | p in scope.files && p !in m.principals && SudoTracked(d, release, scope.other, p)
      ensures p !in d.sudo && Room([], FileOf(d.sudo, p), release.sudo(p), SudoDigest(scope.other, p))
    {
      RoomOfOne(release.sudo(p), SudoDigest(scope.other, p));
    }
  }

  /** The intent to publish the admission file. */
  function Announced(m: Marker, h: nat): Marker {
    m.(ssh := Cap(m.ssh, h),
       sshPending := if m.ssh == [] || m.sshPending.Some? then Some(Transition(Create, h)) else m.sshPending)
  }

  lemma AnnouncingKeepsCore(d: Disk, release: Release, h: nat)
    requires Core(d, release.admission) && d.stored.Some? && d.stored.value.pending.Some?
    requires h == release.admission(d.stored.value.pending.value.principals)
    requires d.stored.value.sshPending.Some? ==> d.stored.value.sshPending.value.action == Create
    ensures Core(d.(stored := Some(Announced(d.stored.value, h))), release.admission)
  {
    hide Cap, IsHashList;
    NextHashes(d.stored.value.ssh, h);
  }

  lemma AnnouncingKeepsSsh(d: Disk, release: Release, enrolled: Option<set<string>>)
    requires Core(d, release.admission) && d.stored.Some? && d.stored.value.pending.Some?
    requires enrolled.Some? ==> enrolled.value == d.stored.value.pending.value.principals
    requires SshTracked(d, release.admission, enrolled)
    ensures var h := release.admission(d.stored.value.pending.value.principals);
            && SshTracked(d.(stored := Some(Announced(d.stored.value, h))), release.admission, enrolled)
            && h in Announced(d.stored.value, h).ssh
  {
    var l, h := d.stored.value.ssh, release.admission(d.stored.value.pending.value.principals);
    NextHashes(l, h);
    NextHashes(Cap(l, h), h);
    hide Cap, IsWellFormed;
  }

  lemma WritingKeepsSsh(d: Disk, release: Release, enrolled: Option<set<string>>, h: nat)
    requires d.stored.Some? && h in d.stored.value.ssh && IsHashList(d.stored.value.ssh)
    requires enrolled.Some? ==> h == release.admission(enrolled.value)
    requires SshTracked(d, release.admission, enrolled)
    ensures SshTracked(d.(ssh := Some(h)), release.admission, enrolled)
    ensures SshTracked(d.(ssh := Some(h), stored := Some(d.stored.value.(ssh := [h], sshPending := None))),
                       release.admission, enrolled)
  {
    NextHashes(d.stored.value.ssh, h);
    NextHashes([h], h);
    hide Cap;
  }

  lemma RemovingKeepsSsh(d: Disk, admission: set<string> -> nat, enrolled: Option<set<string>>, digest: nat)
    requires d.stored.Some? && (d.ssh.Some? ==> d.ssh.value == digest)
    ensures var leaving := d.stored.value.(ssh := [digest], sshPending := Some(Transition(Remove, digest)));
            && SshTracked(d.(stored := Some(leaving)), admission, enrolled)
            && SshTracked(d.(stored := Some(leaving), ssh := None), admission, enrolled)
            && SshTracked(d.(stored := Some(leaving.(ssh := [], sshPending := None)), ssh := None), admission, enrolled)
  {
    if enrolled.Some? {
      OneIsKept(digest, admission(enrolled.value));
    }
    hide Cap;
  }

  lemma OneIsKept(x: nat, h: nat)
    ensures Keeps([x], Some(x), h) && Keeps([x], None, h) && Keeps([], None, h)
  {
    CapLosesNothing([x], h);
    CapLosesNothing([], h);
    assert x in [x];
  }

  /** The rest of `Current` is about units, sudoers files and their records only. */
  lemma CurrentLooksAt(d: Disk, v: Disk, release: Release, scope: Scope)
    requires Current(d, release, scope) && d.stored.Some? && v.stored.Some?
    requires v.unit == d.unit && v.sudo == d.sudo
    requires v.stored.value.unit == d.stored.value.unit && v.stored.value.principals == d.stored.value.principals
    requires scope.ssh ==> SshTracked(v, release.admission, scope.enrolled)
    ensures Current(v, release, scope)
  {
    hide Room, SshTracked;
  }

  lemma ConfigKeepsCore(d: Disk, admission: set<string> -> nat, h: nat)
    requires Core(d, admission) && d.stored.Some? && h in d.stored.value.config
    ensures Core(d.(config := Some(h)), admission)
    ensures Core(d.(config := Some(h), stored := Some(d.stored.value.(config := [h]))), admission)
  {
    NextHashes([], h);
    hide Distinct;
  }

  lemma SshKeepsCore(d: Disk, release: Release, h: nat)
    requires Core(d, release.admission) && d.stored.Some?
    ensures Core(d.(ssh := Some(h)), release.admission)
    ensures Core(d.(ssh := Some(h), stored := Some(d.stored.value.(ssh := [h], sshPending := None))), release.admission)
  {
    NextHashes([], h);
    hide Distinct;
  }

  /** The last write of an enrollment. */
  function Finished(m: Marker, release: Release): Marker {
    m.(unit := [release.unit], pending := None, disabled := false,
       principals := map p | p in m.principals :: m.principals[p].(managed := true))
  }

  lemma FinishKeepsSafe(d: Disk, release: Release, scope: Scope)
    requires d.stored.Some? && d.unit == Some(release.unit)
    requires |d.stored.value.config| <= 1 && |d.stored.value.ssh| <= 1 && d.stored.value.sshPending.None?
    ensures Core(d, release.admission) ==>
              Core(d.(stored := Some(Finished(d.stored.value, release))), release.admission)
    ensures Current(d, release, scope) ==>
              Current(d.(stored := Some(Finished(d.stored.value, release))), release, scope)
  {
    NextHashes([], release.unit);
    RoomOfOne(release.unit, UnitDigest(scope.other));
    var m := d.stored.value;
    assert forall p :: p in m.principals ==>
             Finished(m, release).principals[p].sudoHashes == m.principals[p].sudoHashes;
    hide Distinct, Room;
  }

  lemma DrainingKeepsSafe(d: Disk, release: Release, scope: Scope, draining: bool)
    requires draining || d.stored.None? || d.stored.value.pending.None?
    ensures Core(d, release.admission) ==> Core(d.(draining := draining), release.admission)
    ensures Current(d, release, scope) ==> Current(d.(draining := draining), release, scope)
  {
    hide Parses, Room;
  }

  lemma UnitKeepsSafe(d: Disk, release: Release, scope: Scope, unit: Option<nat>)
    ensures Core(d, release.admission) ==> Core(d.(unit := unit), release.admission)
    ensures Current(d, release, scope) && (scope.unit ==> UnitTracked(d.(unit := unit), release, scope.other)) ==>
              Current(d.(unit := unit), release, scope)
  {
    hide Parses, Room;
  }

  /** The first write of a marker. */
  lemma EmptyMarkerIsSafe(d: Disk, release: Release, scope: Scope)
    requires d.etc && OwnsFiles(EMPTY_MARKER, d)
    ensures Core(d.(stored := Some(EMPTY_MARKER)), release.admission)
    ensures Current(d.(stored := Some(EMPTY_MARKER)), release, scope)
  {
    assert Parses(EMPTY_MARKER, release.admission);
    RoomOfOne(release.unit, UnitDigest(scope.other));
    if scope.enrolled.Some? {
      OneIsKept(0, release.admission(scope.enrolled.value));
    }
    hide Room;
  }

  function MarkerOf(d: Disk): Marker {
    if d.stored.Some? then d.stored.value else EMPTY_MARKER
  }

  /** What enrolling checks before it changes anything. */
  predicate IsAdmissible(d: Disk, e: Enrollment, admission: set<string> -> nat) {
    && (d.etc ==> d.stored.Some?)
    && Parses(MarkerOf(d), admission) && Preflight(MarkerOf(d), d, e)
  }

  /** Exactly the files of the enrollment are there, and the marker knows nothing else but
      perhaps older sudoers digests of its principals. */
  predicate IsEnrolled(d: Disk, release: Release, e: Enrollment) {
    && d.config == Some(release.config(e)) && d.unit == Some(release.unit)
    && d.ssh == Some(release.admission(e.principals))
    && d.sudo == (map p | p in e.principals :: release.sudo(p))
    && d.stored.Some?
    && var m := d.stored.value;
    && OwnsFiles(m, d) && !m.disabled && m.pending.None? && m.sshPending.None?
    && m.config == [release.config(e)] && m.unit == [release.unit] && m.ssh == [release.admission(e.principals)]
    && (forall p :: p in m.principals ==> m.principals[p].managed)
    && forall p :: p in m.principals && p !in e.principals ==> m.principals[p].sudoHashes == []
  }

  /** The refusal of a run that is admitted while something is busy. */
  function Busy(c: Conditions): Option<Error> {
    if c.workerActive then Some(WorkerActive) else if c.runningClaim then Some(RunningClaim)
    else if c.unitBusy then Some(UnitBusy) else None
  }

  predicate SameButDrain(v: Disk, d: Disk) {
    && v.etc == d.etc && v.stored == d.stored && v.config == d.config && v.unit == d.unit && v.ssh == d.ssh
    && v.sudo == d.sudo
  }

  /** What disabling checks before it changes anything. */
  predicate IsDisablable(d: Disk, admission: set<string> -> nat) {
    d.etc && d.stored.Some? && Parses(d.stored.value, admission) && OwnsFiles(d.stored.value, d)
  }

  /** No authority is left, and the store stays drained. */
  predicate IsDisabled(d: Disk) {
    && d.config.None? && d.unit.None? && d.ssh.None? && d.sudo == map[] && d.draining
    && d.stored.Some?
    && var m := d.stored.value;
    && m.disabled && m.pending.None? && m.sshPending.None? && m.config == [] && m.unit == [] && m.ssh == []
  }

  /** A disable run whose unit transaction was rolled back: the unit and its digests are left. */
  predicate IsRolledBack(d: Disk, unit: Option<nat>, hashes: seq<nat>) {
    && d.config.None? && d.unit == unit && d.ssh.None? && d.sudo == map[] && d.draining
    && d.stored.Some?
    && var m := d.stored.value;
    && m.disabled && m.pending.None? && m.sshPending.None? && m.config == [] && m.unit == hashes && m.ssh == []
  }

  lemma SshRemovalKeepsCore(d: Disk, admission: set<string> -> nat, digest: nat)
    requires Core(d, admission) && d.stored.Some? && d.stored.value.disabled
    requires d.ssh.Some? ==> d.ssh.value == digest
    ensures var leaving := d.stored.value.(ssh := [digest], sshPending := Some(Transition(Remove, digest)));
            && Core(d.(stored := Some(leaving)), admission)
            && Core(d.(stored := Some(leaving), ssh := None), admission)
            && Core(d.(stored := Some(leaving.(ssh := [], sshPending := None)), ssh := None), admission)
  {
    NextHashes([], digest);
    hide Distinct;
  }

  lemma ConfigRemovalKeepsCore(d: Disk, admission: set<string> -> nat)
    requires Core(d, admission) && d.stored.Some?
    ensures Core(d.(config := None), admission)
    ensures d.stored.value.ssh == [] ==>
              Core(d.(config := None,
                      stored := Some(d.stored.value.(config := [], pending := None, disabled := true))), admission)
  {
    NextHashes([], 0);
    hide Distinct;
  }

  lemma DisablingKeepsSafe(d: Disk, release: Release, scope: Scope)
    requires d.stored.Some?
    ensures Core(d, release.admission) ==>
              Core(d.(stored := Some(d.stored.value.(disabled := true))), release.admission)
    ensures Current(d, release, scope) ==>
              Current(d.(stored := Some(d.stored.value.(disabled := true))), release, scope)
  {
    hide Distinct, Room;
  }

  lemma ForgettingUnitKeepsSafe(d: Disk, release: Release, scope: Scope)
    requires d.stored.Some? && d.unit.None? && d.stored.value.config == [] && d.stored.value.ssh == []
    requires d.stored.value.sshPending.None?
    ensures Core(d, release.admission) ==>
              Core(d.(stored := Some(d.stored.value.(unit := [], pending := None, disabled := true))),
                   release.admission)
    ensures Current(d, release, scope) ==>
              Current(d.(stored := Some(d.stored.value.(unit := [], pending := None, disabled := true))),
                      release, scope)
  {
    NextHashes([], 0);
    RoomOfOne(release.unit, UnitDigest(scope.other));
    hide Distinct, Room;
  }

  // ---------------------------------------------------------------------------
  // One run
  // ---------------------------------------------------------------------------

  datatype Error =
    | Unmanaged | InvalidMarker | Refused | PendingDiffers | WorkerActive | RunningClaim | UnitBusy | UnitFailed

  /** What the run meets: the worker holds its lease, the store has a running claim, the unit
      cannot be stopped, or the unit transaction fails later and rolls the unit file back. */
  datatype Conditions = Conditions(workerActive: bool, runningClaim: bool, unitBusy: bool, unitFails: bool)

  const CALM := Conditions(false, false, false, false)

  /** Nothing is busy, but the unit transaction fails. */
  const UNLUCKY := Conditions(false, false, false, true)

  /** Publishing a sudoers file: the digest, the file, the digest alone. */
  function PublishTrace(d: Disk, p: string, h: nat): seq<Disk>
    requires d.stored.Some? && p in d.stored.value.principals
  {
    var m := d.stored.value;
    var announced := d.(stored := Some(WithRecord(m, p, AnnouncedRecord(m.principals[p], h))));
    var written := announced.(sudo := d.sudo[p := h]);
    [announced, written, written.(stored := Some(WithRecord(m, p, SettledRecord(m.principals[p], h))))]
  }

  function AnnouncedRecord(record: Record, h: nat): Record {
    record.(sudoManaged := true, sudoHashes := Cap(record.sudoHashes, h))
  }

  function SettledRecord(record: Record, h: nat): Record {
    record.(sudoManaged := true, sudoHashes := [h])
  }

  lemma Announces(record: Record, h: nat)
    ensures AnnouncedRecord(record, h).sudoManaged
  {}

  /** The disk right after the first write of an enrollment. */
  function BegunDisk(d: Disk, release: Release, e: Enrollment): Disk {
    d.(etc := d.etc || d.stored.None?, draining := true, stored := Some(Begun(MarkerOf(d), release, e)))
  }

  predicate DiffersInAuthority(v: Disk, base: Disk) {
    && v.stored.Some? && base.stored.Some?
    && v == base.(stored := Some(base.stored.value.(principals := v.stored.value.principals)), sudo := v.sudo)
  }

  /** The principal has these digests and this file. */
  predicate HasAuthority(v: Disk, p: string, hashes: seq<nat>, file: Option<nat>) {
    && v.stored.Some? && p in v.stored.value.principals
    && v.stored.value.principals[p].sudoHashes == hashes && FileOf(v.sudo, p) == file
  }

  /** The disks show both middle states of publishing the principal's file. */
  ghost predicate Publishes(disks: seq<Disk>, base: Disk, p: string, h: nat)
    requires base.stored.Some?
  {
    var l := Cap(HashesOf(base.stored.value, p), h);
    && (exists v :: v in disks && DiffersInAuthority(v, base) && HasAuthority(v, p, l, FileOf(base.sudo, p)))
    && (exists v :: v in disks && HasAuthority(v, p, l, Some(h)))
  }

  /** Each principal whose file is not the right one at first gets it published. */
  ghost predicate Granted(disks: seq<Disk>, m: Marker, base: Disk, release: Release, principals: set<string>)
    requires base.stored.Some?
  {
    forall p :: p in principals && FileOf(base.sudo, p) != Some(release.sudo(p)) ==>
      Publishes(disks, base, p, release.sudo(p)) && HashesOf(m, p) == [release.sudo(p)]
  }

  /** Publishing the admission file: the digest, the file, the digest alone. */
  function AdmissionTrace(d: Disk, h: nat): seq<Disk>
    requires d.stored.Some?
  {
    var m := d.stored.value;
    var announced := d.(stored := Some(Announced(m, h)));
    var written := announced.(ssh := Some(h));
    [announced, written, written.(stored := Some(m.(ssh := [h], sshPending := None)))]
  }

  /** The admission file is announced under the pending enrollment, and then written. */
  ghost predicate Admits(disks: seq<Disk>, begun: Disk, h: nat)
    requires begun.stored.Some?
  {
    && (exists v :: v in disks && IsAnnounced(v, begun, h))
    && (exists v :: v in disks && v.stored.Some? && v.stored.value.ssh == Cap(begun.stored.value.ssh, h)
                    && v.ssh == Some(h))
  }

  predicate IsAnnounced(v: Disk, begun: Disk, h: nat)
    requires begun.stored.Some?
  {
    && v.stored.Some? && v.ssh == begun.ssh
    && v.stored.value.pending == begun.stored.value.pending
    && v.stored.value.ssh == Announced(begun.stored.value, h).ssh
    && v.stored.value.sshPending == Announced(begun.stored.value, h).sshPending
  }

  lemma TraceAdmits(before: seq<Disk>, d: Disk, begun: Disk, h: nat)
    requires d.stored.Some? && begun.stored.Some? && d.ssh == begun.ssh
    requires d.stored.value.ssh == begun.stored.value.ssh && d.stored.value.pending == begun.stored.value.pending
    requires d.stored.value.sshPending == begun.stored.value.sshPending
    ensures Admits(before + AdmissionTrace(d, h), begun, h)
  {
    var trace := AdmissionTrace(d, h);
    assert trace[0] in before + trace && trace[1] in before + trace;
    hide Cap;
    assert IsAnnounced(trace[0], begun, h);
  }

  lemma AdmittedLater(disks: seq<Disk>, later: seq<Disk>, begun: Disk, h: nat)
    requires begun.stored.Some? && Admits(disks, begun, h) && disks <= later
    ensures Admits(later, begun, h)
  {
    hide Cap, IsAnnounced;
    var v :| v in disks && IsAnnounced(v, begun, h);
    var w :| w in disks && w.stored.Some? && w.stored.value.ssh == Cap(begun.stored.value.ssh, h) && w.ssh == Some(h);
    assert v in later && w in later;
  }

  ghost predicate UnitWritten(disks: seq<Disk>, hashes: seq<nat>, h: nat) {
    exists v :: v in disks && v.stored.Some? && v.stored.value.unit == hashes && v.unit == Some(h)
  }

  /** What a completed enrollment went through: the first write, the files of the principals
      and the unit, each with the capped list in the marker. */
  ghost predicate WentThrough(disks: seq<Disk>, m: Marker, begun: Disk, release: Release, e: Enrollment) {
    && begun.stored.Some? && begun in disks
    && Granted(disks, m, begun, release, e.principals)
    && Admits(disks, begun, release.admission(e.principals))
    && UnitWritten(disks, begun.stored.value.unit, release.unit)
  }

  lemma WentThroughLater(disks: seq<Disk>, later: seq<Disk>, m: Marker, begun: Disk, release: Release, e: Enrollment)
    requires WentThrough(disks, m, begun, release, e) && disks <= later
    ensures WentThrough(later, m, begun, release, e)
  {
    GrantedLater(disks, later, m, m, begun, begun, release, e.principals);
    AdmittedLater(disks, later, begun, release.admission(e.principals));
    hide Granted, Admits;
  }

  lemma PublishedLater(disks: seq<Disk>, later: seq<Disk>, base: Disk, begun: Disk, p: string, h: nat)
    requires base.stored.Some? && begun.stored.Some?
    requires Publishes(disks, base, p, h) && disks <= later
    requires DiffersInAuthority(base, begun) && base.sudo == begun.sudo
    requires HashesOf(base.stored.value, p) == HashesOf(begun.stored.value, p)
    ensures Publishes(later, begun, p, h)
  {
    hide HasAuthority, Cap;
    var l := Cap(HashesOf(base.stored.value, p), h);
    var v :| v in disks && DiffersInAuthority(v, base) && HasAuthority(v, p, l, FileOf(base.sudo, p));
    var w :| w in disks && HasAuthority(w, p, l, Some(h));
    assert v in later && w in later && DiffersInAuthority(v, begun);
  }

  lemma GrantedLater(disks: seq<Disk>, later: seq<Disk>, m: Marker, n: Marker, base: Disk, begun: Disk,
                     release: Release, principals: set<string>)
    requires base.stored.Some? && begun.stored.Some?
    requires Granted(disks, m, base, release, principals) && disks <= later
    requires forall p :: p in principals ==> HashesOf(n, p) == HashesOf(m, p)
    requires DiffersInAuthority(base, begun) && base.sudo == begun.sudo
    requires forall p :: p in principals ==> HashesOf(base.stored.value, p) == HashesOf(begun.stored.value, p)
    ensures Granted(later, n, begun, release, principals)
  {
    hide Publishes, HashesOf;
    forall p | p in principals && FileOf(begun.sudo, p) != Some(release.sudo(p))
      ensures Publishes(later, begun, p, release.sudo(p))
    {
      PublishedLater(disks, later, base, begun, p, release.sudo(p));
    }
  }

  lemma TracePublishes(before: seq<Disk>, d: Disk, base: Disk, p: string, h: nat)
    requires d.stored.Some? && p in d.stored.value.principals && DiffersInAuthority(d, base)
    requires HashesOf(d.stored.value, p) == HashesOf(base.stored.value, p) && FileOf(d.sudo, p) == FileOf(base.sudo, p)
    ensures Publishes(before + PublishTrace(d, p, h), base, p, h)
  {
    var trace := PublishTrace(d, p, h);
    assert trace[0] in before + trace && trace[1] in before + trace;
    hide Cap;
    assert DiffersInAuthority(trace[0], base);
  }

  class Host {
    const release: Release
    ghost const sound: bool
    ghost const scope: Scope
    var etc: bool
    var stored: Option<Marker>
    var config: Option<nat>
    var unit: Option<nat>
    var ssh: Option<nat>
    var sudo: map<string, nat>
    var draining: bool
    var marker: Marker
    var history: seq<Disk>

    function Now(): Disk
      reads `etc, `stored, `config, `unit, `ssh, `sudo, `draining
    {
      Disk(etc, stored, config, unit, ssh, sudo, draining)
    }

    ghost predicate Safe(d: Disk) {
      sound ==> Core(d, release.admission) && Current(d, release, scope)
    }

    /** Every state of the disk so far is safe, if the first was. */
    ghost predicate Valid()
      reads `etc, `stored, `config, `unit, `ssh, `sudo, `draining, `history
    {
      && history != [] && history[|history| - 1] == Now()
      && forall i :: 0 <= i < |history| ==> Safe(history[i])
    }

    /** The scope is what the invariants of a run can be shown of, given its first disk. */
    constructor (d: Disk, release: Release, ghost other: Option<Release>, ghost enrolled: Option<set<string>>)
      ensures Valid() && Now() == d && history == [d] && this.release == release
      ensures sound == Core(d, release.admission) && scope == ScopeOf(d, release, other, enrolled)
    {
      this.release := release;
      sound := Core(d, release.admission);
      scope := ScopeOf(d, release, other, enrolled);
      etc, stored, config, unit, ssh, sudo, draining := d.etc, d.stored, d.config, d.unit, d.ssh, d.sudo, d.draining;
      marker := EMPTY_MARKER;
      history := [d];
    }

    /** `_write_marker` */
    method Save()
      requires Valid() && Safe(Now().(stored := Some(marker)))
      modifies `stored, `history
      ensures Valid() && stored == Some(marker) && history == old(history) + [Now()]
    {
      stored := Some(marker);
      history := history + [Now()];
    }

    method SetConfig(content: Option<nat>)
      requires Valid() && Safe(Now().(config := content))
      modifies `config, `history
      ensures Valid() && config == content && history == old(history) + [Now()]
    {
      config := content;
      history := history + [Now()];
    }

    method SetSsh(content: Option<nat>)
      requires Valid() && Safe(Now().(ssh := content))
      modifies `ssh, `history
      ensures Valid() && ssh == content && history == old(history) + [Now()]
    {
      ssh := content;
      history := history + [Now()];
    }

    method SetUnit(content: Option<nat>)
      requires Valid() && Safe(Now().(unit := content))
      modifies `unit, `history
      ensures Valid() && unit == content && history == old(history) + [Now()]
    {
      unit := content;
      history := history + [Now()];
    }

    method SetSudo(files: map<string, nat>)
      requires Valid() && Safe(Now().(sudo := files))
      modifies `sudo, `history
      ensures Valid() && sudo == files && history == old(history) + [Now()]
    {
      sudo := files;
      history := history + [Now()];
    }

    method SetDraining(drain: bool)
      requires Valid() && Safe(Now().(draining := drain))
      modifies `draining, `history
      ensures Valid() && draining == drain && history == old(history) + [Now()]
    {
      draining := drain;
      history := history + [Now()];
    }

    method MakeEtc()
      requires Valid() && Safe(Now().(etc := true))
      modifies `etc, `history
      ensures Valid() && etc && history == old(history) + [Now()]
    {
      etc := true;
      history := history + [Now()];
    }

    lemma NowIsSafe()
      requires Valid()
      ensures Safe(Now())
    {
      assert Safe(history[|history| - 1]);
    }

    /** The marker is about to be written, and what `Current` looks at is the same. */
    lemma StaysCurrent()
      requires Valid() && stored.Some?
      requires marker.unit == stored.value.unit && marker.principals == stored.value.principals
      requires sound && scope.ssh ==> SshTracked(Now().(stored := Some(marker)), release.admission, scope.enrolled)
      ensures sound ==> Current(Now().(stored := Some(marker)), release, scope)
    {
      hide Current, Core;
      NowIsSafe();
      if sound {
        CurrentLooksAt(Now(), Now().(stored := Some(marker)), release, scope);
      }
    }

    /** The run is of such principals as its scope is for. */
    ghost predicate IsFor(principals: set<string>) {
      scope.enrolled.Some? ==> scope.enrolled.value == principals
    }

    ghost predicate FollowsSsh() {
      sound && scope.ssh
    }

    lemma SshIsKnown()
      requires Valid() && stored.Some?
      ensures FollowsSsh() ==> SshTracked(Now(), release.admission, scope.enrolled)
      ensures sound ==> IsHashList(stored.value.ssh)
    {
      hide Room, Keeps, SshTracked;
      NowIsSafe();
    }

    /** Nothing has changed that the admission file depends on. */
    lemma SshStays(v: Disk)
      requires Valid() && stored.Some? && v.stored.Some? && v.ssh == ssh
      requires v.stored.value.ssh == stored.value.ssh && v.stored.value.sshPending == stored.value.sshPending
      requires v.stored.value.pending == stored.value.pending || stored.value.ssh == []
      ensures FollowsSsh() ==> SshTracked(v, release.admission, scope.enrolled)
    {
      SshIsKnown();
      hide Keeps;
    }

    /** The cap keeps the digest of the file that is there, and has the new one. */
    lemma ConfigSurvives(e: Enrollment)
      requires Valid() && stored.Some?
      ensures sound && MayBegin(stored.value, release, e) ==>
                && release.config(e) in Cap(stored.value.config, release.config(e))
                && Has(Cap(stored.value.config, release.config(e)), config)
    {
      hide Cap, Current, IsHashList;
      NowIsSafe();
      NextHashes(stored.value.config, release.config(e));
    }

    /** The run keeps the sudoers file of the principal on record. */
    ghost predicate Follows(p: string) {
      sound && p in scope.files
    }

    lemma RecordIsKnown(p: string)
      requires Valid() && stored.Some?
      ensures sound && p in stored.value.principals ==> IsHashList(stored.value.principals[p].sudoHashes)
      ensures Follows(p) ==> SudoTracked(Now(), release, scope.other, p)
    {
      hide Room, IsHashList;
      assert Safe(history[|history| - 1]);
    }

    /** The record of one principal changes, and the marker is written. */
    method SaveRecord(p: string, record: Record)
      requires Valid() && stored == Some(marker) && p in marker.principals
      requires sound ==> IsHashList(record.sudoHashes)
      requires Follows(p) ==> Room(record.sudoHashes, FileOf(sudo, p), release.sudo(p), SudoDigest(scope.other, p))
      requires Follows(p) && p in sudo ==> record.sudoManaged && sudo[p] in record.sudoHashes
      modifies `stored, `marker, `history
      ensures Valid() && stored == Some(marker) && history == old(history) + [Now()]
      ensures marker == WithRecord(old(marker), p, record)
    {
      hide Core, Current, Room, IsHashList;
      if sound {
        RecordKeepsCore(Now(), release.admission, marker, p, record);
        RecordKeepsCurrent(Now(), release, scope, marker, p, record);
      }
      marker := WithRecord(marker, p, record);
      Save();
    }

    method WriteSudo(p: string)
      requires Valid() && stored == Some(marker) && p in marker.principals
      requires marker.principals[p].sudoManaged
      requires Follows(p) ==>
                 && release.sudo(p) in marker.principals[p].sudoHashes
                 && Room(marker.principals[p].sudoHashes, Some(release.sudo(p)), release.sudo(p),
                         SudoDigest(scope.other, p))
      modifies `sudo, `history
      ensures Valid() && history == old(history) + [Now()] && sudo == old(sudo)[p := release.sudo(p)]
    {
      hide Core, Current, Room;
      if sound {
        SudoFileKeepsCore(Now(), release.admission, sudo[p := release.sudo(p)]);
        SudoFileKeepsCurrent(Now(), release, scope, p, Some(release.sudo(p)));
      }
      SetSudo(sudo[p := release.sudo(p)]);
    }

    method RemoveSudo(p: string)
      requires Valid() && p in sudo
      modifies `sudo, `history
      ensures Valid() && old(history) <= history && sudo == old(sudo) - {p}
    {
      hide Core, Current;
      if sound {
        SudoFileKeepsCore(Now(), release.admission, sudo - {p});
        RemovalIsTracked(p);
        SudoFileKeepsCurrent(Now(), release, scope, p, None);
      }
      SetSudo(sudo - {p});
    }

    lemma RemovalIsTracked(p: string)
      requires Valid()
      ensures Follows(p) ==> SudoTracked(Now().(sudo := sudo - {p}), release, scope.other, p)
    {
      hide Room;
      NowIsSafe();
      if Follows(p) && stored.Some? && p in stored.value.principals {
        RoomWithout(stored.value.principals[p].sudoHashes, FileOf(sudo, p), release.sudo(p),
                    SudoDigest(scope.other, p));
      }
    }

    /** The digest of the new file is on record, and the file that is there stays on record. */
    method AnnounceSudo(p: string)
      requires Valid() && stored == Some(marker) && p in marker.principals
      requires p in sudo ==> marker.principals[p].sudoManaged && sudo[p] in marker.principals[p].sudoHashes
      modifies `stored, `marker, `history
      ensures Valid() && stored == Some(marker) && history == old(history) + [Now()]
      ensures marker == WithRecord(old(marker), p, AnnouncedRecord(old(marker).principals[p], release.sudo(p)))
      ensures Follows(p) ==>
                var l, h := marker.principals[p].sudoHashes, release.sudo(p);
                h in l && Room(l, Some(h), h, SudoDigest(scope.other, p))
    {
      hide Cap, Core, Current, IsHashList, Room, Valid, Safe;
      var h := release.sudo(p);
      RecordIsKnown(p);
      NextHashes(marker.principals[p].sudoHashes, h);
      if Follows(p) {
        RoomAfterCap(marker.principals[p].sudoHashes, FileOf(sudo, p), h, SudoDigest(scope.other, p));
      }
      SaveRecord(p, AnnouncedRecord(marker.principals[p], h));
    }

    /** The part of `_reconcile_sudoers` that writes a new file. */
    method PublishSudo(p: string)
      requires Valid() && stored == Some(marker) && p in marker.principals
      requires p in sudo ==> marker.principals[p].sudoManaged && sudo[p] in marker.principals[p].sudoHashes
      modifies `stored, `marker, `sudo, `history
      ensures Valid() && stored == Some(marker)
      ensures history == old(history) + PublishTrace(old(Now()), p, release.sudo(p))
      ensures marker == WithRecord(old(marker), p, SettledRecord(old(marker).principals[p], release.sudo(p)))
      ensures sudo == old(sudo)[p := release.sudo(p)]
    {
      hide Cap, Core, Current, IsHashList, Room, Valid, Safe, AnnouncedRecord;
      var settled := SettledRecord(marker.principals[p], release.sudo(p));
      NextHashes([], release.sudo(p));
      RoomOfOne(release.sudo(p), SudoDigest(scope.other, p));
      assert AnnouncedRecord(marker.principals[p], release.sudo(p)).sudoManaged by {
        Announces(marker.principals[p], release.sudo(p));
      }
      AnnounceSudo(p);
      WriteSudo(p);
      SaveRecord(p, settled);
      assert marker == WithRecord(old(marker), p, settled);
    }

    /** `_reconcile_sudoers` of one principal. */
    method ReconcileSudoers(p: string, desired: bool) returns (r: Result<(), Error>)
      requires Valid() && stored == Some(marker) && p in marker.principals
      modifies `stored, `marker, `sudo, `history
      ensures Valid() && stored == Some(marker) && old(history) <= history
      ensures r.Success? <==> OwnsSudo(old(marker), old(sudo), p)
      ensures r.Failure? ==> marker == old(marker) && sudo == old(sudo)
      ensures p in marker.principals && marker == WithRecord(old(marker), p, marker.principals[p])
      ensures marker.principals[p].managed == old(marker).principals[p].managed
      ensures r.Success? && desired ==> sudo == old(sudo)[p := release.sudo(p)] && OwnsSudo(marker, sudo, p)
      ensures r.Success? && desired && FileOf(old(sudo), p) != Some(release.sudo(p)) ==>
                && history == old(history) + PublishTrace(old(Now()), p, release.sudo(p))
                && marker.principals[p].sudoHashes == [release.sudo(p)]
      ensures r.Success? && !desired ==> sudo == old(sudo) - {p} && marker.principals[p].sudoHashes == []
    {
      hide Cap, Core, Current, IsHashList, Room, Valid, Safe, PublishTrace;
      var record := marker.principals[p];
      if p in sudo && (!record.sudoManaged || sudo[p] !in record.sudoHashes) {
        return Failure(Refused);
      }
      if desired {
        if p !in sudo || sudo[p] != release.sudo(p) {
          PublishSudo(p);
        }
      } else {
        if p in sudo {
          RemoveSudo(p);
        }
        if record.sudoHashes != [] {
          NextHashes([], release.sudo(p));
          RoomOfOne(release.sudo(p), SudoDigest(scope.other, p));
          SaveRecord(p, record.(sudoHashes := []));
        }
      }
      return Success(());
    }

    /** `_prepare_enrollment` until the intent is written. */
    method BeginEnrollment(e: Enrollment) returns (r: Result<(), Error>)
      requires Valid() && stored == Some(marker) && draining
      modifies `stored, `marker, `history
      ensures Valid() && stored == Some(marker) && old(history) <= history
      ensures r.Success? <==> SshPreflight(old(marker), ssh) && MayBegin(old(marker), release, e)
      ensures marker == if r.Success? then Begun(old(marker), release, e) else old(marker)
      ensures old(marker).pending.Some? && r.Success? ==>
                && old(marker).pending.value.enrollment == e
                && old(marker).pending.value.config == release.config(e)
                && old(marker).pending.value.unit == release.unit
      ensures old(marker).pending.None? ==> (r.Success? <==> SshPreflight(old(marker), ssh))
      ensures r.Success? ==>
                && history == old(history) + [Now()]
                && marker.config == Cap(old(marker).config, release.config(e))
                && marker.unit == Cap(old(marker).unit, release.unit)
                && marker.pending == Some(Pending(e, e.principals, release.config(e), release.unit))
                && marker == old(marker).(config := marker.config, unit := marker.unit, pending := marker.pending)
    {
      hide Core, Current, Cap;
      if !SshPreflight(marker, ssh) {
        return Failure(Refused);
      }
      if !MayBegin(marker, release, e) {
        return Failure(PendingDiffers);
      }
      if sound {
        assert Current(Now(), release, scope) by {
          NowIsSafe();
        }
        BeginKeepsCore(Now(), release, e);
        BeginKeepsCurrent(Now(), release, scope, e);
      }
      marker := Begun(marker, release, e);
      Save();
      return Success(());
    }

    /** New principals get a record. */
    method AddPrincipals(e: Enrollment) returns (r: Result<(), Error>)
      requires Valid() && stored == Some(marker)
      modifies `stored, `marker, `history
      ensures Valid() && stored == Some(marker) && old(history) <= history
      ensures r.Success? <==> forall p :: p in e.principals && p !in old(marker).principals ==> p !in sudo
      ensures marker == if r.Success? then WithPrincipals(old(marker), e.principals) else old(marker)
      ensures r.Success? ==>
                && marker == old(marker).(principals := marker.principals)
                && marker.principals.Keys == old(marker).principals.Keys + e.principals
                && forall p :: p in marker.principals ==>
                     marker.principals[p]
                     == if p in old(marker).principals then old(marker).principals[p] else Record(false, false, [])
    {
      hide Core, Current, Valid;
      if exists p :: p in e.principals && p !in marker.principals && p in sudo {
        return Failure(Refused);
      }
      NowIsSafe();
      NewPrincipalsKeepSafe(Now(), release, scope, e.principals);
      marker := WithPrincipals(marker, e.principals);
      Save();
      return Success(());
    }

    predicate SameAuthority(a: Record, b: Record) {
      a.sudoManaged == b.sudoManaged && a.sudoHashes == b.sudoHashes
    }

    /** The part of `_ensure_transport_account` that the marker sees, for every principal. */
    method EnsureAccounts(e: Enrollment)
      requires Valid() && stored == Some(marker) && e.principals <= marker.principals.Keys
      modifies `stored, `marker, `history
      ensures Valid() && stored == Some(marker) && old(history) <= history
      ensures marker == old(marker).(principals := marker.principals)
      ensures marker.principals.Keys == old(marker).principals.Keys
      ensures forall p :: p in marker.principals ==> SameAuthority(marker.principals[p], old(marker).principals[p])
    {
      hide Core, Current, IsHashList, Room, Valid, Safe;
      var left := e.principals;
      while left != {}
        invariant Valid() && stored == Some(marker) && old(history) <= history
        invariant left <= e.principals && marker == old(marker).(principals := marker.principals)
        invariant marker.principals.Keys == old(marker).principals.Keys
        invariant forall p :: p in marker.principals ==> SameAuthority(marker.principals[p], old(marker).principals[p])
        decreases left
      {
        var p :| p in left;
        RecordIsKnown(p);
        SaveRecord(p, marker.principals[p].(managed := true));
        left := left - {p};
      }
    }

    /** Who has sudo authority when the principals are settled. */
    predicate IsSettled(e: Enrollment)
      reads `marker, `sudo
    {
      forall p :: p in marker.principals ==> IsSettledAt(e, p)
    }

    predicate IsSettledAt(e: Enrollment, p: string)
      reads `marker, `sudo
    {
      && OwnsSudo(marker, sudo, p)
      && if p in e.principals then FileOf(sudo, p) == Some(release.sudo(p))
         else p !in sudo && HashesOf(marker, p) == []
    }

    method SettleNext(p: string, e: Enrollment, ghost base: Disk, ghost done: set<string>)
      returns (r: Result<(), Error>)
      requires Valid() && stored == Some(marker) && p in marker.principals && p !in done
      requires DiffersInAuthority(Now(), base) && Granted(history, marker, base, release, done)
      requires HashesOf(marker, p) == HashesOf(base.stored.value, p) && FileOf(sudo, p) == FileOf(base.sudo, p)
      modifies `stored, `marker, `sudo, `history
      ensures Valid() && stored == Some(marker) && old(history) <= history
      ensures p in marker.principals && marker == WithRecord(old(marker), p, marker.principals[p])
      ensures DiffersInAuthority(Now(), base)
      ensures forall q :: q != p ==> FileOf(sudo, q) == FileOf(old(sudo), q)
      ensures forall q :: q != p ==> OwnsSudo(marker, sudo, q) == OwnsSudo(old(marker), old(sudo), q)
      ensures forall q :: q != p ==> IsSettledAt(e, q) == old(IsSettledAt(e, q))
      ensures r.Success? <==> OwnsSudo(old(marker), old(sudo), p)
      ensures r.Success? ==> IsSettledAt(e, p) && Granted(history, marker, base, release, done + {p} * e.principals)
    {
      hide Core, Current, IsHashList, Room, Valid, Safe, PublishTrace, Publishes, Granted;
      ghost var before, was, held := Now(), history, marker;
      r := ReconcileSudoers(p, p in e.principals);
      if r.Success? {
        GrantsOne(was, before, held, base, p, done, e.principals);
      }
    }

    /** The loop that reconciles every principal: enrolled ones get sudo authority, retired
        ones lose it. */
    method SettleSudoers(e: Enrollment) returns (r: Result<(), Error>)
      requires Valid() && stored == Some(marker)
      modifies `stored, `marker, `sudo, `history
      ensures Valid() && stored == Some(marker) && old(history) <= history
      ensures marker == old(marker).(principals := marker.principals)
      ensures marker.principals.Keys == old(marker).principals.Keys
      ensures r.Success? <==> forall p :: p in old(marker).principals ==> OwnsSudo(old(marker), old(sudo), p)
      ensures r.Success? ==> IsSettled(e)
      ensures r.Success? ==>
                Granted(history, marker, old(Now()), release, marker.principals.Keys * e.principals)
      ensures forall p :: p !in marker.principals ==> FileOf(sudo, p) == FileOf(old(sudo), p)
    {
      hide Core, Current, Valid, Granted, OwnsSudo, IsSettledAt, DiffersInAuthority;
      ghost var done: set<string> := {};
      GrantsNone(old(Now()));
      var left := marker.principals.Keys;
      while left != {}
        invariant Valid() && stored == Some(marker) && old(history) <= history
        invariant left <= marker.principals.Keys == old(marker).principals.Keys
        invariant marker == old(marker).(principals := marker.principals)
        invariant DiffersInAuthority(Now(), old(Now()))
        invariant forall p :: p in left ==> marker.principals[p] == old(marker).principals[p]
        invariant forall p :: p in left ==> OwnsSudo(marker, sudo, p) == OwnsSudo(old(marker), old(sudo), p)
        invariant forall p :: p in left || p !in marker.principals ==> FileOf(sudo, p) == FileOf(old(sudo), p)
        invariant forall p :: p in marker.principals && p !in left ==> OwnsSudo(old(marker), old(sudo), p)
        invariant forall p :: p in marker.principals && p !in left ==> IsSettledAt(e, p)
        invariant done == (marker.principals.Keys - left) * e.principals
        invariant Granted(history, marker, old(Now()), release, done)
        decreases left
      {
        var p :| p in left;
        r := SettleNext(p, e, old(Now()), done);
        if r.Failure? {
          return;
        }
        done := done + {p} * e.principals;
        left := left - {p};
      }
      assert done == marker.principals.Keys * e.principals;
      return Success(());
    }

    lemma GrantsNone(base: Disk)
      requires base.stored.Some?
      ensures Granted(history, marker, base, release, {}) && DiffersInAuthority(base, base)
    {}

    /** One more principal is reconciled. */
    lemma GrantsOne(was: seq<Disk>, before: Disk, held: Marker, base: Disk, p: string, done: set<string>,
                    principals: set<string>)
      requires base.stored.Some? && Granted(was, held, base, release, done)
      requires before.stored == Some(held) && p in held.principals && p in marker.principals
      requires DiffersInAuthority(before, base)
      requires HashesOf(held, p) == HashesOf(base.stored.value, p) && FileOf(before.sudo, p) == FileOf(base.sudo, p)
      requires was <= history && p !in done && marker == WithRecord(held, p, marker.principals[p])
      requires p in principals && FileOf(before.sudo, p) != Some(release.sudo(p)) ==>
                 && history == was + PublishTrace(before, p, release.sudo(p))
                 && marker.principals[p].sudoHashes == [release.sudo(p)]
      ensures Granted(history, marker, base, release, done + {p} * principals)
    {
      hide PublishTrace;
      GrantedLater(was, history, held, marker, base, base, release, done);
      if p in principals && FileOf(before.sudo, p) != Some(release.sudo(p)) {
        TracePublishes(was, before, base, p, release.sudo(p));
      }
      hide Publishes;
    }

    /** The configuration file, between two writes of the marker. */
    method PublishConfig(content: nat) returns (r: Result<(), Error>)
      requires Valid() && stored == Some(marker) && (sound ==> content in marker.config)
      modifies `stored, `marker, `config, `history
      ensures Valid() && stored == Some(marker) && old(history) <= history
      ensures r.Success? <==> Has(old(marker).config, old(config))
      ensures r.Success? ==> config == Some(content) && marker == old(marker).(config := [content])
      ensures r.Failure? ==> config == old(config) && marker == old(marker)
    {
      hide Core, Current, Valid, SshTracked;
      if !Has(marker.config, config) {
        return Failure(Refused);
      }
      NowIsSafe();
      SshStays(Now().(config := Some(content)));
      if sound {
        ConfigKeepsCore(Now(), release.admission, content);
        CurrentLooksAt(Now(), Now().(config := Some(content)), release, scope);
      }
      SetConfig(Some(content));
      marker := marker.(config := [content]);
      SshStays(Now().(stored := Some(marker)));
      StaysCurrent();
      Save();
      return Success(());
    }

    method AnnounceSsh(content: nat)
      requires Valid() && stored == Some(marker) && marker.pending.Some? && IsFor(marker.pending.value.principals)
      requires content == release.admission(marker.pending.value.principals)
      requires marker.sshPending.Some? ==> marker.sshPending.value.action == Create
      modifies `stored, `marker, `history
      ensures Valid() && stored == Some(marker) && history == old(history) + [Now()]
      ensures marker == Announced(old(marker), content) && (FollowsSsh() ==> content in marker.ssh)
    {
      hide Core, Current, Valid, Cap, SshTracked;
      NowIsSafe();
      SshIsKnown();
      if sound {
        AnnouncingKeepsCore(Now(), release, content);
      }
      if FollowsSsh() {
        AnnouncingKeepsSsh(Now(), release, scope.enrolled);
      }
      marker := Announced(marker, content);
      StaysCurrent();
      Save();
    }

    /** The SSH admission file, between two writes of the marker. */
    method PublishSsh(content: nat)
      requires Valid() && stored == Some(marker) && marker.pending.Some? && IsFor(marker.pending.value.principals)
      requires content == release.admission(marker.pending.value.principals)
      requires marker.sshPending.Some? ==> marker.sshPending.value.action == Create
      modifies `stored, `marker, `ssh, `history
      ensures Valid() && stored == Some(marker)
      ensures history == old(history) + AdmissionTrace(old(Now()), content)
      ensures ssh == Some(content) && marker == old(marker).(ssh := [content], sshPending := None)
    {
      hide Core, Current, Valid, Cap, SshTracked;
      AnnounceSsh(content);
      NowIsSafe();
      SshIsKnown();
      if sound {
        SshKeepsCore(Now(), release, content);
      }
      if FollowsSsh() {
        WritingKeepsSsh(Now(), release, scope.enrolled, content);
      }
      if sound {
        CurrentLooksAt(Now(), Now().(ssh := Some(content)), release, scope);
      }
      SetSsh(Some(content));
      marker := marker.(ssh := [content], sshPending := None);
      StaysCurrent();
      Save();
    }

    /** New principals and enabled accounts change no authority. */
    lemma AuthorityIsKept(m: Marker, sudo: map<string, nat>, principals: set<string>)
      requires forall p :: p in sudo ==> OwnsSudo(m, sudo, p)
      ensures forall p :: p in principals && p !in m.principals ==> p !in sudo
      ensures forall v: Marker, p :: p in v.principals && p in WithPrincipals(m, principals).principals ==>
                (SameAuthority(v.principals[p], WithPrincipals(m, principals).principals[p]) ==> OwnsSudo(v, sudo, p))
    {}

    /** `_prepare_enrollment` until every principal has an account. */
    method PrepareAccounts(e: Enrollment) returns (r: Result<(), Error>)
      requires Valid() && stored == Some(marker) && draining
      modifies `stored, `marker, `history
      ensures Valid() && stored == Some(marker) && old(history) <= history
      ensures OwnsFiles(old(marker), old(Now())) && MayBegin(old(marker), release, e) ==>
                r.Success? && forall p :: p in marker.principals ==> OwnsSudo(marker, sudo, p)
      ensures r.Success? ==>
                && MayBegin(old(marker), release, e)
                && marker == Begun(old(marker), release, e).(principals := marker.principals)
                && marker.principals.Keys == old(marker).principals.Keys + e.principals
                && (forall p :: p in e.principals ==> HashesOf(marker, p) == HashesOf(old(marker), p))
                && old(Now()).(stored := Some(Begun(old(marker), release, e))) in history
    {
      hide Core, Current, Valid, Cap;
      r := BeginEnrollment(e);
      if r.Failure? {
        return;
      }
      assert history[|history| - 1] == old(Now()).(stored := Some(Begun(old(marker), release, e)));
      if OwnsFiles(old(marker), old(Now())) {
        AuthorityIsKept(old(marker), sudo, e.principals);
      }
      r := AddPrincipals(e);
      if r.Failure? {
        return;
      }
      EnsureAccounts(e);
    }

    /** `_prepare_enrollment` until principals and sudoers files are settled. */
    method PrepareAuthority(e: Enrollment) returns (r: Result<(), Error>)
      requires Valid() && stored == Some(marker) && draining
      modifies `stored, `marker, `sudo, `history
      ensures Valid() && stored == Some(marker) && old(history) <= history
      ensures OwnsFiles(old(marker), old(Now())) && MayBegin(old(marker), release, e) ==> r.Success?
      ensures r.Success? ==>
                && MayBegin(old(marker), release, e)
                && marker == Begun(old(marker), release, e).(principals := marker.principals)
                && marker.principals.Keys == old(marker).principals.Keys + e.principals
                && IsSettled(e)
                && forall p :: p in sudo ==> p in marker.principals || p in old(sudo)
      ensures r.Success? ==>
                var begun := old(Now()).(stored := Some(Begun(old(marker), release, e)));
                && begun in history && Granted(history, marker, begun, release, e.principals)
    {
      hide Core, Current, Valid, Cap, Granted, OwnsSudo, OwnsFiles, IsSettled;
      r := PrepareAccounts(e);
      if r.Failure? {
        return;
      }
      ghost var base := Now();
      r := SettleSudoers(e);
      if r.Success? {
        assert marker.principals.Keys * e.principals == e.principals;
        GrantedLater(history, history, marker, marker, base,
                     old(Now()).(stored := Some(Begun(old(marker), release, e))), release, e.principals);
      }
    }

    /** `_prepare_enrollment` */
    method PrepareEnrollment(e: Enrollment) returns (r: Result<(), Error>)
      requires Valid() && stored == Some(marker) && draining
      requires marker.sshPending.Some? ==> marker.sshPending.value.action == Create
      requires IsFor(e.principals)
      modifies `stored, `marker, `sudo, `config, `ssh, `history
      ensures Valid() && stored == Some(marker) && old(history) <= history
      ensures sound && OwnsFiles(old(marker), old(Now())) && MayBegin(old(marker), release, e) ==> r.Success?
      ensures r.Success? ==> config == Some(release.config(e)) && ssh == Some(release.admission(e.principals))
      ensures r.Success? ==>
                && marker.config == [release.config(e)] && marker.ssh == [release.admission(e.principals)]
                && marker.unit == Cap(old(marker).unit, release.unit) && marker.sshPending.None?
      ensures r.Success? ==>
                && marker.principals.Keys == old(marker).principals.Keys + e.principals
                && IsSettled(e)
                && forall p :: p in sudo ==> p in marker.principals || p in old(sudo)
      ensures r.Success? ==>
                var begun := old(Now()).(stored := Some(Begun(old(marker), release, e)));
                && begun in history && Granted(history, marker, begun, release, e.principals)
                && Admits(history, begun, release.admission(e.principals))
    {
      hide Core, Current, Valid, Cap, OwnsFiles, SshPreflight, Granted, Admits, AdmissionTrace;
      ConfigSurvives(e);
      r := PrepareAuthority(e);
      if r.Failure? {
        return;
      }
      ghost var was, held := history, marker;
      r := PublishConfig(release.config(e));
      if r.Failure? {
        return;
      }
      ghost var begun := old(Now()).(stored := Some(Begun(old(marker), release, e)));
      TraceAdmits(history, Now(), begun, release.admission(e.principals));
      PublishSsh(release.admission(e.principals));
      GrantedLater(was, history, held, marker, begun, begun, release, e.principals);
    }

    /** Until the store drains: an inadmissible run changes nothing, and the first run leaves
        a marker before anything else. */
    method Admit(e: Enrollment) returns (r: Result<(), Error>)
      requires Valid()
      modifies `etc, `stored, `marker, `history
      ensures Valid() && old(history) <= history
      ensures r.Success? <==> IsAdmissible(old(Now()), e, release.admission)
      ensures r.Failure? ==> Now() == old(Now()) && history == old(history)
      ensures r.Success? ==> marker == MarkerOf(old(Now())) && stored == Some(marker)
      ensures r.Success? ==> etc == (old(etc) || old(stored).None?)
    {
      hide Core, Current, Valid, Parses, Preflight;
      if etc && stored.None? {
        return Failure(Unmanaged);
      }
      marker := if stored.Some? then stored.value else EMPTY_MARKER;
      if !Parses(marker, release.admission) {
        return Failure(InvalidMarker);
      }
      if !Preflight(marker, Now(), e) {
        return Failure(Refused);
      }
      if stored.None? {
        FirstMarkerIsSafe(e);
        MakeEtc();
        Save();
      }
      return Success(());
    }

    lemma FirstMarkerIsSafe(e: Enrollment)
      requires Valid() && stored.None? && Preflight(EMPTY_MARKER, Now(), e)
      ensures Safe(Now().(etc := true)) && Safe(Now().(etc := true, stored := Some(EMPTY_MARKER)))
    {
      EmptyMarkerIsSafe(Now().(etc := true), release, scope);
    }

    /** The drain is changed only when no reconciliation is pending, or to drain. */
    method Drain(drain: bool)
      requires Valid() && (drain || stored.None? || stored.value.pending.None?)
      modifies `draining, `history
      ensures Valid() && draining == drain && old(history) <= history
    {
      hide Core, Current, Valid;
      NowIsSafe();
      DrainingKeepsSafe(Now(), release, scope, drain);
      SetDraining(drain);
    }

    method ReplaceUnit(content: Option<nat>)
      requires Valid() && stored.Some?
      requires sound && scope.unit ==> UnitTracked(Now().(unit := content), release, scope.other)
      modifies `unit, `history
      ensures Valid() && unit == content && history == old(history) + [Now()]
    {
      hide Core, Current, Valid, UnitTracked;
      NowIsSafe();
      UnitKeepsSafe(Now(), release, scope, content);
      SetUnit(content);
    }

    /** The unit list with the digest added is right for the old unit and for the new one. */
    lemma UnitSurvives()
      requires Valid() && stored.Some?
      ensures sound && scope.unit ==>
                var l := Cap(stored.value.unit, release.unit);
                && Has(l, unit) && Room(l, unit, release.unit, UnitDigest(scope.other))
                && Has(l, Some(release.unit)) && Room(l, Some(release.unit), release.unit, UnitDigest(scope.other))
    {
      hide Cap, Room;
      NowIsSafe();
      if sound && scope.unit {
        RoomAfterCap(stored.value.unit, unit, release.unit, UnitDigest(scope.other));
      }
    }

    /** The part of `_configure_build_host` inside the unit transaction. */
    method Install(e: Enrollment, c: Conditions) returns (r: Result<(), Error>)
      requires Valid() && stored == Some(marker) && draining && OwnsFiles(marker, Now())
      requires marker.sshPending.Some? ==> marker.sshPending.value.action == Create
      requires IsFor(e.principals)
      modifies `stored, `marker, `sudo, `config, `ssh, `unit, `history
      ensures Valid() && stored == Some(marker) && old(history) <= history
      ensures sound && MayBegin(old(marker), release, e) ==>
                if c.unitFails then r == Failure(UnitFailed) else r.Success?
      ensures r.Failure? ==> unit == old(unit)
      ensures r.Success? ==>
                && IsEnrolled(Now(), release, e)
                && var begun := old(Now()).(stored := Some(Begun(old(marker), release, e)));
                   WentThrough(history, marker, begun, release, e)
    {
      hide Core, Current, Valid, Cap, Has, IsHashList, Granted, Admits;
      UnitSurvives();
      ghost var begun := Now().(stored := Some(Begun(marker, release, e)));
      r := PrepareEnrollment(e);
      if r.Failure? {
        return;
      }
      ghost var was, held := history, marker;
      var previous := unit;
      ReplaceUnit(Some(release.unit));
      if c.unitFails {
        ReplaceUnit(previous);
        return Failure(UnitFailed);
      }
      assert history[|history| - 1] == Now() && UnitWritten(history, begun.stored.value.unit, release.unit);
      Finish(e);
      FinishedHashes(held);
      GrantedLater(was, history, held, marker, begun, begun, release, e.principals);
      AdmittedLater(was, history, begun, release.admission(e.principals));
    }

    lemma FinishedHashes(m: Marker)
      ensures forall p :: HashesOf(Finished(m, release), p) == HashesOf(m, p)
    {}

    /** Draining, and what may be busy. */
    method Hold(c: Conditions) returns (r: Result<(), Error>)
      requires Valid() && stored == Some(marker)
      modifies `draining, `history
      ensures Valid() && old(history) <= history
      ensures Busy(c).None? ==> r.Success? && draining
      ensures Busy(c).Some? ==> r == Failure(Busy(c).value) && (c.runningClaim && !c.workerActive ==> draining)
      ensures sound && (c.workerActive || (c.unitBusy && !c.runningClaim)) ==> draining == old(draining)
    {
      hide Core, Current, Valid;
      var prior, hasPending := draining, marker.pending.Some?;
      PendingIsDrained();
      Drain(true);
      if c.workerActive {
        if !hasPending {
          Drain(prior);
        }
        return Failure(WorkerActive);
      }
      if c.runningClaim {
        return Failure(RunningClaim);
      }
      if c.unitBusy {
        if !hasPending {
          Drain(prior);
        }
        return Failure(UnitBusy);
      }
      return Success(());
    }

    /** `_configure_build_host` for an enrollment. */
    method Configure(e: Enrollment, c: Conditions) returns (r: Result<(), Error>)
      requires Valid() && IsFor(e.principals)
      modifies this
      ensures Valid() && old(history) <= history
      ensures r.Success? ==> IsEnrolled(Now(), release, e)
      ensures r.Success? ==> draining == (!MarkerOf(old(Now())).disabled && old(draining))
      ensures !IsAdmissible(old(Now()), e, release.admission) ==>
                r.Failure? && Now() == old(Now()) && history == old(history)
      ensures IsAdmissible(old(Now()), e, release.admission) && Busy(c).Some? ==>
                && r == Failure(Busy(c).value) && (c.runningClaim && !c.workerActive ==> draining)
                && SameButDrain(Now(), old(Now()).(etc := etc, stored := Some(MarkerOf(old(Now())))))
      ensures sound && Busy(c).None? && IsAdmissible(old(Now()), e, release.admission)
              && MayBegin(MarkerOf(old(Now())), release, e) ==>
                if c.unitFails then r == Failure(UnitFailed) else r.Success?
      ensures sound && (c.workerActive || (c.unitBusy && !c.runningClaim)) ==> draining == old(draining)
      ensures r.Failure? ==> unit == old(unit)
      ensures r.Success? ==>
                stored == Some(marker) && WentThrough(history, marker, BegunDisk(old(Now()), release, e), release, e)
    {
      hide Core, Current, Valid, Cap, Has, IsHashList, WentThrough, Begun;
      r := Admit(e);
      if r.Failure? {
        return;
      }
      var prior, wasDisabled := draining, marker.disabled;
      ghost var found := Now();
      assert OwnsFiles(marker, found);
      r := Hold(c);
      if r.Failure? {
        return;
      }
      assert OwnsFiles(marker, Now());
      r := Install(e, c);
      if r.Failure? {
        return;
      }
      ghost var was := history;
      Drain(if wasDisabled then false else prior);
      WentThroughLater(was, history, marker, BegunDisk(old(Now()), release, e), release, e);
    }

    lemma PendingIsDrained()
      requires Valid()
      ensures sound && stored.Some? && stored.value.pending.Some? ==> draining
    {
      hide Parses, Current;
      NowIsSafe();
    }

    method Finish(e: Enrollment)
      requires Valid() && stored == Some(marker) && unit == Some(release.unit)
      requires config == Some(release.config(e)) && ssh == Some(release.admission(e.principals))
      requires marker.config == [release.config(e)] && marker.ssh == [release.admission(e.principals)]
      requires marker.sshPending.None? && IsSettled(e) && sudo.Keys <= marker.principals.Keys
      requires e.principals <= marker.principals.Keys
      modifies `stored, `marker, `history
      ensures Valid() && old(history) <= history && stored == Some(marker)
      ensures IsEnrolled(Now(), release, e) && marker == Finished(old(marker), release)
      ensures marker == old(marker).(unit := [release.unit], pending := None, disabled := false,
                                     principals := marker.principals)
    {
      hide Core, Current, Valid;
      NowIsSafe();
      FinishKeepsSafe(Now(), release, scope);
      marker := Finished(marker, release);
      Save();
      assert sudo == map p | p in e.principals :: release.sudo(p);
    }

    /** The admission file goes, between two writes of the marker. */
    method RemoveSsh(digest: nat)
      requires Valid() && stored == Some(marker) && marker.disabled && (ssh.Some? ==> ssh.value == digest)
      modifies `stored, `marker, `ssh, `history
      ensures Valid() && stored == Some(marker) && old(history) <= history
      ensures ssh.None? && marker == old(marker).(ssh := [], sshPending := None)
    {
      hide Core, Current, Valid, SshTracked;
      NowIsSafe();
      RemovingKeepsSsh(Now(), release.admission, scope.enrolled, digest);
      if sound {
        SshRemovalKeepsCore(Now(), release.admission, digest);
      }
      marker := marker.(ssh := [digest], sshPending := Some(Transition(Remove, digest)));
      StaysCurrent();
      Save();
      NowIsSafe();
      if sound {
        CurrentLooksAt(Now(), Now().(ssh := None), release, scope);
      }
      SetSsh(None);
      marker := marker.(ssh := [], sshPending := None);
      StaysCurrent();
      Save();
    }

    /** The SSH admission part of `_revoke_managed_access`. */
    method RevokeSsh() returns (r: Result<(), Error>)
      requires Valid() && stored == Some(marker) && marker.disabled
      modifies `stored, `marker, `ssh, `history
      ensures Valid() && stored == Some(marker) && old(history) <= history
      ensures r.Success? <==> SshPreflight(old(marker), old(ssh))
      ensures r.Success? && (sound || old(marker).sshPending.None?) ==>
                ssh.None? && marker == old(marker).(ssh := [], sshPending := None)
      ensures r.Failure? ==> marker == old(marker) && ssh == old(ssh)
    {
      hide Core, Current, Valid;
      if !SshPreflight(marker, ssh) {
        return Failure(Refused);
      }
      NoSshNoTransition();
      if marker.ssh != [] {
        RemoveSsh(if ssh.Some? then ssh.value else marker.sshPending.value.digest);
      }
      return Success(());
    }

    lemma NoSshNoTransition()
      requires Valid() && stored.Some?
      ensures sound && stored.value.ssh == [] ==> stored.value.sshPending.None?
    {
      hide Distinct, Current;
      NowIsSafe();
    }

    /** The principals part of `_revoke_managed_access`. */
    method RevokeSudoers() returns (r: Result<(), Error>)
      requires Valid() && stored == Some(marker)
      modifies `stored, `marker, `sudo, `history
      ensures Valid() && stored == Some(marker) && old(history) <= history
      ensures marker == old(marker).(principals := marker.principals)
      ensures (forall p :: p in old(sudo) ==> OwnsSudo(old(marker), old(sudo), p)) ==> r.Success? && sudo == map[]
    {
      hide Core, Current, IsHashList, Room, Valid, Safe;
      var left := marker.principals.Keys;
      while left != {}
        invariant Valid() && stored == Some(marker) && old(history) <= history
        invariant left <= marker.principals.Keys == old(marker).principals.Keys
        invariant marker == old(marker).(principals := marker.principals)
        invariant forall p :: p in left ==> marker.principals[p] == old(marker).principals[p]
        invariant forall p :: p in sudo ==> p in old(sudo) && sudo[p] == old(sudo)[p]
        invariant forall p :: p in marker.principals && p !in left && p in sudo ==>
                    !old(marker).principals[p].sudoManaged
        decreases left
      {
        var p :| p in left;
        if marker.principals[p].managed || marker.principals[p].sudoManaged {
          r := ReconcileSudoers(p, false);
          if r.Failure? {
            return;
          }
          NextHashes([], release.sudo(p));
          RoomOfOne(release.sudo(p), SudoDigest(scope.other, p));
          SaveRecord(p, marker.principals[p].(sudoHashes := []));
        }
        left := left - {p};
      }
      return Success(());
    }

    /** The last part of `_revoke_managed_access`. */
    method RevokeConfig() returns (r: Result<(), Error>)
      requires Valid() && stored == Some(marker) && (sound ==> marker.ssh == [])
      modifies `stored, `marker, `config, `history
      ensures Valid() && stored == Some(marker) && old(history) <= history
      ensures r.Success? <==> Has(old(marker).config, old(config))
      ensures r.Success? ==>
                config.None? && marker == old(marker).(config := [], pending := None, disabled := true)
      ensures r.Failure? ==> marker == old(marker)
    {
      hide Core, Current, Valid;
      NowIsSafe();
      if sound {
        ConfigRemovalKeepsCore(Now(), release.admission);
      }
      if config.Some? {
        if config.value !in marker.config {
          return Failure(Refused);
        }
        SshStays(Now().(config := None));
        if sound {
          CurrentLooksAt(Now(), Now().(config := None), release, scope);
        }
        SetConfig(None);
      }
      marker := marker.(config := [], pending := None, disabled := true);
      if sound {
        SshStays(Now().(stored := Some(marker)));
      }
      StaysCurrent();
      Save();
      return Success(());
    }

    /** `_revoke_managed_access` */
    method Revoke() returns (r: Result<(), Error>)
      requires Valid() && stored == Some(marker) && marker.disabled
      modifies `stored, `marker, `ssh, `sudo, `config, `history
      ensures Valid() && stored == Some(marker) && old(history) <= history
      ensures sound && OwnsFiles(old(marker), old(Now())) ==>
                && r.Success? && config.None? && ssh.None? && sudo == map[]
                && marker.unit == old(marker).unit && marker.sshPending.None? && marker.pending.None?
                && marker.config == [] && marker.ssh == [] && marker.disabled
    {
      hide Core, Current, Valid, SshPreflight, Has;
      r := RevokeSsh();
      if r.Failure? {
        return;
      }
      r := RevokeSudoers();
      if r.Failure? {
        return;
      }
      r := RevokeConfig();
    }

    /** The part of `_disable_build_host` inside the unit transaction, and the last write. */
    method Dismantle(c: Conditions) returns (r: Result<(), Error>)
      requires Valid() && stored == Some(marker) && marker.disabled && draining && OwnsFiles(marker, Now())
      modifies `stored, `marker, `ssh, `sudo, `config, `unit, `history
      ensures Valid() && stored == Some(marker) && old(history) <= history
      ensures sound && c == CALM ==> r.Success?
      ensures sound && r.Success? ==> IsDisabled(Now())
      ensures r.Failure? ==> unit == old(unit)
      ensures sound && c == UNLUCKY && old(unit).Some? ==>
                r.Failure? && IsRolledBack(Now(), old(unit), old(marker).unit)
    {
      hide Core, Current, Valid, OwnsFiles, Has;
      var previous := unit;
      NowIsSafe();
      UnitIsKnown();
      if unit.Some? && c.unitBusy {
        return Failure(UnitBusy);
      }
      r := Revoke();
      if r.Failure? {
        return;
      }
      if unit.Some? {
        EmptyIsKnown();
        ReplaceUnit(None);
        if c.unitFails {
          ReplaceUnit(previous);
          return Failure(UnitFailed);
        }
      }
      ForgetUnit();
    }

    lemma EmptyIsKnown()
      ensures forall hashes :: Has(hashes, None)
    {}

    method ForgetUnit()
      requires Valid() && stored == Some(marker) && unit.None?
      requires sound ==> marker.config == [] && marker.ssh == [] && marker.sshPending.None?
      modifies `stored, `marker, `history
      ensures Valid() && stored == Some(marker) && old(history) <= history
      ensures marker == old(marker).(unit := [], pending := None, disabled := true)
    {
      hide Core, Current, Valid;
      NowIsSafe();
      if sound {
        ForgettingUnitKeepsSafe(Now(), release, scope);
      }
      marker := marker.(unit := [], pending := None, disabled := true);
      Save();
    }

    /** `_disable_build_host` */
    method Disable(c: Conditions) returns (r: Result<(), Error>)
      requires Valid()
      modifies this
      ensures Valid() && old(history) <= history
      ensures old(etc) && !IsDisablable(old(Now()), release.admission) ==>
                r.Failure? && Now() == old(Now()) && history == old(history)
      ensures !old(etc) ==>
                && Now() == old(Now()) && history == old(history)
                && (r.Success? <==> unit.None? && sudo == map[])
      ensures old(etc) && IsDisablable(old(Now()), release.admission) && (c.workerActive || c.runningClaim) ==>
                r == Failure(Busy(c).value) && Now() == old(Now()).(draining := true)
      ensures sound && c == CALM && IsDisablable(old(Now()), release.admission) ==> r.Success?
      ensures sound && r.Success? && old(etc) ==> IsDisabled(Now())
      ensures IsDisablable(old(Now()), release.admission) ==> draining
      ensures r.Failure? ==> unit == old(unit)
      ensures sound && c == UNLUCKY && IsDisablable(old(Now()), release.admission) && old(unit).Some? ==>
                r.Failure? && IsRolledBack(Now(), old(unit), old(stored).value.unit)
    {
      hide Core, Current, Valid, Parses, OwnsFiles;
      if !etc {
        return if unit.Some? || sudo != map[] then Failure(Unmanaged) else Success(());
      }
      if stored.None? {
        return Failure(Unmanaged);
      }
      marker := stored.value;
      if !Parses(marker, release.admission) {
        return Failure(InvalidMarker);
      }
      if !OwnsFiles(marker, Now()) {
        return Failure(Refused);
      }
      ghost var owned := Now();
      Drain(true);
      if c.workerActive {
        return Failure(WorkerActive);
      }
      if c.runningClaim {
        return Failure(RunningClaim);
      }
      NowIsSafe();
      DisablingKeepsSafe(Now(), release, scope);
      marker := marker.(disabled := true);
      Save();
      OwnershipIsKept(owned, Now());
      r := Dismantle(c);
      if r.Success? {
        Drain(true);
      }
    }

    lemma UnitIsKnown()
      requires Valid() && stored.Some?
      ensures sound && scope.unit ==>
                && UnitTracked(Now(), release, scope.other)
                && UnitTracked(Now().(unit := None), release, scope.other)
    {
      hide Room;
      NowIsSafe();
      if sound && scope.unit {
        RoomWithout(stored.value.unit, unit, release.unit, UnitDigest(scope.other));
      }
    }
  }

  lemma OwnershipIsKept(d: Disk, v: Disk)
    requires d.stored.Some? && OwnsFiles(d.stored.value, d)
    requires v == d.(draining := true, stored := Some(d.stored.value.(disabled := true)))
    ensures OwnsFiles(v.stored.value, v)
  {}

  // ---------------------------------------------------------------------------
  // One enrollment: when the capped lists keep every file on record
  // ---------------------------------------------------------------------------

  predicate OwnsUnit(d: Disk) {
    d.stored.Some? ==> Has(d.stored.value.unit, d.unit)
  }

  predicate OwnsSudoOf(d: Disk, p: string) {
    d.stored.Some? ==> OwnsSudo(d.stored.value, d.sudo, p)
  }

  predicate OwnsSsh(d: Disk) {
    d.stored.Some? ==> SshPreflight(d.stored.value, d.ssh)
  }

  predicate KeepsUnit(d: Disk, release: Release) {
    Keeps(MarkerOf(d).unit, d.unit, release.unit)
  }

  predicate KeepsSudo(d: Disk, release: Release, p: string) {
    Keeps(HashesOf(MarkerOf(d), p), FileOf(d.sudo, p), release.sudo(p))
  }

  predicate KeepsSsh(d: Disk, release: Release, principals: set<string>) {
    Keeps(MarkerOf(d).ssh, d.ssh, release.admission(principals))
  }

  /** At every interruption of an enrollment that completes, the preflight accepts the admission
      file, and unit and sudoers files have their digests in the marker, if and only if the cap
      of each list, with the new digest added, keeps both the old one and the new. */
  method EnrollOnce(start: Disk, release: Release, e: Enrollment, c: Conditions)
    returns (r: Result<(), Error>, disks: seq<Disk>)
    requires Core(start, release.admission)
    ensures disks != [] && disks[0] == start && forall d :: d in disks ==> Core(d, release.admission)
    ensures c == CALM && IsAdmissible(start, e, release.admission) && MayBegin(MarkerOf(start), release, e) ==>
              r.Success?
    ensures r.Success? ==> IsEnrolled(disks[|disks| - 1], release, e)
    ensures r.Success? ==> WentThrough(disks, MarkerOf(disks[|disks| - 1]), BegunDisk(start, release, e), release, e)
    ensures forall d, p :: d in disks && OwnsSudoOf(start, p) && KeepsSudo(start, release, p) ==> OwnsSudoOf(d, p)
    ensures r.Success? ==> ((forall d :: d in disks ==> OwnsUnit(d)) <==> KeepsUnit(start, release))
    ensures r.Success? ==> ((forall d :: d in disks ==> OwnsSsh(d)) <==> KeepsSsh(start, release, e.principals))
    ensures r.Success? ==>
              forall p :: p in e.principals ==>
                ((forall d :: d in disks ==> OwnsSudoOf(d, p)) <==> KeepsSudo(start, release, p))
  {
    hide Core, Current, IsAdmissible, IsEnrolled, WentThrough, BegunDisk, UnitTracked, SudoTracked, SshTracked;
    var host := new Host(start, release, None, Some(e.principals));
    assert host.IsFor(e.principals);
    hide ScopeOf;
    r := host.Configure(e, c);
    disks := host.history;
    assert forall d :: d in disks ==> host.Safe(d);
    forall d, p | d in disks && OwnsSudoOf(start, p) && KeepsSudo(start, release, p)
      ensures OwnsSudoOf(d, p)
    {
      SudoKept(start, d, release, e, p);
    }
    if r.Success? {
      UnitKeptExactly(disks, start, release, e, host.marker);
      SshKeptExactly(disks, start, release, e, host.marker);
      forall p | p in e.principals
        ensures (forall d :: d in disks ==> OwnsSudoOf(d, p)) <==> KeepsSudo(start, release, p)
      {
        SudoKeptExactly(disks, start, release, e, host.marker, p);
      }
    }
  }

  lemma UnitKeptExactly(disks: seq<Disk>, start: Disk, release: Release, e: Enrollment, m: Marker)
    requires forall d :: d in disks ==> Current(d, release, ScopeOf(start, release, None, Some(e.principals)))
    requires IsAdmissible(start, e, release.admission)
    requires WentThrough(disks, m, BegunDisk(start, release, e), release, e)
    ensures (forall d :: d in disks ==> OwnsUnit(d)) <==> KeepsUnit(start, release)
  {
    hide Parses, Cap, Granted, Admits, SshTracked;
    var begun := BegunDisk(start, release, e);
    assert begun in disks && begun.unit == start.unit;
    if KeepsUnit(start, release) {
      assert UnitTracked(start, release, None);
    } else if Has(begun.stored.value.unit, start.unit) {
      var v :| v in disks && v.stored.Some? && v.stored.value.unit == begun.stored.value.unit
        && v.unit == Some(release.unit);
      assert !OwnsUnit(v);
    } else {
      assert !OwnsUnit(begun);
    }
  }

  lemma SshKeptExactly(disks: seq<Disk>, start: Disk, release: Release, e: Enrollment, m: Marker)
    requires forall d :: d in disks ==> Current(d, release, ScopeOf(start, release, None, Some(e.principals)))
    requires IsAdmissible(start, e, release.admission)
    requires WentThrough(disks, m, BegunDisk(start, release, e), release, e)
    ensures (forall d :: d in disks ==> OwnsSsh(d)) <==> KeepsSsh(start, release, e.principals)
  {
    hide Parses, Cap, Granted, UnitTracked, SudoTracked;
    var begun, h := BegunDisk(start, release, e), release.admission(e.principals);
    if KeepsSsh(start, release, e.principals) {
      assert SshTracked(start, release.admission, Some(e.principals));
      forall d | d in disks ensures OwnsSsh(d) {
        assert SshTracked(d, release.admission, Some(e.principals));
      }
    } else {
      var v :| v in disks && IsAnnounced(v, begun, h);
      var w :| w in disks && w.stored.Some? && w.stored.value.ssh == Cap(begun.stored.value.ssh, h) && w.ssh == Some(h);
      assert !OwnsSsh(v) || !OwnsSsh(w);
    }
  }

  lemma SudoKept(start: Disk, d: Disk, release: Release, e: Enrollment, p: string)
    requires Current(d, release, ScopeOf(start, release, None, Some(e.principals)))
    requires OwnsSudoOf(start, p) && KeepsSudo(start, release, p)
    ensures OwnsSudoOf(d, p)
  {
    hide Cap, OwnsSudo;
    assert p in ScopeOf(start, release, None, Some(e.principals)).files;
    assert SudoTracked(d, release, None, p);
  }

  lemma RightFileIsKept(start: Disk, release: Release, p: string)
    requires IsHashList(HashesOf(MarkerOf(start), p)) && OwnsSudo(MarkerOf(start), start.sudo, p)
    ensures FileOf(start.sudo, p) == Some(release.sudo(p)) ==> KeepsSudo(start, release, p)
  {
    var l, h := HashesOf(MarkerOf(start), p), release.sudo(p);
    NextHashes(l, h);
  }

  lemma Unowned(v: Disk, p: string, hashes: seq<nat>, file: Option<nat>)
    requires HasAuthority(v, p, hashes, file)
    ensures !Has(hashes, file) ==> !OwnsSudoOf(v, p)
  {}

  lemma SudoKeptExactly(disks: seq<Disk>, start: Disk, release: Release, e: Enrollment, m: Marker, p: string)
    requires forall d :: d in disks ==> Current(d, release, ScopeOf(start, release, None, Some(e.principals)))
    requires IsAdmissible(start, e, release.admission) && p in e.principals
    requires WentThrough(disks, m, BegunDisk(start, release, e), release, e)
    ensures (forall d :: d in disks ==> OwnsSudoOf(d, p)) <==> KeepsSudo(start, release, p)
  {
    var l, file, h := HashesOf(MarkerOf(start), p), FileOf(start.sudo, p), release.sudo(p);
    NextHashes(l, h);
    hide Cap, SshPreflight;
    if KeepsSudo(start, release, p) {
      forall d | d in disks ensures OwnsSudoOf(d, p) {
        SudoKept(start, d, release, e, p);
      }
    } else {
      assert OwnsSudo(MarkerOf(start), start.sudo, p);
      RightFileIsKept(start, release, p);
      assert Publishes(disks, BegunDisk(start, release, e), p, h);
      var v :| v in disks && HasAuthority(v, p, Cap(l, h), file);
      var w :| w in disks && HasAuthority(w, p, Cap(l, h), Some(h));
      Unowned(v, p, Cap(l, h), file);
      Unowned(w, p, Cap(l, h), Some(h));
    }
  }

  // ---------------------------------------------------------------------------
  // Any number of runs
  // ---------------------------------------------------------------------------

  /** A run of some version, interrupted after so many writes if it makes that many. */
  datatype Run =
    | Enroll(release: Release, enrollment: Enrollment, conditions: Conditions, cut: nat)
    | Retire(release: Release, conditions: Conditions, cut: nat)

  /** Whatever versions run, enroll and remove, whatever their formats, and wherever they are
      interrupted: every disk on the way has a well-formed marker, its configuration file is on
      record, and a pending reconciliation is drained. With one admission format the marker
      parses for all of them, and the admission preflight accepts. With two versions, in
      whatever order and whatever their formats, units and sudoers files are on record. */
  method Lifetime(start: Disk, runs: seq<Run>, ghost a: Release, ghost b: Release) returns (disks: seq<Disk>)
    requires Base(start)
    ensures forall d :: d in disks ==> Base(d)
    ensures (&& Core(start, a.admission) && SshTracked(start, a.admission, None)
             && forall run :: run in runs ==> run.release.admission == a.admission) ==>
              forall d :: d in disks ==> Core(d, a.admission) && SshTracked(d, a.admission, None)
    ensures Current(start, a, All(b)) && (forall run :: run in runs ==> run.release == a || run.release == b) ==>
              forall d :: d in disks ==> Current(d, a, All(b))
  {
    hide Base, Core, Current, ScopeOf, SshTracked;
    disks := [start];
    var d := start;
    ghost var uniform := Core(start, a.admission) && SshTracked(start, a.admission, None)
      && forall run :: run in runs ==> run.release.admission == a.admission;
    ghost var strict :=
      Current(start, a, All(b)) && forall run :: run in runs ==> run.release == a || run.release == b;
    for i := 0 to |runs|
      invariant forall v :: v in disks ==> Base(v)
      invariant uniform ==> forall v :: v in disks ==> Core(v, a.admission) && SshTracked(v, a.admission, None)
      invariant strict ==> forall v :: v in disks ==> Current(v, a, All(b))
      invariant d in disks
    {
      assert runs[i] in runs;
      ghost var other := if runs[i].release == a then b else a;
      var left := Live(d, runs[i], other);
      if strict {
        forall v | v in left ensures Current(v, a, All(b)) {
          StaysTracked(d, v, runs[i].release, other, a, b);
        }
      }
      disks := disks + left;
      d := left[|left| - 1];
    }
  }

  /** What an interruption of one run may leave. */
  method Live(d: Disk, run: Run, ghost other: Release) returns (left: seq<Disk>)
    requires Base(d)
    ensures left != [] && left[0] == d && forall v :: v in left ==> Base(v)
    ensures Core(d, run.release.admission) ==> forall v :: v in left ==> Core(v, run.release.admission)
    ensures SshTracked(d, run.release.admission, None) ==>
              forall v :: v in left ==> SshTracked(v, run.release.admission, None)
    ensures forall v :: v in left ==> v == d || Current(v, run.release, ScopeOf(d, run.release, Some(other), None))
  {
    var release := run.release;
    if !Core(d, release.admission) {
      UnknownFormatIsRefused(d, release.admission);
    }
    hide Core, Current, Base, IsAdmissible, IsDisablable;
    var host := new Host(d, release, Some(other), None);
    assert host.scope.ssh == SshTracked(d, release.admission, None) && host.scope.enrolled == None;
    hide ScopeOf, SshTracked;
    match run {
      case Enroll(_, e, c, _) => var r := host.Configure(e, c);
      case Retire(_, c, _) => var r := host.Disable(c);
    }
    left := if run.cut < |host.history| then host.history[..run.cut + 1] else host.history;
    assert forall v :: v in left ==> v in host.history;
    assert forall v :: v in host.history ==> host.Safe(v);
    forall v | v in left && host.sound
      ensures Base(v) && (host.scope.ssh ==> SshTracked(v, release.admission, None))
    {
      SafeIsBase(v, release, host.scope);
    }
  }

  lemma SafeIsBase(v: Disk, release: Release, scope: Scope)
    requires Core(v, release.admission) && Current(v, release, scope)
    ensures Base(v) && (scope.ssh ==> SshTracked(v, release.admission, scope.enrolled))
  {
    hide SshTracked, Base;
  }

  /** A version for which the marker does not parse changes nothing. */
  lemma UnknownFormatIsRefused(d: Disk, admission: set<string> -> nat)
    requires Base(d) && !Core(d, admission)
    ensures d.etc && !IsDisablable(d, admission) && forall e :: !IsAdmissible(d, e, admission)
  {
    hide IsWellFormed;
  }

  lemma StaysTracked(d: Disk, v: Disk, release: Release, other: Release, a: Release, b: Release)
    requires (release == a && other == b) || (release == b && other == a)
    requires Current(d, a, All(b)) && (v == d || Current(v, release, ScopeOf(d, release, Some(other), None)))
    ensures Current(v, a, All(b))
  {
    if v != d {
      if release != a {
        AllIsSymmetric(d, a, b);
      }
      hide UnitTracked, SudoTracked, SshTracked;
      forall p ensures SudoTracked(d, release, Some(other), p) && SudoTracked(v, release, Some(other), p) {
        assert p in All(other).files;
        assert p in ScopeOf(d, release, Some(other), None).files;
      }
      if release != a {
        AllIsSymmetric(v, b, a);
      }
    }
  }

  /** A version that writes another admission file reads the marker of an interrupted run of
      this one, unless that run has announced a first admission file. */
  lemma OtherFormatParses(m: Marker, admission: set<string> -> nat, other: set<string> -> nat)
    requires Parses(m, admission)
    ensures Parses(m, other)
       <==> (m.sshPending.Some? && m.sshPending.value.action == Create ==>
               other(m.pending.value.principals) == admission(m.pending.value.principals))
  {
    hide IsHashList;
  }

  /** An interrupted enrollment is admitted again. */
  lemma RetryIsAdmitted(d: Disk, release: Release, other: Release)
    requires SshTracked(d, release.admission, None)
    requires Core(d, release.admission) && Current(d, release, All(other))
    requires d.stored.Some? && d.stored.value.pending.Some?
    requires d.stored.value.sshPending.Some? ==> d.stored.value.sshPending.value.action == Create
    ensures IsAdmissible(d, d.stored.value.pending.value.enrollment, release.admission)
  {
    AllOwned(d, release, other);
    hide Parses;
  }

  lemma AllOwned(d: Disk, release: Release, other: Release)
    requires Current(d, release, All(other))
    ensures d.stored.Some? ==>
              Has(d.stored.value.unit, d.unit) && forall p :: OwnsSudo(d.stored.value, d.sudo, p)
  {
    hide Room, OwnsSudo;
    forall p ensures d.stored.Some? ==> OwnsSudo(d.stored.value, d.sudo, p) {
      assert p in All(other).files;
      assert SudoTracked(d, release, Some(other), p);
    }
  }

  /** An interrupted removal can be repeated, whatever state of the transition it is in. */
  lemma RemovalIsAdmitted(d: Disk, release: Release, other: Release)
    requires SshTracked(d, release.admission, None)
    requires Core(d, release.admission) && Current(d, release, All(other)) && d.stored.Some?
    ensures IsDisablable(d, release.admission)
  {
    AllOwned(d, release, other);
    hide Parses;
  }

  /** The enrollment that repeats an interrupted one succeeds, but the store then stays
      drained: the drain it found was the interrupted run's own. */
  method Retry(d: Disk, release: Release, ghost other: Release) returns (after: Disk)
    requires SshTracked(d, release.admission, None)
    requires Core(d, release.admission) && Current(d, release, All(other))
    requires d.stored.Some? && d.stored.value.pending.Some? && !d.stored.value.disabled
    requires MayBegin(d.stored.value, release, d.stored.value.pending.value.enrollment)
    requires d.stored.value.sshPending.Some? ==> d.stored.value.sshPending.value.action == Create
    ensures IsEnrolled(after, release, d.stored.value.pending.value.enrollment)
    ensures after.draining
  {
    RetryIsAdmitted(d, release, other);
    assert d.draining;
    hide Core, Current, IsAdmissible, IsEnrolled, MayBegin, SshTracked;
    var host := new Host(d, release, Some(other), None);
    var r := host.Configure(d.stored.value.pending.value.enrollment, CALM);
    after := host.Now();
  }

  /** With two digests on record, a third one leaves file and successor on record exactly
      when the digest that is neither is the least. */
  lemma ThirdDigest(x: nat, y: nat, h: nat)
    requires x != y && h != x && h != y
    ensures (x in Cap([x, y], h) && h in Cap([x, y], h)) <==> y < x && y < h
  {
    CapKeeps([x, y], h, x);
    CapKeeps([x, y], h, h);
    hide Cap;
    var l := [x, y] + [h];
    assert l == [x, y, h] && l[0] in l && l[1] in l && l[2] in l;
    assert (exists a, b :: a in l && b in l && x < a < b) <==> x < y < h || x < h < y;
    assert (exists a, b :: a in l && b in l && h < a < b) <==> h < x < y || h < y < x;
  }

  /** Two digests on record, and a third that is larger than both: the first is lost. */
  lemma LeastIsEvicted(x: nat, y: nat, h: nat)
    requires x < y < h
    ensures Cap([x], y) == [x, y] && !Keeps(Cap([x], y), Some(x), h)
  {
    var both := [x] + [y];
    assert both[1..] == [y] && SortedSet([y]) == [y];
    assert SortedSet(both) == Insert(x, [y]);
    ThirdDigest(x, y, h);
  }

  // ---------------------------------------------------------------------------
  // Runs of three versions that lose track of a file
  // ---------------------------------------------------------------------------

  const FRESH := Disk(false, None, None, None, None, map[], false)

  /** No later run, of any kind and any version, goes on from here. */
  predicate IsStuck(d: Disk) {
    d.etc && d.stored.Some? && !OwnsFiles(d.stored.value, d)
  }

  lemma StuckIsRefused(d: Disk, admission: set<string> -> nat, e: Enrollment)
    requires IsStuck(d)
    ensures !IsAdmissible(d, e, admission) && !IsDisablable(d, admission)
  {}

  lemma LostIsStuck(d: Disk, p: string)
    requires Base(d) && (!OwnsSudoOf(d, p) || !OwnsUnit(d) || !OwnsSsh(d))
    ensures IsStuck(d)
  {
    hide IsWellFormed;
  }

  /** Enrolling for the first time, on an empty disk. */
  method EnrollFresh(e: Enrollment, release: Release) returns (enrolled: Disk, disks: seq<Disk>)
    ensures Core(enrolled, release.admission) && IsEnrolled(enrolled, release, e)
    ensures forall p :: p in e.principals ==> HashesOf(MarkerOf(enrolled), p) == [release.sudo(p)]
    ensures forall d :: d in disks ==> Core(d, release.admission)
    ensures WentThrough(disks, MarkerOf(enrolled), BegunDisk(FRESH, release, e), release, e)
  {
    assert Core(FRESH, release.admission) && IsAdmissible(FRESH, e, release.admission);
    hide Core, IsAdmissible, IsEnrolled, Publishes, Keeps, Admits;
    var r;
    r, disks := EnrollOnce(FRESH, release, e, CALM);
    enrolled := disks[|disks| - 1];
  }

  lemma EnrolledIsAdmissible(d: Disk, first: Release, second: Release, e: Enrollment)
    requires Core(d, first.admission) && IsEnrolled(d, first, e)
    requires forall p :: p in e.principals ==> HashesOf(MarkerOf(d), p) == [first.sudo(p)]
    ensures Core(d, second.admission) && IsAdmissible(d, e, second.admission) && MayBegin(MarkerOf(d), second, e)
    ensures KeepsUnit(d, second) && KeepsSsh(d, second, e.principals)
    ensures forall p :: OwnsSudoOf(d, p) && KeepsSudo(d, second, p)
  {
    OneIsKept(first.unit, second.unit);
    OneIsKept(first.admission(e.principals), second.admission(e.principals));
    forall p ensures OwnsSudoOf(d, p) && KeepsSudo(d, second, p) {
      OneIsKept(first.sudo(p), second.sudo(p));
    }
  }

  /** What an interruption leaves of an enrollment can be enrolled again, also by a version
      with other sudoers and admission files. */
  lemma InterruptedIsAdmissible(d: Disk, second: Release, third: Release, e: Enrollment)
    requires Base(d) && d.stored.Some? && d.stored.value.sshPending.None?
    requires d.stored.value.pending == Some(Pending(e, e.principals, second.config(e), second.unit))
    requires OwnsUnit(d) && OwnsSsh(d) && forall p :: OwnsSudoOf(d, p)
    requires second.config(e) == third.config(e) && second.unit == third.unit
    ensures Core(d, third.admission) && IsAdmissible(d, e, third.admission) && MayBegin(MarkerOf(d), third, e)
    ensures IsDisablable(d, third.admission)
  {
    forall p | p in d.sudo ensures OwnsSudo(d.stored.value, d.sudo, p) {
      assert OwnsSudoOf(d, p);
    }
    hide IsWellFormed, OwnsSudo;
  }

  /** A first enrollment, and an upgrade that is interrupted between marker and sudoers file. */
  method InterruptedUpgrade(e: Enrollment, p: string, first: Release, second: Release) returns (left: Disk)
    requires p in e.principals && first.sudo(p) != second.sudo(p)
    ensures Base(left) && left.stored.Some? && left.stored.value.sshPending.None?
    ensures left.stored.value.pending == Some(Pending(e, e.principals, second.config(e), second.unit))
    ensures OwnsUnit(left) && OwnsSsh(left) && forall q :: OwnsSudoOf(left, q)
    ensures HasAuthority(left, p, Cap([first.sudo(p)], second.sudo(p)), Some(first.sudo(p)))
  {
    hide Core, IsAdmissible, IsEnrolled, OwnsSudo, Keeps, OwnsSudoOf, OwnsUnit, OwnsSsh, MayBegin, Admits, Cap,
         HasAuthority;
    var enrolled, disks := EnrollFresh(e, first);
    EnrolledIsAdmissible(enrolled, first, second, e);
    var r;
    r, disks := EnrollOnce(enrolled, second, e, CALM);
    EnrolledFiles(enrolled, first, second, e, p);
    EnrolledAdmission(enrolled, first, second, e);
    assert Publishes(disks, BegunDisk(enrolled, second, e), p, second.sudo(p));
    hide Granted;
    left :| left in disks && DiffersInAuthority(left, BegunDisk(enrolled, second, e))
      && HasAuthority(left, p, Cap([first.sudo(p)], second.sudo(p)), Some(first.sudo(p)));
    CoreIsBase(left, second.admission);
  }

  /** An upgrade that is interrupted between marker and sudoers file, and a third version with
      the same configuration and unit: if the digests happen to grow, the cap evicts that of
      the file that is there, and after an interruption it passes for a modified file. */
  method SudoersEviction(e: Enrollment, p: string, first: Release, second: Release, third: Release)
    returns (lost: Disk)
    requires p in e.principals && first.sudo(p) < second.sudo(p) < third.sudo(p)
    requires second.config(e) == third.config(e) && second.unit == third.unit
    ensures Core(lost, third.admission) && !OwnsSudoOf(lost, p) && IsStuck(lost)
  {
    var left := InterruptedUpgrade(e, p, first, second);
    LeastIsEvicted(first.sudo(p), second.sudo(p), third.sudo(p));
    assert !KeepsSudo(left, third, p);
    hide Core, Base, IsAdmissible, IsEnrolled, OwnsSudoOf, MayBegin, WentThrough, KeepsSudo;
    InterruptedIsAdmissible(left, second, third, e);
    var r, disks := EnrollOnce(left, third, e, CALM);
    lost :| lost in disks && !OwnsSudoOf(lost, p);
    CoreIsBase(lost, third.admission);
    LostIsStuck(lost, p);
  }

  lemma CoreIsBase(d: Disk, admission: set<string> -> nat)
    requires Core(d, admission)
    ensures Base(d)
  {}

  lemma EnrolledFiles(d: Disk, first: Release, second: Release, e: Enrollment, p: string)
    requires IsEnrolled(d, first, e) && p in e.principals && first.sudo(p) != second.sudo(p)
    ensures FileOf(d.sudo, p) == Some(first.sudo(p)) && d.stored.Some? && d.stored.value.sshPending.None?
    ensures BegunDisk(d, second, e).sudo == d.sudo
    ensures HashesOf(BegunDisk(d, second, e).stored.value, p) == HashesOf(MarkerOf(d), p)
  {}

  /** An upgrade that is interrupted between marker and admission file, and a third version with
      the same configuration and unit, and each with an admission format of its own: the same
      for the admission file. */
  method AdmissionEviction(e: Enrollment, first: Release, second: Release, third: Release) returns (lost: Disk)
    requires first.admission(e.principals) < second.admission(e.principals) < third.admission(e.principals)
    requires second.config(e) == third.config(e) && second.unit == third.unit
    ensures Core(lost, third.admission) && !OwnsSsh(lost) && IsStuck(lost)
  {
    ghost var x, y, h := first.admission(e.principals), second.admission(e.principals), third.admission(e.principals);
    hide Core, IsAdmissible, IsEnrolled, OwnsSudo, Keeps, OwnsSudoOf, OwnsSsh, MayBegin, Granted;
    var enrolled, disks := EnrollFresh(e, first);
    EnrolledIsAdmissible(enrolled, first, second, e);
    var r;
    r, disks := EnrollOnce(enrolled, second, e, CALM);
    LeastIsEvicted(x, y, h);
    EnrolledAdmission(enrolled, first, second, e);
    var left :| left in disks && IsAnnounced(left, BegunDisk(enrolled, second, e), second.admission(e.principals));
    CoreIsBase(left, second.admission);
    InterruptedIsAdmissible(left, second, third, e);
    r, disks := EnrollOnce(left, third, e, CALM);
    assert !KeepsSsh(left, third, e.principals);
    lost :| lost in disks && !OwnsSsh(lost);
    CoreIsBase(lost, third.admission);
    LostIsStuck(lost, "");
  }

  lemma EnrolledAdmission(d: Disk, first: Release, second: Release, e: Enrollment)
    requires IsEnrolled(d, first, e)
    ensures var begun := BegunDisk(d, second, e);
            && begun.ssh == Some(first.admission(e.principals))
            && begun.stored.value.ssh == [first.admission(e.principals)] && begun.stored.value.sshPending.None?
            && begun.stored.value.pending == Some(Pending(e, e.principals, second.config(e), second.unit))
  {}

  /** A first enrollment that is interrupted once it has announced its admission file: a version
      with another one refuses the marker, whatever it is asked to do. */
  method AnnouncedFirstFile(e: Enrollment, first: Release, second: Release) returns (left: Disk)
    requires first.admission(e.principals) != second.admission(e.principals)
    ensures Core(left, first.admission) && left.stored.Some? && !Parses(left.stored.value, second.admission)
    ensures forall other :: !IsAdmissible(left, other, second.admission)
    ensures !IsDisablable(left, second.admission)
  {
    hide Core, IsEnrolled, Granted;
    var enrolled, disks := EnrollFresh(e, first);
    left :| left in disks && IsAnnounced(left, BegunDisk(FRESH, first, e), first.admission(e.principals));
  }

  /** An upgrade that is interrupted after its first write, a disable whose unit transaction
      is rolled back, and a third version: the same for the unit. */
  method UnitEviction(e: Enrollment, first: Release, second: Release, third: Release) returns (lost: Disk)
    requires first.unit < second.unit < third.unit
    ensures Core(lost, third.admission) && !OwnsUnit(lost) && IsStuck(lost)
  {
    hide Core, IsAdmissible, IsEnrolled, OwnsSudo, Keeps, OwnsSudoOf, MayBegin, IsDisablable, IsRolledBack, Granted,
         Admits;
    var enrolled, disks := EnrollFresh(e, first);
    EnrolledIsAdmissible(enrolled, first, second, e);
    var r;
    r, disks := EnrollOnce(enrolled, second, e, CALM);
    var left := BegunDisk(enrolled, second, e);
    assert left in disks;
    LeastIsEvicted(first.unit, second.unit, third.unit);
    EnrolledUnit(enrolled, first, second, e);
    EnrolledAdmission(enrolled, first, second, e);
    CoreIsBase(left, second.admission);
    InterruptedIsAdmissible(left, second, second, e);
    var host := new Host(left, second, None, None);
    r := host.Disable(UNLUCKY);
    RolledBackIsAdmissible(host.Now(), second, third, e, first.unit, second.unit);
    r, disks := EnrollOnce(host.Now(), third, e, CALM);
    lost :| lost in disks && !OwnsUnit(lost);
    CoreIsBase(lost, third.admission);
    LostIsStuck(lost, "");
  }

  lemma EnrolledUnit(d: Disk, first: Release, second: Release, e: Enrollment)
    requires IsEnrolled(d, first, e) && Cap([first.unit], second.unit) == [first.unit, second.unit]
    ensures BegunDisk(d, second, e).unit == Some(first.unit)
    ensures BegunDisk(d, second, e).stored.value.unit == [first.unit, second.unit]
  {}

  lemma RolledBackIsAdmissible(d: Disk, second: Release, third: Release, e: Enrollment, x: nat, y: nat)
    requires Core(d, second.admission) && IsRolledBack(d, Some(x), [x, y])
    requires !Keeps([x, y], Some(x), third.unit)
    ensures Core(d, third.admission) && IsAdmissible(d, e, third.admission) && MayBegin(MarkerOf(d), third, e)
    ensures !KeepsUnit(d, third)
  {
    assert [x, y][0] == x;
    hide IsWellFormed, Keeps;
  }
}
