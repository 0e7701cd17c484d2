/** common/network_steps.py: the paths, numbers and texts of a network transition, written out. */
module NetworkCases {
  import opened Common
  import opened NetworkTransition

  // ---------------------------------------------------------------------------
  // Paths
  // ---------------------------------------------------------------------------

  /** Names of backups: exactly those that end like this, and what is in front of it. */
  lemma SuffixInWords(name: string, front: string)
    ensures HasSuffix(front + ".basaltwater.bak") && WithoutSuffix(front + ".basaltwater.bak") == front
    ensures HasSuffix(name) ==> name == WithoutSuffix(name) + ".basaltwater.bak"
    ensures !HasSuffix(name) ==> WithoutSuffix(name) == name && forall rest :: name != rest + ".basaltwater.bak"
    ensures BackupPath(InDir(name)) == Backup(name + ".basaltwater.bak") && BackupPath(Main) == MainBackup
  {
    SuffixRestored(front);
    SuffixRestored(name);
    assert (front + ".basaltwater.bak")[..|front|] == front;
    forall rest | name == rest + ".basaltwater.bak" ensures HasSuffix(name) {
      SuffixRestored(rest);
    }
    hide HasSuffix;
  }

  /** The files in which stanzas are looked for: the main file, and what is visible in the
      directory, but for the managed file and backups. */
  lemma ConfigInWords(p: Path)
    ensures IsConfig(p)
       <==> || p == Main
            || (p.InDir? && p.name != "" && p.name[0] != '.' && p.name != "basaltwater_static" && !HasSuffix(p.name))
  {}

  /** Links are followed: to a file they are one, a dangling one is nothing. */
  lemma LinksAreFollowed(files: Files, p: Path)
    ensures p !in files ==> !Exists(files, p) && !IsFile(files, p)
    ensures p in files && files[p].Regular? ==> Exists(files, p) && IsFile(files, p) && Read(files, p) == files[p]
    ensures p in files && files[p].Directory? ==> Exists(files, p) && !IsFile(files, p)
    ensures p in files && files[p].Link? && files[p].through.None? ==> !Exists(files, p) && !IsFile(files, p)
    ensures p in files && files[p].Link? && files[p].through.Some? ==>
              && Exists(files, p) && (IsFile(files, p) <==> files[p].through.value.Regular?)
              && (IsFile(files, p) ==> Read(files, p) == files[p].through.value)
  {}

  predicate IsEntry(files: Files, name: string) {
    InDir(name) in files && name != "" && name[0] != '.'
  }

  /** What is recorded before anything is changed: with networkd its two files; with ifupdown the
      main file, its backup, the managed file, and of every visible entry of the directory the
      entry itself unless it is a directory, and the place of its backup. */
  lemma SnapshotInWords(files: Files, p: Path)
    ensures p in SnapshotPaths(NetworkdBackend, files) <==> p == Networkd || p == CloudInit
    ensures p in SnapshotPaths(IfupdownBackend, files)
       <==> || p == Main || p == MainBackup || p == CloudInit || p == InDir("basaltwater_static")
            || (p.InDir? && IsEntry(files, p.name) && !files[p].Directory?)
            || (p.Backup? && IsBackupPlace(files, p.name))
  {
    var entries := set n | n in Listed(files) && !files[InDir(n)].Directory? :: InDir(n);
    var places := set n | n in Listed(files) :: BackupPath(InDir(WithoutSuffix(n)));
    BackupPlaces(files, p);
    assert SnapshotPaths(NetworkdBackend, files) == {Networkd, CloudInit};
    assert p in entries <==> p.InDir? && IsEntry(files, p.name) && !files[p].Directory?;
    assert SnapshotPaths(IfupdownBackend, files) == {Main, Managed(), CloudInit, MainBackup} + entries + places;
    hide SnapshotPaths, Listed, IsEntry, IsBackupPlace, HasSuffix, WithoutSuffix, BackupPath;
  }

  /** Where an entry's content is saved: an old backup under its own name. */
  ghost predicate IsBackupPlace(files: Files, place: string) {
    exists n :: IsEntry(files, n) && place == (if HasSuffix(n) then n else n + ".basaltwater.bak")
  }

  lemma BackupPlaces(files: Files, p: Path)
    ensures p in (set n | n in Listed(files) :: BackupPath(InDir(WithoutSuffix(n))))
       <==> p.Backup? && IsBackupPlace(files, p.name)
  {
    forall n ensures BackupPath(InDir(WithoutSuffix(n)))
                  == Backup(if HasSuffix(n) then n else n + ".basaltwater.bak") {
      SuffixInWords(n, n);
    }
    assert forall n :: n in Listed(files) <==> IsEntry(files, n);
    hide Listed, IsEntry, HasSuffix, WithoutSuffix, BackupPath;
    if n :| n in Listed(files) && p == BackupPath(InDir(WithoutSuffix(n))) {
      assert IsEntry(files, n);
    }
    if p.Backup? && IsBackupPlace(files, p.name) {
      var n :| IsEntry(files, n) && p.name == (if HasSuffix(n) then n else n + ".basaltwater.bak");
      assert n in Listed(files) && p == BackupPath(InDir(WithoutSuffix(n)));
    }
  }

  /** Which paths a loaded journal may name, and which it must. */
  lemma JournalPathsInWords(p: Path)
    ensures IsAllowed(NetworkdBackend, p) <==> p == Networkd || p == CloudInit
    ensures IsAllowed(IfupdownBackend, p)
       <==> p == Main || p == MainBackup || p == CloudInit || p.InDir? || (p.Backup? && HasSuffix(p.name))
    ensures p in RequiredPaths(NetworkdBackend) <==> p == Networkd || p == CloudInit
    ensures p in RequiredPaths(IfupdownBackend) <==> p == Main || p == CloudInit || p == InDir("basaltwater_static")
  {
    hide HasSuffix;
  }

  // ---------------------------------------------------------------------------
  // Addresses, rules and routes
  // ---------------------------------------------------------------------------

  predicate IsOneOf(request: Request, a: Address) {
    a.family in request.addresses && request.addresses[a.family] == a.ip
  }

  /** What loading a journal checks: addresses of the request only, a table of the range for
      each gateway and for nothing else, and the paths. */
  lemma LoaderInWords(j: Journal)
    ensures LoaderAccepts(j)
       <==> && (forall f :: f in j.request.gateways ==> f in j.request.addresses)
            && (forall a :: a in j.added ==> IsOneOf(j.request, a))
            && (forall f :: f in j.tables <==> f in j.request.gateways)
            && (forall f :: f in j.tables ==> 20000 <= j.tables[f] <= 20099)
            && (forall p :: p in j.snapshot ==> IsAllowed(j.request.backend, p))
            && (forall p :: p in j.snapshot ==> j.snapshot[p].None? || !j.snapshot[p].value.Directory?)
            && (forall p :: p in RequiredPaths(j.request.backend) ==> p in j.snapshot)
  {
    WantedInWords(j.request);
    assert j.added <= Wanted(j.request) <==> forall a :: a in j.added ==> a in Wanted(j.request);
    hide IsAllowed, RequiredPaths, Wanted, IsOneOf;
    assert j.tables.Keys == j.request.gateways.Keys <==> forall f :: f in j.tables <==> f in j.request.gateways;
  }

  lemma WantedInWords(request: Request)
    ensures forall a :: a in Wanted(request) <==> IsOneOf(request, a)
  {}

  /** A table is free when no rule names it, by priority or by table, and no route is in it. */
  lemma FreeInWords(w: World, f: Family, t: nat)
    ensures IsFree(w, f, t)
       <==> && (forall priority, from, table ::
                  Rule(f, priority, from, table) in w.rules ==> priority != t && table != t)
            && forall destination :: Route(f, t, destination) !in w.routes
  {
    if (forall priority, from, table :: Rule(f, priority, from, table) in w.rules ==> priority != t && table != t)
       && forall destination :: Route(f, t, destination) !in w.routes {
      forall r | r in w.rules && r.family == f ensures r.priority != t && r.table != t {
        assert r == Rule(f, r.priority, r.from, r.table);
      }
      forall r | r in w.routes && r.family == f ensures r.table != t {
        assert r == Route(f, r.table, r.destination);
      }
    }
  }

  /** What prepare brings about, object by object. With a gateway, the table of the journal gets
      a rule for traffic from the address, a route to its network and a default route. */
  lemma PreparedInWords(w: World, j: Journal, f: Family)
    requires f in j.request.gateways && f in j.request.addresses && f in j.tables
    ensures IsRouted(w, j, f)
       <==> && Rule(f, j.tables[f], j.request.addresses[f], j.tables[f]) in w.rules
            && Route(f, j.tables[f], Some(j.request.addresses[f])) in w.routes
            && Route(f, j.tables[f], None) in w.routes
  {}

  /** What undoing takes away, and no more. */
  lemma CleanupInWords(w: World, f: Family, a: Address)
    requires w.journal.Some? && f in w.journal.value.tables && f in w.journal.value.request.addresses
    requires a in w.journal.value.added
    ensures var j := w.journal.value;
            && Apply(w, DeleteAddress(a)) == w.(addresses := w.addresses - {a})
            && Apply(w, DeleteRule(f))
               == w.(rules := w.rules - {Rule(f, j.tables[f], j.request.addresses[f], j.tables[f])})
            && (forall r :: r in Apply(w, FlushTable(f)).routes
                            <==> r in w.routes && !(r.family == f && r.table == j.tables[f]))
            && Apply(w, FlushTable(f)) == w.(routes := Apply(w, FlushTable(f)).routes)
  {}

  // ---------------------------------------------------------------------------
  // Texts
  // ---------------------------------------------------------------------------

  /** The files of a committed transition, by text and mode. */
  lemma PersistedInWords(before: Files, after: Files, request: Request, cloudInit: bool)
    requires IsPersisted(before, after, request, cloudInit)
    ensures cloudInit ==>
              Snapshot(after, CloudInit)
              == Some(Regular([Line("# Managed by basaltwater", false, false, false, false),
                               Line("network: {config: disabled}", false, false, false, false)], 0x1A4))
    ensures request.backend == NetworkdBackend ==> Snapshot(after, Networkd) == Some(Regular(request.text, 0x1A4))
    ensures request.backend == IfupdownBackend ==>
              Snapshot(after, InDir("basaltwater_static")) == Some(Regular(request.text, 0x1A4))
  {}

  /** Before the first change a world is as in the baseline, and the snapshot of a journal is of
      all files that it names, as they are. */
  lemma CapturedInWords(w: World, j: Journal)
    requires Captures(w, j)
    ensures j.state == Prepared
    ensures forall a :: a in j.added <==> IsOneOf(j.request, a) && a !in w.addresses
    ensures forall f :: f in j.tables <==> f in j.request.gateways
    ensures forall f :: f in j.tables ==> 20000 <= j.tables[f] <= 20099 && IsFree(w, f, j.tables[f])
    ensures forall p :: p in j.snapshot <==> p in SnapshotPaths(j.request.backend, w.files)
    ensures forall p :: p in j.snapshot ==> j.snapshot[p] == if p in w.files then Some(w.files[p]) else None
  {
    WantedInWords(j.request);
    hide SnapshotPaths, IsFree, IsOneOf, Wanted;
  }
}
