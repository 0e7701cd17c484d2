/** common/build_host_steps.py: what the build host asks of its marker and its files, file by
    file. */
module HostCases {
  import opened Common
  import opened BuildHostMarker

  /** At most two digests, and not the same one twice. */
  predicate IsShort(l: seq<nat>) {
    |l| < 2 || (|l| == 2 && l[0] != l[1])
  }

  lemma ShortInWords(l: seq<nat>)
    ensures IsHashList(l) <==> IsShort(l)
  {}

  /** When a version reads a marker: short lists; and a transition of the admission file needs
      its digest alone on record, and either a disabled host, to remove it, or a pending
      enrollment whose admission file has that digest, to create it. */
  lemma ParsesInWords(m: Marker, admission: set<string> -> nat)
    ensures Parses(m, admission)
       <==> && IsShort(m.config) && IsShort(m.unit) && IsShort(m.ssh)
            && (forall p :: p in m.principals ==> IsShort(m.principals[p].sudoHashes))
            && (m.sshPending.Some? ==> m.ssh == [m.sshPending.value.digest])
            && (m.sshPending.Some? && m.sshPending.value.action == Remove ==> m.disabled)
            && (m.sshPending.Some? && m.sshPending.value.action == Create ==>
                  m.pending.Some? && admission(m.pending.value.principals) == m.sshPending.value.digest)
  {
    ShortInWords(m.config);
    ShortInWords(m.unit);
    ShortInWords(m.ssh);
    forall p | p in m.principals
      ensures IsHashList(m.principals[p].sudoHashes) <==> IsShort(m.principals[p].sudoHashes)
    {
      ShortInWords(m.principals[p].sudoHashes);
    }
    hide IsHashList, IsShort;
  }

  /** A file has its digest on record; an admission file that is on record may be missing only
      during its transition. */
  predicate IsOnRecord(m: Marker, d: Disk) {
    && (d.config.Some? ==> d.config.value in m.config)
    && (d.unit.Some? ==> d.unit.value in m.unit)
    && (d.ssh.Some? ==> d.ssh.value in m.ssh)
    && (d.ssh.None? && m.ssh != [] ==> m.sshPending.Some?)
    && forall p :: p in d.sudo ==>
         p in m.principals && m.principals[p].sudoManaged && d.sudo[p] in m.principals[p].sudoHashes
  }

  lemma OwnedInWords(m: Marker, d: Disk)
    ensures OwnsFiles(m, d) <==> IsOnRecord(m, d)
  {}

  /** What an enrollment needs: on an unmarked host, no file at all and no directory; on a marked
      one, all files on record, no removal begun, and no other enrollment. */
  lemma AdmissibleInWords(d: Disk, e: Enrollment, admission: set<string> -> nat)
    ensures d.stored.None? ==>
              (IsAdmissible(d, e, admission)
               <==> !d.etc && d.config.None? && d.unit.None? && d.ssh.None? && d.sudo == map[])
    ensures d.stored.Some? ==>
              (IsAdmissible(d, e, admission)
               <==> && Parses(d.stored.value, admission) && IsOnRecord(d.stored.value, d)
                    && (d.stored.value.sshPending.Some? ==> d.stored.value.sshPending.value.action == Create)
                    && (d.stored.value.pending.Some? ==> d.stored.value.pending.value.enrollment == e))
  {
    OwnedInWords(MarkerOf(d), d);
    if d.stored.None? {
      assert Parses(EMPTY_MARKER, admission);
      assert d.sudo != map[] ==> exists p :: p in d.sudo;
    }
    hide OwnsFiles, Parses;
  }

  /** What disabling needs: a marker that parses, and all files on record. */
  lemma DisablableInWords(d: Disk, admission: set<string> -> nat)
    ensures IsDisablable(d, admission)
       <==> d.etc && d.stored.Some? && Parses(d.stored.value, admission) && IsOnRecord(d.stored.value, d)
  {
    if d.stored.Some? {
      OwnedInWords(d.stored.value, d);
    }
    hide OwnsFiles, Parses, IsOnRecord;
  }

  /** The first marker says nothing but that the host is not disabled. */
  lemma FirstMarkerIsEmpty(d: Disk)
    requires d.stored.None?
    ensures MarkerOf(d) == Marker(false, map[], [], [], [], None, None)
  {}

  /** What every disk of any runs has: short lists, the configuration file on record, and a
      drained store while an enrollment is pending. */
  lemma BaseInWords(d: Disk)
    requires Base(d) && d.stored.Some?
    ensures var m := d.stored.value;
            && d.etc && IsShort(m.config) && IsShort(m.unit) && IsShort(m.ssh)
            && (forall p :: p in m.principals ==> IsShort(m.principals[p].sudoHashes))
            && (d.config.Some? ==> d.config.value in m.config)
            && (m.pending.Some? ==> d.draining)
  {}

  /** With two versions, the unit and every sudoers file are on record; with one format, the
      admission file is. */
  lemma CurrentInWords(d: Disk, a: Release, b: Release)
    requires d.stored.Some?
    ensures Current(d, a, All(b)) ==>
              && (d.unit.Some? ==> d.unit.value in d.stored.value.unit)
              && forall p :: p in d.sudo ==>
                   && p in d.stored.value.principals && d.stored.value.principals[p].sudoManaged
                   && d.sudo[p] in d.stored.value.principals[p].sudoHashes
    ensures SshTracked(d, a.admission, None) ==>
              && (d.ssh.Some? ==> d.ssh.value in d.stored.value.ssh)
              && (d.ssh.None? && d.stored.value.ssh != [] ==> d.stored.value.sshPending.Some?)
  {
    if Current(d, a, All(b)) {
      AllOwned(d, a, b);
    }
    hide Current, Room;
    assert forall p :: p in d.sudo && OwnsSudo(d.stored.value, d.sudo, p) ==>
             p in d.stored.value.principals && d.sudo[p] in d.stored.value.principals[p].sudoHashes;
  }

  /** Where ownership of the unit, the admission file and a sudoers file survives an enrollment:
      the two greatest of what is on record and what comes have both the old file and the new. */
  lemma KeptInWords(d: Disk, release: Release, e: Enrollment, p: string)
    requires d.stored.Some? && p in d.stored.value.principals
    ensures KeepsUnit(d, release) <==> IsAmongTwo(d.stored.value.unit, d.unit, release.unit)
    ensures KeepsSsh(d, release, e.principals)
       <==> IsAmongTwo(d.stored.value.ssh, d.ssh, release.admission(e.principals))
    ensures KeepsSudo(d, release, p)
       <==> IsAmongTwo(d.stored.value.principals[p].sudoHashes, FileOf(d.sudo, p), release.sudo(p))
  {
    KeptAmongTwo(d.stored.value.unit, d.unit, release.unit);
    KeptAmongTwo(d.stored.value.ssh, d.ssh, release.admission(e.principals));
    KeptAmongTwo(d.stored.value.principals[p].sudoHashes, FileOf(d.sudo, p), release.sudo(p));
    hide Keeps, IsAmongTwo;
  }

  /** At most one digest of the list and `h` is greater than `x`. */
  ghost predicate IsHigh(l: seq<nat>, h: nat, x: nat) {
    !exists a, b :: a in l + [h] && b in l + [h] && x < a < b
  }

  ghost predicate IsAmongTwo(l: seq<nat>, file: Option<nat>, h: nat) {
    && IsHigh(l, h, h)
    && (file.Some? ==> (file.value in l || file.value == h) && IsHigh(l, h, file.value))
  }

  lemma KeptAmongTwo(l: seq<nat>, file: Option<nat>, h: nat)
    ensures Keeps(l, file, h) <==> IsAmongTwo(l, file, h)
  {
    assert (l + [h])[|l|] == h;
    CapKeeps(l, h, h);
    if file.Some? {
      CapKeeps(l, h, file.value);
    }
    hide Cap;
  }
}
