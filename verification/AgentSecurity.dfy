/** common/agent_security_steps.py: restrictions of an agent's account that can be taken back.

    The record is written before a restriction and dropped after its reversal; an absent
    record file is the empty record. */
module AgentSecurity {
  import opened Common

  // ---------------------------------------------------------------------------
  // Account and record
  // ---------------------------------------------------------------------------

  /** A lock keeps the hash. */
  datatype Password = Password(locked: bool, hash: Option<nat>)
  datatype Status = L | NP | P

  /** `passwd --status` */
  function StatusOf(p: Password): Status {
    if p.locked then L else if p.hash.Some? then P else NP
  }

  datatype Person = Person(groups: set<string>, home: nat, password: Password, linger: bool)

  datatype Controls = Controls(home: nat, status: Status, linger: Option<bool>)
  datatype Record = Record(removed: set<string>, controls: Option<Controls>)
  datatype Disk = Disk(person: Person, record: Record)

  const EMPTY_RECORD := Record({}, None)
  const PRIVATE_MODE := 0x1C0  // 0o700

  datatype Posture = Standard | HardenedAgent | HardenedUser

  /** What the machine and its lists are: `agentDenied` is part of `userDenied`. */
  datatype Policy = Policy(agentDenied: set<string>, userDenied: set<string>, canManage: bool)

  function Denied(policy: Policy, posture: Posture): set<string> {
    match posture
    case Standard => {}
    case HardenedAgent => policy.agentDenied
    case HardenedUser => policy.userDenied
  }

  /** `_capture_user_controls` */
  function Capture(p: Person, canManage: bool): Controls {
    Controls(p.home, StatusOf(p.password), if canManage then Some(p.linger) else None)
  }

  function Lock(p: Password): Password { p.(locked := true) }

  /** `usermod --unlock`, `passwd --delete` and `usermod --lock`, as the record wants it. */
  function Restored(p: Password, wanted: Status): Password {
    if wanted == P && StatusOf(p) == L then p.(locked := false)
    else if wanted == NP && StatusOf(p) == L then Password(false, None)
    else if wanted == L && StatusOf(p) != L then Lock(p)
    else p
  }

  // ---------------------------------------------------------------------------
  // The invariant of every run
  // ---------------------------------------------------------------------------

  /** What differs from the original account is on record, and the record loads. */
  predicate IsReversible(original: Person, d: Disk, policy: Policy) {
    var p := d.person;
    && p.groups + d.record.removed == original.groups
    && d.record.removed <= policy.userDenied
    && match d.record.controls
       case None =>
         p.home == original.home && p.password == original.password && p.linger == original.linger
       case Some(controls) =>
         && controls == Capture(original, policy.canManage)
         && (p.home == original.home || p.home == PRIVATE_MODE)
         && (p.password == original.password || p.password == Lock(original.password))
         && (p.linger == original.linger || (policy.canManage && !p.linger))
  }

  /** The record says how the home directory, the password and lingering were. */
  predicate IsRecordOf(controls: Controls, p: Person, canManage: bool) {
    && controls.home == p.home
    && (controls.status == L <==> p.password.locked)
    && (controls.status == P <==> !p.password.locked && p.password.hash.Some?)
    && (if canManage then controls.linger == Some(p.linger) else controls.linger.None?)
  }

  /** What restoring does to an account: a locked password is unlocked with its hash, or deleted
      if there was none; one that was locked is locked; nothing else happens to a password. */
  predicate IsRestored(p: Person, before: Person, controls: Controls, canManage: bool) {
    && p.home == controls.home
    && (before.password.locked && controls.status == P ==> p.password == Password(false, before.password.hash))
    && (before.password.locked && controls.status == NP ==> p.password == Password(false, None))
    && (before.password.locked && controls.status == L ==> p.password == before.password)
    && (!before.password.locked && controls.status == L ==> p.password == Password(true, before.password.hash))
    && (!before.password.locked && controls.status != L ==> p.password == before.password)
    && (canManage && controls.linger.Some? ==> p.linger == controls.linger.value)
    && (!canManage || controls.linger.None? ==> p.linger == before.linger)
  }

  lemma CaptureRecords(p: Person, canManage: bool)
    ensures IsRecordOf(Capture(p, canManage), p, canManage)
  {}

  lemma RestoredCases(p: Password, wanted: Status)
    ensures p.locked && wanted == P ==> Restored(p, wanted) == Password(false, p.hash)
    ensures p.locked && wanted == NP ==> Restored(p, wanted) == Password(false, None)
    ensures p.locked && wanted == L ==> Restored(p, wanted) == p
    ensures !p.locked && wanted == L ==> Restored(p, wanted) == Password(true, p.hash)
    ensures !p.locked && wanted != L ==> Restored(p, wanted) == p
  {}

  /** The recorded status is enough: the password comes back with its hash. */
  lemma PasswordComesBack(original: Password, p: Password)
    requires p == original || p == Lock(original)
    ensures Restored(p, StatusOf(original)) == original
  {}

  // ---------------------------------------------------------------------------
  // One run
  // ---------------------------------------------------------------------------

  datatype Error = InvalidRecord | DeniedPrimaryGroup

  class Account {
    const policy: Policy
    ghost const original: Person
    ghost const sound: bool
    var person: Person
    var record: Record
    var history: seq<Disk>

    function Now(): Disk
      reads `person, `record
    {
      Disk(person, record)
    }

    /** Everything an interruption can leave behind is reversible, if the start was. */
    ghost predicate Valid()
      reads `person, `record, `history
    {
      && history != [] && history[|history| - 1] == Now()
      && (sound ==> policy.agentDenied <= policy.userDenied)
      && (sound ==> forall i :: 0 <= i < |history| ==> IsReversible(original, history[i], policy))
    }

    constructor (d: Disk, policy: Policy, ghost original: Person)
      ensures Valid() && Now() == d && history == [d]
      ensures this.policy == policy && this.original == original
      ensures sound == (IsReversible(original, d, policy) && policy.agentDenied <= policy.userDenied)
    {
      this.policy, this.original := policy, original;
      sound := IsReversible(original, d, policy) && policy.agentDenied <= policy.userDenied;
      person, record := d.person, d.record;
      history := [d];
    }

    method Change(p: Person)
      requires Valid() && (sound ==> IsReversible(original, Disk(p, record), policy))
      modifies `person, `history
      ensures Valid() && person == p && old(history) <= history
    {
      person := p;
      history := history + [Now()];
    }

    /** `_write_user_security_state` */
    method Save(r: Record)
      requires Valid() && (sound ==> IsReversible(original, Disk(person, r), policy))
      modifies `record, `history
      ensures Valid() && record == r && old(history) <= history
    {
      record := r;
      history := history + [Now()];
    }

    /** The `gpasswd --delete` loop. */
    method LeaveGroups(leaving: set<string>)
      requires Valid() && leaving <= record.removed
      modifies `person, `history
      ensures Valid() && old(history) <= history
      ensures person == old(person).(groups := old(person).groups - leaving)
    {
      var left := leaving;
      while left != {}
        invariant Valid() && old(history) <= history && left <= leaving
        invariant person == old(person).(groups := old(person).groups - (leaving - left))
        decreases left
      {
        var g :| g in left;
        Change(person.(groups := person.groups - {g}));
        left := left - {g};
      }
    }

    /** The `usermod --append` loop; a group that does not exist any more is retained. */
    method RejoinGroups(wanted: set<string>, existing: set<string>) returns (retained: set<string>)
      requires Valid() && wanted <= record.removed
      modifies `person, `history
      ensures Valid() && old(history) <= history
      ensures person == old(person).(groups := old(person).groups + wanted * existing)
      ensures retained == record.removed - wanted * existing
    {
      var current := person.groups;
      retained := record.removed;
      var left := wanted;
      while left != {}
        invariant Valid() && old(history) <= history && left <= wanted
        invariant person == old(person).(groups := current + (wanted - left) * existing)
        invariant retained == record.removed - (wanted - left) * existing
        decreases left
      {
        var g :| g in left;
        if g in existing {
          if g !in current {
            Change(person.(groups := person.groups + {g}));
          }
          retained := retained - {g};
        }
        left := left - {g};
      }
    }

    /** `_apply_user_controls` */
    method ApplyControls()
      requires Valid() && record.controls.Some?
      modifies `person, `history
      ensures Valid() && old(history) <= history
      ensures person == Person(old(person).groups, PRIVATE_MODE, Lock(old(person).password),
                               old(person).linger && !policy.canManage)
    {
      Change(person.(home := PRIVATE_MODE));
      if StatusOf(person.password) != L {
        Change(person.(password := Lock(person.password)));
      }
      if policy.canManage && person.linger {
        Change(person.(linger := false));
      }
    }

    /** `_restore_user_controls` */
    method RestoreControls(controls: Controls)
      requires Valid() && record.controls == Some(controls)
      modifies `person, `history
      ensures Valid() && old(history) <= history
      ensures person.groups == old(person).groups && person.home == controls.home
      ensures person.password == Restored(old(person).password, controls.status)
      ensures person.linger == if controls.linger.Some? && policy.canManage then controls.linger.value
                               else old(person).linger
      ensures sound ==> person == original.(groups := person.groups)
    {
      Change(person.(home := controls.home));
      PasswordStaysReversible(controls);
      Change(person.(password := Restored(person.password, controls.status)));
      if controls.linger.Some? && policy.canManage && person.linger != controls.linger.value {
        Change(person.(linger := controls.linger.value));
      }
    }

    lemma PasswordStaysReversible(controls: Controls)
      requires Valid() && record.controls == Some(controls)
      ensures sound ==> Restored(person.password, controls.status) == original.password
    {
      if sound {
        assert IsReversible(original, history[|history| - 1], policy);
        PasswordComesBack(original.password, person.password);
      }
    }

    /** The restricting half of a run: on record first, then in effect. */
    method Restrict(posture: Posture) returns (controls: Option<Controls>)
      requires Valid()
      modifies `person, `record, `history
      ensures Valid() && old(history) <= history
      ensures var denied := Denied(policy, posture);
              && person == old(person).(groups := old(person).groups - denied)
              && record == Record(old(record).removed + old(person).groups * denied, controls)
      ensures controls == if posture == HardenedUser && old(record).controls.None?
                          then Some(Capture(old(person), policy.canManage)) else old(record).controls
    {
      var newly := Denied(policy, posture) * person.groups;
      controls := record.controls;
      if posture == HardenedUser && controls.None? {
        controls := Some(Capture(person, policy.canManage));
      }
      if newly != {} || (posture == HardenedUser && record.controls.None?) {
        Save(Record(record.removed + newly, controls));
      }
      LeaveGroups(newly);
    }

    /** The controls of a hardened user are applied, those of another are taken back. */
    method SettleControls(posture: Posture)
      requires Valid() && (posture == HardenedUser ==> record.controls.Some?)
      modifies `person, `history
      ensures Valid() && old(history) <= history && person.groups == old(person).groups
      ensures posture == HardenedUser ==>
                person == Person(old(person).groups, PRIVATE_MODE, Lock(old(person).password),
                                 old(person).linger && !policy.canManage)
      ensures posture != HardenedUser && sound ==> person == original.(groups := person.groups)
      ensures posture != HardenedUser && old(record).controls.None? ==> person == old(person)
      ensures posture != HardenedUser && old(record).controls.Some? ==>
                forall p: Person :: p.home == old(person).home && p.password == old(person).password
                                    && p.linger == old(person).linger ==>
                  IsRestored(person, p, old(record).controls.value, policy.canManage)
    {
      if posture == HardenedUser {
        ApplyControls();
      } else if record.controls.Some? {
        ghost var before := person;
        var controls := record.controls.value;
        RestoreControls(controls);
        RestoredCases(before.password, controls.status);
      } else if sound {
        assert IsReversible(original, history[|history| - 1], policy);
      }
    }

    /** `configure_agent_user_security`. `existing` are the groups that exist during the run. */
    method Configure(posture: Posture, primary: string, existing: set<string>) returns (r: Result<(), Error>)
      requires Valid()
      modifies this
      ensures Valid() && old(history) <= history
      ensures r.Failure? <==>
                || (posture == HardenedAgent && primary in policy.agentDenied)
                || (posture == HardenedUser && primary in policy.userDenied)
                || exists g :: g in old(record).removed && g !in policy.userDenied
      ensures r.Failure? ==> Now() == old(Now()) && history == old(history)
      ensures r.Success? ==>
                var denied := match posture
                              case Standard => {}
                              case HardenedAgent => policy.agentDenied
                              case HardenedUser => policy.userDenied;
                && person.groups * denied == {}
                && person.groups == (old(person).groups - denied) + (old(record).removed - denied) * existing
                && record.removed == (old(record).removed - ((old(record).removed - denied) * existing))
                                     + old(person).groups * denied
      ensures r.Success? && posture == HardenedUser ==>
                && person.home == 0x1C0 && person.password == Password(true, old(person).password.hash)
                && person.linger == (old(person).linger && !policy.canManage)
                && record.controls.Some?
                && (old(record).controls.Some? ==> record.controls == old(record).controls)
                && (old(record).controls.None? ==>
                      IsRecordOf(record.controls.value, old(person), policy.canManage))
      ensures r.Success? && posture != HardenedUser ==>
                record.controls.None? && (sound ==> person == original.(groups := person.groups))
      ensures r.Success? && posture != HardenedUser && old(record).controls.None? ==>
                person == old(person).(groups := person.groups)
      ensures r.Success? && posture != HardenedUser && old(record).controls.Some? ==>
                IsRestored(person, old(person), old(record).controls.value, policy.canManage)
    {
      var denied := Denied(policy, posture);
      if !(record.removed <= policy.userDenied) {
        return Failure(InvalidRecord);
      }
      if primary in denied {
        return Failure(DeniedPrimaryGroup);
      }
      hide Denied, Capture, IsRestored, IsRecordOf;
      CaptureRecords(person, policy.canManage);
      var controls := Restrict(posture);
      var retained := RejoinGroups(record.removed - denied, existing);
      SettleControls(posture);
      UnionIsKept(retained);
      Save(Record(retained, if posture == HardenedUser then controls else None));
      return Success(());
    }

    lemma UnionIsKept(retained: set<string>)
      requires Valid() && retained <= record.removed <= retained + person.groups
      ensures sound ==> person.groups + retained == original.groups
      ensures sound ==> IsReversible(original, Disk(person, Record(retained, record.controls)), policy)
    {
      if sound {
        assert IsReversible(original, history[|history| - 1], policy);
      }
    }
  }

  // ---------------------------------------------------------------------------
  // Any number of runs
  // ---------------------------------------------------------------------------

  /** A run, interrupted after so many writes if it makes that many. */
  datatype Run = Run(posture: Posture, primary: string, existing: set<string>, cut: nat)

  /** Whatever postures follow each other and wherever they are interrupted, everything can
      be taken back: groups and recorded groups make up the original ones, and controls that
      differ are on record with their original values. */
  method Lifetime(start: Disk, original: Person, policy: Policy, runs: seq<Run>) returns (disks: seq<Disk>)
    requires IsReversible(original, start, policy) && policy.agentDenied <= policy.userDenied
    ensures disks != [] && disks[0] == start
    ensures forall d :: d in disks ==> IsReversible(original, d, policy)
  {
    hide IsReversible;
    disks := [start];
    var d := start;
    for i := 0 to |runs|
      invariant disks != [] && disks[0] == start && d in disks
      invariant forall v :: v in disks ==> IsReversible(original, v, policy)
    {
      var run := runs[i];
      var account := new Account(d, policy, original);
      var r := account.Configure(run.posture, run.primary, run.existing);
      var left := if run.cut < |account.history| then account.history[..run.cut + 1] else account.history;
      assert forall v :: v in left ==> v in account.history;
      disks := disks + left;
      d := left[|left| - 1];
    }
  }

  /** A standard run that is not interrupted gives everything back, except groups that do not
      exist any more: these stay on record. */
  method TakeBack(d: Disk, original: Person, policy: Policy, primary: string, existing: set<string>)
    returns (after: Disk)
    requires IsReversible(original, d, policy) && policy.agentDenied <= policy.userDenied
    ensures after.person == original.(groups := after.person.groups) && after.record.controls.None?
    ensures original.groups - after.person.groups <= after.record.removed == d.record.removed - existing
    ensures d.record.removed <= existing ==> after == Disk(original, EMPTY_RECORD)
  {
    var account := new Account(d, policy, original);
    var r := account.Configure(Standard, primary, existing);
    after := account.Now();
    assert after.record.removed == d.record.removed - existing;
    assert IsReversible(original, after, policy) by {
      assert account.history[|account.history| - 1] == after;
    }
  }
}
