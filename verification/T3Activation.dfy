/** common/cachyos_t3.py: replacing the T3 runtime and its user unit, crash-safely.

    A world is everything that survives the death of the setup process. Every effect of
    the code is one atomic step from world to world, so a trace lists exactly the worlds
    in which an interruption can leave the machine. */
module T3Activation {
  import opened Common
  import opened Texts

  const MARKER := "# Managed by basaltwater CachyOS setup"
  const UNIT_MODE := 0x1A4  // 0o644
  const MAX_MODE := 0x1FF   // 0o777

  /** A symbolic link or a regular file, as `_same_entry` compares them. */
  datatype Entry = Link(target: string) | File(content: string)

  datatype UnitFile = UnitFile(text: string, mode: nat)

  /** state.json */
  datatype Record = Record(hadBinary: bool, hadUnit: bool, wasActive: bool, wasEnabled: bool, unitMode: nat)

  /** The private .activation directory. */
  datatype Transaction = Transaction(owner: bool, proposed: Option<string>, previousBinary: Option<Entry>,
                                     previousUnit: Option<string>, record: Option<Record>,
                                     next: Option<Entry>, committed: bool)

  /** What users of the service see. */
  datatype Live = Live(binary: Option<Entry>, unitFile: Option<UnitFile>, enabled: bool, active: bool)

  datatype World = World(live: Live, transaction: Option<Transaction>)

  /** A validated release: the link to its executable and its unit text. */
  datatype Candidate = Candidate(link: Entry, content: string)

  datatype Error =
    | Unmanaged | InvalidRecord | InvalidUnit | UnitRemoved | UnitChanged | BinaryRemoved | BinaryChanged
    | NotReady | UnmanagedUnit

  predicate HasMarker(text: string) {
    Contains(text, MARKER)
  }

  /** There is no unit, or one that setup wrote. */
  predicate ManagedUnit(l: Live) {
    l.unitFile.Some? ==> HasMarker(l.unitFile.value.text)
  }

  /** The record is written after the snapshots that it speaks of. */
  ghost predicate Coherent(w: World) {
    w.transaction.Some? && w.transaction.value.record.Some? ==>
      var t := w.transaction.value;
      && (t.record.value.hadBinary ==> t.previousBinary.Some?)
      && (t.record.value.hadUnit ==> t.previousUnit.Some?)
  }

  // ---------------------------------------------------------------------------
  // Recovery
  // ---------------------------------------------------------------------------

  /** `_activation_state`: no activation, or one that began and did not commit, or a refusal. */
  function ActivationState(w: World): Result<Option<Record>, Error> {
    if w.transaction.None? then Success(None)
    else
      var t := w.transaction.value;
      if !t.owner then Failure(Unmanaged)
      else if t.committed || t.record.None? then Success(None)
      else if MAX_MODE < t.record.value.unitMode then Failure(InvalidRecord)
      else if t.proposed.None? || !HasMarker(t.proposed.value) then Failure(InvalidUnit)
      else Success(t.record)
  }

  /** The checks that come before recovery's first effect. */
  function Refusal(w: World): Option<Error> {
    match ActivationState(w)
    case Failure(e) => Some(e)
    case Success(None) => None
    case Success(Some(r)) =>
      var t, u, b := w.transaction.value, w.live.unitFile, w.live.binary;
      if r.hadUnit && u.None? then Some(UnitRemoved)
      else if u.Some? && Some(u.value.text) != t.proposed && !(r.hadUnit && Some(u.value.text) == t.previousUnit) then
        Some(UnitChanged)
      else if r.hadBinary && b.None? then Some(BinaryRemoved)
      else if b.Some? && b != t.next && !(r.hadBinary && b == t.previousBinary) then Some(BinaryChanged)
      else None
  }

  // The effects of a rollback, in order.

  function Stopped(l: Live): Live { l.(active := false) }

  function Disabled(l: Live, r: Record): Live {
    if !r.wasEnabled && l.unitFile.Some? then l.(enabled := false) else l
  }

  function BinaryRestored(l: Live, t: Transaction, r: Record): Live {
    l.(binary := if r.hadBinary then t.previousBinary else None)
  }

  function UnitRestored(l: Live, t: Transaction, r: Record): Live
    requires r.hadUnit ==> t.previousUnit.Some?
  {
    l.(unitFile := if r.hadUnit then Some(UnitFile(t.previousUnit.value, r.unitMode)) else None)
  }

  function Restarted(l: Live, r: Record, startPrevious: bool): Live {
    if r.wasActive && startPrevious then l.(active := true) else l
  }

  /** The worlds of a rollback to the snapshots, the first one left out. */
  function RollbackSteps(l: Live, t: Transaction, r: Record, startPrevious: bool): (steps: seq<World>)
    requires r.hadUnit ==> t.previousUnit.Some?
    ensures |steps| == 6
  {
    var stopped := Stopped(l);
    var disabled := Disabled(stopped, r);
    var reverted := BinaryRestored(disabled, t, r);
    var restored := UnitRestored(reverted, t, r);
    var started := Restarted(restored, r, startPrevious);
    [World(stopped, Some(t)), World(disabled, Some(t)), World(reverted, Some(t)), World(restored, Some(t)),
     World(started, Some(t)), World(started, None)]
  }

  /** Every world that `_recover_activation` passes through, the first one included. */
  function RecoverTrace(w: World, startPrevious: bool): (trace: seq<World>)
    requires Coherent(w)
    ensures trace != [] && trace[0] == w
  {
    if w.transaction.None? || Refusal(w).Some? then [w]
    else
      match ActivationState(w).value
      case None => [w, w.(transaction := None)]
      case Some(r) => [w] + RollbackSteps(w.live, w.transaction.value, r, startPrevious)
  }

  function Last(trace: seq<World>): World
    requires trace != []
  {
    trace[|trace| - 1]
  }

  /** Where an uninterrupted recovery ends. */
  function Recovered(w: World, startPrevious: bool): World
    requires Coherent(w)
  {
    Last(RecoverTrace(w, startPrevious))
  }

  // ---------------------------------------------------------------------------
  // Activation
  // ---------------------------------------------------------------------------

  const EMPTY := Transaction(false, None, None, None, None, None, false)

  /** Index of the world in which .activation exists but nobody owns it yet. */
  const UNOWNED := 1

  /** Index of the first world in which the activation is committed. */
  const COMMITTED := 13

  /** Number of worlds up to the one in which the unit is about to be written. */
  const UNWRITTEN := 10

  function RecordOf(l: Live): Record {
    Record(l.binary.Some?, l.unitFile.Some?, l.active, l.enabled,
           if l.unitFile.Some? then l.unitFile.value.mode else UNIT_MODE)
  }

  /** `_write_managed` keeps a file whose text is already right, mode included. */
  function Written(u: Option<UnitFile>, content: string): UnitFile {
    if u.Some? && u.value.text == content then u.value else UnitFile(content, UNIT_MODE)
  }

  function Activated(l: Live, c: Candidate): Live {
    Live(Some(c.link), Some(Written(l.unitFile, c.content)), true, true)
  }

  function StoppedIfAny(l: Live): Live {
    if l.unitFile.Some? || l.active then Stopped(l) else l
  }

  /** The transaction directory after the snapshots and the record are in place. */
  function Recorded(l: Live, c: Candidate): Transaction {
    Transaction(true, Some(c.content), l.binary,
                if l.unitFile.Some? then Some(l.unitFile.value.text) else None, Some(RecordOf(l)), None, false)
  }

  /** The worlds of the preparation, which leaves the service alone. */
  function PrepareSteps(l: Live, c: Candidate): (steps: seq<World>)
    ensures |steps| == 6
  {
    var full := Recorded(l, c);
    var saved := full.(record := None);
    var copied := saved.(previousUnit := None);
    var proposed := copied.(previousBinary := None);
    [World(l, Some(EMPTY)), World(l, Some(EMPTY.(owner := true))), World(l, Some(proposed)),
     World(l, Some(copied)), World(l, Some(saved)), World(l, Some(full))]
  }

  /** The worlds of the switch, from the stopped service to the started one. */
  function SwitchSteps(l: Live, c: Candidate): (steps: seq<World>)
    ensures |steps| == 6
  {
    var t := Recorded(l, c);
    var linked := t.(next := Some(c.link));
    var stopped := StoppedIfAny(l);
    var replaced := stopped.(binary := Some(c.link));
    var written := replaced.(unitFile := Some(Written(l.unitFile, c.content)));
    var enabled := written.(enabled := true);
    [World(stopped, Some(t)), World(stopped, Some(linked)), World(replaced, Some(linked)),
     World(written, Some(linked)), World(enabled, Some(linked)), World(enabled.(active := true), Some(linked))]
  }

  function CommitSteps(l: Live, c: Candidate): (steps: seq<World>)
    ensures |steps| == 2
  {
    var t := Recorded(l, c).(next := Some(c.link), committed := true);
    [World(Activated(l, c), Some(t)), World(Activated(l, c), None)]
  }

  /** Every world that a successful `_activate` passes through. A command that fails
      leaves the world that it would have changed. */
  function ActivateTrace(w: World, c: Candidate): (trace: seq<World>)
    ensures |trace| == 15 && trace[0] == w
  {
    [w] + PrepareSteps(w.live, c) + SwitchSteps(w.live, c) + CommitSteps(w.live, c)
  }

  /** The machine: what the setup process finds and changes. */
  class Host {
    var live: Live
    var transaction: Option<Transaction>
    ghost var log: seq<World>

    ghost predicate Valid()
      reads this
    {
      Coherent(Now()) && log != [] && Last(log) == Now()
    }

    function Now(): World
      reads this
    {
      World(live, transaction)
    }

    constructor (w: World)
      requires Coherent(w)
      ensures Valid() && Now() == w && log == [w]
    {
      live, transaction := w.live, w.transaction;
      log := [w];
    }

    /** An interruption may come here. */
    ghost method Checkpoint()
      modifies this`log
      ensures log == old(log) + [Now()]
    {
      log := log + [Now()];
    }

    /** The refusals of `_recover_activation`, in the order in which it looks for them. */
    method Inspect() returns (r: Result<Option<Record>, Error>)
      requires Valid()
      ensures match Refusal(Now())
              case Some(e) => r == Failure(e)
              case None => r == ActivationState(Now())
    {
      hide HasMarker;
      var state := ActivationState(Now());
      if state.Failure? || state.value.None? {
        return state;
      }
      var t, record := transaction.value, state.value.value;
      if record.hadUnit && live.unitFile.None? {
        return Failure(UnitRemoved);
      }
      var allowedUnits := if record.hadUnit then [t.proposed, t.previousUnit] else [t.proposed];
      if live.unitFile.Some? && Some(live.unitFile.value.text) !in allowedUnits {
        return Failure(UnitChanged);
      }
      if record.hadBinary && live.binary.None? {
        return Failure(BinaryRemoved);
      }
      var allowedBinaries := if record.hadBinary then [t.previousBinary, t.next] else [t.next];
      if live.binary.Some? && live.binary !in allowedBinaries {
        return Failure(BinaryChanged);
      }
      return state;
    }

    /** `_recover_activation` */
    method Recover(startPrevious: bool) returns (refusal: Option<Error>)
      requires Valid()
      modifies this
      ensures Valid() && Now() == Recovered(old(Now()), startPrevious)
      ensures refusal == Refusal(old(Now()))
      ensures log == old(log) + RecoverTrace(old(Now()), startPrevious)[1..]
    {
      var state := Inspect();
      hide Refusal, ActivationState;
      if state.Failure? {
        return Some(state.error);
      }
      if transaction.None? {
        return None;
      }
      if state.value.None? {
        DeleteTransaction();
      } else {
        Rollback(state.value.value, startPrevious);
      }
      return None;
    }

    method Rollback(r: Record, startPrevious: bool)
      requires Valid() && transaction.Some? && transaction.value.record == Some(r)
      modifies this
      ensures Valid()
      ensures log == old(log) + RollbackSteps(old(live), old(transaction).value, r, startPrevious)
    {
      hide Stopped, Disabled, BinaryRestored, UnitRestored, Restarted;
      var t := transaction.value;
      StopService();
      DisableUnlessEnabledBefore(r);
      RestoreBinary(t, r);
      RestoreUnit(t, r);
      StartIfActiveBefore(r, startPrevious);
      DeleteTransaction();
    }

    method StopService()
      modifies this`live, this`log
      ensures live == Stopped(old(live)) && log == old(log) + [Now()]
    {
      live := live.(active := false);
      Checkpoint();
    }

    method DisableUnlessEnabledBefore(r: Record)
      modifies this`live, this`log
      ensures live == Disabled(old(live), r) && log == old(log) + [Now()]
    {
      if !r.wasEnabled && live.unitFile.Some? {
        live := live.(enabled := false);
      }
      Checkpoint();
    }

    method RestoreBinary(t: Transaction, r: Record)
      modifies this`live, this`log
      ensures live == BinaryRestored(old(live), t, r) && log == old(log) + [Now()]
    {
      if r.hadBinary {
        live := live.(binary := t.previousBinary);
      } else {
        live := live.(binary := None);
      }
      Checkpoint();
    }

    method RestoreUnit(t: Transaction, r: Record)
      requires r.hadUnit ==> t.previousUnit.Some?
      modifies this`live, this`log
      ensures live == UnitRestored(old(live), t, r) && log == old(log) + [Now()]
    {
      if r.hadUnit {
        live := live.(unitFile := Some(UnitFile(t.previousUnit.value, r.unitMode)));
      } else {
        live := live.(unitFile := None);
      }
      Checkpoint();
    }

    method StartIfActiveBefore(r: Record, startPrevious: bool)
      modifies this`live, this`log
      ensures live == Restarted(old(live), r, startPrevious) && log == old(log) + [Now()]
    {
      if r.wasActive && startPrevious {
        live := live.(active := true);
      }
      Checkpoint();
    }

    method DeleteTransaction()
      modifies this`transaction, this`log
      ensures transaction == None && log == old(log) + [Now()]
    {
      transaction := None;
      Checkpoint();
    }

    /** `_activate`, with the outcome of the readiness check as a parameter. */
    method Activate(c: Candidate, uiReady: bool) returns (ok: bool, refusal: Option<Error>)
      requires Valid() && transaction.None?
      modifies this
      ensures Valid() && ok == (uiReady && ManagedUnit(old(live)))
      ensures ok ==> log == old(log) + ActivateTrace(old(Now()), c)[1..]
      ensures !ok ==>
                var reached := ActivateTrace(old(Now()), c)[..if ManagedUnit(old(live)) then COMMITTED else UNWRITTEN];
                && Coherent(Last(reached)) && refusal == Refusal(Last(reached))
                && log == old(log) + reached[1..] + RecoverTrace(Last(reached), true)[1..]
    {
      hide PrepareSteps, SwitchSteps, CommitSteps, RecoverTrace, Refusal, HasMarker;
      ghost var start, before := log, live;
      Prepare(c);
      SwitchBinary(c, before);
      TraceParts(old(Now()), c);
      assert log == start + ActivateTrace(old(Now()), c)[..UNWRITTEN][1..];
      var written := SwitchUnit(c, before);
      if written.Failure? {
        refusal := Recover(true);
        return false, refusal;
      }
      assert log == start + ActivateTrace(old(Now()), c)[..COMMITTED][1..];
      refusal := None;
      if !uiReady {
        refusal := Recover(true);
        return false, refusal;
      }
      Commit(c, before);
      return true, None;
    }

    /** The transaction directory, claimed, with the proposed unit. */
    method Claim(c: Candidate)
      requires Valid() && transaction.None?
      modifies this`transaction, this`log
      ensures Valid() && transaction == Some(EMPTY.(owner := true, proposed := Some(c.content)))
      ensures log == old(log) + PrepareSteps(live, c)[..3]
    {
      transaction := Some(EMPTY);
      Checkpoint();
      transaction := Some(transaction.value.(owner := true));
      Checkpoint();
      transaction := Some(transaction.value.(proposed := Some(c.content)));
      Checkpoint();
    }

    method Prepare(c: Candidate)
      requires Valid() && transaction.None?
      modifies this`transaction, this`log
      ensures Valid() && transaction == Some(Recorded(live, c))
      ensures log == old(log) + PrepareSteps(live, c)
    {
      Claim(c);
      Snapshot(c);
    }

    /** What is there before, and then the record of it. */
    method Snapshot(c: Candidate)
      requires Valid() && transaction == Some(EMPTY.(owner := true, proposed := Some(c.content)))
      modifies this`transaction, this`log
      ensures Valid() && transaction == Some(Recorded(live, c))
      ensures log == old(log) + PrepareSteps(live, c)[3..]
    {
      var hadBinary, hadUnit := live.binary.Some?, live.unitFile.Some?;
      if hadBinary {
        transaction := Some(transaction.value.(previousBinary := live.binary));
      }
      Checkpoint();
      if hadUnit {
        transaction := Some(transaction.value.(previousUnit := Some(live.unitFile.value.text)));
      }
      Checkpoint();
      var mode := if hadUnit then live.unitFile.value.mode else UNIT_MODE;
      var record := Record(hadBinary, hadUnit, live.active, live.enabled, mode);
      transaction := Some(transaction.value.(record := Some(record)));
      Checkpoint();
    }

    method SwitchBinary(c: Candidate, ghost before: Live)
      requires Valid() && live == before && transaction == Some(Recorded(before, c))
      modifies this
      ensures Valid() && live == StoppedIfAny(before).(binary := Some(c.link))
      ensures transaction == Some(Recorded(before, c).(next := Some(c.link)))
      ensures log == old(log) + SwitchSteps(before, c)[..3]
    {
      hide Recorded, StoppedIfAny, Written;
      StoppingKeepsUnit(before);
      if live.unitFile.Some? || live.active {
        StopService();
      } else {
        Checkpoint();
      }
      assert live == StoppedIfAny(before);
      transaction := Some(transaction.value.(next := Some(c.link)));
      Checkpoint();
      live := live.(binary := Some(c.link));
      Checkpoint();
    }

    method SwitchUnit(c: Candidate, ghost before: Live) returns (r: Result<bool, Error>)
      requires Valid() && live == StoppedIfAny(before).(binary := Some(c.link))
      requires transaction == Some(Recorded(before, c).(next := Some(c.link)))
      modifies this
      ensures Valid() && transaction == old(transaction)
      ensures r.Success? <==> ManagedUnit(before)
      ensures r.Failure? ==> live == old(live) && log == old(log)
      ensures r.Success? ==> live == Activated(before, c) && log == old(log) + SwitchSteps(before, c)[3..]
    {
      hide Recorded, StoppedIfAny, Written, HasMarker;
      StoppingKeepsUnit(before);
      r := WriteManaged(c.content);
      if r.Failure? {
        return;
      }
      live := live.(enabled := true);
      Checkpoint();
      live := live.(active := true);
      Checkpoint();
    }

    /** `_write_managed` on the unit: it never overwrites a file that setup did not write. */
    method WriteManaged(content: string) returns (r: Result<bool, Error>)
      modifies this`live, this`log
      ensures r.Failure? <==> !ManagedUnit(old(live))
      ensures r.Failure? ==> r.error == UnmanagedUnit && live == old(live) && log == old(log)
      ensures r.Success? ==>
                && live == old(live).(unitFile := Some(Written(old(live).unitFile, content)))
                && log == old(log) + [Now()]
                && r.value == (old(live).unitFile.None? || old(live).unitFile.value.text != content)
    {
      hide HasMarker;
      if live.unitFile.Some? && !HasMarker(live.unitFile.value.text) {
        return Failure(UnmanagedUnit);
      }
      var changed := live.unitFile.None? || live.unitFile.value.text != content;
      if changed {
        live := live.(unitFile := Some(UnitFile(content, UNIT_MODE)));
      }
      Checkpoint();
      return Success(changed);
    }

    method Commit(c: Candidate, ghost before: Live)
      requires Valid() && live == Activated(before, c)
      requires transaction == Some(Recorded(before, c).(next := Some(c.link)))
      modifies this`transaction, this`log
      ensures Valid() && transaction.None?
      ensures log == old(log) + CommitSteps(before, c)
    {
      transaction := Some(transaction.value.(committed := true));
      Checkpoint();
      DeleteTransaction();
    }
  }

  lemma TraceParts(w: World, c: Candidate)
    ensures ActivateTrace(w, c)[..COMMITTED][1..] == PrepareSteps(w.live, c) + SwitchSteps(w.live, c)
    ensures ActivateTrace(w, c)[..UNWRITTEN][1..] == PrepareSteps(w.live, c) + SwitchSteps(w.live, c)[..3]
    ensures ActivateTrace(w, c)[1..] == PrepareSteps(w.live, c) + SwitchSteps(w.live, c) + CommitSteps(w.live, c)
  {
  }

  // ---------------------------------------------------------------------------
  // Interruptions
  // ---------------------------------------------------------------------------

  /** The file mode that the recovery record can hold. */
  predicate ModeRecordable(l: Live) {
    l.unitFile.Some? ==> l.unitFile.value.mode <= MAX_MODE
  }

  lemma StoppingKeepsUnit(l: Live)
    ensures StoppedIfAny(l) == if l.unitFile.Some? || l.active then Stopped(l) else l
    ensures StoppedIfAny(l).unitFile == l.unitFile && StoppedIfAny(l).(active := l.active) == l
  {
  }

  lemma PreparationIsUndone(w: World, c: Candidate, i: nat)
    requires w.transaction.None? && HasMarker(c.content) && i < 6
    ensures var v := PrepareSteps(w.live, c)[i];
            && Coherent(v) && v.live == w.live
            && Refusal(v) == (if i == 0 then Some(Unmanaged)
                              else if i == 5 && !ModeRecordable(w.live) then Some(InvalidRecord) else None)
            && (Refusal(v).None? ==> Recovered(v, true) == w)
  {
    hide HasMarker;
  }

  lemma SwitchIsUndone(w: World, c: Candidate, i: nat)
    requires w.transaction.None? && HasMarker(c.content) && i < 6
    ensures var v := SwitchSteps(w.live, c)[i];
            && Coherent(v)
            && Refusal(v) == (if ModeRecordable(w.live) then None else Some(InvalidRecord))
            && (Refusal(v).None? ==> Recovered(v, true) == w)
            && (v.live.unitFile == w.live.unitFile || v.live.unitFile == Activated(w.live, c).unitFile)
  {
    hide HasMarker;
  }

  /** Activation is atomic: recovery from any world it passes through ends with binary,
      unit text and mode, enablement and activity all as before, or, from the commit on,
      all as proposed. Recovery refuses in two cases, and then it changes nothing: between
      creating the directory and claiming it, and while the record holds a unit mode with
      set-id or sticky bits, which the record's own check does not admit. */
  lemma ActivationIsAtomic(w: World, c: Candidate, k: nat)
    requires w.transaction.None? && HasMarker(c.content) && k < 15
    ensures var v := ActivateTrace(w, c)[k];
            && Coherent(v)
            && (Refusal(v).None? <==> k != UNOWNED && (6 <= k < COMMITTED ==> ModeRecordable(w.live)))
            && (Refusal(v).None? ==>
                  Recovered(v, true) == World(if k < COMMITTED then w.live else Activated(w.live, c), None))
            && (Refusal(v).Some? ==> Recovered(v, true) == v)
            && (v.live.unitFile == w.live.unitFile || v.live.unitFile == Activated(w.live, c).unitFile)
  {
    hide HasMarker, PrepareSteps, SwitchSteps;
    var v := ActivateTrace(w, c)[k];
    if 1 <= k < 7 {
      assert v == PrepareSteps(w.live, c)[k - 1];
      PreparationIsUndone(w, c, k - 1);
    } else if 7 <= k < 13 {
      assert v == SwitchSteps(w.live, c)[k - 7];
      SwitchIsUndone(w, c, k - 7);
    } else if 13 <= k {
      assert v == CommitSteps(w.live, c)[k - 13];
    }
  }

  /** A recovery that is not to start the previous service ends the same, with the service
      stopped; where nothing is rolled back, nothing is stopped. */
  lemma QuietRecovery(w: World)
    requires Coherent(w) && Refusal(w).None?
    ensures w.transaction.None? || w.transaction.value.committed || w.transaction.value.record.None? ==>
              Recovered(w, false) == Recovered(w, true) && Recovered(w, true).live == w.live
    ensures w.transaction.Some? && !w.transaction.value.committed && w.transaction.value.record.Some? ==>
              && Recovered(w, false) == World(Recovered(w, true).live.(active := false), None)
              && Recovered(w, true).live.active == w.transaction.value.record.value.wasActive
  {
    hide HasMarker;
  }

  /** Recovery itself may be interrupted anywhere: it is recognised again and ends the same. */
  lemma RecoveryIsRestartable(w: World, startPrevious: bool, j: nat)
    requires Coherent(w) && Refusal(w).None? && j < |RecoverTrace(w, startPrevious)|
    ensures var v := RecoverTrace(w, startPrevious)[j];
            && Coherent(v) && Refusal(v).None?
            && Recovered(v, startPrevious) == Recovered(w, startPrevious)
            && (v.live.unitFile == w.live.unitFile || v.live.unitFile == Recovered(w, startPrevious).live.unitFile)
  {
    hide HasMarker;
  }

  // ---------------------------------------------------------------------------
  // Foreign files
  // ---------------------------------------------------------------------------

  /** A unit text or an executable that is neither the one before nor the candidate's. */
  predicate IsForeign(l: Live, before: Live, c: Candidate) {
    || (l.unitFile.Some? && l.unitFile.value.text != c.content
        && !(before.unitFile.Some? && l.unitFile.value.text == before.unitFile.value.text))
    || (l.binary.Some? && l.binary != Some(c.link) && l.binary != before.binary)
  }

  /** The worlds in which an activation, or the recovery after it, may be interrupted. */
  ghost predicate IsInterruption(v: World, w: World, c: Candidate) {
    exists k: nat, j: nat, startPrevious :: IsInterruptedAt(v, w, c, k, j, startPrevious)
  }

  ghost predicate IsInterruptedAt(v: World, w: World, c: Candidate, k: nat, j: nat, startPrevious: bool) {
    k < 15 && Coherent(ActivateTrace(w, c)[k])
    && var trace := RecoverTrace(ActivateTrace(w, c)[k], startPrevious);
    j < |trace| && v == trace[j]
  }

  /** The transactions of an activation speak of the service before and of the candidate. */
  ghost predicate IsAbout(t: Transaction, before: Live, c: Candidate) {
    && (t.proposed.Some? ==> t.proposed == Some(c.content))
    && (t.next.Some? ==> t.next == Some(c.link))
    && (t.record.Some? ==> t == Recorded(before, c).(next := t.next, committed := t.committed))
  }

  lemma InterruptionIsAbout(v: World, w: World, c: Candidate)
    requires w.transaction.None? && HasMarker(c.content) && IsInterruption(v, w, c)
    ensures v.transaction.Some? ==> IsAbout(v.transaction.value, w.live, c)
    ensures Coherent(v)
  {
    hide HasMarker, PrepareSteps, SwitchSteps, CommitSteps, RecoverTrace;
    var k: nat, j: nat, startPrevious :| IsInterruptedAt(v, w, c, k, j, startPrevious);
    var u := ActivateTrace(w, c)[k];
    StepIsAbout(w, c, k);
    RecoveryKeepsTransaction(u, startPrevious, j);
  }

  lemma StepIsAbout(w: World, c: Candidate, k: nat)
    requires w.transaction.None? && k < 15
    ensures var u := ActivateTrace(w, c)[k];
            u.transaction.Some? ==> IsAbout(u.transaction.value, w.live, c)
  {
    if 1 <= k < 7 {
      assert ActivateTrace(w, c)[k] == PrepareSteps(w.live, c)[k - 1];
    } else if 7 <= k < 13 {
      assert ActivateTrace(w, c)[k] == SwitchSteps(w.live, c)[k - 7];
    } else if 13 <= k {
      assert ActivateTrace(w, c)[k] == CommitSteps(w.live, c)[k - 13];
    }
  }

  lemma RecoveryKeepsTransaction(u: World, startPrevious: bool, j: nat)
    requires Coherent(u) && j < |RecoverTrace(u, startPrevious)|
    ensures var v := RecoverTrace(u, startPrevious)[j];
            Coherent(v) && (v.transaction.Some? ==> v.transaction == u.transaction)
  {
    hide HasMarker;
  }

  /** A user may put such a file there at any interruption. Recovery does not touch it, and as
      long as the activation is on record and not committed, recovery does nothing at all. */
  lemma ForeignFilesSurvive(v: World, w: World, c: Candidate, edited: Live, startPrevious: bool)
    requires w.transaction.None? && HasMarker(c.content) && IsInterruption(v, w, c)
    requires IsForeign(edited, w.live, c)
    ensures var u := v.(live := edited);
            && Coherent(u)
            && (forall x :: x in RecoverTrace(u, startPrevious) ==> x.live == edited)
            && (v.transaction.Some? && v.transaction.value.record.Some? && !v.transaction.value.committed ==>
                  Refusal(u).Some? && RecoverTrace(u, startPrevious) == [u])
  {
    InterruptionIsAbout(v, w, c);
    hide HasMarker, IsInterruption;
  }

  /** A transaction is refused before anything else when it is not setup's, or is on record
      without being committed and the record has special mode bits or speaks of a unit that is
      not setup's; and then nothing changes. */
  lemma RecordsAreChecked(w: World, startPrevious: bool)
    requires Coherent(w)
    ensures ActivationState(w).Failure?
       <==> && w.transaction.Some?
            && var t := w.transaction.value;
               || !t.owner
               || (!t.committed && t.record.Some?
                   && (t.record.value.unitMode > 0x1FF || t.proposed.None?
                       || !Contains(t.proposed.value, "# Managed by basaltwater CachyOS setup")))
    ensures ActivationState(w).Failure? ==> RecoverTrace(w, startPrevious) == [w]
  {
    hide Contains, RollbackSteps;
  }

  /** A unit that somebody else wrote shows by its text; a new one can be read by everybody. */
  lemma UnitsInWords(l: Live, c: Candidate)
    ensures !ManagedUnit(l)
       <==> l.unitFile.Some? && !Contains(l.unitFile.value.text, "# Managed by basaltwater CachyOS setup")
    ensures Activated(l, c).unitFile.value.text == c.content
    ensures l.unitFile.None? || l.unitFile.value.text != c.content ==> Activated(l, c).unitFile.value.mode == 0x1A4
    ensures l.unitFile.Some? && l.unitFile.value.text == c.content ==> Activated(l, c).unitFile == l.unitFile
  {}

  /** A file that was there before is gone. */
  predicate IsMissing(l: Live, before: Live) {
    (before.binary.Some? && l.binary.None?) || (before.unitFile.Some? && l.unitFile.None?)
  }

  /** What recovery says at any interruption of a recorded, uncommitted activation, whatever a
      user has made of the files meanwhile. Until the new link is in place, an executable that
      is the candidate's is foreign as well. */
  lemma RefusalAtInterruption(v: World, w: World, c: Candidate, edited: Live)
    requires w.transaction.None? && HasMarker(c.content) && IsInterruption(v, w, c)
    requires v.transaction.Some? && v.transaction.value.record.Some? && !v.transaction.value.committed
    ensures var text := if edited.unitFile.Some? then Some(edited.unitFile.value.text) else None;
            var prior := if w.live.unitFile.Some? then Some(w.live.unitFile.value.text) else None;
            var said := Refusal(v.(live := edited));
            said == if w.live.unitFile.Some? && w.live.unitFile.value.mode > 0x1FF then Some(InvalidRecord)
            else if prior.Some? && text.None? then Some(UnitRemoved)
            else if text.Some? && text != Some(c.content) && text != prior then Some(UnitChanged)
            else if w.live.binary.Some? && edited.binary.None? then Some(BinaryRemoved)
            else if edited.binary.Some? && edited.binary != w.live.binary
                    && !(edited.binary == Some(c.link) && v.transaction.value.next.Some?) then Some(BinaryChanged)
            else None
  {
    InterruptionIsAbout(v, w, c);
    hide HasMarker, IsInterruption;
  }

  /** A file that somebody has removed is not put back: nothing at all changes, the record of
      the activation included. */
  lemma MissingFilesAreReported(v: World, w: World, c: Candidate, edited: Live, startPrevious: bool)
    requires w.transaction.None? && HasMarker(c.content) && IsInterruption(v, w, c)
    requires v.transaction.Some? && v.transaction.value.record.Some? && !v.transaction.value.committed
    requires IsMissing(edited, w.live)
    ensures var u := v.(live := edited);
            Coherent(u) && Refusal(u).Some? && RecoverTrace(u, startPrevious) == [u]
  {
    InterruptionIsAbout(v, w, c);
    RefusalAtInterruption(v, w, c, edited);
    hide HasMarker, IsInterruption, Refusal;
  }

  // ---------------------------------------------------------------------------
  // Runs of interrupted completions
  // ---------------------------------------------------------------------------

  /** One life of `complete_setup` in web mode: recover, then activate. It is killed at
      some world, or a command fails and the handler's recovery is killed at some world;
      an index past the end means that nothing interrupts it. */
  datatype Attempt = Killed(c: Candidate, at: nat) | Failed(c: Candidate, after: nat, at: nat)

  function At(trace: seq<World>, i: nat): World
    requires trace != []
  {
    trace[if i < |trace| then i else |trace| - 1]
  }

  /** A world from which setup can go on. */
  ghost predicate Sound(w: World) {
    Coherent(w) && !IsRefused(w) && ModeRecordable(Settled(w)) && ManagedUnit(Settled(w))
  }

  /** The service that an uninterrupted recovery would leave. */
  ghost function Settled(w: World): Live
    requires Coherent(w)
  {
    Recovered(w, true).live
  }

  /** The index in the activation at which the attempt stops. */
  function Reached(w: World, a: Attempt): nat
    requires Coherent(w)
  {
    match a
    case Killed(_, at) => if at < |RecoverTrace(w, true)| then 0 else at - |RecoverTrace(w, true)| + 1
    case Failed(_, after, _) => if after < COMMITTED then after else COMMITTED - 1
  }

  /** Setup stops at once: the unit is not its own, or recovery refuses. */
  predicate IsRefused(w: World) {
    !ManagedUnit(w.live) || Refusal(w).Some?
  }

  function After(w: World, a: Attempt): World
    requires Coherent(w) && Recovered(w, true).transaction.None? && HasMarker(a.c.content)
  {
    var idle := Recovered(w, true);
    match a
    case Killed(c, at) =>
      if at < |RecoverTrace(w, true)| then RecoverTrace(w, true)[at]
      else At(ActivateTrace(idle, c), Reached(w, a))
    case Failed(c, _, at) =>
      ActivationIsAtomic(idle, c, Reached(w, a));
      At(RecoverTrace(ActivateTrace(idle, c)[Reached(w, a)], true), at)
  }

  /** Attempts that do not stop in the one world that recovery refuses to claim. */
  predicate Claimed(w: World, a: Attempt)
    requires Coherent(w)
  {
    Reached(w, a) != UNOWNED
  }

  lemma IdleAfterRecovery(w: World)
    requires Coherent(w) && Refusal(w).None?
    ensures Recovered(w, true).transaction.None?
  {
    hide HasMarker;
  }

  /** One attempt, wherever it stops, is one atomic step: the settled service stays, or
      becomes the candidate's if the commit was reached. */
  lemma AttemptIsAtomic(w: World, a: Attempt)
    requires Sound(w) && HasMarker(a.c.content) && Claimed(w, a)
    requires Recovered(w, true).transaction.None?
    ensures var v := After(w, a);
            && Sound(v)
            && Settled(v) == if COMMITTED <= Reached(w, a) then Activated(Settled(w), a.c) else Settled(w)
  {
    hide HasMarker, RecoverTrace, ActivateTrace, Refusal;
    var idle := Recovered(w, true);
    match a
    case Killed(c, at) =>
      if at < |RecoverTrace(w, true)| {
        RecoveryIsRestartable(w, true, at);
      } else {
        var k := if Reached(w, a) < 15 then Reached(w, a) else 14;
        ActivationIsAtomic(idle, c, k);
      }
    case Failed(c, _, at) =>
      var v := ActivateTrace(idle, c)[Reached(w, a)];
      ActivationIsAtomic(idle, c, Reached(w, a));
      var j := if at < |RecoverTrace(v, true)| then at else |RecoverTrace(v, true)| - 1;
      RecoveryIsRestartable(v, true, j);
  }

  /** The next life of the machine: from a world setup can go on from, one attempt. */
  ghost predicate Follows(w: World, a: Attempt, v: World) {
    && (IsRefused(w) ==> v == w)
    && (Sound(w) ==>
          && HasMarker(a.c.content) && Claimed(w, a)
          && (Recovered(w, true).transaction.None? ==> v == After(w, a)))
  }

  /** The attempts in order; each finds the world that the one before left. */
  ghost predicate Lives(worlds: seq<World>, attempts: seq<Attempt>) {
    && |worlds| == |attempts| + 1
    && forall i :: 0 <= i < |attempts| ==> Follows(worlds[i], attempts[i], worlds[i + 1])
  }

  ghost predicate Commits(w: World, a: Attempt) {
    Coherent(w) && COMMITTED <= Reached(w, a)
  }

  /** The service an atomic switch would show: one candidate after the other, each in
      full, exactly those whose commit was reached. */
  ghost function AtomicRun(l: Live, worlds: seq<World>, attempts: seq<Attempt>): Live
    requires |worlds| == |attempts| + 1
    decreases |attempts|
  {
    if attempts == [] then l
    else
      var last := |attempts| - 1;
      var before := AtomicRun(l, worlds[..|attempts|], attempts[..last]);
      if Commits(worlds[last], attempts[last]) then Activated(before, attempts[last].c) else before
  }

  /** Refinement: however often setup is killed or fails, one recovery more leaves the
      service that a machine with one atomic switch per committed attempt would have. */
  lemma {:induction false} InterruptedRunsAreAtomic(worlds: seq<World>, attempts: seq<Attempt>)
    requires Lives(worlds, attempts) && Sound(worlds[0])
    ensures Sound(worlds[|attempts|])
    ensures Settled(worlds[|attempts|]) == AtomicRun(Settled(worlds[0]), worlds, attempts)
    decreases |attempts|
  {
    hide HasMarker, RecoverTrace, ActivateTrace, Refusal, After, Settled;
    if attempts != [] {
      var last := |attempts| - 1;
      InterruptedRunsAreAtomic(worlds[..|attempts|], attempts[..last]);
      assert Follows(worlds[last], attempts[last], worlds[last + 1]);
      IdleAfterRecovery(worlds[last]);
      AttemptIsAtomic(worlds[last], attempts[last]);
    }
  }

  /** Once a foreign file is found in an uncommitted activation, or a file is found missing, no
      attempt ever changes anything, until the user does. */
  lemma {:induction false} ForeignFilesSurviveRuns(worlds: seq<World>, attempts: seq<Attempt>, v: World, w: World,
                                                   c: Candidate, edited: Live)
    requires w.transaction.None? && HasMarker(c.content) && IsInterruption(v, w, c)
    requires IsForeign(edited, w.live, c) || IsMissing(edited, w.live)
    requires v.transaction.Some? && v.transaction.value.record.Some? && !v.transaction.value.committed
    requires Lives(worlds, attempts) && worlds[0] == v.(live := edited)
    ensures forall i :: 0 <= i < |worlds| ==> worlds[i] == worlds[0]
    decreases |attempts|
  {
    hide HasMarker, RecoverTrace, Refusal, After, Settled, Sound, IsInterruption, IsForeign, IsMissing;
    if attempts != [] {
      var last := |attempts| - 1;
      ForeignFilesSurviveRuns(worlds[..|attempts|], attempts[..last], v, w, c, edited);
      assert forall i :: 0 <= i < |attempts| ==> worlds[i] == worlds[..|attempts|][i];
      if IsMissing(edited, w.live) {
        MissingFilesAreReported(v, w, c, edited, true);
      } else {
        ForeignFilesSurvive(v, w, c, edited, true);
      }
      assert Follows(worlds[last], attempts[last], worlds[last + 1]);
    }
  }

  // ---------------------------------------------------------------------------
  // Readiness
  // ---------------------------------------------------------------------------

  /** One round of polling: the unit is not active, or systemd calls it failed, or it is
      active but gives no good answer, or it answers under an invocation identity. */
  datatype Poll = Inactive | FailedUnit | NoAnswer | Answer(invocation: string)

  const STABLE_CHECKS := 3

  /** The last three rounds up to `i` all answered under one invocation. */
  predicate StableAt(polls: seq<Poll>, i: nat) {
    && STABLE_CHECKS - 1 <= i < |polls|
    && polls[i].Answer? && polls[i - 1] == polls[i] && polls[i - 2] == polls[i]
  }

  /** `_wait_for_ui` over the rounds that fit before the deadline: it succeeds at the first
      stable round, unless the unit failed before that. */
  method WaitForUi(polls: seq<Poll>) returns (r: Result<nat, Error>)
    ensures r.Success? ==> StableAt(polls, r.value) && forall i: nat :: i < r.value ==> !StableAt(polls, i)
    ensures r.Success? ==> forall i :: 0 <= i < r.value ==> polls[i] != FailedUnit
    ensures r.Failure? ==>
              || (forall i: nat :: i < |polls| ==> !StableAt(polls, i))
              || exists n: nat :: n < |polls| && polls[n] == FailedUnit
                                  && forall i: nat :: i < n ==> !StableAt(polls, i)
  {
    var stable: nat := 0;
    var stableInvocation: Option<string> := None;
    for i := 0 to |polls|
      invariant stable <= i && stable < STABLE_CHECKS
      invariant stable > 0 ==> stableInvocation.Some?
      invariant forall k :: i - stable <= k < i ==> polls[k] == Answer(stableInvocation.value)
      invariant stable < i ==>
                  polls[i - stable - 1] != Answer(if stable > 0 then stableInvocation.value else "") || stable == 0
      invariant stable == 0 && 0 < i ==> !polls[i - 1].Answer?
      invariant forall k :: 0 <= k < i ==> polls[k] != FailedUnit
      invariant forall k: nat :: k < i ==> !StableAt(polls, k)
    {
      match polls[i]
      case Answer(current) =>
        stable := if stableInvocation == Some(current) then stable + 1 else 1;
        stableInvocation := Some(current);
        if STABLE_CHECKS <= stable {
          return Success(i);
        }
      case FailedUnit =>
        return Failure(NotReady);
      case _ =>
        stable := 0;
    }
    return Failure(NotReady);
  }
}
