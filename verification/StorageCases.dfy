/** basaltwater.py: the decisions about saved guests, field by field and word by word. Each
    statement lists names and values itself instead of using the groups of the definitions. */
module StorageCases {
  import opened Common
  import opened StorageMerge

  // ---------------------------------------------------------------------------
  // Mounts and layouts
  // ---------------------------------------------------------------------------

  lemma MountInWords(name: string, place: string, system: string, content: string)
    ensures CanonicalMount([name, place]) == (name, place, "ext4", "empty")
    ensures CanonicalMount([name, place, system]) == (name, place, system, "empty")
    ensures CanonicalMount([name, place, system, content]) == (name, place, system, content)
  {}

  /** A mount with its defaults written out. */
  function Filled(s: Spec): Spec {
    if |s| == 2 then s + ["ext4", "empty"] else if |s| == 3 then s + ["empty"] else s
  }

  function AllFilled(specs: seq<Spec>): seq<Spec> {
    seq(|specs|, i requires 0 <= i < |specs| => Filled(specs[i]))
  }

  lemma FilledMembers(specs: seq<Spec>)
    ensures forall s :: s in specs ==> Filled(s) in AllFilled(specs)
    ensures forall t :: t in AllFilled(specs) ==> exists s :: s in specs && t == Filled(s)
  {
    var all := AllFilled(specs);
    forall s | s in specs ensures Filled(s) in all {
      var i :| 0 <= i < |specs| && specs[i] == s;
      assert all[i] == Filled(s);
    }
    forall t | t in all ensures exists s :: s in specs && t == Filled(s) {
      var i :| 0 <= i < |all| && all[i] == t;
      assert specs[i] in specs;
    }
  }

  lemma FilledKeepsName(s: Spec)
    ensures (Filled(s) == [] <==> s == []) && (s != [] ==> Filled(s)[0] == s[0]) && (|Filled(s)| >= 2 <==> |s| >= 2)
  {}

  lemma FilledUnique(specs: seq<Spec>)
    ensures HasUniqueNames(AllFilled(specs)) <==> HasUniqueNames(specs)
  {
    var all := AllFilled(specs);
    forall i | 0 <= i < |specs|
      ensures (all[i] == [] <==> specs[i] == []) && (specs[i] != [] ==> all[i][0] == specs[i][0])
    {
      FilledKeepsName(specs[i]);
    }
    assert |all| == |specs|;
    hide AllFilled, Filled;
    if HasUniqueNames(all) {
      forall i | 0 <= i < |specs| ensures specs[i] != [] {
        assert all[i] != [];
      }
      forall i, j | 0 <= i < j < |specs| ensures specs[i][0] != specs[j][0] {
        assert all[i][0] != all[j][0];
      }
    }
  }

  lemma FilledNames(specs: seq<Spec>)
    ensures Names(AllFilled(specs)) == Names(specs)
    ensures ArePlaced(AllFilled(specs)) <==> ArePlaced(specs)
  {
    var all := AllFilled(specs);
    FilledMembers(specs);
    hide AllFilled, Filled;
    forall n ensures n in Names(all) <==> n in Names(specs) {
      if n in Names(all) {
        var t :| t in all && t != [] && t[0] == n;
        var s :| s in specs && t == Filled(s);
        FilledKeepsName(s);
      }
      if n in Names(specs) {
        var s :| s in specs && s != [] && s[0] == n;
        FilledKeepsName(s);
        assert Filled(s) in all;
      }
    }
    forall s | s in specs ensures |Filled(s)| >= 2 <==> |s| >= 2 {
      FilledKeepsName(s);
    }
  }

  lemma FilledFacts(specs: seq<Spec>)
    ensures HasUniqueNames(AllFilled(specs)) <==> HasUniqueNames(specs)
    ensures Names(AllFilled(specs)) == Names(specs)
    ensures ArePlaced(AllFilled(specs)) <==> ArePlaced(specs)
  {
    FilledUnique(specs);
    FilledNames(specs);
  }

  lemma FilledIsSame(s: Spec)
    requires |s| >= 2
    ensures |Filled(s)| >= 2 && CanonicalMount(Filled(s)) == CanonicalMount(s) && Filled(s)[0] == s[0]
  {}

  /** It makes no difference whether the defaults of a mount are written out, in the saved layout
      or in the request. */
  lemma DefaultsMakeNoDifference(cs: seq<Spec>, rs: seq<Spec>, cm: seq<Spec>, rm: seq<Spec>)
    ensures IsAdditive(cs, rs, AllFilled(cm), AllFilled(rm)) <==> IsAdditive(cs, rs, cm, rm)
  {
    FilledFacts(cm);
    FilledFacts(rm);
    FilledMountsAgree(cm, rm);
    FilledMountsAreNew(rm, NewNames(rs, cs));
    hide AllFilled, Names, HasUniqueNames, ArePlaced, MountsAgreeWhereBoth, AreNewMounts, AgreeWhereBoth, AreNewDisks;
  }

  lemma FilledMountsAgree(cm: seq<Spec>, rm: seq<Spec>)
    ensures MountsAgreeWhereBoth(AllFilled(rm), AllFilled(cm)) <==> MountsAgreeWhereBoth(rm, cm)
  {
    FilledMembers(cm);
    FilledMembers(rm);
    hide AllFilled, CanonicalMount, Filled, Names, HasUniqueNames;
    if MountsAgreeWhereBoth(AllFilled(rm), AllFilled(cm)) {
      forall s, t | s in rm && t in cm && |s| >= 2 && |t| >= 2 && s[0] == t[0]
        ensures CanonicalMount(s) == CanonicalMount(t)
      {
        FilledIsSame(s);
        FilledIsSame(t);
        assert Filled(s) in AllFilled(rm) && Filled(t) in AllFilled(cm);
      }
    }
    if MountsAgreeWhereBoth(rm, cm) {
      forall x, y | x in AllFilled(rm) && y in AllFilled(cm) && |x| >= 2 && |y| >= 2 && x[0] == y[0]
        ensures CanonicalMount(x) == CanonicalMount(y)
      {
        var s :| s in rm && x == Filled(s);
        var t :| t in cm && y == Filled(t);
        ShortStaysShort(s);
        ShortStaysShort(t);
        FilledIsSame(s);
        FilledIsSame(t);
      }
    }
  }

  lemma ShortStaysShort(s: Spec)
    ensures |Filled(s)| >= 2 <==> |s| >= 2
  {}

  lemma FilledMountsAreNew(rm: seq<Spec>, added: set<string>)
    ensures AreNewMounts(AllFilled(rm), added) <==> AreNewMounts(rm, added)
  {
    FilledMembers(rm);
    hide AllFilled, CanonicalMount, Filled, Names, HasUniqueNames;
    if AreNewMounts(AllFilled(rm), added) {
      forall s | s in rm && |s| >= 2 && s[0] in added
        ensures CanonicalMount(s).1 != "/home" && CanonicalMount(s).3 == "empty"
      {
        FilledIsSame(s);
        assert Filled(s) in AllFilled(rm);
      }
    }
    if AreNewMounts(rm, added) {
      forall x | x in AllFilled(rm) && |x| >= 2 && x[0] in added
        ensures CanonicalMount(x).1 != "/home" && CanonicalMount(x).3 == "empty"
      {
        var s :| s in rm && x == Filled(s);
        ShortStaysShort(s);
        FilledIsSame(s);
      }
    }
  }

  predicate Declares(specs: seq<Spec>, name: string) {
    exists s :: s in specs && s != [] && s[0] == name
  }

  lemma DeclaredNames(specs: seq<Spec>)
    ensures forall n :: n in Names(specs) <==> Declares(specs, n)
  {}

  predicate IsUnique(specs: seq<Spec>) {
    forall i :: 0 <= i < |specs| ==>
      specs[i] != [] && forall j :: 0 <= j < |specs| && specs[j] != [] && specs[j][0] == specs[i][0] ==> j == i
  }

  lemma UniqueInWords(specs: seq<Spec>)
    ensures HasUniqueNames(specs) <==> IsUnique(specs)
  {}

  predicate RepeatsDisks(cs: seq<Spec>, rs: seq<Spec>) {
    forall s :: s in rs && s != [] && Declares(cs, s[0]) ==> s in cs
  }

  predicate NewDisksAreWhole(cs: seq<Spec>, rs: seq<Spec>) {
    forall s :: s in rs && s != [] && !Declares(cs, s[0]) ==> |s| == 3 && s[0] != "root" && s[0] != "template"
  }

  predicate RepeatsMounts(cm: seq<Spec>, rm: seq<Spec>) {
    forall s, t :: s in rm && t in cm && |s| >= 2 && |t| >= 2 && s[0] == t[0] ==>
      && s[1] == t[1]
      && (if |s| >= 3 then s[2] else "ext4") == (if |t| >= 3 then t[2] else "ext4")
      && (if |s| >= 4 then s[3] else "empty") == (if |t| >= 4 then t[3] else "empty")
  }

  predicate MountsAreNewDisks(cs: seq<Spec>, rs: seq<Spec>, cm: seq<Spec>, rm: seq<Spec>) {
    && (forall s :: s in rs && s != [] && !Declares(cs, s[0]) ==> Declares(rm, s[0]) && !Declares(cm, s[0]))
    && forall s :: s in rm && s != [] && !Declares(cm, s[0]) ==> Declares(rs, s[0]) && !Declares(cs, s[0])
  }

  predicate NewMountsAreEmpty(cm: seq<Spec>, rm: seq<Spec>) {
    forall s :: s in rm && |s| >= 2 && !Declares(cm, s[0]) ==> s[1] != "/home" && (|s| < 4 || s[3] == "empty")
  }

  predicate MountsADisk(rs: seq<Spec>, rm: seq<Spec>) {
    exists s :: s in rs && s != [] && s[0] != "root" && s[0] != "template" && Declares(rm, s[0])
  }

  predicate AreMounts(specs: seq<Spec>) {
    forall s :: s in specs ==> |s| >= 2
  }

  /** When a layout is additive, in words. */
  predicate OnlyAdds(cs: seq<Spec>, rs: seq<Spec>, cm: seq<Spec>, rm: seq<Spec>) {
    && IsUnique(cs) && IsUnique(rs) && IsUnique(cm) && IsUnique(rm) && AreMounts(cm) && AreMounts(rm)
    && Declares(cs, "root") && RepeatsDisks(cs, rs) && NewDisksAreWhole(cs, rs) && RepeatsMounts(cm, rm)
    && MountsAreNewDisks(cs, rs, cm, rm) && NewMountsAreEmpty(cm, rm) && MountsADisk(rs, rm)
  }

  lemma AdditiveInWords(cs: seq<Spec>, rs: seq<Spec>, cm: seq<Spec>, rm: seq<Spec>)
    ensures IsAdditive(cs, rs, cm, rm) <==> OnlyAdds(cs, rs, cm, rm)
  {
    UniqueInWords(cs);
    UniqueInWords(rs);
    UniqueInWords(cm);
    UniqueInWords(rm);
    DeclaredNames(cs);
    assert ArePlaced(cm) == AreMounts(cm) && ArePlaced(rm) == AreMounts(rm);
    assert "root" in Names(cs) ==> cs != [];
    NewNamesInWords(cs, rs, cm, rm);
    if HasUniqueNames(cs) && HasUniqueNames(rs) {
      AgreeInWords(cs, rs);
      NewDisksInWords(cs, rs);
    }
    MountsAgreeInWords(cm, rm);
    if NewNames(rm, cm) == NewNames(rs, cs) {
      NewMountsInWords(rs, cs, cm, rm);
    }
    MountedInWords(rs, rm);
    hide Names, HasUniqueNames, IsUnique, AgreeWhereBoth, AreNewDisks, MountsAgreeWhereBoth, AreNewMounts, NewNames,
         RepeatsDisks, NewDisksAreWhole, RepeatsMounts, MountsAreNewDisks, NewMountsAreEmpty, MountsADisk, AreMounts,
         ArePlaced, Declares;
  }

  lemma AgreeInWords(cs: seq<Spec>, rs: seq<Spec>)
    requires HasUniqueNames(cs) && HasUniqueNames(rs)
    ensures AgreeWhereBoth(rs, cs) <==> RepeatsDisks(cs, rs)
  {
    UniqueIsSame(cs);
    assert forall s :: s in cs ==> s != [];
    hide HasUniqueNames;
    if RepeatsDisks(cs, rs) {
      forall s, t | s in rs && t in cs && s != [] && t != [] && s[0] == t[0] ensures s == t {
        assert Declares(cs, s[0]);
      }
    }
    if AgreeWhereBoth(rs, cs) {
      forall s | s in rs && s != [] && Declares(cs, s[0]) ensures s in cs {
        var t :| t in cs && t != [] && t[0] == s[0];
      }
    }
  }

  /** A declaration is new if the saved ones do not declare its name. */
  lemma NewInWords(s: Spec, requested: seq<Spec>, cached: seq<Spec>)
    requires s in requested && s != []
    ensures s[0] in NewNames(requested, cached) <==> !Declares(cached, s[0])
  {
    DeclaredNames(cached);
    DeclaredNames(requested);
    assert Declares(requested, s[0]);
  }

  lemma NewDisksInWords(cs: seq<Spec>, rs: seq<Spec>)
    ensures AreNewDisks(rs, NewNames(rs, cs)) <==> NewDisksAreWhole(cs, rs)
  {
    forall s | s in rs && s != [] ensures s[0] in NewNames(rs, cs) <==> !Declares(cs, s[0]) {
      NewInWords(s, rs, cs);
    }
    hide Declares, NewNames;
  }

  lemma MountsAgreeInWords(cm: seq<Spec>, rm: seq<Spec>)
    ensures MountsAgreeWhereBoth(rm, cm) <==> RepeatsMounts(cm, rm)
  {}

  lemma NewMountsInWords(rs: seq<Spec>, cs: seq<Spec>, cm: seq<Spec>, rm: seq<Spec>)
    requires NewNames(rm, cm) == NewNames(rs, cs)
    ensures AreNewMounts(rm, NewNames(rs, cs)) <==> NewMountsAreEmpty(cm, rm)
  {
    forall s | s in rm && s != [] ensures s[0] in NewNames(rs, cs) <==> !Declares(cm, s[0]) {
      NewInWords(s, rm, cm);
    }
    hide Declares, NewNames;
  }

  lemma NewNamesInWords(cs: seq<Spec>, rs: seq<Spec>, cm: seq<Spec>, rm: seq<Spec>)
    ensures NewNames(rm, cm) == NewNames(rs, cs) <==> MountsAreNewDisks(cs, rs, cm, rm)
  {
    DeclaredNames(cs);
    DeclaredNames(rs);
    DeclaredNames(cm);
    DeclaredNames(rm);
    hide Names;
    var disks, mounts := NewNames(rs, cs), NewNames(rm, cm);
    assert forall n :: n in disks <==> Declares(rs, n) && !Declares(cs, n);
    assert forall n :: n in mounts <==> Declares(rm, n) && !Declares(cm, n);
    hide NewNames;
    if MountsAreNewDisks(cs, rs, cm, rm) {
      forall n ensures n in disks <==> n in mounts {
        if n in disks {
          var s :| s in rs && s != [] && s[0] == n;
        }
        if n in mounts {
          var s :| s in rm && s != [] && s[0] == n;
        }
      }
    }
    if disks == mounts {
      forall s | s in rs && s != [] && !Declares(cs, s[0]) ensures s[0] in disks {
        assert Declares(rs, s[0]);
      }
      forall s | s in rm && s != [] && !Declares(cm, s[0]) ensures s[0] in mounts {
        assert Declares(rm, s[0]);
      }
    }
  }

  lemma MountedInWords(rs: seq<Spec>, rm: seq<Spec>)
    ensures Names(rs) * Names(rm) - {"root", "template"} != {} <==> MountsADisk(rs, rm)
  {
    DeclaredNames(rs);
    DeclaredNames(rm);
    hide Names;
    var both := Names(rs) * Names(rm) - {"root", "template"};
    if MountsADisk(rs, rm) {
      var s :| s in rs && s != [] && s[0] != "root" && s[0] != "template" && Declares(rm, s[0]);
      assert Declares(rs, s[0]) && s[0] in both;
    }
    if both != {} {
      var n :| n in both;
      var s :| s in rs && s != [] && s[0] == n;
    }
  }

  /** Disk settings after a merge: the requested ones, behind those of the saved ones whose disks
      the request does not mention. */
  lemma SettingsInWords(cached: seq<Spec>, requested: seq<Spec>) returns (kept: seq<Spec>)
    requires HasUniqueNames(cached) && HasUniqueNames(requested)
    ensures Replaced(cached, requested) == kept + requested
    ensures forall s :: s in kept <==> s in cached && !Declares(requested, s[0])
  {
    kept := Select(cached, Names(cached) - Names(requested));
    Selected(cached, Names(cached) - Names(requested));
    DeclaredNames(cached);
    DeclaredNames(requested);
    forall s | s in cached ensures s != [] && Declares(cached, s[0]) {
      assert s != [];
    }
    hide Names, HasUniqueNames, Declares;
  }

  // ---------------------------------------------------------------------------
  // Settings
  // ---------------------------------------------------------------------------

  /** The settings that a saved guest cannot change through setup at all. */
  predicate IsFixed(f: Field) {
    match f
    case MachineType | StorageCaches | ContainerBase | VmImage | VmImageStorage => true
    case _ => false
  }

  predicate IsDiskSetting(f: Field) {
    f == VmDiskDiscard || f == VmDiskSsd || f == VmDiskBackup || f == VmDiskSettings
  }

  /** Those that setup changes on a virtual machine. */
  predicate IsTuned(f: Field) {
    match f
    case ContainerMemory | VmBalloonMin | VmBalloonShares | AllowMemoryOvercommit | ContainerCores | VmCpuType => true
    case VmDiskDiscard | VmDiskSsd | VmDiskBackup | VmDiskSettings => true
    case _ => false
  }

  predicate IsOfLife(f: Field) {
    || f == GuestAutostart || f == GuestStartOrder || f == GuestStartDelay || f == GuestShutdownTimeout
    || f == GuestProtection
  }

  /** `_PROVISIONING_CHANGE_ARGS` */
  predicate IsOfShape(f: Field) {
    IsFixed(f) || IsTuned(f) || IsOfLife(f) || f == HostedBridge || f == ContainerStorage || f == StorageMounts
  }

  lemma LifeInFull(f: Field)
    ensures IsLifecycle(f) <==> IsOfLife(f)
  {}

  lemma DiskSettingInFull(f: Field)
    ensures IsDiskPolicy(f) <==> IsDiskSetting(f)
  {}

  lemma TunedInFull(f: Field)
    ensures IsTunable(f) <==> IsTuned(f)
  {}

  lemma ShapeInFull(f: Field)
    ensures IsShape(f) <==> IsOfShape(f)
  {
    LifeInFull(f);
    TunedInFull(f);
    hide IsLifecycle, IsTunable, IsOfLife, IsTuned;
  }

  /** No setting is in two of the groups. */
  lemma GroupsAreApart(f: Field)
    ensures IsFixed(f) ==> !IsTuned(f) && !IsOfLife(f)
    ensures IsOfLife(f) ==> !IsTuned(f)
    ensures f == ContainerStorage || f == StorageMounts || f == HostedBridge ==>
              !IsFixed(f) && !IsOfLife(f) && !IsTuned(f)
  {}

  predicate IsGiven(args: Values, f: Field) { f in args && args[f] != Unset }

  function Setting(v: Values, f: Field): Value { if f in v then v[f] else Unset }

  predicate Differs(v: Values, c: Values, f: Field) { Setting(v, f) != Setting(c, f) }

  /** Which changes of a saved guest are refused. Of a container: every change but those of its
      lifecycle. Of a virtual machine: another kind of guest, image or cache, another bridge
      unless the provider is bound anew, and another layout unless it only adds disks, or has the
      same disks. */
  lemma RefusedInFull(v: Values, c: Values, args: Values, rebind: bool, additive: bool, f: Field)
    ensures f in UnsupportedChanges(v, c, args, rebind, additive)
       <==> && IsGiven(args, f) && Differs(v, c, f)
            && if Setting(c, MachineType) == Atom(1)
               then IsFixed(f) || (f == HostedBridge && !rebind) || (f == StorageMounts && !additive)
                    || (f == ContainerStorage && !additive && !HasSameDisks(v, c))
               else IsOfShape(f) && !IsOfLife(f)
  {
    ChangeInFull(v, c, args, f);
    ReconcilableInFull(v, c, f, rebind, additive);
    LifeInFull(f);
    GroupsAreApart(f);
    hide IsChange, IsReconcilable, HasSameDisks, IsLifecycle, IsFixed, IsTuned, IsOfLife, IsGiven, Differs;
  }

  lemma ChangeInFull(v: Values, c: Values, args: Values, f: Field)
    ensures IsChange(v, c, args, f) <==> IsOfShape(f) && IsGiven(args, f) && Differs(v, c, f)
  {
    ShapeInFull(f);
    hide IsShape, IsOfShape;
  }

  lemma ReconcilableInFull(v: Values, c: Values, f: Field, rebind: bool, additive: bool)
    ensures IsReconcilable(v, c, f, rebind, additive)
       <==> || IsTuned(f) || (f == StorageMounts && additive) || (f == HostedBridge && rebind)
            || (f == ContainerStorage && (additive || HasSameDisks(v, c)))
  {
    TunedInFull(f);
    SameDisksInWords(v, c);
    hide CanBeVerified, HasSameDisks, IsTunable, IsTuned;
  }

  predicate IsDisk(s: Spec) { s == [] || s[0] != "template" }

  /** Each declaration but the template has a name, and a size, and its name does not come again. */
  predicate AreWhole(specs: seq<Spec>) {
    specs == []
    || (AreWhole(specs[1..])
        && (IsDisk(specs[0]) ==>
              |specs[0]| >= 2 && forall s :: s in specs[1..] && s != [] ==> s[0] != specs[0][0]))
  }

  predicate AreSized(specs: seq<Spec>) {
    AreWhole(specs) && exists s :: s in specs && IsDisk(s)
  }

  predicate HaveSameDisks(a: seq<Spec>, b: seq<Spec>) {
    && (forall s :: s in a && s != [] && s[0] != "template" ==> Declares(b, s[0]))
    && (forall s :: s in b && s != [] && s[0] != "template" ==> Declares(a, s[0]))
  }

  predicate HasSameDisks(v: Values, c: Values) {
    var a, b := SpecsIn(v, ContainerStorage), SpecsIn(c, ContainerStorage);
    AreSized(a) && AreSized(b) && HaveSameDisks(a, b)
  }

  lemma {:induction false} TemplateIsApart(specs: seq<Spec>)
    ensures forall s :: s in WithoutTemplate(specs) <==> s in specs && IsDisk(s)
  {
    if specs != [] {
      TemplateIsApart(specs[1..]);
      assert specs == [specs[0]] + specs[1..];
    }
  }

  lemma {:induction false} WholeInWords(specs: seq<Spec>)
    ensures HasUniqueNames(WithoutTemplate(specs)) && ArePlaced(WithoutTemplate(specs)) <==> AreWhole(specs)
  {
    if specs != [] {
      var first, rest := specs[0], WithoutTemplate(specs[1..]);
      WholeInWords(specs[1..]);
      TemplateIsApart(specs[1..]);
      if IsDisk(first) {
        assert WithoutTemplate(specs) == [first] + rest;
        OneMore(first, rest);
        if first != [] {
          assert forall s :: s in specs[1..] && s != [] && s[0] == first[0] ==> IsDisk(s);
        }
      } else {
        assert WithoutTemplate(specs) == rest;
      }
    }
  }

  predicate IsNew(name: string, specs: seq<Spec>) {
    forall s :: s in specs && s != [] ==> s[0] != name
  }

  lemma OneMore(first: Spec, rest: seq<Spec>)
    ensures HasUniqueNames([first] + rest) && ArePlaced([first] + rest)
       <==> |first| >= 2 && HasUniqueNames(rest) && ArePlaced(rest) && IsNew(first[0], rest)
  {
    var all := [first] + rest;
    assert forall i :: 0 <= i < |rest| ==> all[i + 1] == rest[i];
    if HasUniqueNames(all) && ArePlaced(all) {
      assert all[0] in all;
      forall s | s in rest && s != [] ensures s[0] != first[0] {
        var i :| 0 <= i < |rest| && rest[i] == s;
        assert all[0][0] != all[i + 1][0];
      }
      assert forall s :: s in rest ==> s in all;
    }
    if |first| >= 2 && HasUniqueNames(rest) && ArePlaced(rest) && IsNew(first[0], rest) {
      forall i, j | 0 <= i < j < |all| ensures all[i] != [] && all[j] != [] && all[i][0] != all[j][0] {
        assert all[j] == rest[j - 1] && rest[j - 1] in rest;
        assert i > 0 ==> all[i] == rest[i - 1];
      }
      forall i | 0 <= i < |all| ensures all[i] != [] {
        assert i > 0 ==> all[i] == rest[i - 1];
      }
    }
  }

  lemma SameDisksInWords(v: Values, c: Values)
    ensures CanBeVerified(v, c) <==> HasSameDisks(v, c)
  {
    var a, b := SpecsIn(v, ContainerStorage), SpecsIn(c, ContainerStorage);
    DisksInWords(a);
    DisksInWords(b);
    hide DeclaredDisks, AreSized, SpecsIn;
    if AreSized(a) && AreSized(b) {
      var x, y := DeclaredDisks(a).value, DeclaredDisks(b).value;
      if HaveSameDisks(a, b) {
        forall n ensures n in x <==> n in y {}
      }
      if x == y {
        forall s | s in a && s != [] && s[0] != "template" ensures Declares(b, s[0]) {
          assert Declares(a, s[0]) && s[0] in x;
        }
        forall s | s in b && s != [] && s[0] != "template" ensures Declares(a, s[0]) {
          assert Declares(b, s[0]) && s[0] in y;
        }
      }
    }
  }

  lemma DisksInWords(specs: seq<Spec>)
    ensures DeclaredDisks(specs).Some? <==> AreSized(specs)
    ensures AreSized(specs) ==> forall n :: n in DeclaredDisks(specs).value <==> n != "template" && Declares(specs, n)
  {
    var disks := WithoutTemplate(specs);
    WholeInWords(specs);
    TemplateIsApart(specs);
    DeclaredNames(disks);
    hide WithoutTemplate, HasUniqueNames, Names, AreWhole;
    if disks != [] {
      assert disks[0] in disks;
    }
    if AreSized(specs) {
      forall n ensures Declares(disks, n) <==> n != "template" && Declares(specs, n) {
        if Declares(specs, n) && n != "template" {
          var s :| s in specs && s != [] && s[0] == n;
          assert s in disks;
        }
      }
    }
  }

  predicate IsGivenTrue(v: Value) { v != Unset && v != Atom(0) && v != Specs([]) }

  /** The name of the guest: its host name, or one made of its friendly name. */
  function NameIn(c: Values, build: Value -> Value): Value {
    if IsGivenTrue(Setting(c, SystemHostname)) then Setting(c, SystemHostname) else build(Setting(c, FriendlyName))
  }

  /** The name that the command asks for. */
  function NameAsked(args: Values, c: Values, build: Value -> Value): Value {
    var hostname := if IsGiven(args, SystemHostname) then args[SystemHostname] else Setting(c, SystemHostname);
    var friendly := if IsGiven(args, FriendlyName) then args[FriendlyName] else Setting(c, FriendlyName);
    if IsGivenTrue(hostname) then hostname else build(friendly)
  }

  /** When the provider is asked, in full. */
  lemma AskedInFull(v: Values, c: Values, args: Values, rebind: bool, build: Value -> Value)
    ensures MustAsk(v, c, args, rebind, build)
       <==> || rebind
            || (exists f :: IsOfShape(f) && IsGiven(args, f) && Differs(v, c, f))
            || IsGivenTrue(Setting(args, VerifyProvider))
            || (exists f :: (IsOfLife(f) || IsDiskSetting(f)) && IsGiven(args, f))
            || (Setting(v, MachineType) == Atom(1) && NameAsked(args, c, build) != NameIn(c, build))
  {
    ChangesInFull(v, c, args);
    ExplicitInFull(args);
    NamesInFull(c, args, build);
    hide ChangesRequested, IsOfShape, IsLifecycle, IsDiskPolicy, IsOfLife, IsDiskSetting, Desired, GuestName, NameAsked,
         NameIn;
  }

  lemma ChangesInFull(v: Values, c: Values, args: Values)
    ensures ChangesRequested(v, c, args) <==> exists f :: IsOfShape(f) && IsGiven(args, f) && Differs(v, c, f)
  {
    forall f ensures IsChange(v, c, args, f) <==> IsOfShape(f) && IsGiven(args, f) && Differs(v, c, f) {
      ChangeInFull(v, c, args, f);
    }
    hide IsChange, IsOfShape, IsGiven, Differs;
  }

  lemma ExplicitInFull(args: Values)
    ensures (exists f :: (IsDiskPolicy(f) || IsLifecycle(f)) && IsExplicit(args, f))
       <==> exists f :: (IsOfLife(f) || IsDiskSetting(f)) && IsGiven(args, f)
  {
    forall f ensures (IsLifecycle(f) <==> IsOfLife(f)) && (IsDiskPolicy(f) <==> IsDiskSetting(f)) {
      LifeInFull(f);
      DiskSettingInFull(f);
    }
    hide IsLifecycle, IsDiskPolicy, IsOfLife, IsDiskSetting;
    assert forall f :: IsExplicit(args, f) <==> IsGiven(args, f);
  }

  lemma NamesInFull(c: Values, args: Values, build: Value -> Value)
    ensures GuestName(Desired(args, c, SystemHostname), Desired(args, c, FriendlyName), build)
         == NameAsked(args, c, build)
    ensures GuestName(Get(c, SystemHostname), Get(c, FriendlyName), build) == NameIn(c, build)
  {}

  // Where every setting comes from when saved metadata are read.

  lemma NamesComeFrom(v: Values, c: Values, args: Values, rebind: bool)
    ensures Hydrated(v, c, args, rebind, SystemHostname)
         == if IsGiven(args, SystemHostname) then args[SystemHostname] else Setting(c, SystemHostname)
    ensures Hydrated(v, c, args, rebind, FriendlyName)
         == if IsGiven(args, FriendlyName) then args[FriendlyName] else Setting(c, FriendlyName)
    ensures Hydrated(v, c, args, rebind, VerifyProvider) == Setting(v, VerifyProvider)
  {}

  lemma BindingComesFrom(v: Values, c: Values, args: Values, rebind: bool)
    ensures Hydrated(v, c, args, rebind, HostedNode)
         == if rebind || IsGiven(args, HostedNode) then Setting(v, HostedNode) else Setting(c, HostedNode)
    ensures Hydrated(v, c, args, rebind, HostedBridge)
         == if rebind || IsGiven(args, HostedBridge) then Setting(v, HostedBridge) else Setting(c, HostedBridge)
    ensures Hydrated(v, c, args, rebind, HostedUser)
         == if rebind || HostedUser in args then Setting(v, HostedUser) else Setting(c, HostedUser)
    ensures Hydrated(v, c, args, rebind, HostedKey)
         == if rebind || HostedKey in args then Setting(v, HostedKey) else Setting(c, HostedKey)
  {}

  lemma ShapeComesFrom(v: Values, c: Values, args: Values, rebind: bool, f: Field)
    requires IsOfShape(f) && f != HostedBridge
    ensures Hydrated(v, c, args, rebind, f) == if IsGiven(args, f) then Setting(v, f) else Setting(c, f)
  {
    ShapeInFull(f);
    ShapeIsApart(f);
    hide IsShape, IsOfShape, IsSwapKept, IsNetwork, IsBinding;
  }

  lemma ShapeIsApart(f: Field)
    requires IsOfShape(f) && f != HostedBridge
    ensures !IsBinding(f) && f != SystemHostname && f != FriendlyName
  {}

  predicate IsOfNetwork(f: Field) {
    || f == SshKey || f == StaticIpv4 || f == StaticIpv6 || f == Gateway4 || f == Gateway6 || f == Dns
    || f == Interface
  }

  lemma NetworkIsApart(args: Values, f: Field)
    requires IsOfNetwork(f)
    ensures !IsCached(f) && !IsSwapKept(args, f) && (f == SshKey || IsNetwork(f))
    ensures f != SystemHostname && f != FriendlyName
  {
    ShapeInFull(f);
    NetworkIsNoShape(f);
    hide IsShape, IsOfShape;
  }

  lemma NetworkIsNoShape(f: Field)
    requires IsOfNetwork(f)
    ensures !IsOfShape(f)
  {}

  lemma NetworkComesFrom(v: Values, c: Values, args: Values, rebind: bool, f: Field)
    requires IsOfNetwork(f)
    ensures Hydrated(v, c, args, rebind, f) == if Setting(v, f) == Unset then Setting(c, f) else Setting(v, f)
  {
    NetworkIsApart(args, f);
    hide IsCached, IsSwapKept, IsNetwork, IsOfNetwork;
  }

  predicate IsOfSwap(f: Field) {
    || f == SwapMode || f == SwapFiles || f == SwapDevices || f == SwapZram || f == SwapResume
    || f == Swappiness || f == Zswap || f == ZswapMaxPool
  }

  lemma SwapIsApart(f: Field)
    requires IsOfSwap(f)
    ensures !IsCached(f) && f != SshKey && !IsNetwork(f) && f != SystemHostname && f != FriendlyName
  {
    ShapeInFull(f);
    SwapIsNoShape(f);
    hide IsShape, IsOfShape;
  }

  lemma SwapIsNoShape(f: Field)
    requires IsOfSwap(f)
    ensures !IsOfShape(f)
  {}

  /** When the command decides a swap setting: it gives the setting, or, for the devices, a mode,
      or, for the others, turns off swap; the pool also goes with Zswap. */
  predicate IsSwapDecided(args: Values, f: Field) {
    || IsGiven(args, f)
    || ((f == SwapFiles || f == SwapDevices || f == SwapZram || f == SwapResume) && IsGiven(args, SwapMode))
    || ((f == Swappiness || f == Zswap || f == ZswapMaxPool) && Setting(args, SwapMode) == Atom(2))
    || (f == ZswapMaxPool && Setting(args, Zswap) == Atom(0))
  }

  lemma SwapDecided(args: Values, f: Field)
    requires IsOfSwap(f)
    ensures IsSwapKept(args, f) <==> !IsSwapDecided(args, f)
  {}

  lemma SwapComesFrom(v: Values, c: Values, args: Values, rebind: bool, f: Field)
    requires IsOfSwap(f)
    ensures Hydrated(v, c, args, rebind, f) == if IsSwapDecided(args, f) then Setting(v, f) else Setting(c, f)
  {
    SwapIsApart(f);
    SwapDecided(args, f);
    hide IsCached, IsSwapKept, IsNetwork, IsOfSwap, IsSwapDecided;
  }
}
