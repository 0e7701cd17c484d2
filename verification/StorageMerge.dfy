/** basaltwater.py: how setup merges a request into the saved layout of a managed guest, and
    when it trusts saved metadata instead of asking the provider. */
module StorageMerge {
  import opened Common

  // ---------------------------------------------------------------------------
  // Named declarations
  // ---------------------------------------------------------------------------

  /** One declaration of the command line: a name and its fields. */
  type Spec = seq<string>

  predicate HasUniqueNames(specs: seq<Spec>) {
    && (forall i :: 0 <= i < |specs| ==> specs[i] != [])
    && forall i, j :: 0 <= i < j < |specs| ==> specs[i][0] != specs[j][0]
  }

  function Names(specs: seq<Spec>): set<string> {
    set s | s in specs && s != [] :: s[0]
  }

  /** `_named_specs` */
  method NamedSpecs(specs: seq<Spec>) returns (r: Option<map<string, Spec>>)
    ensures r.Some? <==> HasUniqueNames(specs)
    ensures r.Some? ==> IsDictionary(r.value, specs)
  {
    var result: map<string, Spec> := map[];
    for i := 0 to |specs|
      invariant HasUniqueNames(specs[..i])
      invariant result.Keys == Names(specs[..i])
      invariant forall s :: s in specs[..i] ==> s[0] in result && result[s[0]] == s
    {
      var spec := specs[i];
      assert specs[..i + 1] == specs[..i] + [spec];
      if spec == [] || spec[0] in result {
        return None;
      }
      result := result[spec[0] := spec];
    }
    return Some(result);
  }

  /** The declarations with one of the names, in order. */
  function Select(specs: seq<Spec>, names: set<string>): seq<Spec> {
    if specs == [] then []
    else (if specs[0] != [] && specs[0][0] in names then [specs[0]] else []) + Select(specs[1..], names)
  }

  lemma {:induction false} Selected(specs: seq<Spec>, names: set<string>)
    ensures forall s :: s in Select(specs, names) <==> s in specs && s != [] && s[0] in names
  {
    if specs != [] {
      Selected(specs[1..], names);
      assert specs == [specs[0]] + specs[1..];
    }
  }

  lemma {:induction false} SelectedIsUnique(specs: seq<Spec>, names: set<string>)
    requires HasUniqueNames(specs)
    ensures HasUniqueNames(Select(specs, names)) && Names(Select(specs, names)) == Names(specs) * names
  {
    if specs != [] {
      var first, rest := [specs[0]], specs[1..];
      SelectedIsUnique(rest, names);
      NamesSplit(specs);
      assert Names(first) == {specs[0][0]};
      if specs[0][0] in names {
        UniqueTogether(first, Select(rest, names));
      } else {
        assert Select(specs, names) == Select(rest, names);
      }
    }
  }

  lemma NamesSplit(specs: seq<Spec>)
    requires HasUniqueNames(specs) && specs != []
    ensures Names(specs) == {specs[0][0]} + Names(specs[1..]) && specs[0][0] !in Names(specs[1..])
  {
    assert specs == [specs[0]] + specs[1..];
  }

  lemma UniqueTogether(a: seq<Spec>, b: seq<Spec>)
    requires HasUniqueNames(a) && HasUniqueNames(b) && Names(a) !! Names(b)
    ensures HasUniqueNames(a + b) && Names(a + b) == Names(a) + Names(b)
  {
    forall i, j | 0 <= i < |a| && 0 <= j < |b| ensures a[i][0] != b[j][0] {
      assert a[i][0] in Names(a) && b[j][0] in Names(b);
    }
  }

  /** `_canonical_storage_mount`: name, place, file system, initial content. */
  function CanonicalMount(s: Spec): (string, string, string, string)
    requires |s| >= 2
  {
    (s[0], s[1], if |s| >= 3 then s[2] else "ext4", if |s| >= 4 then s[3] else "empty")
  }

  // ---------------------------------------------------------------------------
  // Settings
  // ---------------------------------------------------------------------------

  datatype Field =
    | GuestAutostart | GuestStartOrder | GuestStartDelay | GuestShutdownTimeout | GuestProtection
    | MachineType | HostedNode | HostedUser | HostedKey | HostedBridge
    | ContainerMemory | VmBalloonMin | VmBalloonShares | AllowMemoryOvercommit
    | ContainerStorage | StorageMounts | StorageCaches | ContainerCores
    | VmCpuType | VmDiskDiscard | VmDiskSsd | VmDiskBackup | VmDiskSettings
    | ContainerBase | VmImage | VmImageStorage
    | SystemHostname | FriendlyName | SshKey
    | StaticIpv4 | StaticIpv6 | Gateway4 | Gateway6 | Dns | Interface
    | SwapMode | SwapFiles | SwapDevices | SwapZram | Swappiness | Zswap | ZswapMaxPool | SwapResume
    | VerifyProvider

  predicate IsLifecycle(f: Field) {
    match f
    case GuestAutostart | GuestStartOrder | GuestStartDelay | GuestShutdownTimeout | GuestProtection => true
    case _ => false
  }

  predicate IsDiskPolicy(f: Field) {
    match f
    case VmDiskDiscard | VmDiskSsd | VmDiskBackup | VmDiskSettings => true
    case _ => false
  }

  /** `_RECONCILABLE_VM_PROVISIONING_CHANGES` */
  predicate IsTunable(f: Field) {
    match f
    case ContainerMemory | VmBalloonMin | VmBalloonShares | AllowMemoryOvercommit | ContainerCores | VmCpuType => true
    case _ => IsDiskPolicy(f)
  }

  /** `_PROVISIONING_CHANGE_ARGS`: the shape of the guest. */
  predicate IsShape(f: Field) {
    match f
    case MachineType | HostedBridge | ContainerStorage | StorageMounts | StorageCaches => true
    case ContainerBase | VmImage | VmImageStorage => true
    case _ => IsLifecycle(f) || IsTunable(f)
  }

  predicate IsBinding(f: Field) {
    match f
    case HostedNode | HostedUser | HostedKey | HostedBridge => true
    case _ => false
  }

  /** `_CACHED_PROVISIONING_FIELDS` */
  predicate IsCached(f: Field) { IsShape(f) || IsBinding(f) }

  predicate IsNetwork(f: Field) {
    match f
    case StaticIpv4 | StaticIpv6 | Gateway4 | Gateway6 | Dns | Interface => true
    case _ => false
  }

  /** A setting: None, a list of declarations, or any other value. */
  datatype Value = Unset | Specs(specs: seq<Spec>) | Atom(id: int)

  /** A configuration or the arguments of a command; what is not there is None. */
  type Values = map<Field, Value>

  const VM := Atom(1)
  const FALSE := Atom(0)
  const NO_SWAP := Atom(2)

  function Get(v: Values, f: Field): Value { if f in v then v[f] else Unset }

  predicate IsExplicit(args: Values, f: Field) { Get(args, f) != Unset }

  function SpecsIn(v: Values, f: Field): seq<Spec> {
    if Get(v, f).Specs? then Get(v, f).specs else []
  }

  class Config {
    var values: Values

    constructor (values: Values)
      ensures this.values == values
    {
      this.values := values;
    }

    method Set(f: Field, value: Value)
      modifies this
      ensures values == old(values)[f := value]
    {
      values := values[f := value];
    }
  }

  // ---------------------------------------------------------------------------
  // The additive merge
  // ---------------------------------------------------------------------------

  predicate AgreeWhereBoth(requested: seq<Spec>, cached: seq<Spec>) {
    forall s, t :: s in requested && t in cached && s != [] && t != [] && s[0] == t[0] ==> s == t
  }

  predicate MountsAgreeWhereBoth(requested: seq<Spec>, cached: seq<Spec>) {
    forall s, t :: s in requested && t in cached && |s| >= 2 && |t| >= 2 && s[0] == t[0] ==>
      CanonicalMount(s) == CanonicalMount(t)
  }

  function NewNames(requested: seq<Spec>, cached: seq<Spec>): set<string> { Names(requested) - Names(cached) }

  predicate ArePlaced(mounts: seq<Spec>) {
    forall s :: s in mounts ==> |s| >= 2
  }

  /** New disks have a name of their own, a storage and a size. */
  predicate AreNewDisks(requested: seq<Spec>, added: set<string>) {
    forall s :: s in requested && s != [] && s[0] in added ==> s[0] != "root" && s[0] != "template" && |s| == 3
  }

  predicate AreNewMounts(requested: seq<Spec>, added: set<string>) {
    forall s :: s in requested && |s| >= 2 && s[0] in added ==>
      CanonicalMount(s).1 != "/home" && CanonicalMount(s).3 == "empty"
  }

  /** A request that only adds mounted, empty disks to a saved layout, or repeats part of it. */
  predicate IsAdditive(cs: seq<Spec>, rs: seq<Spec>, cm: seq<Spec>, rm: seq<Spec>) {
    var added := NewNames(rs, cs);
    && cs != [] && HasUniqueNames(cs) && HasUniqueNames(rs) && HasUniqueNames(cm) && HasUniqueNames(rm)
    && ArePlaced(cm) && ArePlaced(rm) && "root" in Names(cs)
    && AgreeWhereBoth(rs, cs) && AreNewDisks(rs, added)
    && MountsAgreeWhereBoth(rm, cm) && NewNames(rm, cm) == added && AreNewMounts(rm, added)
    && Names(rs) * Names(rm) - {"root", "template"} != {}
  }

  predicate CanMerge(v: Values, cached: Option<Values>, args: Values, rebind: bool) {
    && cached.Some? && !rebind
    && Get(v, MachineType) == VM && Get(cached.value, MachineType) == VM
    && IsExplicit(args, ContainerStorage) && IsExplicit(args, StorageMounts)
    && IsAdditive(SpecsIn(cached.value, ContainerStorage), SpecsIn(v, ContainerStorage),
                  SpecsIn(cached.value, StorageMounts), SpecsIn(v, StorageMounts))
    && (IsExplicit(args, VmDiskSettings) ==>
          HasUniqueNames(SpecsIn(cached.value, VmDiskSettings)) && HasUniqueNames(SpecsIn(v, VmDiskSettings)))
  }

  /** The saved declarations, then the new ones. */
  function Extended(cached: seq<Spec>, requested: seq<Spec>): seq<Spec> {
    cached + Select(requested, NewNames(requested, cached))
  }

  /** The saved settings that are not replaced, then the requested ones. */
  function Replaced(cached: seq<Spec>, requested: seq<Spec>): seq<Spec> {
    Select(cached, Names(cached) - Names(requested)) + requested
  }

  function ListOrNone(specs: seq<Spec>): Value { if specs == [] then Unset else Specs(specs) }

  function WithLayout(v: Values, storage: Value, mounts: Value): Values {
    v[ContainerStorage := storage][StorageMounts := mounts]
  }

  function Merged(v: Values, cached: Values, args: Values): Values {
    var layout := WithLayout(v, Specs(Extended(SpecsIn(cached, ContainerStorage), SpecsIn(v, ContainerStorage))),
                             Specs(Extended(SpecsIn(cached, StorageMounts), SpecsIn(v, StorageMounts))));
    if IsExplicit(args, VmDiskSettings) then
      layout[VmDiskSettings := ListOrNone(Replaced(SpecsIn(cached, VmDiskSettings), SpecsIn(v, VmDiskSettings)))]
    else layout
  }

  /** A dictionary of declarations, as `_named_specs` makes it. */
  predicate IsDictionary(m: map<string, Spec>, specs: seq<Spec>) {
    HasUniqueNames(specs) && m.Keys == Names(specs) && forall s :: s in specs ==> m[s[0]] == s
  }

  lemma EntryIsDeclared(m: map<string, Spec>, specs: seq<Spec>, name: string)
    requires IsDictionary(m, specs) && name in m
    ensures m[name] in specs && m[name] != [] && m[name][0] == name
  {
    assert name in Names(specs);
    var s :| s in specs && s != [] && s[0] == name;
  }

  lemma EntriesAreDeclared(m: map<string, Spec>, specs: seq<Spec>)
    requires IsDictionary(m, specs)
    ensures forall n :: n in m ==> m[n] in specs && m[n] != [] && m[n][0] == n
    ensures forall s :: s in specs ==> s != [] && s[0] in m && m[s[0]] == s
    ensures m == map[] <==> specs == []
  {
    forall n | n in m ensures m[n] in specs && m[n] != [] && m[n][0] == n {
      EntryIsDeclared(m, specs, n);
    }
    if specs != [] {
      assert specs[0] in specs;
    }
  }

  predicate DictionariesAgree(requested: map<string, Spec>, cached: map<string, Spec>) {
    forall n :: n in cached.Keys * requested.Keys ==> requested[n] == cached[n]
  }

  predicate DictionariesMountAlike(requested: map<string, Spec>, cached: map<string, Spec>) {
    forall n :: n in cached.Keys * requested.Keys ==>
      |requested[n]| >= 2 && |cached[n]| >= 2 ==> CanonicalMount(requested[n]) == CanonicalMount(cached[n])
  }

  predicate AddsDisks(requested: map<string, Spec>, added: set<string>) {
    forall n :: n in added && n in requested ==> n != "root" && n != "template" && |requested[n]| == 3
  }

  predicate AddsMounts(requested: map<string, Spec>, added: set<string>) {
    forall n :: n in added && n in requested && |requested[n]| >= 2 ==>
      CanonicalMount(requested[n]).1 != "/home" && CanonicalMount(requested[n]).3 == "empty"
  }

  predicate IsPlaced(mounts: map<string, Spec>) {
    forall n :: n in mounts ==> |mounts[n]| >= 2
  }

  lemma AgreementDecides(rs: seq<Spec>, cs: seq<Spec>, drs: map<string, Spec>, dcs: map<string, Spec>)
    requires IsDictionary(drs, rs) && IsDictionary(dcs, cs)
    ensures DictionariesAgree(drs, dcs) <==> AgreeWhereBoth(rs, cs)
    ensures DictionariesMountAlike(drs, dcs) <==> MountsAgreeWhereBoth(rs, cs)
    ensures drs.Keys - dcs.Keys == NewNames(rs, cs)
  {
    EntriesAreDeclared(drs, rs);
    EntriesAreDeclared(dcs, cs);
    hide Names, CanonicalMount, HasUniqueNames;
  }

  lemma AdditionDecides(specs: seq<Spec>, m: map<string, Spec>, added: set<string>)
    requires IsDictionary(m, specs)
    ensures AddsDisks(m, added) <==> AreNewDisks(specs, added)
    ensures AddsMounts(m, added) <==> AreNewMounts(specs, added)
    ensures IsPlaced(m) <==> ArePlaced(specs)
    ensures m.Keys == Names(specs) && (m == map[] <==> specs == [])
  {
    EntriesAreDeclared(m, specs);
    hide Names, CanonicalMount, HasUniqueNames;
  }

  /** `_merge_additive_vm_storage` */
  method MergeAdditiveStorage(config: Config, cached: Option<Values>, args: Values, rebind: bool)
    returns (r: Option<set<string>>)
    modifies config
    ensures r.Some? <==> CanMerge(old(config.values), cached, args, rebind)
    ensures r.None? ==> config.values == old(config.values)
    ensures r.Some? ==>
              && r.value == NewNames(SpecsIn(old(config.values), ContainerStorage),
                                     SpecsIn(cached.value, ContainerStorage))
              && config.values == Merged(old(config.values), cached.value, args)
  {
    var v := config.values;
    if cached.None? || rebind || Get(v, MachineType) != VM || Get(cached.value, MachineType) != VM
       || !IsExplicit(args, ContainerStorage) || !IsExplicit(args, StorageMounts) {
      return None;
    }
    var c := cached.value;
    hide AgreeWhereBoth, MountsAgreeWhereBoth, AreNewDisks, AreNewMounts, ArePlaced, DictionariesAgree,
         DictionariesMountAlike, AddsDisks, AddsMounts, IsPlaced, HasUniqueNames, NewNames, Names;
    var cachedStorage := NamedSpecs(SpecsIn(c, ContainerStorage));
    var requestedStorage := NamedSpecs(SpecsIn(v, ContainerStorage));
    var cachedMounts := NamedSpecs(SpecsIn(c, StorageMounts));
    var requestedMounts := NamedSpecs(SpecsIn(v, StorageMounts));
    if cachedStorage.None? || requestedStorage.None? || cachedMounts.None? || requestedMounts.None? {
      return None;
    }
    var cs, rs, cm, rm := cachedStorage.value, requestedStorage.value, cachedMounts.value, requestedMounts.value;
    var added := rs.Keys - cs.Keys;
    AgreementDecides(SpecsIn(v, ContainerStorage), SpecsIn(c, ContainerStorage), rs, cs);
    AgreementDecides(SpecsIn(v, StorageMounts), SpecsIn(c, StorageMounts), rm, cm);
    AdditionDecides(SpecsIn(c, ContainerStorage), cs, added);
    AdditionDecides(SpecsIn(v, ContainerStorage), rs, added);
    AdditionDecides(SpecsIn(c, StorageMounts), cm, added);
    AdditionDecides(SpecsIn(v, StorageMounts), rm, added);
    if cs == map[] || !IsPlaced(cm) || !IsPlaced(rm) || "root" !in cs {
      return None;
    }
    if !DictionariesAgree(rs, cs) || !AddsDisks(rs, added) {
      return None;
    }
    if !DictionariesMountAlike(rm, cm) || rm.Keys - cm.Keys != added || !AddsMounts(rm, added) {
      return None;
    }
    if rs.Keys * rm.Keys - {"root", "template"} == {} {
      return None;
    }
    if IsExplicit(args, VmDiskSettings) {
      var cachedSettings := NamedSpecs(SpecsIn(c, VmDiskSettings));
      var requestedSettings := NamedSpecs(SpecsIn(v, VmDiskSettings));
      if cachedSettings.None? || requestedSettings.None? {
        return None;
      }
    }
    config.Set(ContainerStorage, Specs(SpecsIn(c, ContainerStorage) + Select(SpecsIn(v, ContainerStorage), added)));
    config.Set(StorageMounts, Specs(SpecsIn(c, StorageMounts) + Select(SpecsIn(v, StorageMounts), added)));
    if IsExplicit(args, VmDiskSettings) {
      config.Set(VmDiskSettings, ListOrNone(Replaced(SpecsIn(c, VmDiskSettings), SpecsIn(v, VmDiskSettings))));
    }
    return Some(added);
  }

  // ---------------------------------------------------------------------------
  // What a merge means
  // ---------------------------------------------------------------------------

  /** An extended list keeps the saved one in front, names nothing twice, and has every
      requested name. */
  lemma ExtendedFacts(cached: seq<Spec>, requested: seq<Spec>)
    requires HasUniqueNames(cached) && HasUniqueNames(requested)
    ensures cached <= Extended(cached, requested) && HasUniqueNames(Extended(cached, requested))
    ensures Names(Extended(cached, requested)) == Names(cached) + NewNames(requested, cached)
    ensures NewNames(requested, Extended(cached, requested)) == {}
    ensures forall s :: s in Extended(cached, requested) <==>
              s in cached || (s in requested && s[0] in NewNames(requested, cached))
  {
    var added := NewNames(requested, cached);
    SelectedIsUnique(requested, added);
    Selected(requested, added);
    UniqueTogether(cached, Select(requested, added));
  }

  /** Every requested mount is in the list, as far as its meaning goes. */
  predicate HasMounts(mounts: seq<Spec>, requested: seq<Spec>) {
    forall s :: s in requested ==>
      |s| >= 2 && exists t :: t in mounts && |t| >= 2 && CanonicalMount(t) == CanonicalMount(s)
  }

  lemma ExtendedHasDisks(cached: seq<Spec>, requested: seq<Spec>)
    requires HasUniqueNames(cached) && HasUniqueNames(requested) && AgreeWhereBoth(requested, cached)
    ensures forall s :: s in requested ==> s in Extended(cached, requested)
  {
    ExtendedFacts(cached, requested);
    forall s | s in requested ensures s in Extended(cached, requested) {
      OldOrNew(s, requested, cached);
    }
    hide Extended;
  }

  lemma ExtendedHasMounts(cached: seq<Spec>, requested: seq<Spec>)
    requires HasUniqueNames(cached) && HasUniqueNames(requested) && MountsAgreeWhereBoth(requested, cached)
    requires ArePlaced(cached) && ArePlaced(requested)
    ensures HasMounts(Extended(cached, requested), requested)
  {
    ExtendedFacts(cached, requested);
    hide Extended, CanonicalMount;
    forall s | s in requested
      ensures |s| >= 2
      ensures exists t :: t in Extended(cached, requested) && |t| >= 2 && CanonicalMount(t) == CanonicalMount(s)
    {
      OldOrNew(s, requested, cached);
      if s[0] !in NewNames(requested, cached) {
        var t :| t in cached && t != [] && t[0] == s[0];
        assert t in Extended(cached, requested);
      }
    }
  }

  /** On success the saved layout is a prefix of the new one, every declaration requested is
      in it, and disks and mounts gain the same names: those returned. */
  lemma MergedLayout(v: Values, c: Values, args: Values)
    requires CanMerge(v, Some(c), args, false)
    ensures var w, added := Merged(v, c, args), NewNames(SpecsIn(v, ContainerStorage), SpecsIn(c, ContainerStorage));
            && SpecsIn(c, ContainerStorage) <= SpecsIn(w, ContainerStorage)
            && SpecsIn(c, StorageMounts) <= SpecsIn(w, StorageMounts)
            && HasUniqueNames(SpecsIn(w, ContainerStorage)) && HasUniqueNames(SpecsIn(w, StorageMounts))
            && Names(SpecsIn(w, ContainerStorage)) - Names(SpecsIn(c, ContainerStorage)) == added
            && Names(SpecsIn(w, StorageMounts)) - Names(SpecsIn(c, StorageMounts)) == added
            && (forall s :: s in SpecsIn(v, ContainerStorage) ==> s in SpecsIn(w, ContainerStorage))
            && HasMounts(SpecsIn(w, StorageMounts), SpecsIn(v, StorageMounts))
  {
    var cs, rs := SpecsIn(c, ContainerStorage), SpecsIn(v, ContainerStorage);
    var cm, rm := SpecsIn(c, StorageMounts), SpecsIn(v, StorageMounts);
    MergedParts(v, c, args);
    ExtendedFacts(cs, rs);
    ExtendedFacts(cm, rm);
    ExtendedHasDisks(cs, rs);
    ExtendedHasMounts(cm, rm);
    hide Extended, Merged, CanonicalMount, HasMounts, HasUniqueNames, Names, AgreeWhereBoth, MountsAgreeWhereBoth,
         ArePlaced, AreNewDisks, AreNewMounts, SpecsIn, Get;
    assert Names(Extended(cs, rs)) - Names(cs) == NewNames(rs, cs);
    assert Names(Extended(cm, rm)) - Names(cm) == NewNames(rm, cm);
  }

  /** The name of a requested declaration is new, or a saved declaration has it. */
  lemma OldOrNew(s: Spec, requested: seq<Spec>, cached: seq<Spec>)
    requires HasUniqueNames(requested) && s in requested
    ensures s != [] && (s[0] in NewNames(requested, cached) || exists t :: t in cached && t != [] && t[0] == s[0])
  {
    assert s[0] in Names(requested);
  }

  lemma MergedParts(v: Values, c: Values, args: Values)
    ensures var w := Merged(v, c, args);
            && SpecsIn(w, ContainerStorage) == Extended(SpecsIn(c, ContainerStorage), SpecsIn(v, ContainerStorage))
            && SpecsIn(w, StorageMounts) == Extended(SpecsIn(c, StorageMounts), SpecsIn(v, StorageMounts))
            && (IsExplicit(args, VmDiskSettings) ==>
                  SpecsIn(w, VmDiskSettings) == Replaced(SpecsIn(c, VmDiskSettings), SpecsIn(v, VmDiskSettings)))
            && forall f :: f != ContainerStorage && f != StorageMounts && f != VmDiskSettings ==> Get(w, f) == Get(v, f)
  {}

  lemma {:induction false} SelectConcat(a: seq<Spec>, b: seq<Spec>, names: set<string>)
    ensures Select(a + b, names) == Select(a, names) + Select(b, names)
  {
    if a == [] {
      assert a + b == b;
    } else {
      assert (a + b)[1..] == a[1..] + b;
      SelectConcat(a[1..], b, names);
    }
  }

  lemma {:induction false} SelectAll(a: seq<Spec>, names: set<string>)
    requires forall s :: s in a ==> s != [] && s[0] in names
    ensures Select(a, names) == a
  {
    if a != [] {
      assert a[0] in a && forall s :: s in a[1..] ==> s in a;
      SelectAll(a[1..], names);
      assert a == [a[0]] + a[1..];
    }
  }

  lemma {:induction false} SelectNothing(a: seq<Spec>, names: set<string>)
    requires Names(a) !! names
    ensures Select(a, names) == []
  {
    if a != [] {
      assert a[0] != [] ==> a[0][0] in Names(a);
      assert forall n :: n in Names(a[1..]) ==> n in Names(a);
      SelectNothing(a[1..], names);
    }
  }

  /** Replacing the same settings once more changes nothing. */
  lemma ReplacingIsIdempotent(cached: seq<Spec>, requested: seq<Spec>)
    requires HasUniqueNames(cached) && HasUniqueNames(requested)
    ensures HasUniqueNames(Replaced(cached, requested))
    ensures Replaced(Replaced(cached, requested), requested) == Replaced(cached, requested)
  {
    var kept := Select(cached, Names(cached) - Names(requested));
    SelectedIsUnique(cached, Names(cached) - Names(requested));
    Selected(cached, Names(cached) - Names(requested));
    UniqueTogether(kept, requested);
    var rest := Names(kept + requested) - Names(requested);
    SelectConcat(kept, requested, rest);
    SelectNothing(requested, rest);
    forall s | s in kept ensures s != [] && s[0] in rest {
      assert s[0] in Names(kept);
    }
    SelectAll(kept, rest);
    hide Select, Names, HasUniqueNames;
    assert kept + [] == kept;
  }

  lemma NothingIsNew(rs: seq<Spec>, rm: seq<Spec>)
    ensures AreNewDisks(rs, {}) && AreNewMounts(rm, {})
  {}

  lemma ExtendedArePlaced(cached: seq<Spec>, requested: seq<Spec>)
    requires ArePlaced(cached) && ArePlaced(requested)
    ensures ArePlaced(Extended(cached, requested))
  {
    Selected(requested, NewNames(requested, cached));
  }

  /** The request is additive for the extended layout too. */
  lemma StillAdditive(cs: seq<Spec>, rs: seq<Spec>, cm: seq<Spec>, rm: seq<Spec>)
    requires IsAdditive(cs, rs, cm, rm)
    ensures IsAdditive(Extended(cs, rs), rs, Extended(cm, rm), rm)
    ensures NewNames(rs, Extended(cs, rs)) == {} == NewNames(rm, Extended(cm, rm))
  {
    ExtendedFacts(cs, rs);
    ExtendedFacts(cm, rm);
    ExtendedAgrees(cs, rs);
    ExtendedMountsAgree(cm, rm);
    ExtendedArePlaced(cm, rm);
    NothingIsNew(rs, rm);
    assert Extended(cs, rs) != [];
    hide Extended, Names, HasUniqueNames, AgreeWhereBoth, MountsAgreeWhereBoth, CanonicalMount, NewNames, ArePlaced,
         AreNewDisks, AreNewMounts;
  }

  lemma OneDiskIsAdditive(saved: Spec, disk: Spec, mount: Spec)
    requires |saved| == 3 && |disk| == 3 && |mount| == 2 && mount[1] != "/home"
    requires saved[0] == "root" && disk[0] == mount[0] && disk[0] != "root" && disk[0] != "template"
    ensures IsAdditive([saved], [disk], [], [mount])
    ensures NewNames([disk], [saved]) == {disk[0]}
  {
    OneName(saved);
    OneName(disk);
    OneName(mount);
    assert Names([]) == {};
    hide Names;
    assert disk[0] in Names([disk]) * Names([mount]) - {"root", "template"};
  }

  lemma OneName(s: Spec)
    requires s != []
    ensures Names([s]) == {s[0]}
  {
    assert [s][0] in [s];
  }

  /** Requests that merge exist: a new disk with its mount, for a VM that has a root disk. */
  lemma AdditiveRequestExists() returns (v: Values, c: Values, args: Values)
    ensures CanMerge(v, Some(c), args, false)
    ensures NewNames(SpecsIn(v, ContainerStorage), SpecsIn(c, ContainerStorage)) == {"data"}
  {
    var saved, disk, mount := ["root", "fast", "20G"], ["data", "fast", "5G"], ["data", "/srv"];
    c := map[MachineType := VM, ContainerStorage := Specs([saved])];
    v := map[MachineType := VM, ContainerStorage := Specs([disk]), StorageMounts := Specs([mount])];
    args := map[ContainerStorage := Specs([disk]), StorageMounts := Specs([mount])];
    assert |"/srv"| < |"/home"| && |"data"| < |"template"| && "data"[0] != "root"[0];
    OneDiskIsAdditive(saved, disk, mount);
    hide IsAdditive, NewNames;
  }

  lemma RepeatIsAdditive(v: Values, c: Values, args: Values)
    requires CanMerge(v, Some(c), args, false)
    ensures CanMerge(v, Some(Merged(v, c, args)), args, false)
    ensures NewNames(SpecsIn(v, ContainerStorage), SpecsIn(Merged(v, c, args), ContainerStorage)) == {}
    ensures NewNames(SpecsIn(v, StorageMounts), SpecsIn(Merged(v, c, args), StorageMounts)) == {}
  {
    var w := Merged(v, c, args);
    MergedParts(v, c, args);
    StillAdditive(SpecsIn(c, ContainerStorage), SpecsIn(v, ContainerStorage),
                  SpecsIn(c, StorageMounts), SpecsIn(v, StorageMounts));
    if IsExplicit(args, VmDiskSettings) {
      ReplacingIsIdempotent(SpecsIn(c, VmDiskSettings), SpecsIn(v, VmDiskSettings));
    }
    assert Get(w, MachineType) == Get(v, MachineType);
    hide Extended, Replaced, IsAdditive, NewNames, HasUniqueNames, Merged, SpecsIn, Get;
  }

  predicate ExtendsAlike(v: Values, c: Values, w: Values, f: Field) {
    Extended(SpecsIn(w, f), SpecsIn(v, f)) == Extended(SpecsIn(c, f), SpecsIn(v, f))
  }

  lemma SameMerge(v: Values, c: Values, w: Values, args: Values)
    requires ExtendsAlike(v, c, w, ContainerStorage) && ExtendsAlike(v, c, w, StorageMounts)
    requires IsExplicit(args, VmDiskSettings) ==>
               Replaced(SpecsIn(w, VmDiskSettings), SpecsIn(v, VmDiskSettings))
               == Replaced(SpecsIn(c, VmDiskSettings), SpecsIn(v, VmDiskSettings))
    ensures Merged(v, w, args) == Merged(v, c, args)
  {
    hide Extended, Replaced, WithLayout, SpecsIn;
  }

  lemma MergedExtendsAlike(v: Values, c: Values, args: Values)
    requires CanMerge(v, Some(c), args, false)
    ensures ExtendsAlike(v, c, Merged(v, c, args), ContainerStorage)
    ensures ExtendsAlike(v, c, Merged(v, c, args), StorageMounts)
  {
    RepeatIsAdditive(v, c, args);
    MergedParts(v, c, args);
    hide Merged, CanMerge, SpecsIn;
    NothingToExtend(SpecsIn(Merged(v, c, args), ContainerStorage), SpecsIn(v, ContainerStorage));
    NothingToExtend(SpecsIn(Merged(v, c, args), StorageMounts), SpecsIn(v, StorageMounts));
    hide Extended;
  }

  /** Repeating the request against the merged layout is accepted, adds nothing and changes
      nothing. */
  lemma MergeIsIdempotent(v: Values, c: Values, args: Values)
    requires CanMerge(v, Some(c), args, false)
    ensures CanMerge(v, Some(Merged(v, c, args)), args, false)
    ensures NewNames(SpecsIn(v, ContainerStorage), SpecsIn(Merged(v, c, args), ContainerStorage)) == {}
    ensures Merged(v, Merged(v, c, args), args) == Merged(v, c, args)
  {
    RepeatIsAdditive(v, c, args);
    MergedExtendsAlike(v, c, args);
    if IsExplicit(args, VmDiskSettings) {
      MergedParts(v, c, args);
      ReplacingIsIdempotent(SpecsIn(c, VmDiskSettings), SpecsIn(v, VmDiskSettings));
    }
    hide Merged, Replaced, ExtendsAlike, SpecsIn, NewNames, IsAdditive, HasUniqueNames, Get;
    SameMerge(v, c, Merged(v, c, args), args);
  }

  lemma ExtendedAgrees(cached: seq<Spec>, requested: seq<Spec>)
    requires HasUniqueNames(cached) && HasUniqueNames(requested) && AgreeWhereBoth(requested, cached)
    ensures AgreeWhereBoth(requested, Extended(cached, requested))
  {
    ExtendedFacts(cached, requested);
    UniqueIsSame(requested);
    hide Extended, NewNames;
  }

  lemma ExtendedMountsAgree(cached: seq<Spec>, requested: seq<Spec>)
    requires HasUniqueNames(cached) && HasUniqueNames(requested) && MountsAgreeWhereBoth(requested, cached)
    ensures MountsAgreeWhereBoth(requested, Extended(cached, requested))
  {
    ExtendedFacts(cached, requested);
    UniqueIsSame(requested);
    hide Extended, NewNames, CanonicalMount;
  }

  lemma UniqueIsSame(specs: seq<Spec>)
    requires HasUniqueNames(specs)
    ensures forall s, t :: s in specs && t in specs && s[0] == t[0] ==> s == t
  {}

  lemma NothingToExtend(cached: seq<Spec>, requested: seq<Spec>)
    requires NewNames(requested, cached) == {}
    ensures Extended(cached, requested) == cached
  {
    SelectNothing(requested, {});
  }

  // ---------------------------------------------------------------------------
  // Changes of a saved guest
  // ---------------------------------------------------------------------------

  /** An argument that asks for another shape than the saved one. */
  predicate IsChange(v: Values, c: Values, args: Values, f: Field) {
    IsShape(f) && IsExplicit(args, f) && Get(v, f) != Get(c, f)
  }

  /** `_provisioning_changes_requested` */
  predicate ChangesRequested(v: Values, c: Values, args: Values) {
    exists f :: IsChange(v, c, args, f)
  }

  function WithoutTemplate(specs: seq<Spec>): seq<Spec> {
    if specs == [] then []
    else (if specs[0] != [] && specs[0][0] == "template" then [] else [specs[0]]) + WithoutTemplate(specs[1..])
  }

  /** The keys of `_storage_declaration_sizes`. */
  function DeclaredDisks(specs: seq<Spec>): Option<set<string>> {
    var disks := WithoutTemplate(specs);
    if disks != [] && HasUniqueNames(disks) && ArePlaced(disks) then Some(Names(disks)) else None
  }

  /** `_storage_declaration_can_be_verified` */
  predicate CanBeVerified(v: Values, c: Values) {
    var desired, cached := DeclaredDisks(SpecsIn(v, ContainerStorage)), DeclaredDisks(SpecsIn(c, ContainerStorage));
    desired.Some? && desired == cached
  }

  /** `_unsupported_cached_provisioning_changes` */
  function UnsupportedChanges(v: Values, c: Values, args: Values, rebind: bool, additive: bool): set<Field> {
    set f | IsChange(v, c, args, f) && !IsLifecycle(f)
            && !(Get(c, MachineType) == VM && IsReconcilable(v, c, f, rebind, additive))
  }

  predicate IsReconcilable(v: Values, c: Values, f: Field, rebind: bool, additive: bool) {
    || IsTunable(f)
    || (additive && (f == ContainerStorage || f == StorageMounts))
    || (f == ContainerStorage && CanBeVerified(v, c))
    || (rebind && f == HostedBridge)
  }

  // ---------------------------------------------------------------------------
  // Reusing saved metadata
  // ---------------------------------------------------------------------------

  /** Python's truth of a setting. */
  predicate IsTrue(v: Value) { v != Unset && v != FALSE && v != Specs([]) }

  /** `_provider_binding_was_explicit` */
  predicate BindingWasExplicit(args: Values, f: Field) {
    if f == HostedUser || f == HostedKey then f in args else IsExplicit(args, f)
  }

  /** `_swap_preserve_keys` */
  predicate IsSwapKept(args: Values, f: Field) {
    var mode := Get(args, SwapMode);
    match f
    case SwapMode => mode == Unset
    case SwapFiles | SwapDevices | SwapZram | SwapResume => mode == Unset && Get(args, f) == Unset
    case Swappiness | Zswap => mode != NO_SWAP && Get(args, f) == Unset
    case ZswapMaxPool => mode != NO_SWAP && Get(args, Zswap) != FALSE && Get(args, f) == Unset
    case _ => false
  }

  function Desired(args: Values, c: Values, f: Field): Value {
    if IsExplicit(args, f) then Get(args, f) else Get(c, f)
  }

  /** A field that the run keeps as the command line made it. */
  predicate IsKept(args: Values, rebind: bool, f: Field) {
    || (IsBinding(f) && (rebind || BindingWasExplicit(args, f)))
    || (IsShape(f) && IsExplicit(args, f))
  }

  /** The value of every field after the saved metadata were read. */
  function Hydrated(v: Values, c: Values, args: Values, rebind: bool, f: Field): Value {
    if f == SystemHostname || f == FriendlyName then Desired(args, c, f)
    else if IsCached(f) then (if IsKept(args, rebind, f) then Get(v, f) else Get(c, f))
    else if IsSwapKept(args, f) then Get(c, f)
    else if (f == SshKey || IsNetwork(f)) && Get(v, f) == Unset then Get(c, f)
    else Get(v, f)
  }

  /** The name of the guest at the provider. */
  function GuestName(hostname: Value, friendly: Value, build: Value -> Value): Value {
    if IsTrue(hostname) then hostname else build(friendly)
  }

  /** Asking the provider is needed. */
  predicate MustAsk(v: Values, c: Values, args: Values, rebind: bool, build: Value -> Value) {
    || rebind || ChangesRequested(v, c, args) || IsTrue(Get(args, VerifyProvider))
    || (exists f :: (IsDiskPolicy(f) || IsLifecycle(f)) && IsExplicit(args, f))
    || (Get(v, MachineType) == VM
        && GuestName(Desired(args, c, SystemHostname), Desired(args, c, FriendlyName), build)
           != GuestName(Get(c, SystemHostname), Get(c, FriendlyName), build))
  }

  /** A loop of `setattr`: the fields, and no others, get the saved values. */
  method TakeOver(config: Config, c: Values, fields: set<Field>)
    modifies config
    ensures forall f :: Get(config.values, f) == if f in fields then Get(c, f) else Get(old(config.values), f)
  {
    var left := fields;
    while left != {}
      invariant left <= fields
      invariant forall f :: Get(config.values, f) ==
                            if f in fields && f !in left then Get(c, f) else Get(old(config.values), f)
      decreases left
    {
      var f :| f in left;
      config.Set(f, Get(c, f));
      left := left - {f};
    }
  }

  predicate IsTakenOver(args: Values, rebind: bool, f: Field) { IsCached(f) && !IsKept(args, rebind, f) }

  /** The assignments of `_reuse_cached_provisioning_metadata`. */
  method Hydrate(config: Config, c: Values, args: Values, rebind: bool)
    modifies config
    ensures forall f :: Get(config.values, f) == Hydrated(old(config.values), c, args, rebind, f)
  {
    hide IsKept, Desired, IsSwapKept, IsCached, IsNetwork, IsTakenOver, Hydrated, Get;
    ghost var v := config.values;
    config.Set(SystemHostname, Desired(args, c, SystemHostname));
    ghost var one := config.values;
    config.Set(FriendlyName, Desired(args, c, FriendlyName));
    ghost var two := config.values;
    TakeOver(config, c, set f | IsTakenOver(args, rebind, f));
    TakeOver(config, c, set f | IsSwapKept(args, f));
    ghost var four := config.values;
    TakeOver(config, c, set f | (f == SshKey || IsNetwork(f)) && Get(config.values, f) == Unset);
    forall f ensures Get(config.values, f) == Hydrated(v, c, args, rebind, f) {
      SettingOne(v, SystemHostname, Desired(args, c, SystemHostname), f);
      SettingOne(one, FriendlyName, Desired(args, c, FriendlyName), f);
      AssignedOnce(v, two, four, config.values, c, args, rebind, f);
    }
  }

  lemma SettingOne(v: Values, f: Field, value: Value, g: Field)
    ensures Get(v[f := value], g) == if g == f then value else Get(v, g)
  {}

  /** One field through the assignments: names, saved fields, swap fields, key and network are
      different fields, so no assignment undoes another. */
  lemma AssignedOnce(v: Values, two: Values, four: Values, last: Values, c: Values, args: Values, rebind: bool,
                     f: Field)
    requires Get(two, f) == if f == SystemHostname || f == FriendlyName then Desired(args, c, f) else Get(v, f)
    requires Get(four, f) == if IsSwapKept(args, f) || IsTakenOver(args, rebind, f) then Get(c, f) else Get(two, f)
    requires Get(last, f) ==
             if (f == SshKey || IsNetwork(f)) && Get(four, f) == Unset then Get(c, f) else Get(four, f)
    ensures Get(last, f) == Hydrated(v, c, args, rebind, f)
  {
    hide Get, IsKept, Desired;
  }

  /** `_reuse_cached_provisioning_metadata`, when the guest is hosted and its metadata are saved. */
  method ReuseCachedMetadata(config: Config, c: Values, args: Values, rebind: bool, build: Value -> Value)
    returns (reuse: bool)
    modifies config
    ensures forall f :: Get(config.values, f) == Hydrated(old(config.values), c, args, rebind, f)
    ensures reuse <==>
              && !MustAsk(old(config.values), c, args, rebind, build)
              && (IsTrue(Get(config.values, StaticIpv4)) ==>
                    IsTrue(Get(config.values, Gateway4)) && IsTrue(Get(config.values, Dns)))
  {
    hide Hydrated, Get, Desired, GuestName, ChangesRequested, IsTrue, IsExplicit, IsDiskPolicy, IsLifecycle;
    var changes := ChangesRequested(config.values, c, args);
    var identityChanged := Get(config.values, MachineType) == VM
      && GuestName(Desired(args, c, SystemHostname), Desired(args, c, FriendlyName), build)
         != GuestName(Get(c, SystemHostname), Get(c, FriendlyName), build);
    Hydrate(config, c, args, rebind);
    if IsTrue(Get(config.values, StaticIpv4))
       && (!IsTrue(Get(config.values, Gateway4)) || !IsTrue(Get(config.values, Dns))) {
      return false;
    }
    if rebind || changes || identityChanged || IsTrue(Get(args, VerifyProvider))
       || (exists f :: IsDiskPolicy(f) && IsExplicit(args, f)) || (exists f :: IsLifecycle(f) && IsExplicit(args, f)) {
      return false;
    }
    return true;
  }

  /** Without a reason to ask, the shape of the guest is the saved one, field by field. */
  lemma ReusedShapeIsSaved(v: Values, c: Values, args: Values, rebind: bool, build: Value -> Value)
    requires !MustAsk(v, c, args, rebind, build)
    ensures forall f :: IsShape(f) ==> Hydrated(v, c, args, rebind, f) == Get(c, f)
  {
    forall f | IsShape(f) ensures Hydrated(v, c, args, rebind, f) == Get(c, f) {
      assert !IsChange(v, c, args, f);
    }
  }

  /** Nor does the name of a saved VM change, when a machine type that is not explicit is
      taken for a VM, as it is for hosted guests. */
  lemma ReusedNameIsSaved(v: Values, c: Values, args: Values, rebind: bool, build: Value -> Value)
    requires !MustAsk(v, c, args, rebind, build) && Get(c, MachineType) == VM
    requires IsExplicit(args, MachineType) || Get(v, MachineType) == VM
    ensures GuestName(Desired(args, c, SystemHostname), Desired(args, c, FriendlyName), build)
            == GuestName(Get(c, SystemHostname), Get(c, FriendlyName), build)
  {
    assert !IsChange(v, c, args, MachineType);
  }

  /** A merge that adds disks is a change, so it is never skipped; and none of its storage
      arguments is reported as unsupported. */
  lemma AddedDisksAreProvisioned(v: Values, c: Values, args: Values, build: Value -> Value)
    requires CanMerge(v, Some(c), args, false)
    requires NewNames(SpecsIn(v, ContainerStorage), SpecsIn(c, ContainerStorage)) != {}
    ensures MustAsk(Merged(v, c, args), c, args, false, build)
    ensures {ContainerStorage, StorageMounts} !! UnsupportedChanges(Merged(v, c, args), c, args, false, true)
  {
    MergedLayout(v, c, args);
    assert Get(c, MachineType) == VM && IsExplicit(args, ContainerStorage);
    hide Merged, CanMerge, NewNames, CanonicalMount, HasUniqueNames;
    StorageDiffers(Merged(v, c, args), c, args, build);
  }

  lemma StorageDiffers(w: Values, c: Values, args: Values, build: Value -> Value)
    requires Names(SpecsIn(w, ContainerStorage)) - Names(SpecsIn(c, ContainerStorage)) != {}
    requires Get(c, MachineType) == VM && IsExplicit(args, ContainerStorage)
    ensures MustAsk(w, c, args, false, build)
    ensures {ContainerStorage, StorageMounts} !! UnsupportedChanges(w, c, args, false, true)
  {
    assert IsChange(w, c, args, ContainerStorage);
    hide GuestName, Names;
  }

  datatype Outcome = Refused(fields: set<Field>) | Reused | Asked(disks: set<string>)

  /** The decisions of the setup command for a saved guest: saved metadata are trusted only for
      a guest of exactly the saved shape and without disks to create, and a change that the
      provider step cannot make is refused. */
  method Plan(config: Config, c: Values, args: Values, rebind: bool, build: Value -> Value) returns (outcome: Outcome)
    modifies config
    ensures outcome.Reused? ==> forall f :: IsShape(f) ==> Get(config.values, f) == Get(c, f)
    ensures outcome.Reused? && CanMerge(old(config.values), Some(c), args, rebind) ==>
              NewNames(SpecsIn(old(config.values), ContainerStorage), SpecsIn(c, ContainerStorage)) == {}
    ensures outcome.Asked? && outcome.disks != {} ==>
              CanMerge(old(config.values), Some(c), args, rebind)
              && outcome.disks == NewNames(SpecsIn(old(config.values), ContainerStorage), SpecsIn(c, ContainerStorage))
    ensures outcome.Refused? ==>
              outcome.fields != {} && forall f :: f in outcome.fields ==> IsExplicit(args, f) && !IsLifecycle(f)
    ensures var additive := CanMerge(old(config.values), Some(c), args, rebind);
            var w := if additive then Merged(old(config.values), c, args) else old(config.values);
            if UnsupportedChanges(w, c, args, rebind, additive) != {}
            then outcome == Refused(UnsupportedChanges(w, c, args, rebind, additive))
            else !outcome.Refused?
                 && (outcome.Asked? && additive ==>
                       outcome.disks == NewNames(SpecsIn(old(config.values), ContainerStorage),
                                                 SpecsIn(c, ContainerStorage)))
                 && (outcome.Reused? ==> !MustAsk(w, c, args, rebind, build))
                 && (outcome.Asked? ==>
                       MustAsk(w, c, args, rebind, build)
                       || (IsTrue(Get(config.values, StaticIpv4))
                           && !(IsTrue(Get(config.values, Gateway4)) && IsTrue(Get(config.values, Dns)))))
  {
    hide Merged, CanMerge, UnsupportedChanges, Hydrated, MustAsk;
    var v := config.values;
    var merged := MergeAdditiveStorage(config, Some(c), args, rebind);
    var w := config.values;
    var unsupported := UnsupportedChanges(w, c, args, rebind, merged.Some?);
    if unsupported != {} {
      UnsupportedAreExplicit(w, c, args, rebind, merged.Some?);
      return Refused(unsupported);
    }
    var reuse := ReuseCachedMetadata(config, c, args, rebind, build);
    if reuse {
      ReusedShapeIsSaved(w, c, args, rebind, build);
      if merged.Some? && merged.value != {} {
        MergeIsNoRebind(v, c, args, rebind);
        AddedDisksAreProvisioned(v, c, args, build);
      }
      return Reused;
    }
    return Asked(if merged.Some? then merged.value else {});
  }

  lemma MergeIsNoRebind(v: Values, c: Values, args: Values, rebind: bool)
    requires CanMerge(v, Some(c), args, rebind)
    ensures !rebind
  {}

  lemma UnsupportedAreExplicit(v: Values, c: Values, args: Values, rebind: bool, additive: bool)
    ensures forall f :: f in UnsupportedChanges(v, c, args, rebind, additive) ==> IsExplicit(args, f) && !IsLifecycle(f)
  {}
}
