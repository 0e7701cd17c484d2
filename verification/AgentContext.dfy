/** common/agent_context_steps.py and lib/agent_context_state.py: defaults that setup keeps
    in a user's configuration file, with a journal that tells its own writes from the
    user's. A digest is injective, so the projection it was taken of stands for it. */
module AgentContext {
  import opened Common

  // ---------------------------------------------------------------------------
  // JSON objects
  // ---------------------------------------------------------------------------

  datatype Json = Scalar(value: nat) | Object(members: map<string, Json>)
  type Members = map<string, Json>
  type Path = seq<string>

  function Get(v: Members, p: Path): Option<Json>
    requires p != []
    decreases p
  {
    if p[0] !in v then None
    else if |p| == 1 then Some(v[p[0]])
    else if v[p[0]].Object? then Get(v[p[0]].members, p[1..])
    else None
  }

  function Leaf(v: Members, p: Path): Option<nat> {
    if p == [] || Get(v, p).None? || Get(v, p).value.Object? then None else Some(Get(v, p).value.value)
  }

  /** `context_paths` */
  function PathsOf(j: Json): set<Path> {
    if j.Scalar? then {[]}
    else set k, p | k in j.members && p in PathsOf(j.members[k]) :: [k] + p
  }

  function Paths(v: Members): set<Path> { PathsOf(Object(v)) }

  lemma {:induction false} PathsAreLeaves(v: Members, p: Path)
    ensures p in Paths(v) <==> Leaf(v, p).Some?
    decreases p
  {
    if p != [] && p[0] in v {
      var j, rest := v[p[0]], p[1..];
      assert p == [p[0]] + rest;
      if j.Object? {
        PathsAreLeaves(j.members, rest);
      }
      if p in Paths(v) {
        var k, q :| k in v && q in PathsOf(v[k]) && p == [k] + q;
        assert q == rest;
      }
      assert rest in PathsOf(j) <==> Leaf(v, p).Some?;
    }
  }

  /** `_merge` descends only into objects. */
  predicate Mergeable(v: Members, d: Members)
    decreases Object(d)
  {
    forall k :: k in d && d[k].Object? && k in v ==> v[k].Object? && Mergeable(v[k].members, d[k].members)
  }

  /** `_merge` */
  function Merge(v: Members, d: Members): Members
    requires Mergeable(v, d)
    decreases Object(d)
  {
    v + map k | k in d ::
      if d[k].Object? && k in v then Object(Merge(v[k].members, d[k].members)) else d[k]
  }

  /** Merging writes no scalar over anything. */
  predicate Fits(v: Members, d: Members)
    decreases Object(d)
  {
    forall k :: k in d && k in v ==> d[k].Object? && v[k].Object? && Fits(v[k].members, d[k].members)
  }

  lemma {:induction false} FittingIsMergeable(v: Members, d: Members)
    requires Fits(v, d)
    ensures Mergeable(v, d)
    decreases Object(d)
  {
    forall k | k in d && d[k].Object? && k in v ensures Mergeable(v[k].members, d[k].members) {
      FittingIsMergeable(v[k].members, d[k].members);
    }
  }

  /** The leaves of both, and no others. */
  lemma {:induction false} MergedLeaves(v: Members, d: Members, p: Path)
    requires Fits(v, d) && Mergeable(v, d)
    ensures Leaf(Merge(v, d), p) == if Leaf(d, p).Some? then Leaf(d, p) else Leaf(v, p)
    decreases Object(d)
  {
    if p != [] && p[0] in d && p[0] in v {
      MergedLeaves(v[p[0]].members, d[p[0]].members, p[1..]);
    }
  }

  /** One round of `remove_context_paths`: the path, and the parents that it leaves empty. */
  function Remove(v: Members, p: Path): Members
    requires p != [] && Get(v, p).Some?
    decreases p
  {
    if |p| == 1 then v - {p[0]}
    else
      var child := Remove(v[p[0]].members, p[1..]);
      if child == map[] then v - {p[0]} else v[p[0] := Object(child)]
  }

  /** Nothing is added, and no object becomes a scalar. */
  lemma {:induction false} RemovedNodes(v: Members, p: Path, q: Path)
    requires p != [] && q != [] && Get(v, p).Some?
    requires Get(Remove(v, p), q).Some?
    ensures Get(v, q).Some? && Get(v, q).value.Object? == Get(Remove(v, p), q).value.Object? && p != q
    decreases p
  {
    if |p| > 1 && p[0] == q[0] && |q| > 1 {
      RemovedNodes(v[p[0]].members, p[1..], q[1..]);
      assert p == [p[0]] + p[1..] && q == [q[0]] + q[1..];
    }
  }

  lemma {:induction false} EmptyHasNoLeaf(q: Path)
    ensures Leaf(map[], q).None?
  {}

  /** Removing a leaf keeps every other leaf. */
  lemma {:induction false} RemovedLeaves(v: Members, p: Path, q: Path)
    requires Leaf(v, p).Some?
    ensures Leaf(Remove(v, p), q) == if p == q then None else Leaf(v, q)
    decreases p
  {
    if q != [] && |p| > 1 && p[0] == q[0] {
      assert p == [p[0]] + p[1..] && q == [q[0]] + q[1..];
      if |q| > 1 {
        RemovedLeaves(v[p[0]].members, p[1..], q[1..]);
        EmptyHasNoLeaf(q[1..]);
      }
    }
  }

  /** Nor is an object left empty on the way. */
  lemma {:induction false} NoParentIsLeftEmpty(v: Members, p: Path, k: nat)
    requires 0 < k < |p| && Get(v, p).Some?
    ensures Get(Remove(v, p), p[..k]) != Some(Object(map[]))
    decreases p
  {
    var w := Remove(v, p);
    if p[0] in w && k > 1 {
      NoParentIsLeftEmpty(v[p[0]].members, p[1..], k - 1);
      assert p[..k][1..] == p[1..][..k - 1];
    }
  }

  // ---------------------------------------------------------------------------
  // What is managed
  // ---------------------------------------------------------------------------

  datatype Tool = Codex | Claude

  const LIMIT := "model_auto_compact_token_limit"
  const SCOPE := "model_auto_compact_token_limit_scope"
  const WINDOW := "autoCompactWindow"
  const MODELS := "modelSettings"
  const ENV := "env"
  const ENV_KEYS: set<string> := {"CLAUDE_CODE_AUTO_COMPACT_WINDOW", "CLAUDE_AUTOCOMPACT_PCT_OVERRIDE",
                                  "DISABLE_COMPACT", "DISABLE_AUTO_COMPACT"}

  function Restrict(v: Members, keys: set<string>): Members {
    map k | k in v && k in keys :: v[k]
  }

  /** The window of every model that has one. */
  function Windows(models: Members): Members {
    map m | m in models && models[m].Object? && WINDOW in models[m].members ::
      Object(map[WINDOW := models[m].members[WINDOW]])
  }

  predicate HasShape(v: Members) {
    && (ENV in v ==> v[ENV].Object?)
    && (MODELS in v ==> v[MODELS].Object? && forall m :: m in v[MODELS].members ==> v[MODELS].members[m].Object?)
  }

  function Under(v: Members, key: string): Members {
    if key in v && v[key].Object? then v[key].members else map[]
  }

  function Nonempty(key: string, members: Members): Members {
    if members == map[] then map[] else map[key := Object(members)]
  }

  /** `context_projection`; None stands for its errors. */
  function Projection(v: Members, tool: Tool): Option<Members> {
    match tool
    case Codex => Some(Restrict(v, {LIMIT, SCOPE}))
    case Claude =>
      if !HasShape(v) then None
      else Some(Restrict(v, {WINDOW}) + Nonempty(MODELS, Windows(Under(v, MODELS)))
                + Nonempty(ENV, Restrict(Under(v, ENV), ENV_KEYS)))
  }

  /** The places of managed preferences. */
  predicate IsManaged(p: Path, tool: Tool) {
    match tool
    case Codex => |p| == 1 && (p[0] == LIMIT || p[0] == SCOPE)
    case Claude =>
      || p == [WINDOW]
      || (|p| == 3 && p[0] == MODELS && p[2] == WINDOW)
      || (|p| == 2 && p[0] == ENV && p[1] in ENV_KEYS)
  }

  /** Every managed preference there is a scalar. */
  ghost predicate IsPlain(v: Members, tool: Tool) {
    forall p :: IsManaged(p, tool) && Get(v, p).Some? ==> Get(v, p).value.Scalar?
  }

  /** Defaults are all projection, and all scalars. */
  ghost predicate AreDefaults(d: Members, tool: Tool) {
    d != map[] && Projection(d, tool) == Some(d) && IsPlain(d, tool)
  }

  lemma GetOne(v: Members, a: string)
    ensures Get(v, [a]) == if a in v then Some(v[a]) else None
  {}

  lemma GetTwo(v: Members, a: string, b: string)
    ensures Get(v, [a, b]) == if b in Under(v, a) then Some(Under(v, a)[b]) else None
  {
    assert [a, b][1..] == [b];
  }

  lemma GetThree(v: Members, a: string, b: string, c: string)
    ensures Get(v, [a, b, c]) == if c in Under(Under(v, a), b) then Some(Under(Under(v, a), b)[c]) else None
  {
    assert [a, b, c][1..] == [b, c];
    if a in v && v[a].Object? {
      GetTwo(v[a].members, b, c);
    } else {
      assert Under(v, a) == map[];
    }
  }

  lemma LeafUnder(v: Members, p: Path)
    requires |p| > 1
    ensures Leaf(v, p) == Leaf(Under(v, p[0]), p[1..])
  {
    if p[0] !in v || v[p[0]].Scalar? {
      EmptyHasNoLeaf(p[1..]);
    }
  }

  lemma LeafOfOne(v: Members, p: Path)
    requires Leaf(v, p).Some?
    ensures p[0] in v && (v[p[0]].Scalar? <==> |p| == 1)
  {}

  lemma ProjectionParts(v: Members)
    requires HasShape(v)
    ensures Projection(v, Claude).Some?
    ensures var r := Projection(v, Claude).value;
            && r.Keys <= {WINDOW, MODELS, ENV}
            && (WINDOW in r <==> WINDOW in v) && (WINDOW in v ==> r[WINDOW] == v[WINDOW])
            && (MODELS in r ==> r[MODELS] == Object(Windows(Under(v, MODELS))))
            && (ENV in r ==> r[ENV] == Object(Restrict(Under(v, ENV), ENV_KEYS)))
            && Under(r, MODELS) == Windows(Under(v, MODELS))
            && Under(r, ENV) == Restrict(Under(v, ENV), ENV_KEYS)
  {
    hide Windows, Under;
    assert WINDOW != MODELS && WINDOW != ENV && MODELS != ENV;
    var models, env := Windows(Under(v, MODELS)), Restrict(Under(v, ENV), ENV_KEYS);
    UnderNonempty(Restrict(v, {WINDOW}) + Nonempty(MODELS, models) + Nonempty(ENV, env), MODELS, models);
    UnderNonempty(Restrict(v, {WINDOW}) + Nonempty(MODELS, models) + Nonempty(ENV, env), ENV, env);
  }

  lemma UnderNonempty(r: Members, key: string, members: Members)
    requires if members == map[] then key !in r else key in r && r[key] == Object(members)
    ensures Under(r, key) == members
  {}

  /** The projection has the managed places, as they are. */
  lemma ProjectionGets(v: Members, tool: Tool, p: Path)
    requires Projection(v, tool).Some? && IsManaged(p, tool)
    ensures Get(Projection(v, tool).value, p) == Get(v, p)
  {
    var r := Projection(v, tool).value;
    if tool == Claude {
      ProjectionParts(v);
    }
    hide Get, Projection, HasShape;
    if |p| == 1 {
      assert p == [p[0]];
      GetOne(v, p[0]);
      GetOne(r, p[0]);
    } else if |p| == 2 {
      assert p == [ENV, p[1]];
      GetTwo(v, ENV, p[1]);
      GetTwo(r, ENV, p[1]);
    } else {
      assert p == [MODELS, p[1], WINDOW];
      GetThree(v, MODELS, p[1], WINDOW);
      GetThree(r, MODELS, p[1], WINDOW);
    }
  }

  /** Every leaf of a plain projection is a managed place. */
  lemma ProjectionHasNoMore(v: Members, tool: Tool, p: Path)
    requires Projection(v, tool).Some? && IsPlain(v, tool) && Leaf(Projection(v, tool).value, p).Some?
    ensures IsManaged(p, tool)
  {
    var r := Projection(v, tool).value;
    if tool == Claude {
      ProjectionParts(v);
    }
    LeafOfOne(r, p);
    var a := p[0];
    assert tool == Codex ==> (a == LIMIT || a == SCOPE) && r[a] == v[a];
    hide Projection, HasShape, Leaf, Get, Restrict, Windows, Under;
    if tool == Codex || a == WINDOW {
      GetOne(v, a);
      assert IsManaged([a], tool);
      assert p == [a];
    } else {
      LeafUnder(r, p);
      if a == ENV {
        ManagedEnv(v, p[1..]);
        assert p == [ENV] + p[1..];
      } else {
        ManagedModels(v, p[1..]);
        assert p == [MODELS] + p[1..];
      }
    }
  }

  lemma ManagedEnv(v: Members, q: Path)
    requires IsPlain(v, Claude) && Leaf(Restrict(Under(v, ENV), ENV_KEYS), q).Some?
    ensures |q| == 1 && q[0] in ENV_KEYS
  {
    GetTwo(v, ENV, q[0]);
    assert IsManaged([ENV, q[0]], Claude);
  }

  lemma ManagedModels(v: Members, q: Path)
    requires IsPlain(v, Claude) && Leaf(Windows(Under(v, MODELS)), q).Some?
    ensures |q| == 2 && q[1] == WINDOW
  {
    var models := Under(v, MODELS);
    LeafOfOne(Windows(models), q);
    LeafUnder(Windows(models), q);
    LeafOfOne(Under(Windows(models), q[0]), q[1..]);
    GetThree(v, MODELS, q[0], WINDOW);
    assert IsManaged([MODELS, q[0], WINDOW], Claude);
  }

  // ---------------------------------------------------------------------------
  // Refreshing the managed places
  // ---------------------------------------------------------------------------

  lemma MergedUnder(v: Members, d: Members, key: string)
    requires Mergeable(v, d) && (key in v ==> v[key].Object?) && (key in d ==> d[key].Object?)
    ensures Mergeable(Under(v, key), Under(d, key))
    ensures Under(Merge(v, d), key) == Merge(Under(v, key), Under(d, key))
  {
    if key !in d {
      assert Merge(Under(v, key), map[]) == Under(v, key);
    } else if key !in v {
      assert Merge(map[], Under(d, key)) == Under(d, key);
    }
  }

  /** A part of the projection decides when it is empty. */
  lemma EmptyProjection(v: Members)
    requires HasShape(v)
    ensures Projection(v, Claude) == Some(map[]) <==>
              WINDOW !in v && Windows(Under(v, MODELS)) == map[] && Restrict(Under(v, ENV), ENV_KEYS) == map[]
  {
    ProjectionParts(v);
  }

  lemma DefaultsFitModels(v: Members, d: Members)
    requires Windows(v) == map[] && Windows(d) == d
    requires forall m :: m in v ==> v[m].Object?
    requires forall m :: m in d ==> d[m].members[WINDOW].Scalar?
    ensures Fits(v, d)
  {
    forall m | m in v && m in d ensures Fits(v[m].members, d[m].members) {
      assert m !in Windows(v);
      assert d[m] == Object(map[WINDOW := d[m].members[WINDOW]]);
    }
  }

  lemma DefaultsFitEnv(v: Members, d: Members)
    requires Restrict(v, ENV_KEYS) == map[] && Restrict(d, ENV_KEYS) == d
    ensures Fits(v, d)
  {
    forall k | k in d ensures k !in v {
      assert k in Restrict(d, ENV_KEYS) && k !in Restrict(v, ENV_KEYS);
    }
  }

  /** The parts of defaults. */
  lemma DefaultParts(d: Members)
    requires AreDefaults(d, Claude)
    ensures d.Keys <= {WINDOW, MODELS, ENV} && HasShape(d)
    ensures WINDOW in d ==> d[WINDOW].Scalar?
    ensures Windows(Under(d, MODELS)) == Under(d, MODELS) && Restrict(Under(d, ENV), ENV_KEYS) == Under(d, ENV)
    ensures forall m :: m in Under(d, MODELS) ==> Under(d, MODELS)[m].members[WINDOW].Scalar?
  {
    ProjectionParts(d);
    GetOne(d, WINDOW);
    assert IsManaged([WINDOW], Claude);
    hide Projection, Get;
    forall m | m in Under(d, MODELS) ensures Under(d, MODELS)[m].members[WINDOW].Scalar? {
      GetThree(d, MODELS, m, WINDOW);
      assert m in Windows(Under(d, MODELS));
      assert IsManaged([MODELS, m, WINDOW], Claude);
    }
  }

  lemma DefaultsFitCodex(v: Members, d: Members)
    requires Restrict(v, {LIMIT, SCOPE}) == map[] && Restrict(d, {LIMIT, SCOPE}) == d
    ensures forall k :: k in d ==> k !in v && (k == LIMIT || k == SCOPE)
  {
    forall k | k in d ensures k !in v && (k == LIMIT || k == SCOPE) {
      assert k in Restrict(d, {LIMIT, SCOPE}) && k !in Restrict(v, {LIMIT, SCOPE});
    }
  }

  lemma DefaultsFitClaude(v: Members, d: Members)
    requires Projection(v, Claude) == Some(map[]) && AreDefaults(d, Claude)
    ensures Fits(v, d)
  {
    DefaultParts(d);
    EmptyProjection(v);
    assert WINDOW !in v;
    DefaultsFitModels(Under(v, MODELS), Under(d, MODELS));
    DefaultsFitEnv(Under(v, ENV), Under(d, ENV));
    hide Projection, Windows, AreDefaults, Restrict;
    forall k | k in d && k in v
      ensures d[k].Object? && v[k].Object? && Fits(v[k].members, d[k].members)
    {
      assert k == MODELS || k == ENV;
      assert Under(v, k) == v[k].members && Under(d, k) == d[k].members;
    }
  }

  lemma DefaultsFit(v: Members, d: Members, tool: Tool)
    requires Projection(v, tool) == Some(map[]) && AreDefaults(d, tool)
    ensures Fits(v, d) && Mergeable(v, d)
  {
    if tool == Claude {
      DefaultsFitClaude(v, d);
    } else {
      DefaultsFitCodex(v, d);
    }
    FittingIsMergeable(v, d);
  }

  lemma MergeAt(v: Members, d: Members, k: string)
    requires Mergeable(v, d)
    ensures k in Merge(v, d) <==> k in v || k in d
    ensures k in v && k !in d ==> Merge(v, d)[k] == v[k]
    ensures k in d && (k !in v || d[k].Scalar?) ==> Merge(v, d)[k] == d[k]
    ensures k in d && k in v && d[k].Object? ==>
              && v[k].Object? && Mergeable(v[k].members, d[k].members)
              && Merge(v, d)[k] == Object(Merge(v[k].members, d[k].members))
  {}

  lemma MergedModel(v: Members, d: Members, m: string)
    requires Mergeable(v, d) && Windows(v) == map[] && Windows(d) == d
    requires forall n :: n in v ==> v[n].Object?
    requires forall n :: n in d ==> d[n].members[WINDOW].Scalar?
    requires m in v || m in d
    ensures var w := Merge(v, d)[m];
            && w.Object? && (WINDOW in w.members <==> m in d)
            && (m in d ==> d[m] == Object(map[WINDOW := w.members[WINDOW]]))
  {
    MergeAt(v, d, m);
    assert m in v ==> m !in Windows(v);
    assert m in d ==> m in Windows(d);
    if m in v && m in d {
      MergeAt(v[m].members, d[m].members, WINDOW);
    }
    hide Merge, Mergeable;
  }

  lemma WindowsAre(w: Members, d: Members)
    requires forall m :: m in w && w[m].Object? && WINDOW in w[m].members <==> m in d
    requires forall m :: m in d ==> d[m] == Object(map[WINDOW := w[m].members[WINDOW]])
    ensures Windows(w) == d
  {}

  lemma MergedWindows(v: Members, d: Members)
    requires Windows(v) == map[] && Windows(d) == d && Mergeable(v, d)
    requires forall m :: m in v ==> v[m].Object?
    requires forall m :: m in d ==> d[m].members[WINDOW].Scalar?
    ensures Windows(Merge(v, d)) == d
    ensures forall m :: m in Merge(v, d) ==> Merge(v, d)[m].Object?
  {
    var w := Merge(v, d);
    forall m
      ensures m in w ==> w[m].Object?
      ensures m in w && w[m].Object? && WINDOW in w[m].members <==> m in d
      ensures m in d ==> d[m] == Object(map[WINDOW := w[m].members[WINDOW]])
    {
      MergeAt(v, d, m);
      if m in v || m in d {
        MergedModel(v, d, m);
      }
      hide Merge, Mergeable, Windows;
    }
    WindowsAre(w, d);
  }

  lemma MergedEnv(v: Members, d: Members)
    requires Restrict(v, ENV_KEYS) == map[] && Restrict(d, ENV_KEYS) == d && Mergeable(v, d)
    ensures Restrict(Merge(v, d), ENV_KEYS) == d
  {
    forall k | k in ENV_KEYS ensures k !in v {
      assert k !in Restrict(v, ENV_KEYS);
    }
    forall k | k in d ensures k in ENV_KEYS {
      assert k in Restrict(d, ENV_KEYS);
    }
  }

  /** The parts of a projection decide all of it. */
  lemma SameProjection(w: Members, d: Members)
    requires HasShape(w) && HasShape(d)
    requires Restrict(w, {WINDOW}) == Restrict(d, {WINDOW})
    requires Windows(Under(w, MODELS)) == Windows(Under(d, MODELS))
    requires Restrict(Under(w, ENV), ENV_KEYS) == Restrict(Under(d, ENV), ENV_KEYS)
    ensures Projection(w, Claude) == Projection(d, Claude)
  {
    hide Windows, Under, Restrict;
  }

  lemma MergedParts(v: Members, d: Members)
    requires Mergeable(v, d) && HasShape(v) && HasShape(d) && WINDOW !in v
    requires WINDOW in d ==> d[WINDOW].Scalar?
    ensures Restrict(Merge(v, d), {WINDOW}) == Restrict(d, {WINDOW})
    ensures ENV in Merge(v, d) ==> Merge(v, d)[ENV].Object?
    ensures MODELS in Merge(v, d) ==> Merge(v, d)[MODELS].Object?
  {
    MergeAt(v, d, WINDOW);
    MergeAt(v, d, ENV);
    MergeAt(v, d, MODELS);
    hide Merge, Mergeable;
  }

  /** Merging defaults into an object without managed preferences makes them its projection. */
  lemma MergedProjection(v: Members, d: Members, tool: Tool)
    requires Projection(v, tool) == Some(map[]) && AreDefaults(d, tool) && Mergeable(v, d)
    ensures Projection(Merge(v, d), tool) == Some(d)
  {
    var w := Merge(v, d);
    if tool == Codex {
      DefaultsFitCodex(v, d);
      forall k | k in {LIMIT, SCOPE} ensures k !in v && (k in w <==> k in d) && (k in d ==> w[k] == d[k]) {
        assert k !in Restrict(v, {LIMIT, SCOPE});
        MergeAt(v, d, k);
      }
      hide Merge, Mergeable, IsPlain;
      assert Restrict(w, {LIMIT, SCOPE}).Keys == d.Keys;
      assert Restrict(w, {LIMIT, SCOPE}) == d;
    } else {
      DefaultParts(d);
      EmptyProjection(v);
      MergedParts(v, d);
      MergedUnder(v, d, MODELS);
      MergedUnder(v, d, ENV);
      hide Mergeable, Windows, IsPlain, Merge, Projection, Restrict;
      MergedWindows(Under(v, MODELS), Under(d, MODELS));
      MergedEnv(Under(v, ENV), Under(d, ENV));
      SameProjection(w, d);
    }
  }

  /** `remove_context_paths`: the paths are gone, other leaves stay, nothing is added. */
  method RemovePaths(v: Members, paths: set<Path>) returns (w: Members)
    requires forall p :: p in paths ==> Leaf(v, p).Some?
    ensures IsCleared(v, paths, w)
  {
    w := v;
    var left := paths;
    while left != {}
      invariant left <= paths
      invariant IsCleared(v, paths - left, w)
      decreases left
    {
      var p :| p in left;
      assert Leaf(w, p) == Leaf(v, p);
      ClearedFurther(v, paths - left, w, p);
      w := Remove(w, p);
      assert paths - left + {p} == paths - (left - {p});
      left := left - {p};
    }
    assert paths - left == paths;
  }

  ghost predicate IsCleared(v: Members, paths: set<Path>, w: Members) {
    && (forall q :: Leaf(w, q) == if q in paths then None else Leaf(v, q))
    && forall q :: q != [] && Get(w, q).Some? ==>
         q !in paths && Get(v, q).Some? && Get(v, q).value.Object? == Get(w, q).value.Object?
  }

  lemma ClearedFurther(v: Members, paths: set<Path>, w: Members, p: Path)
    requires IsCleared(v, paths, w) && Leaf(w, p).Some?
    ensures IsCleared(v, paths + {p}, Remove(w, p))
  {
    hide Remove;
    forall q ensures Leaf(Remove(w, p), q) == if q in paths + {p} then None else Leaf(v, q) {
      RemovedLeaves(w, p, q);
    }
    forall q | q != [] && Get(Remove(w, p), q).Some?
      ensures q !in paths + {p} && Get(v, q).Some?
      ensures Get(v, q).value.Object? == Get(Remove(w, p), q).value.Object?
    {
      RemovedNodes(w, p, q);
    }
  }

  lemma ClearedHasShape(v: Members, paths: set<Path>, w: Members)
    requires HasShape(v) && IsCleared(v, paths, w)
    ensures HasShape(w)
  {
    GetOne(v, ENV);
    GetOne(w, ENV);
    GetOne(v, MODELS);
    GetOne(w, MODELS);
    hide Get, Leaf;
    assert ENV in w ==> Get(w, [ENV]).Some? && ENV in v && w[ENV].Object?;
    assert MODELS in w ==> Get(w, [MODELS]).Some? && MODELS in v && w[MODELS].Object?;
    forall m | MODELS in w && m in w[MODELS].members ensures w[MODELS].members[m].Object? {
      GetTwo(v, MODELS, m);
      GetTwo(w, MODELS, m);
      assert Get(w, [MODELS, m]).Some?;
    }
  }

  lemma NoManagedPlaceIsEmpty(w: Members, tool: Tool)
    requires tool == Claude ==> HasShape(w)
    requires forall q :: IsManaged(q, tool) ==> Get(w, q).None?
    ensures Projection(w, tool) == Some(map[])
  {
    hide Get;
    if tool == Codex {
      GetOne(w, LIMIT);
      GetOne(w, SCOPE);
      assert IsManaged([LIMIT], Codex) && IsManaged([SCOPE], Codex);
    } else {
      EmptyProjection(w);
      GetOne(w, WINDOW);
      assert IsManaged([WINDOW], Claude);
      hide Projection;
      forall k | k in ENV_KEYS ensures k !in Under(w, ENV) {
        GetTwo(w, ENV, k);
        assert IsManaged([ENV, k], Claude);
      }
      forall m | m in Under(w, MODELS) && Under(w, MODELS)[m].Object?
        ensures WINDOW !in Under(w, MODELS)[m].members
      {
        GetThree(w, MODELS, m, WINDOW);
        assert IsManaged([MODELS, m, WINDOW], Claude);
      }
    }
  }

  /** Clearing the paths of a plain projection leaves none. */
  lemma ClearedProjection(v: Members, w: Members, tool: Tool)
    requires Projection(v, tool).Some? && IsPlain(v, tool)
    requires IsCleared(v, Paths(Projection(v, tool).value), w)
    ensures Projection(w, tool) == Some(map[])
  {
    var r := Projection(v, tool).value;
    forall q | IsManaged(q, tool) ensures Get(w, q).None? {
      if Get(w, q).Some? {
        ProjectionGets(v, tool, q);
        PathsAreLeaves(r, q);
        assert false;
      }
    }
    if tool == Claude {
      ClearedHasShape(v, Paths(r), w);
    }
    NoManagedPlaceIsEmpty(w, tool);
  }

  /** A refresh of an object: every managed leaf is the default's, every other one is kept. */
  lemma RefreshedLeaf(v: Members, w: Members, d: Members, tool: Tool, p: Path)
    requires Projection(v, tool).Some? && IsPlain(v, tool) && AreDefaults(d, tool)
    requires IsCleared(v, Paths(Projection(v, tool).value), w) && Fits(w, d) && Mergeable(w, d)
    ensures Leaf(Merge(w, d), p) == if IsManaged(p, tool) then Leaf(d, p) else Leaf(v, p)
  {
    var r := Projection(v, tool).value;
    MergedLeaves(w, d, p);
    PathsAreLeaves(r, p);
    if IsManaged(p, tool) {
      ProjectionGets(v, tool, p);
    } else {
      if Leaf(d, p).Some? {
        ProjectionHasNoMore(d, tool, p);
      }
      if Leaf(r, p).Some? {
        ProjectionHasNoMore(v, tool, p);
      }
    }
  }

  // ---------------------------------------------------------------------------
  // The Codex file
  // ---------------------------------------------------------------------------

  /** A line of a TOML file. Settings after a table header belong to the table. */
  datatype Line = Assign(key: string, value: nat) | Table(name: string) | Comment(text: string)
  type Text = seq<Line>

  const BEGIN_LINE := Comment("# Begin Basaltwater context defaults")
  const END_LINE := Comment("# End Basaltwater context defaults")

  /** The top-level settings, or None when one is set twice. */
  function Parse(t: Text): Option<Members> {
    if t == [] then Some(map[])
    else match t[0]
      case Table(_) => Some(map[])
      case Comment(_) => Parse(t[1..])
      case Assign(k, x) =>
        var rest := Parse(t[1..]);
        if rest.Some? && k !in rest.value then Some(rest.value[k := Scalar(x)]) else None
  }

  function Entry(v: Members, k: string): Text {
    if k in v && v[k].Scalar? then [Assign(k, v[k].value)] else []
  }

  /** `_codex_block` */
  function Block(v: Members): Text {
    [BEGIN_LINE] + Entry(v, LIMIT) + Entry(v, SCOPE) + [END_LINE]
  }

  lemma ParseAfterComment(text: string, t: Text)
    ensures Parse([Comment(text)] + t) == Parse(t)
  {
    assert ([Comment(text)] + t)[1..] == t;
  }

  /** One more setting, if it is not there yet. */
  function With(settings: Option<Members>, v: Members, k: string): Option<Members> {
    if k !in v then settings
    else if settings.Some? && k !in settings.value then Some(settings.value[k := v[k]])
    else None
  }

  lemma ParseAfterEntry(v: Members, k: string, t: Text)
    requires k in v ==> v[k].Scalar?
    ensures Parse(Entry(v, k) + t) == With(Parse(t), v, k)
  {
    if k in v {
      assert ([Assign(k, v[k].value)] + t)[1..] == t;
    } else {
      assert [] + t == t;
    }
  }

  lemma BlockSplits(v: Members, t: Text)
    ensures Block(v) + t == [BEGIN_LINE] + (Entry(v, LIMIT) + (Entry(v, SCOPE) + ([END_LINE] + t)))
  {
    hide Entry;
  }

  lemma WithBoth(settings: Option<Members>, v: Members)
    requires v.Keys <= {LIMIT, SCOPE}
    ensures With(With(settings, v, SCOPE), v, LIMIT) ==
              if settings.Some? && settings.value.Keys !! v.Keys then Some(settings.value + v) else None
  {
    assert |LIMIT| != |SCOPE|;
    if settings.Some? {
      var m := settings.value;
      if m.Keys !! v.Keys {
        assert LIMIT in v ==> LIMIT in v.Keys && LIMIT !in m.Keys;
        assert SCOPE in v ==> SCOPE in v.Keys && SCOPE !in m.Keys;
        assert With(With(settings, v, SCOPE), v, LIMIT).value == m + v;
      } else {
        var k :| k in m.Keys && k in v.Keys;
        assert k == LIMIT || k == SCOPE;
      }
    }
  }

  /** Parsing a text behind a block of settings. */
  lemma ParseAfterBlock(v: Members, t: Text)
    requires v.Keys <= {LIMIT, SCOPE} && forall k :: k in v ==> v[k].Scalar?
    ensures Parse(Block(v) + t).Some? <==> Parse(t).Some? && Parse(t).value.Keys !! v.Keys
    ensures Parse(Block(v) + t).Some? ==> Parse(Block(v) + t).value == Parse(t).value + v
  {
    var ended := [END_LINE] + t;
    var scoped := Entry(v, SCOPE) + ended;
    BlockSplits(v, t);
    ParseAfterComment(BEGIN_LINE.text, Entry(v, LIMIT) + scoped);
    ParseAfterEntry(v, LIMIT, scoped);
    ParseAfterEntry(v, SCOPE, ended);
    ParseAfterComment(END_LINE.text, t);
    WithBoth(Parse(t), v);
    hide Parse, Entry, Block, With;
  }

  lemma {:induction false} ParsedIsScalar(t: Text)
    ensures Parse(t).Some? ==> forall k :: k in Parse(t).value ==> Parse(t).value[k].Scalar?
  {
    if t != [] {
      ParsedIsScalar(t[1..]);
    }
  }

  // ---------------------------------------------------------------------------
  // File and journal
  // ---------------------------------------------------------------------------

  /** The root of a JSON file is None when it does not parse. */
  datatype Document = Toml(text: Text) | JsonFile(root: Option<Json>)

  function TextOf(file: Option<Document>): Text {
    if file.Some? && file.value.Toml? then file.value.text else []
  }

  /** The settings of a file; None when it is malformed. */
  function Value(file: Option<Document>, tool: Tool): Option<Members> {
    if file.None? then Some(map[])
    else match (tool, file.value)
      case (Codex, Toml(t)) => Parse(t)
      case (Claude, JsonFile(Some(Object(m)))) => Some(m)
      case _ => None
  }

  function ProjectionOf(file: Option<Document>, tool: Tool): Option<Members> {
    if Value(file, tool).None? then None else Projection(Value(file, tool).value, tool)
  }

  datatype Record = Record(digest: Members, paths: set<Path>)
  datatype State = State(overridden: bool, active: Option<Record>, pending: Option<Record>)

  const FRESH := State(false, None, None)
  const OVERRIDDEN := State(true, None, None)

  datatype Disk = Disk(file: Option<Document>, stored: Option<State>)

  function StateOf(d: Disk): State {
    if d.stored.Some? then d.stored.value else FRESH
  }

  /** The record that the file is compared with. */
  function Chosen(s: State, projection: Members): Option<Record> {
    if s.pending.Some? && s.pending.value.digest == projection then s.pending else s.active
  }

  /** The file is as setup left it, or has nothing of setup's and was never setup's. */
  predicate IsOurs(s: State, projection: Members) {
    && !s.overridden
    && match Chosen(s, projection)
       case None => projection == map[]
       case Some(record) => record.digest == projection
  }

  /** A file that setup will refresh. */
  predicate MayRefresh(d: Disk, tool: Tool) {
    var s, projection := StateOf(d), ProjectionOf(d.file, tool);
    && projection.Some? && IsOurs(s, projection.value)
    && (Chosen(s, projection.value).Some? ==>
          && Chosen(s, projection.value).value.paths == Paths(projection.value)
          && (tool == Codex ==> Block(projection.value) <= TextOf(d.file)))
  }

  /** The journal holds records that setup made. */
  ghost predicate IsOwn(s: State, tool: Tool) {
    && (s.active.Some? ==> IsRecord(s.active.value, tool))
    && (s.pending.Some? ==> IsRecord(s.pending.value, tool))
  }

  ghost predicate IsRecord(r: Record, tool: Tool) {
    AreDefaults(r.digest, tool) && r.paths == Paths(r.digest)
  }

  /** What is behind the managed block of a Codex file. */
  function Outside(t: Text): Text {
    var projection := ProjectionOf(Some(Toml(t)), Codex);
    if projection.Some? && projection.value != map[] && Block(projection.value) <= t
    then t[|Block(projection.value)|..] else t
  }

  /** Nothing but managed preferences differs. */
  ghost predicate SameElsewhere(a: Option<Document>, b: Option<Document>, tool: Tool) {
    match tool
    case Codex => Outside(TextOf(a)) == Outside(TextOf(b))
    case Claude =>
      Value(a, tool).Some? && Value(b, tool).Some?
      && forall p :: !IsManaged(p, tool) ==> Leaf(Value(a, tool).value, p) == Leaf(Value(b, tool).value, p)
  }

  lemma OursIsPlain(d: Disk, tool: Tool)
    requires MayRefresh(d, tool) && IsOwn(StateOf(d), tool)
    ensures IsPlain(Value(d.file, tool).value, tool)
  {
    var v := Value(d.file, tool).value;
    var r := Projection(v, tool).value;
    forall p | IsManaged(p, tool) && Get(v, p).Some? ensures Get(v, p).value.Scalar? {
      ProjectionGets(v, tool, p);
      if r != map[] {
        assert AreDefaults(r, tool);
        ProjectionGets(r, tool, p);
      }
    }
  }

  /** The block and what is behind it make up a Codex file. */
  lemma CodexParts(t: Text, d: Members)
    requires Parse(t).Some? && AreDefaults(d, Codex)
    requires var r := Restrict(Parse(t).value, {LIMIT, SCOPE}); r != map[] ==> Block(r) <= t
    ensures Parse(Block(d) + Outside(t)).Some?
    ensures Projection(Parse(Block(d) + Outside(t)).value, Codex) == Some(d)
    ensures Outside(Block(d) + Outside(t)) == Outside(t)
  {
    ParsedIsScalar(t);
    var r := Restrict(Parse(t).value, {LIMIT, SCOPE});
    var rest := Outside(t);
    if r == map[] {
      assert rest == t;
      forall k | k in {LIMIT, SCOPE} ensures k !in Parse(rest).value {
        assert k !in r;
      }
    } else {
      assert t == Block(r) + rest;
      ParseAfterBlock(r, rest);
      forall k | k in {LIMIT, SCOPE} ensures k !in Parse(rest).value {
        assert k in r ==> k in r.Keys;
      }
    }
    assert Parse(rest).Some?;
    CodexBehind(d, rest);
  }

  lemma CodexBehind(d: Members, rest: Text)
    requires AreDefaults(d, Codex) && Parse(rest).Some?
    requires forall k :: k in {LIMIT, SCOPE} ==> k !in Parse(rest).value
    ensures Parse(Block(d) + rest).Some?
    ensures Projection(Parse(Block(d) + rest).value, Codex) == Some(d)
    ensures Outside(Block(d) + rest) == rest
  {
    assert Restrict(d, {LIMIT, SCOPE}) == d;
    assert d.Keys <= {LIMIT, SCOPE};
    forall k | k in d ensures d[k].Scalar? {
      GetOne(d, k);
      assert IsManaged([k], Codex);
    }
    ParseAfterBlock(d, rest);
    hide Parse, Block, Get;
    assert Restrict(Parse(Block(d) + rest).value, {LIMIT, SCOPE}) == d;
    assert (Block(d) + rest)[|Block(d)|..] == rest;
  }

  // ---------------------------------------------------------------------------
  // Runs
  // ---------------------------------------------------------------------------

  datatype Outcome = Preserved | UpToDate | Refreshed
  datatype Error = InvalidFile | PathsDiffer | Raced

  /** Nothing of setup's is left for the paths to clear when no record was chosen. */
  lemma NothingToClear(v: Members)
    ensures IsCleared(v, {}, v)
  {}

  lemma PathsResolve(v: Members, tool: Tool, p: Path)
    requires Projection(v, tool).Some? && IsPlain(v, tool) && p in Paths(Projection(v, tool).value)
    ensures Leaf(v, p).Some?
  {
    var r := Projection(v, tool).value;
    PathsAreLeaves(r, p);
    ProjectionHasNoMore(v, tool, p);
    ProjectionGets(v, tool, p);
  }

  /** The settings with the new defaults instead of the managed preferences. */
  method Renew(v: Members, tool: Tool, known: bool, d: Members) returns (renewed: Members)
    requires Projection(v, tool).Some? && IsPlain(v, tool) && AreDefaults(d, tool)
    requires !known ==> Projection(v, tool).value == map[]
    ensures Projection(renewed, tool) == Some(d)
    ensures forall p :: Leaf(renewed, p) == if IsManaged(p, tool) then Leaf(d, p) else Leaf(v, p)
  {
    hide Projection, Merge, Mergeable, Leaf, IsManaged, Fits, IsCleared, AreDefaults, IsPlain, Paths;
    var w := v;
    var r := Projection(v, tool).value;
    if known {
      forall p | p in Paths(r) ensures Leaf(v, p).Some? {
        PathsResolve(v, tool, p);
      }
      w := RemovePaths(v, Paths(r));
    } else {
      NoPaths();
      NothingToClear(v);
    }
    ClearedProjection(v, w, tool);
    DefaultsFit(w, d, tool);
    MergedProjection(w, d, tool);
    renewed := Merge(w, d);
    forall p ensures Leaf(renewed, p) == if IsManaged(p, tool) then Leaf(d, p) else Leaf(v, p) {
      RefreshedLeaf(v, w, d, tool, p);
    }
  }

  lemma NoPaths()
    ensures Paths(map[]) == {}
  {}

  datatype Writer = Setup | User

  /** A state of the disk, and who brought it about. */
  datatype Change = Change(writer: Writer, disk: Disk)

  /** Setup replaces the file: by the defaults in its journal, and nothing else differs. */
  ghost predicate Writes(before: Disk, after: Disk, tool: Tool) {
    && after.stored == before.stored && StateOf(before).pending.Some?
    && ProjectionOf(after.file, tool) == Some(StateOf(before).pending.value.digest)
    && SameElsewhere(before.file, after.file, tool)
  }

  /** What may happen at a step: a user leaves the journal alone; setup replaces a file only if
      the journal knew it, now or before, and nothing at all once it is overridden. */
  ghost predicate IsRightfulAt(trace: seq<Change>, i: nat, tool: Tool)
    requires 0 < i < |trace|
  {
    var before, after := trace[i - 1].disk, trace[i].disk;
    match trace[i].writer
    case User => after.stored == before.stored
    case Setup =>
      && (StateOf(before).overridden ==> after.file == before.file && StateOf(after).overridden)
      && (after.file != before.file ==> Writes(before, after, tool) && WasKnown(trace, i, before.file, tool))
  }

  /** The journal knew the file at most three steps ago, before the journal entry of this
      refresh, which has only replaced the pending record, and what a user wrote meanwhile. */
  ghost predicate WasKnown(trace: seq<Change>, i: nat, file: Option<Document>, tool: Tool)
    requires 0 < i <= |trace|
  {
    exists k :: 0 <= k < i <= k + 3
      && MayRefresh(Disk(file, trace[k].disk.stored), tool) && OnlyPendingDiffers(trace[k].disk, trace[i - 1].disk)
  }

  predicate OnlyPendingDiffers(a: Disk, b: Disk) {
    StateOf(b) == StateOf(a).(pending := StateOf(b).pending)
  }

  ghost predicate IsRightful(trace: seq<Change>, tool: Tool) {
    && trace != []
    && (forall i :: 0 <= i < |trace| ==> IsOwn(StateOf(trace[i].disk), tool))
    && (forall i :: 0 < i < |trace| ==> IsRightfulAt(trace, i, tool))
  }

  lemma RightfulLater(trace: seq<Change>, change: Change, tool: Tool)
    requires IsRightful(trace, tool) && IsOwn(StateOf(change.disk), tool)
    requires var all := trace + [change]; IsRightfulAt(all, |trace|, tool)
    ensures IsRightful(trace + [change], tool)
  {
    var all := trace + [change];
    hide IsOwn, MayRefresh, Writes;
    forall i | 0 < i < |trace| ensures IsRightfulAt(all, i, tool) {
      assert all[..i + 1] == trace[..i + 1];
      SamePast(trace, all, i, tool);
    }
  }

  lemma KnownLater(trace: seq<Change>, all: seq<Change>, i: nat, j: nat, file: Option<Document>, tool: Tool)
    requires 0 < i <= |trace| && i <= j <= |all| && all[j - i..j] == trace[..i]
    ensures WasKnown(trace, i, file, tool) ==> WasKnown(all, j, file, tool)
  {
    hide MayRefresh, OnlyPendingDiffers;
    if WasKnown(trace, i, file, tool) {
      var k :| 0 <= k < i <= k + 3
        && MayRefresh(Disk(file, trace[k].disk.stored), tool) && OnlyPendingDiffers(trace[k].disk, trace[i - 1].disk);
      assert all[j - i..j][k] == trace[..i][k] && all[j - i..j][i - 1] == trace[..i][i - 1];
      assert MayRefresh(Disk(file, all[j - i + k].disk.stored), tool);
    }
  }

  datatype Verdict = Override | Mismatch | Proceed(known: bool)

  /** The part of `_seed_locked` that compares journal and file. */
  method Decide(d: Disk, projection: Members, tool: Tool) returns (verdict: Verdict)
    requires ProjectionOf(d.file, tool) == Some(projection) && IsOwn(StateOf(d), tool)
    ensures verdict.Proceed? <==> MayRefresh(d, tool)
    ensures verdict.Proceed? ==> verdict.known == Chosen(StateOf(d), projection).Some?
    ensures verdict != Mismatch
  {
    hide AreDefaults, Projection, Paths, Parse, Block, TextOf;
    var state := StateOf(d);
    var active := state.active;
    if state.pending.Some? && state.pending.value.digest == projection {
      active := state.pending;
    } else if active.Some? && active.value.digest != projection {
      state := state.(overridden := true);
    }
    if state.overridden || (active.None? && projection != map[]) {
      return Override;
    }
    if active.Some? && active.value.paths != Paths(projection) {
      return Mismatch;
    }
    if active.Some? && tool == Codex && !(Block(projection) <= TextOf(d.file)) {
      return Override;
    }
    return Proceed(active.Some?);
  }

  lemma KnownFile(disk: Disk, v: Members, d: Members, tool: Tool)
    requires MayRefresh(disk, tool) && Value(disk.file, tool) == Some(v) && AreDefaults(d, tool)
    ensures !StateOf(disk).overridden && Projection(v, tool).Some?
    ensures ProjectionOf(disk.file, tool) == Projection(v, tool)
    ensures Projection(v, tool) == Some(d) && tool == Codex ==> Block(d) <= TextOf(disk.file)
  {
    NotEmpty(d, tool);
    hide AreDefaults, Projection, Paths, Block, TextOf;
  }

  lemma UnreadableIsNotOurs(d: Disk, tool: Tool)
    requires ProjectionOf(d.file, tool).None?
    ensures !MayRefresh(d, tool)
  {}

  /** One configuration file. A new object is one run of setup: its history has every state
      that an interruption can leave behind. */
  class Seeder {
    const tool: Tool
    var file: Option<Document>
    var stored: Option<State>
    var history: seq<Change>

    function Now(): Disk
      reads `file, `stored
    {
      Disk(file, stored)
    }

    ghost predicate Valid()
      reads `file, `stored, `history
    {
      IsRightful(history, tool) && history[|history| - 1].disk == Now()
    }

    constructor (d: Disk, tool: Tool)
      requires IsOwn(StateOf(d), tool)
      ensures Valid() && Now() == d && history == [Change(Setup, d)] && this.tool == tool
    {
      this.tool := tool;
      file, stored := d.file, d.stored;
      history := [Change(Setup, d)];
    }

    method Save(state: State)
      requires Valid() && IsOwn(state, tool) && (StateOf(Now()).overridden ==> state.overridden)
      modifies `stored, `history
      ensures Valid() && stored == Some(state) && history == old(history) + [Change(Setup, Now())]
    {
      hide IsOwn, MayRefresh, Writes;
      stored := Some(state);
      RightfulLater(history, Change(Setup, Now()), tool);
      history := history + [Change(Setup, Now())];
    }

    method SetFile(content: Option<Document>)
      requires Valid() && !StateOf(Now()).overridden && Writes(Now(), Disk(content, stored), tool)
      requires WasKnown(history, |history|, file, tool)
      modifies `file, `history
      ensures Valid() && file == content && history == old(history) + [Change(Setup, Now())]
    {
      hide IsOwn, MayRefresh, Writes;
      var next := Change(Setup, Disk(content, stored));
      KnownLater(history, history + [next], |history|, |history|, file, tool);
      RightfulLater(history, next, tool);
      file := content;
      history := history + [next];
    }

    /** A user writes the file meanwhile. */
    method Edit(content: Option<Document>)
      requires Valid()
      modifies `file, `history
      ensures Valid() && file == content && history == old(history) + [Change(User, Now())]
    {
      hide IsOwn, MayRefresh, Writes;
      RightfulLater(history, Change(User, Disk(content, stored)), tool);
      file := content;
      history := history + [Change(User, Now())];
    }

    /** The text of a refreshed file: a new block before the rest of the old text, or the
        renewed object. */
    method Compose(v: Members, known: bool, d: Members) returns (content: Document)
      requires AreDefaults(d, tool) && MayRefresh(Now(), tool) && IsOwn(StateOf(Now()), tool)
      requires Value(file, tool) == Some(v)
      requires known == Chosen(StateOf(Now()), Projection(v, tool).value).Some?
      ensures ProjectionOf(Some(content), tool) == Some(d) && SameElsewhere(file, Some(content), tool)
      ensures tool == Codex ==> Block(d) <= TextOf(Some(content))
    {
      if tool == Codex {
        RestIsOutside(Now(), known);
        CodexParts(TextOf(file), d);
        hide AreDefaults, Parse, Block, IsManaged, Outside, MayRefresh, IsOwn, Restrict;
        var oldBlock := if known then Block(Projection(v, tool).value) else [];
        content := Toml(Block(d) + TextOf(file)[|oldBlock|..]);
      } else {
        OursIsPlain(Now(), tool);
        hide AreDefaults, Projection, IsPlain, Paths, Leaf, IsManaged, Block, Outside, Parse;
        var renewed := Renew(v, tool, known, d);
        hide MayRefresh, IsOwn;
        content := JsonFile(Some(Object(renewed)));
        LeavesElsewhere(file, renewed, d);
      }
    }

    /** The journal entry, the check that nobody wrote meanwhile, the file, the journal. */
    method Publish(content: Document, state: State, record: Record, edit: Option<Option<Document>>)
      returns (r: Result<Outcome, Error>)
      requires Valid() && state == StateOf(Now()) && !state.overridden && IsOwn(state, tool) && IsRecord(record, tool)
      requires MayRefresh(Now(), tool)
      requires ProjectionOf(Some(content), tool) == Some(record.digest) && SameElsewhere(file, Some(content), tool)
      modifies `file, `stored, `history
      ensures Valid() && old(history) <= history
      ensures edit.Some? && edit.value != old(file) ==> file == edit.value
      ensures edit.None? ==>
                && r == Success(Refreshed) && file == Some(content)
                && stored == Some(state.(active := Some(record), pending := None))
                && history == old(history) + [Change(Setup, Disk(old(file), Some(state.(pending := Some(record))))),
                                              Change(Setup, Disk(file, Some(state.(pending := Some(record))))),
                                              Change(Setup, Now())]
    {
      hide MayRefresh, ProjectionOf, SameElsewhere, IsRightful, IsRecord;
      var previous := file;
      KnownNow();
      ghost var known: nat := |history| - 1;
      Save(state.(pending := Some(record)));
      if edit.Some? {
        Edit(edit.value);
      }
      if file != previous {
        return Failure(Raced);
      }
      assert history[known].disk == old(Now()) && |history| <= known + 3;
      assert OnlyPendingDiffers(history[known].disk, history[|history| - 1].disk) by {
        KnownNow();
      }
      SetFile(Some(content));
      Save(state.(active := Some(record), pending := None));
      return Success(Refreshed);
    }

    lemma KnownNow()
      requires Valid()
      ensures history != [] && history[|history| - 1].disk == Now()
    {}

    /** From the index on, the history has nothing but the steps of an undisturbed refresh. */
    ghost predicate PassesThrough(from: nat, start: Disk, d: Members)
      reads `file, `stored, `history
    {
      forall i :: from <= i < |history| ==> IsStepOf(start, Now(), d, history[i].disk)
    }

    /** The part of `_seed_locked` after the file was found to be setup's. `edit` is what a
        user writes between the first journal entry and the check before the file is replaced. */
    method Refresh(v: Members, known: bool, d: Members, edit: Option<Option<Document>>)
      returns (r: Result<Outcome, Error>)
      requires Valid() && AreDefaults(d, tool) && MayRefresh(Now(), tool) && IsOwn(StateOf(Now()), tool)
      requires Value(file, tool) == Some(v)
      requires known == Chosen(StateOf(Now()), Projection(v, tool).value).Some?
      modifies `file, `stored, `history
      ensures Valid() && old(history) <= history
      ensures edit.Some? && edit.value != old(file) ==> file == old(file) || file == edit.value
      ensures edit.None? ==>
                r.Success? && IsRefreshed(old(Now()), Now(), d, tool) && PassesThrough(|old(history)|, old(Now()), d)
    {
      hide AreDefaults, Projection, Paths, Parse, Block, Leaf, IsManaged, SameElsewhere, IsRightful, MayRefresh,
           ProjectionOf, Value, IsOwn, TextOf;
      RecordsAreOwn(StateOf(Now()), d, tool);
      KnownFile(Now(), v, d, tool);
      SettledMayRefresh(d, tool);
      SameAsItself(file, tool);
      var state := StateOf(Now());
      var projection := Projection(v, tool).value;
      var record := Record(d, Paths(d));
      if d == projection {
        Save(state.(active := Some(record), pending := None));
        return Success(UpToDate);
      }
      var content := Compose(v, known, d);
      r := Publish(content, state, record, edit);
    }

    /** `_seed_locked`. Every state on the way is rightful: `Valid` says so of the history. */
    method Seed(d: Members, edit: Option<Option<Document>>) returns (r: Result<Outcome, Error>)
      requires Valid() && AreDefaults(d, tool)
      modifies `file, `stored, `history
      ensures Valid() && old(history) <= history
      ensures !MayRefresh(old(Now()), tool) ==> file == old(file)
      ensures edit.Some? && edit.value != old(file) ==> file == old(file) || file == edit.value
      ensures StateOf(old(Now())).overridden ==> StateOf(Now()).overridden
      ensures !MayRefresh(old(Now()), tool) && ProjectionOf(old(file), tool).Some? ==>
                r == Success(Preserved) && stored == Some(State(true, None, None))
      ensures ProjectionOf(old(file), tool).None? ==> r == Failure(InvalidFile) && Now() == old(Now())
      ensures MayRefresh(old(Now()), tool) && edit.None? ==>
                r.Success? && IsRefreshed(old(Now()), Now(), d, tool) && PassesThrough(|old(history)|, old(Now()), d)
    {
      JournalsAreOwn();
      hide AreDefaults, Projection, Paths, Parse, Block, Leaf, IsManaged, IsRightful, IsOwn, PassesThrough, TextOf,
           IsRefreshed, MayRefresh, Chosen;
      var value := Value(file, tool);
      if value.None? || Projection(value.value, tool).None? {
        assert !MayRefresh(Now(), tool) by { UnreadableIsNotOurs(Now(), tool); }
        return Failure(InvalidFile);
      }
      var verdict := Decide(Now(), Projection(value.value, tool).value, tool);
      match verdict {
        case Override =>
          Save(OVERRIDDEN);
          return Success(Preserved);
        case Mismatch =>
          return Failure(PathsDiffer);
        case Proceed(known) =>
          r := Refresh(value.value, known, d, edit);
      }
    }

    lemma JournalsAreOwn()
      requires Valid()
      ensures IsOwn(StateOf(Now()), tool) && IsOwn(OVERRIDDEN, tool)
    {
      assert IsOwn(OVERRIDDEN, tool);
      hide IsOwn;
    }
  }

  /** The records of a refresh are such as setup makes. */
  lemma RecordsAreOwn(s: State, d: Members, tool: Tool)
    requires AreDefaults(d, tool)
    ensures IsRecord(Record(d, Paths(d)), tool) && IsOwn(s.(active := Some(Record(d, Paths(d))), pending := None), tool)
  {
    hide AreDefaults, Paths;
  }

  /** The defaults are in the file and on record, and nothing else differs. */
  ghost predicate IsRefreshed(start: Disk, end: Disk, d: Members, tool: Tool) {
    && MayRefresh(end, tool) && ProjectionOf(end.file, tool) == Some(d) && SameElsewhere(start.file, end.file, tool)
    && end.stored == Some(State(false, Some(Record(d, Paths(d))), None))
  }

  /** The states between start and end of a refresh that nothing interferes with. */
  ghost predicate IsStepOf(start: Disk, end: Disk, d: Members, step: Disk) {
    || step == end
    || ((step.file == start.file || step.file == end.file)
        && step.stored == Some(StateOf(start).(pending := Some(Record(d, Paths(d))))))
  }

  /** A file whose projection is on record as active may be refreshed. */
  lemma SettledMayRefresh(d: Members, tool: Tool)
    ensures forall file ::
              ProjectionOf(file, tool) == Some(d) && (tool == Codex ==> Block(d) <= TextOf(file)) ==>
                MayRefresh(Disk(file, Some(State(false, Some(Record(d, Paths(d))), None))), tool)
  {
    hide ProjectionOf, TextOf, Block, Paths;
  }

  lemma SameAsItself(file: Option<Document>, tool: Tool)
    requires Value(file, tool).Some?
    ensures SameElsewhere(file, file, tool)
  {}

  lemma LeavesElsewhere(file: Option<Document>, renewed: Members, d: Members)
    requires Value(file, Claude).Some?
    requires forall p :: Leaf(renewed, p) ==
                         if IsManaged(p, Claude) then Leaf(d, p) else Leaf(Value(file, Claude).value, p)
    ensures SameElsewhere(file, Some(JsonFile(Some(Object(renewed)))), Claude)
  {
    hide Leaf, IsManaged;
  }

  /** `previous[len(old_block):]` */
  lemma RestIsOutside(d: Disk, known: bool)
    requires MayRefresh(d, Codex) && IsOwn(StateOf(d), Codex)
    requires known == Chosen(StateOf(d), ProjectionOf(d.file, Codex).value).Some?
    ensures var r := ProjectionOf(d.file, Codex).value;
            && r == Restrict(Parse(TextOf(d.file)).value, {LIMIT, SCOPE})
            && (known <==> r != map[]) && (known ==> Block(r) <= TextOf(d.file))
            && TextOf(d.file)[|if known then Block(r) else []|..] == Outside(TextOf(d.file))
  {
    var t := TextOf(d.file);
    assert t[0..] == t;
    assert Parse([]) == Some(map[]);
    hide Block, IsPlain;
  }

  // ---------------------------------------------------------------------------
  // Interrupted runs
  // ---------------------------------------------------------------------------

  function Journalled(start: Disk, d: Members): State {
    StateOf(start).(pending := Some(Record(d, Paths(d))))
  }

  /** The first journal entry of a refresh replaces the pending record while the active one
      stays. Interrupted there, the file is still recognised exactly when it does not depend
      on the record replaced. */
  lemma JournalledStart(start: Disk, d: Members, tool: Tool)
    requires MayRefresh(start, tool) && IsOwn(StateOf(start), tool) && AreDefaults(d, tool)
    ensures var projection, active := ProjectionOf(start.file, tool).value, StateOf(start).active;
            MayRefresh(Disk(start.file, Some(Journalled(start, d))), tool) <==>
              || projection == d || (active.Some? && active.value.digest == projection)
              || (active.None? && projection == map[])
  {
    hide AreDefaults, ProjectionOf, Block, Paths, TextOf;
    assert AreDefaults(d, tool);
    assert StateOf(start).active.Some? ==>
             StateOf(start).active.value.paths == Paths(StateOf(start).active.value.digest);
    NotEmpty(d, tool);
    if StateOf(start).active.Some? {
      NotEmpty(StateOf(start).active.value.digest, tool);
    }
    if StateOf(start).pending.Some? {
      NotEmpty(StateOf(start).pending.value.digest, tool);
    }
  }

  lemma NotEmpty(d: Members, tool: Tool)
    requires AreDefaults(d, tool)
    ensures d != map[]
  {}

  /** Interrupted after the file was replaced, it is always recognised. */
  lemma JournalledEnd(start: Disk, end: Disk, d: Members, tool: Tool)
    requires MayRefresh(start, tool) && MayRefresh(end, tool) && ProjectionOf(end.file, tool) == Some(d)
    requires end.stored == Some(State(false, Some(Record(d, Paths(d))), None))
    ensures MayRefresh(Disk(end.file, Some(Journalled(start, d))), tool)
  {
    hide ProjectionOf, Block, Paths, TextOf;
  }

  /** Defaults that change between two interrupted refreshes: the file of the first is no
      longer known after the journal entry of the second, and becomes a user override. */
  lemma ChangedDefaultsLoseTrack(start: Disk, d: Members, tool: Tool)
    requires MayRefresh(start, tool) && IsOwn(StateOf(start), tool) && AreDefaults(d, tool)
    requires StateOf(start).active.Some? && StateOf(start).pending.Some?
    requires ProjectionOf(start.file, tool) == Some(StateOf(start).pending.value.digest)
    requires StateOf(start).pending.value.digest != StateOf(start).active.value.digest
    requires d != StateOf(start).pending.value.digest
    ensures !MayRefresh(Disk(start.file, Some(Journalled(start, d))), tool)
  {
    JournalledStart(start, d, tool);
  }

  /** A state that refreshes with the same defaults keep. */
  ghost predicate IsSteady(disk: Disk, d: Members, tool: Tool) {
    && MayRefresh(disk, tool) && IsOwn(StateOf(disk), tool)
    && (StateOf(disk).pending.Some? ==> StateOf(disk).pending.value.digest == d)
  }

  lemma JournalIsOwn(start: Disk, d: Members, tool: Tool)
    requires IsOwn(StateOf(start), tool) && AreDefaults(d, tool)
    ensures IsOwn(Journalled(start, d), tool)
    ensures Journalled(start, d).pending.value.digest == d
  {
    hide AreDefaults, Paths;
  }

  lemma SteadyKeepsTrack(start: Disk, d: Members, tool: Tool)
    requires IsSteady(start, d, tool) && AreDefaults(d, tool)
    ensures MayRefresh(Disk(start.file, Some(Journalled(start, d))), tool)
  {
    JournalledStart(start, d, tool);
    hide AreDefaults, ProjectionOf, Block, Paths, TextOf, IsOwn;
  }

  lemma StepStaysSteady(start: Disk, end: Disk, d: Members, tool: Tool, step: Disk)
    requires IsSteady(start, d, tool) && AreDefaults(d, tool) && MayRefresh(end, tool)
    requires ProjectionOf(end.file, tool) == Some(d)
    requires end.stored == Some(State(false, Some(Record(d, Paths(d))), None))
    requires IsStepOf(start, end, d, step)
    ensures IsSteady(step, d, tool) && (step.file == start.file || step.file == end.file)
  {
    SteadyKeepsTrack(start, d, tool);
    JournalledEnd(start, end, d, tool);
    JournalIsOwn(start, d, tool);
    EndIsSteady(end, d, tool);
    assert step == end || step == Disk(step.file, Some(Journalled(start, d)));
    hide AreDefaults, ProjectionOf, Block, Paths, TextOf, MayRefresh, IsOwn, Journalled;
  }

  /** With the same defaults, whatever the interruptions: the file is always recognised as
      setup's own, nothing but managed preferences ever changes in it, and the next run that
      is not interrupted leaves the defaults in it. */
  method SteadyLifetime(start: Disk, tool: Tool, d: Members, cuts: seq<nat>) returns (disks: seq<Disk>)
    requires AreDefaults(d, tool) && IsSteady(start, d, tool)
    ensures forall disk :: disk in disks ==>
              IsSteady(disk, d, tool) && SameElsewhere(start.file, disk.file, tool)
    ensures disks != [] && ProjectionOf(disks[|disks| - 1].file, tool) == Some(d)
  {
    hide AreDefaults, SameElsewhere, MayRefresh, IsOwn, IsStepOf, Paths, Block, Projection, Value, IsRightful;
    disks := [start];
    var last := start;
    RecognisedIsSame(start, tool);
    for i := 0 to |cuts| + 1
      invariant last in disks && (i > |cuts| ==> disks[|disks| - 1] == last)
      invariant i > |cuts| ==> ProjectionOf(last.file, tool) == Some(d)
      invariant forall disk :: disk in disks ==>
                  IsSteady(disk, d, tool) && SameElsewhere(start.file, disk.file, tool)
    {
      var seeder := new Seeder(last, tool);
      var r := seeder.Seed(d, None);
      ghost var end := seeder.Now();
      SameTransitively(start.file, last.file, end.file, tool);
      var passed := seq(|seeder.history|, k requires 0 <= k < |seeder.history| reads seeder => seeder.history[k].disk);
      forall k | 0 <= k < |passed|
        ensures IsSteady(passed[k], d, tool) && SameElsewhere(start.file, passed[k].file, tool)
      {
        if k > 0 {
          StepStaysSteady(last, end, d, tool, passed[k]);
        }
      }
      EndIsSteady(end, d, tool);
      if i == |cuts| {
        disks := disks + passed + [seeder.Now()];
        last := seeder.Now();
      } else {
        var left := if cuts[i] < |passed| then passed[..cuts[i] + 1] else passed;
        disks := disks + left;
        last := left[|left| - 1];
      }
    }
  }

  /** A user may write the file before a run and in the middle of it; the run has its own
      defaults, and may be cut off. */
  datatype Visit = Visit(before: Option<Option<Document>>, defaults: Members, during: Option<Option<Document>>,
                         cut: nat)

  lemma Spliced(trace: seq<Change>, run: seq<Change>, tool: Tool)
    requires IsRightful(trace, tool) && IsRightful(run, tool)
    requires trace[|trace| - 1].disk == run[0].disk
    ensures IsRightful(trace + run[1..], tool)
  {
    var all, n := trace + run[1..], |trace| - 1;
    hide IsOwn, MayRefresh, Writes;
    assert forall i :: 0 < i < |run| ==> all[n + i] == run[i];
    forall i | 0 < i < |all| ensures IsRightfulAt(all, i, tool) {
      if i <= n {
        assert all[..i + 1] == trace[..i + 1];
        SamePast(trace, all, i, tool);
      } else {
        SplicedAt(trace, run, i - n, tool);
      }
      hide IsRightfulAt;
    }
    hide IsRightfulAt;
  }

  lemma SamePast(trace: seq<Change>, all: seq<Change>, i: nat, tool: Tool)
    requires 0 < i < |trace| && i < |all| && all[..i + 1] == trace[..i + 1] && IsRightfulAt(trace, i, tool)
    ensures IsRightfulAt(all, i, tool)
  {
    hide MayRefresh, Writes;
    assert forall k :: 0 <= k <= i ==> all[k] == all[..i + 1][k] && trace[k] == trace[..i + 1][k];
    assert all[i - i..i] == trace[..i];
    KnownLater(trace, all, i, i, trace[i - 1].disk.file, tool);
  }

  lemma SplicedAt(trace: seq<Change>, run: seq<Change>, i: nat, tool: Tool)
    requires trace != [] && 0 < i < |run| && trace[|trace| - 1].disk == run[0].disk
    requires IsRightfulAt(run, i, tool)
    ensures IsRightfulAt(trace + run[1..], |trace| - 1 + i, tool)
  {
    var all, n := trace + run[1..], |trace| - 1;
    hide MayRefresh, Writes, OnlyPendingDiffers;
    assert all[n + i] == run[i] && all[n + i - 1].disk == run[i - 1].disk;
    var file := run[i - 1].disk.file;
    if WasKnown(run, i, file, tool) {
      var k :| 0 <= k < i <= k + 3
        && MayRefresh(Disk(file, run[k].disk.stored), tool) && OnlyPendingDiffers(run[k].disk, run[i - 1].disk);
      assert all[n + k].disk == run[k].disk;
      assert MayRefresh(Disk(file, all[n + k].disk.stored), tool);
    }
  }

  lemma CutOff(trace: seq<Change>, n: nat, tool: Tool)
    requires IsRightful(trace, tool) && 0 < n <= |trace|
    ensures IsRightful(trace[..n], tool)
  {
    var left := trace[..n];
    hide IsOwn, IsRightfulAt;
    forall i | 0 < i < n ensures IsRightfulAt(left, i, tool) {
      assert left[..i + 1] == trace[..i + 1];
      SamePast(trace, left, i, tool);
    }
  }

  /** Any runs, with any defaults, edits and interruptions: setup only ever replaces a file
      that its journal knew, nothing but managed preferences differs then, and nothing is
      replaced after an override. */
  method Lifetime(start: Disk, tool: Tool, visits: seq<Visit>) returns (trace: seq<Change>)
    requires IsOwn(StateOf(start), tool)
    requires forall visit :: visit in visits ==> AreDefaults(visit.defaults, tool)
    ensures IsRightful(trace, tool) && trace[0].disk == start
  {
    hide AreDefaults, SameElsewhere, MayRefresh, IsOwn, IsRightfulAt;
    trace := [Change(Setup, start)];
    for i := 0 to |visits|
      invariant IsRightful(trace, tool) && trace[0].disk == start
    {
      var seeder := new Seeder(trace[|trace| - 1].disk, tool);
      assert visits[i] in visits;
      if visits[i].before.Some? {
        seeder.Edit(visits[i].before.value);
      }
      var r := seeder.Seed(visits[i].defaults, visits[i].during);
      var n := if visits[i].cut < |seeder.history| then visits[i].cut + 1 else |seeder.history|;
      CutOff(seeder.history, n, tool);
      Spliced(trace, seeder.history[..n], tool);
      trace := trace + seeder.history[..n][1..];
    }
  }

  /** Once overridden, always overridden, and setup leaves the file to the user. */
  lemma {:induction false} OverrideIsAbsorbing(trace: seq<Change>, tool: Tool, i: nat, j: nat)
    requires IsRightful(trace, tool) && i <= j < |trace| && StateOf(trace[i].disk).overridden
    ensures StateOf(trace[j].disk).overridden
    ensures i < j && trace[j].writer == Setup ==> trace[j].disk.file == trace[j - 1].disk.file
  {
    hide IsOwn, MayRefresh, Writes;
    if i < j {
      OverrideIsAbsorbing(trace, tool, i, j - 1);
      assert IsRightfulAt(trace, j, tool);
    }
  }

  /** As long as only setup writes, whatever its defaults, nothing but managed preferences
      changes: the text outside the block stays, and so does every other leaf. */
  lemma {:induction false} OtherTextIsPreserved(trace: seq<Change>, tool: Tool, i: nat, j: nat)
    requires IsRightful(trace, tool) && i <= j < |trace|
    requires forall k :: i < k <= j ==> trace[k].writer == Setup
    ensures trace[j].disk.file == trace[i].disk.file || SameElsewhere(trace[i].disk.file, trace[j].disk.file, tool)
  {
    hide IsOwn, MayRefresh, SameElsewhere;
    if i < j {
      OtherTextIsPreserved(trace, tool, i, j - 1);
      assert IsRightfulAt(trace, j, tool);
      if trace[j].disk.file != trace[j - 1].disk.file && trace[j - 1].disk.file != trace[i].disk.file {
        SameTransitively(trace[i].disk.file, trace[j - 1].disk.file, trace[j].disk.file, tool);
      }
    }
  }

  lemma EndIsSteady(end: Disk, d: Members, tool: Tool)
    requires AreDefaults(d, tool) && MayRefresh(end, tool)
    requires end.stored == Some(State(false, Some(Record(d, Paths(d))), None))
    ensures IsSteady(end, d, tool)
  {}

  lemma RecognisedIsSame(d: Disk, tool: Tool)
    requires MayRefresh(d, tool)
    ensures SameElsewhere(d.file, d.file, tool)
  {}

  lemma SameTransitively(a: Option<Document>, b: Option<Document>, c: Option<Document>, tool: Tool)
    requires SameElsewhere(a, b, tool) && SameElsewhere(b, c, tool)
    ensures SameElsewhere(a, c, tool)
  {
    hide Outside, Value, Leaf, IsManaged;
  }

  // ---------------------------------------------------------------------------
  // The OpenCode plugin, a file of its own
  // ---------------------------------------------------------------------------

  datatype PluginState = PluginState(disabled: bool, active: Option<nat>, pending: Option<nat>)
  datatype PluginError = Unsupported | PluginRaced

  const NO_PLUGIN := PluginState(false, None, None)

  /** The file is one that setup wrote, or there never was one. */
  predicate MayInstall(s: PluginState, file: Option<nat>) {
    !s.disabled && if file.None? then s.active.None? else file == s.active || file == s.pending
  }

  /** `_install_opencode_context`; contents are known by their digests. */
  class Plugin {
    var file: Option<nat>
    var stored: Option<PluginState>
    var history: seq<(Option<nat>, PluginState)>

    function State(): PluginState
      reads `stored
    {
      if stored.Some? then stored.value else NO_PLUGIN
    }

    method Save(state: PluginState)
      modifies `stored, `history
      ensures stored == Some(state) && history == old(history) + [(file, state)]
    {
      stored := Some(state);
      history := history + [(file, state)];
    }

    /** A plugin that the user changed, removed or brought is never touched, and never again;
        another one becomes the content. Interrupted anywhere, the file stays recognised
        exactly when it does not depend on the pending record that is replaced first. */
    method Install(content: nat, supported: bool, edit: Option<Option<nat>>) returns (r: Result<bool, PluginError>)
      requires history == []
      modifies this
      ensures !MayInstall(old(State()), old(file)) ==>
                r == Success(false) && file == old(file) && State() == old(State()).(disabled := true, pending := None)
      ensures old(State()).disabled ==> State().disabled
      ensures r == Success(true) ==> file == Some(content) && State() == PluginState(false, Some(content), None)
      ensures r.Failure? ==> file == old(file) || (edit.Some? && file == edit.value)
      ensures MayInstall(old(State()), old(file)) && supported && edit.None? ==> r == Success(true)
      ensures MayInstall(old(State()), old(file)) && edit.None? ==>
                ((forall disk :: disk in history ==> MayInstall(disk.1, disk.0)) <==>
                 !supported || old(file) in {None, old(State()).active, Some(content)})
    {
      var previous, state := file, State();
      if state.disabled || (previous.None? && state.active.Some?)
         || (previous.Some? && previous != state.active && previous != state.pending) {
        Save(state.(disabled := true, pending := None));
        return Success(false);
      }
      if !supported {
        return Failure(Unsupported);
      }
      if previous != Some(content) {
        Save(state.(pending := Some(content)));
        if edit.Some? {
          file := edit.value;
        }
        if file != previous {
          return Failure(PluginRaced);
        }
        file := Some(content);
        history := history + [(file, state.(pending := Some(content)))];
      }
      Save(state.(active := Some(content), pending := None));
      assert history[0] in history;
      return Success(true);
    }
  }
}
