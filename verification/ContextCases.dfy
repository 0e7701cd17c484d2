/** common/agent_context_steps.py and lib/agent_context_state.py: the names, lines and records
    that decide about a configuration file, written out. */
module ContextCases {
  import opened Common
  import opened AgentContext

  /** The preferences that setup manages, by name. */
  lemma ManagedInWords(p: Path)
    ensures IsManaged(p, Codex)
       <==> p == ["model_auto_compact_token_limit"] || p == ["model_auto_compact_token_limit_scope"]
    ensures IsManaged(p, Claude)
       <==> || p == ["autoCompactWindow"]
            || p == ["env", "CLAUDE_CODE_AUTO_COMPACT_WINDOW"] || p == ["env", "CLAUDE_AUTOCOMPACT_PCT_OVERRIDE"]
            || p == ["env", "DISABLE_COMPACT"] || p == ["env", "DISABLE_AUTO_COMPACT"]
            || (|p| == 3 && p[0] == "modelSettings" && p[2] == "autoCompactWindow")
  {
    assert |p| == 1 ==> p == [p[0]];
    assert |p| == 2 ==> p == [p[0], p[1]];
  }

  /** A file of Claude can be read for preferences unless one of the two groups, or a model, is no
      object. */
  lemma ShapeInWords(v: Members)
    ensures Projection(v, Claude).Some?
       <==> && (Get(v, ["env"]).Some? ==> Get(v, ["env"]).value.Object?)
            && (Get(v, ["modelSettings"]).Some? ==> Get(v, ["modelSettings"]).value.Object?)
            && (forall m :: Get(v, ["modelSettings", m]).Some? ==> Get(v, ["modelSettings", m]).value.Object?)
    ensures Projection(v, Codex).Some?
  {
    GetOne(v, "env");
    GetOne(v, "modelSettings");
    var models := Under(v, "modelSettings");
    forall m ensures Get(v, ["modelSettings", m]) == if m in models then Some(models[m]) else None {
      GetTwo(v, "modelSettings", m);
    }
    hide Get;
    if Get(v, ["modelSettings"]).Some? && Get(v, ["modelSettings"]).value.Object?
       && forall m :: Get(v, ["modelSettings", m]).Some? ==> Get(v, ["modelSettings", m]).value.Object? {
      forall m | m in v["modelSettings"].members ensures v["modelSettings"].members[m].Object? {
        assert Get(v, ["modelSettings", m]).Some?;
      }
    }
  }

  // ---------------------------------------------------------------------------
  // The Codex file
  // ---------------------------------------------------------------------------

  /** The line belongs to no table. */
  ghost predicate IsTop(t: Text, i: int) {
    0 <= i < |t| && forall j :: 0 <= j <= i ==> !t[j].Table?
  }

  ghost predicate Sets(t: Text, k: string) {
    exists i :: IsTop(t, i) && t[i].Assign? && t[i].key == k
  }

  ghost predicate SetsOnce(t: Text) {
    forall i, j :: IsTop(t, i) && IsTop(t, j) && i < j && t[i].Assign? && t[j].Assign? ==> t[i].key != t[j].key
  }

  /** The top-level settings of a text: those of the lines before the first table, if none comes
      twice. */
  lemma {:induction false} ParseInWords(t: Text)
    ensures Parse(t).Some? <==> SetsOnce(t)
    ensures Parse(t).Some? ==> forall k :: k in Parse(t).value <==> Sets(t, k)
    ensures Parse(t).Some? ==>
              forall i :: IsTop(t, i) && t[i].Assign? ==>
                t[i].key in Parse(t).value && Parse(t).value[t[i].key] == Scalar(t[i].value)
  {
    if t != [] && !t[0].Table? {
      var rest := t[1..];
      ParseInWords(rest);
      forall i ensures IsTop(t, i) <==> i == 0 || IsTop(rest, i - 1) {
        TopOfRest(t, i);
      }
      SetsFurther(t, rest);
      hide IsTop;
    }
  }

  lemma TopOfRest(t: Text, i: int)
    requires t != [] && !t[0].Table?
    ensures IsTop(t, i) <==> i == 0 || IsTop(t[1..], i - 1)
  {
    if i > 0 && IsTop(t[1..], i - 1) {
      forall j | 0 <= j <= i ensures !t[j].Table? {
        assert j > 0 ==> t[1..][j - 1] == t[j];
      }
    }
  }

  lemma SetsFurther(t: Text, rest: Text)
    requires t != [] && rest == t[1..] && forall i :: IsTop(t, i) <==> i == 0 || IsTop(rest, i - 1)
    ensures forall k :: Sets(t, k) <==> Sets(rest, k) || (t[0].Assign? && t[0].key == k)
    ensures SetsOnce(t) <==> SetsOnce(rest) && (t[0].Assign? ==> !Sets(rest, t[0].key))
  {
    assert forall i :: IsTop(rest, i) ==> 0 <= i < |rest| && t[i + 1] == rest[i] && IsTop(t, i + 1);
    assert forall i :: IsTop(t, i) ==> 0 <= i < |t|;
    hide IsTop;
    forall k ensures Sets(t, k) <==> Sets(rest, k) || (t[0].Assign? && t[0].key == k) {
      if Sets(rest, k) {
        var i :| IsTop(rest, i) && rest[i].Assign? && rest[i].key == k;
        assert IsTop(t, i + 1) && t[i + 1].key == k;
      }
      if t[0].Assign? && t[0].key == k {
        assert IsTop(t, 0);
      }
    }
    if SetsOnce(t) {
      forall i, j | IsTop(rest, i) && IsTop(rest, j) && i < j && rest[i].Assign? && rest[j].Assign?
        ensures rest[i].key != rest[j].key
      {
        assert IsTop(t, i + 1) && IsTop(t, j + 1);
      }
      if t[0].Assign? {
        forall i | IsTop(rest, i) && rest[i].Assign? ensures rest[i].key != t[0].key {
          assert IsTop(t, 0) && IsTop(t, i + 1);
        }
      }
    }
    if SetsOnce(rest) && (t[0].Assign? ==> !Sets(rest, t[0].key)) {
      forall i, j | IsTop(t, i) && IsTop(t, j) && i < j && t[i].Assign? && t[j].Assign?
        ensures t[i].key != t[j].key
      {
        assert IsTop(rest, j - 1);
        if i > 0 {
          assert IsTop(rest, i - 1);
        }
      }
    }
  }

  function Given(v: Members, k: string): Text {
    if k in v && v[k].Scalar? then [Assign(k, v[k].value)] else []
  }

  /** The block of setup: two comments around the settings. */
  lemma BlockInWords(v: Members)
    ensures Block(v) == [Comment("# Begin Basaltwater context defaults")]
                        + Given(v, "model_auto_compact_token_limit")
                        + Given(v, "model_auto_compact_token_limit_scope")
                        + [Comment("# End Basaltwater context defaults")]
  {}

  /** What a refresh keeps: a Codex file is setup's block with the rest behind it, or has none of
      the settings and is kept as a whole. */
  lemma OutsideInWords(d: Disk)
    requires MayRefresh(d, Codex) && IsOwn(StateOf(d), Codex)
    ensures var p := ProjectionOf(d.file, Codex).value;
            TextOf(d.file) == if p == map[] then Outside(TextOf(d.file)) else Block(p) + Outside(TextOf(d.file))
  {
    var p, t := ProjectionOf(d.file, Codex).value, TextOf(d.file);
    if d.file.None? {
      assert t == [] && Parse(t) == Some(map[]) && p == map[];
    } else {
      assert d.file == Some(Toml(t));
    }
    hide Block, Parse, Projection, IsOwn;
    if p != map[] {
      assert Chosen(StateOf(d), p).Some? && Block(p) <= t;
      assert ProjectionOf(Some(Toml(t)), Codex) == Some(p);
    }
  }

  // ---------------------------------------------------------------------------
  // File and journal
  // ---------------------------------------------------------------------------

  /** What setup reads from a file: nothing is an empty configuration, and a file of the other
      format, or of no object, is none. */
  lemma ValueInWords(file: Option<Document>)
    ensures Value(None, Codex) == Some(map[]) == Value(None, Claude)
    ensures file.Some? && file.value.Toml? ==>
              Value(file, Codex) == Parse(file.value.text) && Value(file, Claude) == None
    ensures file.Some? && file.value.JsonFile? ==>
              && Value(file, Codex) == None
              && (Value(file, Claude).Some? <==> file.value.root.Some? && file.value.root.value.Object?)
              && (Value(file, Claude).Some? ==> Value(file, Claude).value == file.value.root.value.members)
  {}

  /** The projection that setup recorded for the file, pending or done. */
  predicate IsOnRecord(s: State, projection: Members) {
    || (s.pending.Some? && s.pending.value.digest == projection)
    || (s.active.Some? && s.active.value.digest == projection)
  }

  /** When setup refreshes a file, in full: without a journal, when the file has no managed
      preference; with one, when there is no override and either the preferences are those of
      a record, or none is active and there are none. The block must also be there, at the
      beginning, for Codex. */
  lemma MayRefreshInWords(d: Disk, tool: Tool)
    requires d.stored.Some? ==> IsOwn(d.stored.value, tool)
    ensures d.stored.None? ==> (MayRefresh(d, tool) <==> ProjectionOf(d.file, tool) == Some(map[]))
    ensures d.stored.Some? ==>
              (MayRefresh(d, tool)
               <==> && ProjectionOf(d.file, tool).Some? && !d.stored.value.overridden
                    && (IsOnRecord(d.stored.value, ProjectionOf(d.file, tool).value)
                        || (d.stored.value.active.None? && ProjectionOf(d.file, tool) == Some(map[])))
                    && (tool == Codex && ProjectionOf(d.file, tool) != Some(map[]) ==>
                          Block(ProjectionOf(d.file, tool).value) <= TextOf(d.file)))
  {
    hide ProjectionOf, Block, TextOf, AreDefaults, Paths;
    if d.stored.Some? && ProjectionOf(d.file, tool).Some? {
      var s := d.stored.value;
      if s.active.Some? {
        NotEmpty(s.active.value.digest, tool);
      }
      if s.pending.Some? {
        NotEmpty(s.pending.value.digest, tool);
      }
    }
  }

  /** No managed preference there means exactly that every managed place is empty, if all of them
      are scalars. */
  lemma NothingIsManaged(v: Members, tool: Tool)
    requires Projection(v, tool).Some? && IsPlain(v, tool)
    ensures Projection(v, tool) == Some(map[]) <==> forall p :: IsManaged(p, tool) ==> Get(v, p).None?
  {
    if Projection(v, tool) == Some(map[]) {
      forall p | IsManaged(p, tool) ensures Get(v, p).None? {
        ProjectionGets(v, tool, p);
      }
    }
    if forall p :: IsManaged(p, tool) ==> Get(v, p).None? {
      NoManagedPlaceIsEmpty(v, tool);
    }
  }

  /** When setup installs its plugin: it is not disabled, and the file has the content of one of
      the records, or has never been there. */
  lemma MayInstallInWords(disabled: bool, active: Option<nat>, pending: Option<nat>, content: nat)
    ensures MayInstall(PluginState(disabled, active, pending), None) <==> !disabled && active == None
    ensures MayInstall(PluginState(disabled, active, pending), Some(content))
       <==> !disabled && (active == Some(content) || pending == Some(content))
  {}
}
