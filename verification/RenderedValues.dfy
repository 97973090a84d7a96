/** What is in the values of a deploy, said in terms of the tables: the rows of the
    configuration, the rendered templates, and the environment's own data. */
module RenderedValues {
  import opened Basics
  import opened DotSplit
  import opened Model
  import opened Tree
  import opened ConfigMerge
  import opened Computed
  import opened RenderInputs
  import opened RequiredFields
  import opened HelmRender
  import CT = ConfigTree

  // ----- The configuration rows -----

  predicate IsEnvConfig(t: Tables, e: EnvRecord, feature: string, key: string, i: nat) {
    && i < |t.envConfigs| && t.envConfigs[i].feature == feature
    && t.envConfigs[i].config.environmentId == e.id && t.envConfigs[i].config.key == key
  }

  predicate IsGlobalConfig(t: Tables, feature: string, key: string, i: nat) {
    i < |t.globals| && t.globals[i].feature == feature && t.globals[i].config.key == key
  }

  /** The row is the environment's last one of the feature with its key. */
  ghost predicate FromEnvironment(t: Tables, e: EnvRecord, feature: string, row: MergedRow) {
    exists i: nat ::
      && IsEnvConfig(t, e, feature, row.key, i) && (forall j: nat :: IsEnvConfig(t, e, feature, row.key, j) ==> j <= i)
      && (var c := t.envConfigs[i].config;
          row == MergedRow(c.id, c.key, c.value, c.secret, c.created, Some(e.id)))
  }

  /** The row is the last global one of the feature with its key. */
  ghost predicate FromGlobals(t: Tables, feature: string, row: MergedRow) {
    exists i: nat ::
      && IsGlobalConfig(t, feature, row.key, i) && (forall j: nat :: IsGlobalConfig(t, feature, row.key, j) ==> j <= i)
      && (var c := t.globals[i].config;
          row == MergedRow(c.id, c.key, c.value, c.secret, c.created, None))
  }

  /** The feature declares the key as configuration, not ignored for the kind. */
  predicate Declares(f: Feature, kind: string, key: string) {
    key in f.values && f.values[key].config && kind !in f.values[key].ignoreKinds
  }

  lemma {:induction false} LastWithAppended(rows: seq<MergedRow>, row: MergedRow, key: string)
    ensures LastWith(rows + [row], key) == if row.key == key then Some(row) else LastWith(rows, key)
  {
    assert (rows + [row])[..|rows|] == rows;
  }

  lemma {:induction false} LastEnvRow(t: Tables, e: EnvRecord, feature: string, key: string)
    ensures match LastWith(EnvRows(EnvConfigsOf(t.envConfigs, e.id, feature)), key)
            case None => forall i: nat :: !IsEnvConfig(t, e, feature, key, i)
            case Some(row) => row.key == key && FromEnvironment(t, e, feature, row)
    decreases |t.envConfigs|
  {
    var n := |t.envConfigs| - 1;
    if n >= 0 {
      var before := t.(envConfigs := t.envConfigs[..n]);
      LastEnvRow(before, e, feature, key);
      forall i: nat | i != n
        ensures IsEnvConfig(t, e, feature, key, i) <==> IsEnvConfig(before, e, feature, key, i)
      {
      }
      var rows, last := EnvConfigsOf(before.envConfigs, e.id, feature), t.envConfigs[n];
      if last.feature == feature && last.config.environmentId == e.id {
        assert EnvConfigsOf(t.envConfigs, e.id, feature) == rows + [last.config];
        assert EnvRows(rows + [last.config]) == EnvRows(rows) + [FromEnv(last.config)];
        LastWithAppended(EnvRows(rows), FromEnv(last.config), key);
      } else {
        assert EnvConfigsOf(t.envConfigs, e.id, feature) == rows;
      }
      if IsEnvConfig(t, e, feature, key, n) {
        assert FromEnvironment(t, e, feature, FromEnv(last.config));
      } else if LastWith(EnvRows(rows), key).Some? {
        StillFromEnvironment(t, e, feature, LastWith(EnvRows(rows), key).value);
      }
    }
  }

  lemma {:induction false} StillFromEnvironment(t: Tables, e: EnvRecord, feature: string, row: MergedRow)
    requires t.envConfigs != [] && !IsEnvConfig(t, e, feature, row.key, |t.envConfigs| - 1)
    requires FromEnvironment(t.(envConfigs := t.envConfigs[..|t.envConfigs| - 1]), e, feature, row)
    ensures FromEnvironment(t, e, feature, row)
  {
    var n := |t.envConfigs| - 1;
    var before := t.(envConfigs := t.envConfigs[..n]);
    forall i: nat | i != n
      ensures IsEnvConfig(t, e, feature, row.key, i) <==> IsEnvConfig(before, e, feature, row.key, i) {
    }
    var i: nat :|
      && IsEnvConfig(before, e, feature, row.key, i)
      && (forall j: nat :: IsEnvConfig(before, e, feature, row.key, j) ==> j <= i)
      && (var c := before.envConfigs[i].config;
          row == MergedRow(c.id, c.key, c.value, c.secret, c.created, Some(e.id)));
    assert IsEnvConfig(t, e, feature, row.key, i);
  }

  lemma {:induction false} LastGlobalRow(t: Tables, feature: string, key: string)
    ensures match LastWith(GlobalRows(GlobalsOf(t.globals, feature)), key)
            case None => forall i: nat :: !IsGlobalConfig(t, feature, key, i)
            case Some(row) => row.key == key && FromGlobals(t, feature, row)
    decreases |t.globals|
  {
    var n := |t.globals| - 1;
    if n >= 0 {
      var before := t.(globals := t.globals[..n]);
      LastGlobalRow(before, feature, key);
      forall i: nat | i != n ensures IsGlobalConfig(t, feature, key, i) <==> IsGlobalConfig(before, feature, key, i) {
      }
      var rows, last := GlobalsOf(before.globals, feature), t.globals[n];
      if last.feature == feature {
        assert GlobalsOf(t.globals, feature) == rows + [last.config];
        assert GlobalRows(rows + [last.config]) == GlobalRows(rows) + [FromGlobal(last.config)];
        LastWithAppended(GlobalRows(rows), FromGlobal(last.config), key);
      } else {
        assert GlobalsOf(t.globals, feature) == rows;
      }
      if IsGlobalConfig(t, feature, key, n) {
        assert FromGlobals(t, feature, FromGlobal(last.config));
      } else if LastWith(GlobalRows(rows), key).Some? {
        StillFromGlobals(t, feature, LastWith(GlobalRows(rows), key).value);
      }
    }
  }

  lemma {:induction false} StillFromGlobals(t: Tables, feature: string, row: MergedRow)
    requires t.globals != [] && !IsGlobalConfig(t, feature, row.key, |t.globals| - 1)
    requires FromGlobals(t.(globals := t.globals[..|t.globals| - 1]), feature, row)
    ensures FromGlobals(t, feature, row)
  {
    var n := |t.globals| - 1;
    var before := t.(globals := t.globals[..n]);
    forall i: nat | i != n
      ensures IsGlobalConfig(t, feature, row.key, i) <==> IsGlobalConfig(before, feature, row.key, i) {
    }
    var i: nat :|
      && IsGlobalConfig(before, feature, row.key, i)
      && (forall j: nat :: IsGlobalConfig(before, feature, row.key, j) ==> j <= i)
      && (var c := before.globals[i].config;
          row == MergedRow(c.id, c.key, c.value, c.secret, c.created, None));
    assert IsGlobalConfig(t, feature, row.key, i);
  }

  lemma {:induction false} LastRowUnique(t: Tables, e: EnvRecord, feature: string, a: MergedRow, b: MergedRow)
    requires a.key == b.key
    ensures FromEnvironment(t, e, feature, a) && FromEnvironment(t, e, feature, b) ==> a == b
    ensures FromGlobals(t, feature, a) && FromGlobals(t, feature, b) ==> a == b
  {}

  /** The rows a render works on, from the tables: of each key that the feature declares, or
      of every key if it declares none, the environment's last row, or where it has none
      the last global row. */
  lemma {:induction false} InputRowsExactly(t: Tables, e: EnvRecord, f: Feature, keys: seq<string>,
                                            rows: seq<MergedRow>, row: MergedRow)
    requires IsInput(t, e, f, keys, rows)
    ensures row in rows <==>
            && (Declares(f, e.kind, row.key) || forall k :: !Declares(f, e.kind, k))
            && (FromEnvironment(t, e, f.name, row) ||
                ((forall i: nat :: !IsEnvConfig(t, e, f.name, row.key, i)) && FromGlobals(t, f.name, row)))
  {
    LastEnvRow(t, e, f.name, row.key);
    LastGlobalRow(t, f.name, row.key);
    var global, env := GlobalRows(GlobalsOf(t.globals, f.name)), EnvRows(EnvConfigsOf(t.envConfigs, e.id, f.name));
    var inForce := InForce(global, env, row.key);
    if inForce.Some? {
      LastRowUnique(t, e, f.name, row, inForce.value);
    }
    DeclaredKeys(f, e.kind, keys);
  }

  lemma {:induction false} DeclaredKeys(f: Feature, kind: string, keys: seq<string>)
    requires forall k :: k in keys <==> k in IncludeKeys(f.values, kind)
    ensures forall k :: k in keys <==> Declares(f, kind, k)
    ensures keys == [] <==> forall k :: !Declares(f, kind, k)
  {
    if keys != [] {
      assert keys[0] in keys;
    }
  }

  // ----- The data of templates -----

  predicate IsStored(t: Tables, e: EnvRecord, key: string, i: nat) {
    i < |t.values| && t.values[i].environmentId == e.id && t.values[i].key == key
  }

  predicate LastStored(t: Tables, e: EnvRecord, key: string, i: nat) {
    IsStored(t, e, key, i) && forall j :: i < j < |t.values| ==> !IsStored(t, e, key, j)
  }

  /** An environment's values: the last stored value of each key; its name and kind where
      none is stored, and in the single way in any case. */
  ghost predicate IsDataOf(o: Object, t: Tables, e: EnvRecord, parse: Parser, way: Way) {
    && (forall k :: k in o <==> k == "name" || k == "kind" || exists i: nat :: LastStored(t, e, k, i))
    && (forall k :: k in o && HasOwn(t, e, k, way) ==> o[k] == Text(if k == "name" then e.name else e.kind))
    && (forall k, i: nat :: k in o && !HasOwn(t, e, k, way) && LastStored(t, e, k, i) ==>
          o[k] == parse(t.values[i].value))
  }

  ghost predicate HasOwn(t: Tables, e: EnvRecord, k: string, way: Way) {
    (k == "name" || k == "kind") && (way == ForOne || forall i: nat :: !LastStored(t, e, k, i))
  }

  lemma {:induction false} StoredByIndex(t: Tables, e: EnvRecord, parse: Parser, k: string)
    ensures var stored := StoredValues(t.values, e.id, parse);
            if k in stored then exists i: nat :: LastStored(t, e, k, i) && stored[k] == parse(t.values[i].value)
            else forall i: nat :: !IsStored(t, e, k, i)
    decreases |t.values|
  {
    var n := |t.values| - 1;
    if n >= 0 {
      var before := t.(values := t.values[..n]);
      StoredByIndex(before, e, parse, k);
      forall i: nat | i != n ensures IsStored(t, e, k, i) <==> IsStored(before, e, k, i) {
      }
      var stored := StoredValues(before.values, e.id, parse);
      if IsStored(t, e, k, n) {
        assert LastStored(t, e, k, n);
      } else if k in stored {
        var i: nat :| LastStored(before, e, k, i) && stored[k] == parse(before.values[i].value);
        assert LastStored(t, e, k, i);
      }
    }
  }

  lemma {:induction false} LastStoredUnique(t: Tables, e: EnvRecord, k: string, i: nat, j: nat)
    requires LastStored(t, e, k, i) && LastStored(t, e, k, j)
    ensures i == j
  {}

  lemma {:induction false} EnvValuesExactly(t: Tables, e: EnvRecord, parse: Parser, way: Way)
    ensures IsDataOf(EnvValues(t, e, parse, way), t, e, parse, way)
  {
    var o, stored := EnvValues(t, e, parse, way), StoredValues(t.values, e.id, parse);
    forall k ensures k in stored <==> exists i: nat :: LastStored(t, e, k, i) {
      StoredByIndex(t, e, parse, k);
    }
    forall k, i: nat | k in stored && LastStored(t, e, k, i) ensures stored[k] == parse(t.values[i].value) {
      StoredByIndex(t, e, parse, k);
      var j: nat :| LastStored(t, e, k, j) && stored[k] == parse(t.values[j].value);
      LastStoredUnique(t, e, k, i, j);
    }
  }

  predicate IsManagement(t: Tables, e: EnvRecord, i: nat) {
    i < |t.envs| && t.envs[i].tenantId == e.tenantId && t.envs[i].kind == "management"
  }

  predicate IsSibling(t: Tables, e: EnvRecord, i: nat) {
    i < |t.envs| && t.envs[i].tenantId == e.tenantId && t.envs[i].kind != "management"
  }

  /** Just the tenant's other environments, in the order of the table. */
  ghost predicate Siblings(t: Tables, e: EnvRecord, which: seq<nat>) {
    && (forall i, j :: 0 <= i < j < |which| ==> which[i] < which[j])
    && (forall i: nat :: i in which <==> IsSibling(t, e, i))
  }

  /** What a template is given: the environment's kind and values, its tenant's name and
      management environment, and the tenant's other environments in order. */
  ghost predicate IsTemplateData(mv: ComputedValues, t: Tables, e: EnvRecord, parse: Parser, way: Way, audience: string)
    requires e.tenantId in t.tenants
  {
    && mv.kind == e.kind && mv.tenantName == t.tenants[e.tenantId] && mv.iapAudience == audience
    && IsDataOf(mv.env, t, e, parse, way)
    && (match mv.management
        case None => forall i: nat :: !IsManagement(t, e, i)
        case Some(o) => exists i: nat ::
          && IsManagement(t, e, i) && (forall j: nat :: IsManagement(t, e, j) ==> j <= i)
          && IsDataOf(o, t, t.envs[i], parse, way))
    && (exists which: seq<nat> ::
          && Siblings(t, e, which) && |mv.envs| == |which|
          && forall k :: 0 <= k < |which| ==>
            which[k] < |t.envs| && IsDataOf(mv.envs[k], t, t.envs[which[k]], parse, way))
  }

  /** The last management environment among the first n. */
  predicate IsLastManagement(t: Tables, e: EnvRecord, n: nat, i: nat) {
    i < n && IsManagement(t, e, i) && forall j: nat :: j < n && IsManagement(t, e, j) ==> j <= i
  }

  predicate NoManagement(t: Tables, e: EnvRecord, n: nat) {
    forall j: nat :: j < n ==> !IsManagement(t, e, j)
  }

  lemma {:induction false} LastManagementNext(t: Tables, e: EnvRecord, n: nat, i: nat)
    requires 0 < n
    ensures if IsManagement(t, e, n - 1) then IsLastManagement(t, e, n, n - 1)
            else (NoManagement(t, e, n - 1) ==> NoManagement(t, e, n)) &&
                 (IsLastManagement(t, e, n - 1, i) ==> IsLastManagement(t, e, n, i))
  {}

  lemma {:induction false} NoTenantEnvs(t: Tables, e: EnvRecord)
    ensures TenantEnvs(t.envs[..0], e.tenantId) == []
  {
    assert t.envs[..0] == [];
  }

  lemma {:induction false} ManagementExactly(t: Tables, e: EnvRecord, parse: Parser, way: Way, n: nat)
    returns (i: nat)
    requires n <= |t.envs|
    ensures var found := ManagementOf(TenantEnvs(t.envs[..n], e.tenantId), t, parse, way);
            if found.None? then NoManagement(t, e, n)
            else IsLastManagement(t, e, n, i) && found.value == EnvValues(t, t.envs[i], parse, way)
  {
    if n == 0 {
      i := 0;
      NoTenantEnvs(t, e);
    } else {
      i := ManagementExactly(t, e, parse, way, n - 1);
      ManagementNext(t, e, parse, way, n);
      LastManagementNext(t, e, n, i);
      i := if IsManagement(t, e, n - 1) then n - 1 else i;
    }
  }

  lemma {:induction false} ManagementNext(t: Tables, e: EnvRecord, parse: Parser, way: Way, n: nat)
    requires 0 < n <= |t.envs|
    ensures ManagementOf(TenantEnvs(t.envs[..n], e.tenantId), t, parse, way) ==
            if IsManagement(t, e, n - 1) then Some(EnvValues(t, t.envs[n - 1], parse, way))
            else ManagementOf(TenantEnvs(t.envs[..n - 1], e.tenantId), t, parse, way)
  {
    TenantEnvsNext(t, e, n);
    var before, last := TenantEnvs(t.envs[..n - 1], e.tenantId), t.envs[n - 1];
    assert (before + [last])[..|before|] == before;
    assert before + [] == before;
  }

  lemma {:induction false} TenantEnvsNext(t: Tables, e: EnvRecord, n: nat)
    requires 0 < n <= |t.envs|
    ensures TenantEnvs(t.envs[..n], e.tenantId) ==
            TenantEnvs(t.envs[..n - 1], e.tenantId) + if t.envs[n - 1].tenantId == e.tenantId then [t.envs[n - 1]]
              else []
  {
    assert t.envs[..n][..n - 1] == t.envs[..n - 1];
  }

  lemma {:induction false} SiblingsExactly(t: Tables, e: EnvRecord, parse: Parser, way: Way, n: nat)
    returns (which: seq<nat>)
    requires n <= |t.envs|
    ensures ListsSiblings(t, e, n, which)
    ensures var envs := OthersOf(TenantEnvs(t.envs[..n], e.tenantId), t, parse, way);
            |envs| == |which| && forall k :: 0 <= k < |which| ==> envs[k] == EnvValues(t, t.envs[which[k]], parse, way)
  {
    if n == 0 {
      which := [];
      assert t.envs[..0] == [];
    } else {
      var earlier := SiblingsExactly(t, e, parse, way, n - 1);
      OthersNext(t, e, parse, way, n);
      which := SiblingsNext(t, e, n, earlier);
    }
  }

  /** The siblings among the first n environments. */
  ghost predicate ListsSiblings(t: Tables, e: EnvRecord, n: nat, which: seq<nat>) {
    && (forall k :: 0 <= k < |which| ==> which[k] < n && which[k] < |t.envs|)
    && (forall i, j :: 0 <= i < j < |which| ==> which[i] < which[j])
    && (forall i: nat :: i in which <==> i < n && IsSibling(t, e, i))
  }

  lemma {:induction false} SiblingsNext(t: Tables, e: EnvRecord, n: nat, earlier: seq<nat>) returns (which: seq<nat>)
    requires 0 < n <= |t.envs| && ListsSiblings(t, e, n - 1, earlier)
    ensures ListsSiblings(t, e, n, which)
    ensures which == if IsSibling(t, e, n - 1) then earlier + [n - 1] else earlier
  {
    which := if IsSibling(t, e, n - 1) then earlier + [n - 1] else earlier;
    forall i: nat ensures i in which <==> i < n && IsSibling(t, e, i) {
      assert i in earlier <==> i < n - 1 && IsSibling(t, e, i);
    }
  }

  lemma {:induction false} OthersNext(t: Tables, e: EnvRecord, parse: Parser, way: Way, n: nat)
    requires 0 < n <= |t.envs|
    ensures OthersOf(TenantEnvs(t.envs[..n], e.tenantId), t, parse, way) ==
            OthersOf(TenantEnvs(t.envs[..n - 1], e.tenantId), t, parse, way) +
            if IsSibling(t, e, n - 1) then [EnvValues(t, t.envs[n - 1], parse, way)] else []
  {
    TenantEnvsNext(t, e, n);
    var before, last := TenantEnvs(t.envs[..n - 1], e.tenantId), t.envs[n - 1];
    assert (before + [last])[..|before|] == before;
    assert before + [] == before;
  }

  lemma {:induction false} TemplateDataExactly(t: Tables, e: EnvRecord, parse: Parser, way: Way, audience: string)
    requires e.tenantId in t.tenants
    ensures IsTemplateData(ValuesFor(t, e, parse, way, audience), t, e, parse, way, audience)
  {
    EnvValuesExactly(t, e, parse, way);
    assert t.envs[..|t.envs|] == t.envs;
    var last := ManagementExactly(t, e, parse, way, |t.envs|);
    forall i: nat | i < |t.envs| ensures IsDataOf(EnvValues(t, t.envs[i], parse, way), t, t.envs[i], parse, way) {
      EnvValuesExactly(t, t.envs[i], parse, way);
    }
    var which := SiblingsExactly(t, e, parse, way, |t.envs|);
    assert Siblings(t, e, which);
  }

  // ----- The values -----

  /** The text shown as the environment's name: its own, or in bulk what is stored for it. */
  ghost predicate IsShownName(text: string, t: Tables, e: EnvRecord, parse: Parser, way: Way) {
    && (HasOwn(t, e, "name", way) ==> text == e.name)
    && (forall i: nat :: !HasOwn(t, e, "name", way) && LastStored(t, e, "name", i) ==>
          parse(t.values[i].value) == Text(text))
  }

  /** What every rendered chart is told about its tenant and environment. */
  lemma {:induction false} FasitExactly(t: Tables, e: EnvRecord, f: Feature, way: Way, parse: Parser,
                                        templates: Templates, audience: string, values: Object)
    requires e.tenantId in t.tenants && Possible(Rendered(values), t, e, f, way, parse, templates, audience)
    ensures exists text ::
              IsShownName(text, t, e, parse, way) && "fasit" in values &&
              values["fasit"] == Dict(map[
                "tenant" := Strings(map["name" := t.tenants[e.tenantId]]),
                "env" := Strings(map["name" := text, "kind" := e.kind])])
  {
    var mv := ValuesFor(t, e, parse, way, audience);
    EnvValuesExactly(t, e, parse, way);
    var keys, rows :| IsInput(t, e, f, keys, rows) && InSomeOrder(Rendered(values), f, rows, mv, templates);
    var order :| Enumerates(order, f.values) && Outcome(Rendered(values), f, rows, mv, templates, order);
    NameShown(t, e, parse, way, mv.env);
  }

  lemma {:induction false} NameShown(t: Tables, e: EnvRecord, parse: Parser, way: Way, o: Object)
    requires IsDataOf(o, t, e, parse, way) && "name" in o && o["name"].Text?
    ensures IsShownName(o["name"].text, t, e, parse, way)
  {}

  /** The feature computes the key from a template, not ignored for the kind. */
  predicate Computes(f: Feature, kind: string, key: string) {
    key in f.values && f.values[key].computed.Some? && kind !in f.values[key].ignoreKinds
  }

  /** Not under `fasit`, where the render puts its own. */
  predicate Own(p: Path) {
    p != [] && p[0] != "fasit"
  }

  /** Every configured row at its path. */
  ghost predicate HoldsRows(values: Object, rows: seq<MergedRow>) {
    forall row :: row in rows ==>
      Split(row.key).Ok? && (Own(Split(row.key).value) ==>
        ShapeAt(Dict(values), Split(row.key).value) == Leaf(Raw(row.value)))
  }

  /** Every computed key that the configuration leaves open, with what its template renders. */
  ghost predicate HoldsComputed(values: Object, config: Object, f: Feature, mv: ComputedValues, templates: Templates) {
    forall key :: Computes(f, mv.kind, key) ==>
      && Split(key).Ok? && f.values[key].computed.value != ""
      && (var rendered := templates(mv, config, f.values[key].computed.value);
          rendered.Yields? &&
          (Own(Split(key).value) && Lookup(config, Split(key).value) == None ==>
             Lookup(values, Split(key).value) == Some(rendered.value)))
  }

  /** And nothing else: whatever value there is belongs to one of these. */
  ghost predicate HoldsNoMore(values: Object, rows: seq<MergedRow>, f: Feature, kind: string) {
    forall p :: Own(p) && ShapeAt(Dict(values), p).Leaf? ==>
      (exists row :: row in rows && Split(row.key) == Ok(p)) ||
      (exists key :: Computes(f, kind, key) && Split(key).Ok? && Split(key).value <= p)
  }

  lemma {:induction false} BesideFasit(mp: Object, mv: ComputedValues, name: string, kind: string, p: Path)
    requires Own(p)
    ensures At(Dict(WithFasit(mp, mv, name, kind)), p) == At(Dict(mp), p)
  {}

  lemma {:induction false} RowsInGenerated(f: Feature, rows: seq<MergedRow>, config: Object, kind: string,
                                           render: Renderer, order: seq<string>, mp: Object, row: MergedRow)
    requires StrictlyKeySorted(rows) && CT.HelmConfigMap(rows) == CT.Built(config) && row in rows
    requires Generated(f.values, kind, config, render, order) == Ok(mp)
    ensures Split(row.key).Ok? && ShapeAt(Dict(mp), Split(row.key).value) == Leaf(Raw(row.value))
  {
    CT.MergedRowsExact(rows);
    var i :| 0 <= i < |rows| && rows[i] == row;
    assert CT.Entries(rows)[i] == CT.Entry(Split(row.key).value, row.value);
    StepKeeps(f.values, kind, config, render, order, |order|);
  }

  lemma {:induction false} LeafInConfig(rows: seq<MergedRow>, config: Object, p: Path)
    requires StrictlyKeySorted(rows) && CT.HelmConfigMap(rows) == CT.Built(config) && ShapeAt(Dict(config), p).Leaf?
    ensures exists row :: row in rows && Split(row.key) == Ok(p)
  {
    CT.MergedRowsExact(rows);
    assert CT.LeafAt(config, p);
    var i :| 0 <= i < |rows| && CT.Entries(rows)[i].path == p;
    assert rows[i] in rows && Split(rows[i].key) == Ok(p);
  }

  lemma {:induction false} ComputedIsActive(f: Feature, kind: string, key: string)
    ensures Computes(f, kind, key) <==> key in AllActive(f.values, kind)
  {}

  /** What a render gives, where no computed key lies inside another: `fasit` aside, every
      row of the configuration, every computed key left open, and nothing else. */
  lemma {:induction false} RenderedExactly(f: Feature, rows: seq<MergedRow>, mv: ComputedValues, templates: Templates,
                                           values: Object)
    requires StrictlyKeySorted(rows) && NoneNested(f.values, mv.kind)
    requires InSomeOrder(Rendered(values), f, rows, mv, templates)
    ensures exists config :: CT.HelmConfigMap(rows) == CT.Built(config) &&
              HoldsRows(values, rows) && HoldsComputed(values, config, f, mv, templates) &&
              HoldsNoMore(values, rows, f, mv.kind)
  {
    var order :| Enumerates(order, f.values) && Outcome(Rendered(values), f, rows, mv, templates, order);
    var config, render := CT.HelmConfigMap(rows).tree, RendererFor(templates, mv);
    var mp := Generated(f.values, mv.kind, config, render, order).value;
    forall p: Path | Own(p) ensures At(Dict(values), p) == At(Dict(mp), p) {
      BesideFasit(mp, mv, mv.env["name"].text, mv.kind, p);
    }
    forall row | row in rows
      ensures Split(row.key).Ok? && (Own(Split(row.key).value) ==>
                ShapeAt(Dict(values), Split(row.key).value) == Leaf(Raw(row.value)))
    {
      RowsInGenerated(f, rows, config, mv.kind, render, order, mp, row);
    }
    GeneratedHolds(f, rows, config, mv, templates, order, mp, values);
  }

  lemma {:induction false} GeneratedHolds(f: Feature, rows: seq<MergedRow>, config: Object, mv: ComputedValues,
                                          templates: Templates, order: seq<string>, mp: Object, values: Object)
    requires StrictlyKeySorted(rows) && NoneNested(f.values, mv.kind) && Enumerates(order, f.values)
    requires CT.HelmConfigMap(rows) == CT.Built(config)
    requires Generated(f.values, mv.kind, config, RendererFor(templates, mv), order) == Ok(mp)
    requires forall p: Path :: Own(p) ==> At(Dict(values), p) == At(Dict(mp), p)
    ensures HoldsComputed(values, config, f, mv, templates) && HoldsNoMore(values, rows, f, mv.kind)
  {
    var render, done := RendererFor(templates, mv), AllActive(f.values, mv.kind);
    GenerateExact(f.values, mv.kind, config, render, order);
    forall key | Computes(f, mv.kind, key)
      ensures Split(key).Ok? && f.values[key].computed.value != ""
      ensures var rendered := templates(mv, config, f.values[key].computed.value);
              rendered.Yields? &&
              (Own(Split(key).value) && Lookup(config, Split(key).value) == None ==>
                 Lookup(values, Split(key).value) == Some(rendered.value))
    {
      ComputedIsActive(f, mv.kind, key);
      assert Fillable(f.values, mv.kind, config, render, key);
    }
    forall p | Own(p) && ShapeAt(Dict(values), p).Leaf?
      ensures (exists row :: row in rows && Split(row.key) == Ok(p)) ||
              (exists key :: Computes(f, mv.kind, key) && Split(key).Ok? && Split(key).value <= p)
    {
      if ShapeAt(Dict(config), p) != Absent {
        LeafInConfig(rows, config, p);
      } else {
        var key :| key in done && Covers(config, key, p);
        ComputedIsActive(f, mv.kind, key);
      }
    }
  }

  /** The same from the tables: the rows are InputRowsExactly's, the data of the templates
      TemplateDataExactly's. */
  lemma {:induction false} RenderedFromTables(t: Tables, e: EnvRecord, f: Feature, way: Way, parse: Parser,
                                              templates: Templates, audience: string, keys: seq<string>,
                                              rows: seq<MergedRow>, values: Object)
    requires e.tenantId in t.tenants && IsInput(t, e, f, keys, rows) && NoneNested(f.values, e.kind)
    requires Possible(Rendered(values), t, e, f, way, parse, templates, audience)
    ensures exists config, mv ::
              && IsTemplateData(mv, t, e, parse, way, audience) && CT.HelmConfigMap(rows) == CT.Built(config)
              && HoldsRows(values, rows) && HoldsComputed(values, config, f, mv, templates)
              && HoldsNoMore(values, rows, f, e.kind)
  {
    var mv := ValuesFor(t, e, parse, way, audience);
    var ls, rows' :| IsInput(t, e, f, ls, rows') && InSomeOrder(Rendered(values), f, rows', mv, templates);
    InputUnique(t, e, f, keys, rows, ls, rows');
    TemplateDataExactly(t, e, parse, way, audience);
    RenderedExactly(f, rows, mv, templates, values);
  }
}
