/** The inputs of a render, gathered in two ways: in bulk for the reconcile loop
    (buildGlobalConfigMap, buildEnvConfigMap, buildEnvValues) and for one environment
    (fetchHelmRenderData, MappingValuesForEnvironment). */
module RenderInputs {
  import opened Basics
  import opened Tree
  import opened ConfigMerge
  import opened Computed

  datatype EnvRecord = EnvRecord(id: nat, tenantId: nat, name: string, kind: string)

  datatype ValueRecord = ValueRecord(environmentId: nat, key: string, value: string)

  datatype FeatureConfig<T> = FeatureConfig(feature: string, config: T)

  /** The tables, each in the order of its queries. Environments are ordered by tenant
      name, then environment name, so one tenant's environments are ordered by name. */
  datatype Tables = Tables(
    tenants: map<nat, string>,
    envs: seq<EnvRecord>,
    values: seq<ValueRecord>,
    globals: seq<FeatureConfig<GlobalConfig>>,
    envConfigs: seq<FeatureConfig<EnvConfig>>)

  ghost predicate ValidTables(t: Tables) {
    && (forall i, j :: 0 <= i < j < |t.envs| ==> t.envs[i].id != t.envs[j].id)
    && (forall e :: e in t.envs ==> e.tenantId in t.tenants)
  }

  /** JSON decoding of a stored value. */
  type Parser = string -> Any

  const MANAGEMENT := "management"

  datatype ComputedValues = ComputedValues(
    kind: string,
    tenantName: string,
    iapAudience: string,
    management: Option<Object>,
    env: Object,
    envs: seq<Object>)

  // ----- What is gathered -----

  function StoredValues(values: seq<ValueRecord>, id: nat, parse: Parser): Object {
    if values == [] then map[]
    else
      var last := values[|values| - 1];
      var before := StoredValues(values[..|values| - 1], id, parse);
      if last.environmentId == id then before[last.key := parse(last.value)] else before
  }

  function OwnValues(e: EnvRecord): Object {
    map["name" := Text(e.name), "kind" := Text(e.kind)]
  }

  datatype Way = InBulk | ForOne

  /** In bulk, stored values are written over the environment's own name and kind; for
      one environment, its own name and kind are written last. */
  function EnvValues(t: Tables, e: EnvRecord, parse: Parser, way: Way): Object {
    match way
    case InBulk => OwnValues(e) + StoredValues(t.values, e.id, parse)
    case ForOne => StoredValues(t.values, e.id, parse) + OwnValues(e)
  }

  function TenantEnvs(envs: seq<EnvRecord>, tenant: nat): seq<EnvRecord> {
    if envs == [] then []
    else
      var last := envs[|envs| - 1];
      TenantEnvs(envs[..|envs| - 1], tenant) + if last.tenantId == tenant then [last] else []
  }

  function ManagementOf(envs: seq<EnvRecord>, t: Tables, parse: Parser, way: Way): Option<Object> {
    if envs == [] then None
    else if envs[|envs| - 1].kind == MANAGEMENT then Some(EnvValues(t, envs[|envs| - 1], parse, way))
    else ManagementOf(envs[..|envs| - 1], t, parse, way)
  }

  function OthersOf(envs: seq<EnvRecord>, t: Tables, parse: Parser, way: Way): seq<Object> {
    if envs == [] then []
    else
      var last := envs[|envs| - 1];
      OthersOf(envs[..|envs| - 1], t, parse, way) + if last.kind == MANAGEMENT then []
        else [EnvValues(t, last, parse, way)]
  }

  /** The template data of one environment, gathered in one of the two ways. */
  function ValuesFor(t: Tables, e: EnvRecord, parse: Parser, way: Way, audience: string): ComputedValues
    requires e.tenantId in t.tenants
  {
    var siblings := TenantEnvs(t.envs, e.tenantId);
    ComputedValues(e.kind, t.tenants[e.tenantId], audience, ManagementOf(siblings, t, parse, way),
                   EnvValues(t, e, parse, way), OthersOf(siblings, t, parse, way))
  }

  // ----- The bulk path -----

  method ParseEnv(info: EnvRecord, rows: seq<ValueRecord>, parse: Parser) returns (vals: Object)
    ensures vals == OwnValues(info) + RowValues(rows, parse)
  {
    vals := map["name" := Text(info.name), "kind" := Text(info.kind)];
    for i := 0 to |rows|
      invariant vals == OwnValues(info) + RowValues(rows[..i], parse)
    {
      assert rows[..i + 1][..i] == rows[..i];
      vals := vals[rows[i].key := parse(rows[i].value)];
    }
    assert rows[..|rows|] == rows;
  }

  function RowValues(rows: seq<ValueRecord>, parse: Parser): Object {
    if rows == [] then map[]
    else RowValues(rows[..|rows| - 1], parse)[rows[|rows| - 1].key := parse(rows[|rows| - 1].value)]
  }

  function RowsOf(values: seq<ValueRecord>, id: nat): seq<ValueRecord> {
    if values == [] then []
    else
      RowsOf(values[..|values| - 1], id) +
      if values[|values| - 1].environmentId == id then [values[|values| - 1]] else []
  }

  lemma {:induction false} RowsOfValues(values: seq<ValueRecord>, id: nat, parse: Parser)
    ensures RowValues(RowsOf(values, id), parse) == StoredValues(values, id, parse)
  {
    if values != [] {
      var before, rows := RowsOf(values[..|values| - 1], id), RowsOf(values, id);
      RowsOfValues(values[..|values| - 1], id, parse);
      if values[|values| - 1].environmentId == id {
        assert rows[..|rows| - 1] == before;
      } else {
        assert rows == before;
      }
    }
  }

  method SplitSiblings(infos: seq<EnvRecord>, parsed: seq<Object>, ghost t: Tables, ghost parse: Parser, ghost way: Way)
    returns (management: Option<Object>, envs: seq<Object>)
    requires |parsed| == |infos| && forall i :: 0 <= i < |infos| ==> parsed[i] == EnvValues(t, infos[i], parse, way)
    ensures management == ManagementOf(infos, t, parse, way) && envs == OthersOf(infos, t, parse, way)
  {
    management, envs := None, [];
    for i := 0 to |infos|
      invariant management == ManagementOf(infos[..i], t, parse, way)
      invariant envs == OthersOf(infos[..i], t, parse, way)
    {
      assert infos[..i + 1][..i] == infos[..i];
      if infos[i].kind == MANAGEMENT {
        management := Some(parsed[i]);
      } else {
        envs := envs + [parsed[i]];
      }
    }
    assert infos[..|infos|] == infos;
  }

  function Append<K, V>(m: map<K, seq<V>>, k: K, v: V): map<K, seq<V>> {
    m[k := (if k in m then m[k] else []) + [v]]
  }

  function Group<K, V>(m: map<K, seq<V>>, k: K): seq<V> {
    if k in m then m[k] else []
  }

  method GroupValues(values: seq<ValueRecord>) returns (byEnv: map<nat, seq<ValueRecord>>)
    ensures forall id :: Group(byEnv, id) == RowsOf(values, id)
  {
    byEnv := map[];
    for i := 0 to |values|
      invariant forall id :: Group(byEnv, id) == RowsOf(values[..i], id)
    {
      assert values[..i + 1][..i] == values[..i];
      byEnv := Append(byEnv, values[i].environmentId, values[i]);
    }
    assert values[..|values|] == values;
  }

  method GroupTenants(t: Tables) returns (tenantEnvs: map<nat, seq<EnvRecord>>, tenantNames: map<nat, string>)
    requires ValidTables(t)
    ensures forall id :: Group(tenantEnvs, id) == TenantEnvs(t.envs, id)
    ensures tenantEnvs.Keys == tenantNames.Keys
    ensures forall e :: e in t.envs ==> e.tenantId in tenantEnvs
    ensures forall id :: id in tenantNames ==> id in t.tenants && tenantNames[id] == t.tenants[id]
  {
    tenantEnvs, tenantNames := map[], map[];
    for i := 0 to |t.envs|
      invariant forall id :: Group(tenantEnvs, id) == TenantEnvs(t.envs[..i], id)
      invariant tenantEnvs.Keys == tenantNames.Keys
      invariant forall j :: 0 <= j < i ==> t.envs[j].tenantId in tenantEnvs
      invariant forall id :: id in tenantNames ==> id in t.tenants && tenantNames[id] == t.tenants[id]
    {
      var e := t.envs[i];
      assert t.envs[..i + 1][..i] == t.envs[..i];
      assert e in t.envs;
      tenantEnvs := Append(tenantEnvs, e.tenantId, e);
      tenantNames := tenantNames[e.tenantId := t.tenants[e.tenantId]];
    }
    assert t.envs[..|t.envs|] == t.envs;
  }

  ghost predicate HasValues(t: Tables, parse: Parser, audience: string, result: map<nat, ComputedValues>, e: EnvRecord)
    requires e.tenantId in t.tenants
  {
    e.id in result && result[e.id] == ValuesFor(t, e, parse, InBulk, audience)
  }

  method BuildEnvValues(t: Tables, parse: Parser, audience: string) returns (result: map<nat, ComputedValues>)
    requires ValidTables(t)
    ensures forall e :: e in t.envs ==> e.id in result && result[e.id] == ValuesFor(t, e, parse, InBulk, audience)
  {
    var byEnv := GroupValues(t.values);
    var tenantEnvs, tenantNames := GroupTenants(t);
    result := map[];
    var order := RangeKeys(tenantEnvs.Keys);
    for i := 0 to |order|
      invariant forall e :: e in t.envs && e.tenantId in order[..i] ==> HasValues(t, parse, audience, result, e)
    {
      assert order[..i + 1] == order[..i] + [order[i]];
      assert order[i] in tenantEnvs.Keys;
      result := BuildTenant(t, parse, audience, byEnv, order[i], tenantEnvs[order[i]], tenantNames[order[i]], result);
    }
    forall e | e in t.envs ensures e.id in result && result[e.id] == ValuesFor(t, e, parse, InBulk, audience) {
      assert e.tenantId in tenantEnvs.Keys;
      assert order[..|order|] == order;
      assert HasValues(t, parse, audience, result, e);
    }
  }

  /** One round of the loop over tenants. */
  method BuildTenant(t: Tables, parse: Parser, audience: string, byEnv: map<nat, seq<ValueRecord>>,
                     tenant: nat, infos: seq<EnvRecord>, name: string, before: map<nat, ComputedValues>)
    returns (result: map<nat, ComputedValues>)
    requires ValidTables(t) && infos == TenantEnvs(t.envs, tenant)
    requires tenant in t.tenants && name == t.tenants[tenant]
    requires forall id :: Group(byEnv, id) == RowsOf(t.values, id)
    ensures forall e :: e in t.envs && e.tenantId == tenant ==> HasValues(t, parse, audience, result, e)
    ensures forall e :: e in t.envs && e.tenantId != tenant && HasValues(t, parse, audience, before, e) ==>
            HasValues(t, parse, audience, result, e)
  {
    TenantEnvsMembers(t.envs, tenant);
    var parsed := ParseAll(t, parse, byEnv, infos);
    result := before;
    for i := 0 to |infos|
      invariant forall e :: e in infos[..i] ==> HasValues(t, parse, audience, result, e)
      invariant forall e :: e in t.envs && e !in infos && HasValues(t, parse, audience, before, e) ==>
                HasValues(t, parse, audience, result, e)
    {
      var target := infos[i];
      assert infos[..i + 1] == infos[..i] + [target];
      var mv := BuildOne(t, parse, audience, byEnv, infos, parsed, target, name);
      result := PutValues(t, parse, audience, result, target, mv);
    }
    assert infos[..|infos|] == infos;
  }

  method PutValues(t: Tables, parse: Parser, audience: string, before: map<nat, ComputedValues>, target: EnvRecord,
                   mv: ComputedValues)
    returns (result: map<nat, ComputedValues>)
    requires ValidTables(t) && target in t.envs && mv == ValuesFor(t, target, parse, InBulk, audience)
    ensures forall e :: e in t.envs && (e == target || HasValues(t, parse, audience, before, e)) ==>
            HasValues(t, parse, audience, result, e)
  {
    result := before[target.id := mv];
    forall e | e in t.envs && (e == target || HasValues(t, parse, audience, before, e))
      ensures HasValues(t, parse, audience, result, e) {
      assert e.id == target.id ==> e == target;
    }
  }

  method ParseAll(t: Tables, parse: Parser, byEnv: map<nat, seq<ValueRecord>>, infos: seq<EnvRecord>)
    returns (parsed: seq<Object>)
    requires forall id :: Group(byEnv, id) == RowsOf(t.values, id)
    ensures |parsed| == |infos| && forall j :: 0 <= j < |infos| ==> parsed[j] == EnvValues(t, infos[j], parse, InBulk)
  {
    parsed := [];
    for i := 0 to |infos|
      invariant |parsed| == i && forall j :: 0 <= j < i ==> parsed[j] == EnvValues(t, infos[j], parse, InBulk)
    {
      var v := ParseEnv(infos[i], Group(byEnv, infos[i].id), parse);
      RowsOfValues(t.values, infos[i].id, parse);
      parsed := parsed + [v];
    }
  }

  method BuildOne(t: Tables, parse: Parser, audience: string, byEnv: map<nat, seq<ValueRecord>>,
                  infos: seq<EnvRecord>, parsed: seq<Object>, target: EnvRecord, name: string)
                    returns (mv: ComputedValues)
    requires target.tenantId in t.tenants && name == t.tenants[target.tenantId]
    requires infos == TenantEnvs(t.envs, target.tenantId)
    requires |parsed| == |infos| && forall i :: 0 <= i < |infos| ==> parsed[i] == EnvValues(t, infos[i], parse, InBulk)
    requires forall id :: Group(byEnv, id) == RowsOf(t.values, id)
    ensures mv == ValuesFor(t, target, parse, InBulk, audience)
  {
    var envVals := ParseEnv(target, Group(byEnv, target.id), parse);
    RowsOfValues(t.values, target.id, parse);
    var management, envs := SplitSiblings(infos, parsed, t, parse, InBulk);
    mv := ComputedValues(target.kind, name, audience, management, envVals, envs);
  }

  lemma {:induction false} TenantEnvsMembers(envs: seq<EnvRecord>, tenant: nat)
    ensures forall e :: e in TenantEnvs(envs, tenant) <==> e in envs && e.tenantId == tenant
  {
    if envs != [] {
      var n := |envs| - 1;
      TenantEnvsMembers(envs[..n], tenant);
      assert envs == envs[..n] + [envs[n]];
    }
  }

  // ----- The single-environment path -----

  datatype MappingRow = MappingRow(id: nat, name: string, kind: string, values: Object)

  /** ListMappingValuesForTenant: one row per environment of the tenant, its stored
      values aggregated into one JSON object. */
  function MappingRows(t: Tables, tenant: nat, parse: Parser): seq<MappingRow> {
    var es := TenantEnvs(t.envs, tenant);
    seq(|es|, i requires 0 <= i < |es| => MappingRow(es[i].id, es[i].name, es[i].kind,
                                                     StoredValues(t.values, es[i].id, parse)))
  }

  lemma {:induction false} WrittenLast(t: Tables, e: EnvRecord, parse: Parser)
    ensures StoredValues(t.values, e.id, parse)["name" := Text(e.name)]["kind" := Text(e.kind)] ==
            EnvValues(t, e, parse, ForOne)
  {}

  method NameRow(row: MappingRow, ghost t: Tables, ghost e: EnvRecord, ghost parse: Parser) returns (val: Object)
    requires row == MappingRow(e.id, e.name, e.kind, StoredValues(t.values, e.id, parse))
    ensures val == EnvValues(t, e, parse, ForOne)
  {
    val := row.values;
    val := val["name" := Text(row.name)];
    val := val["kind" := Text(row.kind)];
    WrittenLast(t, e, parse);
  }

  method MappingValuesForEnvironment(t: Tables, env: EnvRecord, parse: Parser, audience: string)
    returns (mv: ComputedValues)
    requires ValidTables(t) && env in t.envs
    ensures mv == ValuesFor(t, env, parse, ForOne, audience)
  {
    var values := MappingRows(t, env.tenantId, parse);
    ghost var es := TenantEnvs(t.envs, env.tenantId);
    TenantEnvsMembers(t.envs, env.tenantId);
    var management: Option<Object>, own: Object, envs: seq<Object> := None, map[], [];
    for i := 0 to |values|
      invariant Gathered(t, env, es[..i], parse, management, own, envs)
    {
      var val := NameRow(values[i], t, es[i], parse);
      assert es[i] in es;
      management, own, envs := Gather(t, env, es, i, parse, values[i], val, management, own, envs);
    }
    assert es[..|values|] == es;
    assert env in es;
    mv := ComputedValues(env.kind, t.tenants[env.tenantId], audience, management, own, envs);
  }

  ghost predicate Gathered(t: Tables, env: EnvRecord, es: seq<EnvRecord>, parse: Parser,
                           management: Option<Object>, own: Object, envs: seq<Object>) {
    && management == ManagementOf(es, t, parse, ForOne) && envs == OthersOf(es, t, parse, ForOne)
    && (env in es ==> own == EnvValues(t, env, parse, ForOne))
  }

  /** The body of the loop over the tenant's environments. */
  method Gather(t: Tables, env: EnvRecord, ghost es: seq<EnvRecord>, ghost i: nat, parse: Parser, row: MappingRow,
                val: Object, before: Option<Object>, ownBefore: Object, envsBefore: seq<Object>)
    returns (management: Option<Object>, own: Object, envs: seq<Object>)
    requires i < |es| && row.id == es[i].id && row.kind == es[i].kind && (es[i].id == env.id <==> es[i] == env)
    requires val == EnvValues(t, es[i], parse, ForOne)
    requires Gathered(t, env, es[..i], parse, before, ownBefore, envsBefore)
    ensures Gathered(t, env, es[..i + 1], parse, management, own, envs)
  {
    GatherStep(t, es, i, parse, ForOne);
    assert es[..i + 1] == es[..i] + [es[i]];
    management, own, envs := before, ownBefore, envsBefore;
    if row.id == env.id {
      own := val;
    }
    if row.kind == MANAGEMENT {
      management := Some(val);
    } else {
      envs := envs + [val];
    }
  }

  lemma {:induction false} GatherStep(t: Tables, es: seq<EnvRecord>, i: nat, parse: Parser, way: Way)
    requires i < |es|
    ensures ManagementOf(es[..i + 1], t, parse, way) ==
            if es[i].kind == MANAGEMENT then Some(EnvValues(t, es[i], parse, way))
              else ManagementOf(es[..i], t, parse, way)
    ensures OthersOf(es[..i + 1], t, parse, way) ==
            OthersOf(es[..i], t, parse, way) + if es[i].kind == MANAGEMENT then []
              else [EnvValues(t, es[i], parse, way)]
  {
    assert es[..i + 1][..i] == es[..i];
  }

  // ----- The configuration rows of both paths -----

  function GlobalsOf(rows: seq<FeatureConfig<GlobalConfig>>, feature: string): seq<GlobalConfig> {
    if rows == [] then []
    else
      GlobalsOf(rows[..|rows| - 1], feature) +
      if rows[|rows| - 1].feature == feature then [rows[|rows| - 1].config] else []
  }

  function EnvConfigsOf(rows: seq<FeatureConfig<EnvConfig>>, env: nat, feature: string): seq<EnvConfig> {
    if rows == [] then []
    else
      var last := rows[|rows| - 1];
      EnvConfigsOf(rows[..|rows| - 1], env, feature) +
      if last.feature == feature && last.config.environmentId == env then [last.config] else []
  }

  method BuildGlobalConfigMap(rows: seq<FeatureConfig<GlobalConfig>>) returns (m: map<string, seq<MergedRow>>)
    ensures forall f :: Group(m, f) == GlobalRows(GlobalsOf(rows, f))
  {
    m := map[];
    for i := 0 to |rows|
      invariant forall f :: Group(m, f) == GlobalRows(GlobalsOf(rows[..i], f))
    {
      assert rows[..i + 1][..i] == rows[..i];
      var row := rows[i].config;
      m := Append(m, rows[i].feature, MergedRow(row.id, row.key, row.value, row.secret, row.created, None));
    }
    assert rows[..|rows|] == rows;
  }

  function EnvGroup(m: map<nat, map<string, seq<MergedRow>>>, env: nat, feature: string): seq<MergedRow> {
    if env in m then Group(m[env], feature) else []
  }

  method BuildEnvConfigMap(rows: seq<FeatureConfig<EnvConfig>>) returns (m: map<nat, map<string, seq<MergedRow>>>)
    ensures forall e, f :: EnvGroup(m, e, f) == EnvRows(EnvConfigsOf(rows, e, f))
  {
    m := map[];
    for i := 0 to |rows|
      invariant forall e, f :: EnvGroup(m, e, f) == EnvRows(EnvConfigsOf(rows[..i], e, f))
    {
      ghost var before := m;
      m := PutEnvConfig(m, rows[i]);
      forall e, f ensures EnvGroup(m, e, f) == EnvRows(EnvConfigsOf(rows[..i + 1], e, f)) {
        EnvConfigStep(rows, i, e, f);
        assert EnvGroup(before, e, f) == EnvRows(EnvConfigsOf(rows[..i], e, f));
      }
    }
    assert rows[..|rows|] == rows;
  }

  method PutEnvConfig(before: map<nat, map<string, seq<MergedRow>>>, r: FeatureConfig<EnvConfig>)
    returns (m: map<nat, map<string, seq<MergedRow>>>)
    ensures forall e, f ::
              EnvGroup(m, e, f) ==
              EnvGroup(before, e, f) +
              if e == r.config.environmentId && f == r.feature then [FromEnv(r.config)] else []
  {
    m := before;
    var row := r.config;
    if row.environmentId !in m {
      m := m[row.environmentId := map[]];
    }
    var merged := MergedRow(row.id, row.key, row.value, row.secret, row.created, Some(row.environmentId));
    m := m[row.environmentId := Append(m[row.environmentId], r.feature, merged)];
  }

  lemma {:induction false} EnvConfigStep(rows: seq<FeatureConfig<EnvConfig>>, i: nat, e: nat, f: string)
    requires i < |rows|
    ensures EnvRows(EnvConfigsOf(rows[..i + 1], e, f)) ==
            EnvRows(EnvConfigsOf(rows[..i], e, f)) +
              if e == rows[i].config.environmentId && f == rows[i].feature then [FromEnv(rows[i].config)] else []
  {
    assert rows[..i + 1][..i] == rows[..i];
  }

  /** configIncludeKeys: the declared configuration keys, in map order. */
  method ConfigIncludeKeys(vals: Values, kind: string) returns (keys: seq<string>)
    ensures forall k :: k in keys <==> k in IncludeKeys(vals, kind)
  {
    keys := [];
    var order := RangeKeys(vals.Keys);
    for i := 0 to |order|
      invariant forall k :: k in keys <==> k in order[..i] && k in IncludeKeys(vals, kind)
    {
      assert order[..i + 1] == order[..i] + [order[i]];
      assert order[i] in vals.Keys;
      if vals[order[i]].config && kind !in vals[order[i]].ignoreKinds {
        keys := keys + [order[i]];
      }
    }
    assert order[..|order|] == order;
  }

  function IncludeKeys(vals: Values, kind: string): set<string> {
    set k | k in vals && vals[k].config && kind !in vals[k].ignoreKinds
  }

  // ----- Main results -----

  /** No stored value overrides an environment's name or kind with something else. */
  ghost predicate OwnValuesStand(t: Tables, e: EnvRecord, parse: Parser) {
    var stored := StoredValues(t.values, e.id, parse);
    && ("name" in stored ==> stored["name"] == Text(e.name))
    && ("kind" in stored ==> stored["kind"] == Text(e.kind))
  }

  lemma {:induction false} EnvValuesAgree(t: Tables, e: EnvRecord, parse: Parser)
    ensures EnvValues(t, e, parse, InBulk) == EnvValues(t, e, parse, ForOne) <==> OwnValuesStand(t, e, parse)
  {
    var stored, own := StoredValues(t.values, e.id, parse), OwnValues(e);
    var a, b := EnvValues(t, e, parse, InBulk), EnvValues(t, e, parse, ForOne);
    assert b["name"] == Text(e.name) && b["kind"] == Text(e.kind);
    if "name" in stored { assert a["name"] == stored["name"]; }
    if "kind" in stored { assert a["kind"] == stored["kind"]; }
    if OwnValuesStand(t, e, parse) {
      assert a.Keys == b.Keys;
      forall k | k in a ensures a[k] == b[k] {
        assert k in own ==> k == "name" || k == "kind";
      }
    }
  }

  function LastManagement(envs: seq<EnvRecord>): Option<EnvRecord> {
    if envs == [] then None
    else if envs[|envs| - 1].kind == MANAGEMENT then Some(envs[|envs| - 1])
    else LastManagement(envs[..|envs| - 1])
  }

  /** The environments whose values a template for `e` can see. */
  ghost predicate VisibleFrom(t: Tables, e: EnvRecord, other: EnvRecord) {
    var siblings := TenantEnvs(t.envs, e.tenantId);
    other == e || (other in siblings && other.kind != MANAGEMENT) || LastManagement(siblings) == Some(other)
  }

  lemma {:induction false} ManagementAgrees(t: Tables, es: seq<EnvRecord>, parse: Parser)
    ensures ManagementOf(es, t, parse, InBulk) == ManagementOf(es, t, parse, ForOne) <==>
            (LastManagement(es).Some? ==> OwnValuesStand(t, LastManagement(es).value, parse))
  {
    if es != [] {
      var n := |es| - 1;
      ManagementAgrees(t, es[..n], parse);
      EnvValuesAgree(t, es[n], parse);
    }
  }

  ghost predicate OthersStand(t: Tables, es: seq<EnvRecord>, parse: Parser) {
    forall other :: other in es && other.kind != MANAGEMENT ==> OwnValuesStand(t, other, parse)
  }

  lemma {:induction false} OthersStandStep(t: Tables, es: seq<EnvRecord>, parse: Parser)
    requires es != []
    ensures var n := |es| - 1;
            OthersStand(t, es, parse) <==>
              OthersStand(t, es[..n], parse) && (es[n].kind != MANAGEMENT ==> OwnValuesStand(t, es[n], parse))
  {
    assert es == es[..|es| - 1] + [es[|es| - 1]];
  }

  lemma {:induction false} OthersAgree(t: Tables, es: seq<EnvRecord>, parse: Parser)
    ensures |OthersOf(es, t, parse, InBulk)| == |OthersOf(es, t, parse, ForOne)|
    ensures OthersOf(es, t, parse, InBulk) == OthersOf(es, t, parse, ForOne) <==> OthersStand(t, es, parse)
  {
    if es != [] {
      var n := |es| - 1;
      var a, b := OthersOf(es[..n], t, parse, InBulk), OthersOf(es[..n], t, parse, ForOne);
      OthersAgree(t, es[..n], parse);
      OthersStandStep(t, es, parse);
      if es[n].kind != MANAGEMENT {
        EnvValuesAgree(t, es[n], parse);
        SnocEqual(a, EnvValues(t, es[n], parse, InBulk), b, EnvValues(t, es[n], parse, ForOne));
      } else {
        assert a + [] == a && b + [] == b;
      }
    }
  }

  lemma {:induction false} SnocEqual<T>(a: seq<T>, x: T, b: seq<T>, y: T)
    requires |a| == |b|
    ensures a + [x] == b + [y] <==> a == b && x == y
  {
    if a + [x] == b + [y] {
      assert (a + [x])[..|a|] == a && (b + [y])[..|b|] == b;
      assert (a + [x])[|a|] == x && (b + [y])[|b|] == y;
    }
  }

  /** Both paths give templates the same data for an environment iff no environment the
      template can see stores a `name` or `kind` other than its own. */
  lemma {:induction false} BulkAndSingleAgree(t: Tables, e: EnvRecord, parse: Parser, audience: string)
    requires ValidTables(t) && e in t.envs
    ensures ValuesFor(t, e, parse, InBulk, audience) == ValuesFor(t, e, parse, ForOne, audience) <==>
            forall other :: VisibleFrom(t, e, other) ==> OwnValuesStand(t, other, parse)
  {
    EnvValuesAgree(t, e, parse);
    var es := TenantEnvs(t.envs, e.tenantId);
    ManagementAgrees(t, es, parse);
    OthersAgree(t, es, parse);
    if ManagementOf(es, t, parse, InBulk) == ManagementOf(es, t, parse, ForOne) {
      assert LastManagement(es).Some? ==> OwnValuesStand(t, LastManagement(es).value, parse);
    } else {
      assert VisibleFrom(t, e, LastManagement(es).value);
    }
  }
}
