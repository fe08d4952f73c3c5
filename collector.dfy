/** The command's `handle`: walk the registry's models, keep those of the allowed
    app labels, append each one's record to the list of its Python module, and
    name each module's output document after the last segment of the module path.
    The registry is given as the sequence of models in iteration order. */
module Collector {
  import opened Sequences
  import opened Text
  import opened Values
  import opened Records

  /** `ALLOW_APP_LABEL` */
  const AllowAppLabel: seq<string> := ["defaultdb"]

  predicate Allowed(m: ModelDescriptor)
  {
    m.appLabel in AllowAppLabel
  }

  /** `models_info`, a `defaultdict(list)`: the module paths in insertion order and
      the list of records of each. */
  datatype Grouping = Grouping(modules: seq<string>, info: map<string, seq<Value>>)

  /** One iteration of the loop over the models. */
  function GroupStep(g: Grouping, m: ModelDescriptor): Grouping
  {
    if !Allowed(m) then g
    else if m.moduleName in g.info then
      Grouping(g.modules, g.info[m.moduleName := g.info[m.moduleName] + [ModelRecord(m)]])
    else
      Grouping(g.modules + [m.moduleName], g.info[m.moduleName := [ModelRecord(m)]])
  }

  /** `models_info` after the loop over `models`. */
  function Groups(models: seq<ModelDescriptor>): Grouping
    decreases |models|
  {
    if models == [] then Grouping([], map[])
    else GroupStep(Groups(models[..|models| - 1]), models[|models| - 1])
  }

  /** The allowed models of module `k`, in iteration order. */
  function Members(models: seq<ModelDescriptor>, k: string): (ms: seq<ModelDescriptor>)
    ensures |ms| <= |models|
    ensures forall d :: d in ms ==> d in models && Allowed(d) && d.moduleName == k
    decreases |models|
  {
    if models == [] then []
    else
      var last := models[|models| - 1];
      Members(models[..|models| - 1], k) + (if Allowed(last) && last.moduleName == k then [last] else [])
  }

  /** The module paths of the allowed models, in iteration order. */
  function AllowedModules(models: seq<ModelDescriptor>): seq<string>
    decreases |models|
  {
    if models == [] then []
    else
      var last := models[|models| - 1];
      AllowedModules(models[..|models| - 1]) + (if Allowed(last) then [last.moduleName] else [])
  }

  function RecordsOf(ms: seq<ModelDescriptor>): (rs: seq<Value>)
    ensures |rs| == |ms|
    ensures forall i :: 0 <= i < |ms| ==> rs[i] == ModelRecord(ms[i])
  {
    seq(|ms|, i requires 0 <= i < |ms| => ModelRecord(ms[i]))
  }

  lemma RecordsOfSnoc(ms: seq<ModelDescriptor>, m: ModelDescriptor)
    ensures RecordsOf(ms + [m]) == RecordsOf(ms) + [ModelRecord(m)]
  {
  }

  lemma {:induction false} MembersNonEmpty(models: seq<ModelDescriptor>, k: string)
    ensures Members(models, k) != [] <==> k in AllowedModules(models)
    decreases |models|
  {
    if models != [] {
      MembersNonEmpty(models[..|models| - 1], k);
    }
  }

  /** What `models_info` holds after the loop: a module is a key exactly when it
      has an allowed model (so no list is empty), and its list holds the records of
      its allowed models in iteration order. */
  lemma {:induction false} GroupsContents(models: seq<ModelDescriptor>)
    ensures forall k :: k in Groups(models).info <==> Members(models, k) != []
    ensures forall k :: k in Groups(models).info ==> Groups(models).info[k] == RecordsOf(Members(models, k))
    decreases |models|
  {
    if models != [] {
      var init := models[..|models| - 1];
      var last := models[|models| - 1];
      GroupsContents(init);
      var g0 := Groups(init);
      assert Groups(models) == GroupStep(g0, last);
      forall k | k in Groups(models).info
        ensures Groups(models).info[k] == RecordsOf(Members(models, k))
      {
        if Allowed(last) && k == last.moduleName {
          var ms := Members(init, k);
          assert Members(models, k) == ms + [last];
          RecordsOfSnoc(ms, last);
          if k !in g0.info {
            assert ms == [];
            assert ms + [last] == [last];
          }
        } else {
          assert Members(models, k) == Members(init, k);
          assert Groups(models).info[k] == g0.info[k];
        }
      }
    }
  }

  /** The keys of `models_info`, in insertion order: the modules of the allowed
      models in order of first appearance, each once. */
  lemma {:induction false} GroupsModules(models: seq<ModelDescriptor>)
    ensures Groups(models).modules == Distinct(AllowedModules(models))
    decreases |models|
  {
    if models != [] {
      var init := models[..|models| - 1];
      var last := models[|models| - 1];
      GroupsModules(init);
      if Allowed(last) {
        var am := AllowedModules(init);
        GroupsContents(init);
        MembersNonEmpty(init, last.moduleName);
        assert AllowedModules(models) == am + [last.moduleName];
        var x := last.moduleName;
        assert (am + [x])[..|am + [x]| - 1] == am;
        assert (am + [x])[|am + [x]| - 1] == x;
        assert Distinct(am + [x]) == if x in Distinct(am) then Distinct(am) else Distinct(am) + [x];
        assert x in Distinct(am) <==> x in Groups(init).info;
      } else {
        assert AllowedModules(models) == AllowedModules(init);
      }
    }
  }

  /** Filtering works model by model, so a group keeps the iteration order. */
  lemma {:induction false} MembersAppend(a: seq<ModelDescriptor>, b: seq<ModelDescriptor>, k: string)
    ensures Members(a + b, k) == Members(a, k) + Members(b, k)
    decreases |b|
  {
    if b == [] {
      assert a + b == a;
    } else {
      assert (a + b)[..|a + b| - 1] == a + b[..|b| - 1];
      MembersAppend(a, b[..|b| - 1], k);
    }
  }

  /** Every model lands in exactly one place: an allowed model occurs in the group of
      its own module as often as in the registry and in no other group; a model of
      another app occurs in no group. */
  lemma {:induction false} MembersCount(models: seq<ModelDescriptor>, k: string, d: ModelDescriptor)
    ensures multiset(Members(models, k))[d] ==
      if Allowed(d) && d.moduleName == k then multiset(models)[d] else 0
    decreases |models|
  {
    if models != [] {
      var init := models[..|models| - 1];
      var last := models[|models| - 1];
      MembersCount(init, k, d);
      SplitLast(models);
      var tail := if Allowed(last) && last.moduleName == k then [last] else [];
      assert multiset(Members(models, k)) == multiset(Members(init, k)) + multiset(tail);
    }
  }

  /** `handle`'s loop over the registry's models. */
  method Collect(models: seq<ModelDescriptor>) returns (modelsInfo: Grouping)
    ensures modelsInfo == Groups(models)
  {
    var modules: seq<string> := [];
    var info: map<string, seq<Value>> := map[];
    var i := 0;
    while i < |models|
      invariant 0 <= i <= |models|
      invariant Grouping(modules, info) == Groups(models[..i])
    {
      var model := models[i];
      assert models[..i + 1][..i] == models[..i];
      i := i + 1;
      if model.appLabel !in AllowAppLabel {
        continue;
      }
      var record := ProjectModel(model);
      if model.moduleName in info {
        info := info[model.moduleName := info[model.moduleName] + [record]];
      } else {
        modules := modules + [model.moduleName];
        info := info[model.moduleName := [record]];
      }
    }
    assert models[..i] == models;
    modelsInfo := Grouping(modules, info);
  }

  /** `f"{module_name}.yml"` for `module_name = k.split(".")[-1]`. */
  function OutputName(k: string): string
  {
    LastSegment(k) + ".yml"
  }

  /** The file name of a module is `.yml` after a stem without dots: the part of the
      module path after its last dot, or the whole path when it has none. */
  lemma OutputNameStem(k: string)
    ensures var name := OutputName(k);
      && |name| >= 4 && name[|name| - 4..] == ".yml"
      && var stem := name[..|name| - 4];
      && |stem| <= |k| && stem == k[|k| - |stem|..] && '.' !in stem
      && (stem == k || k[|k| - |stem| - 1] == '.')
  {
    LastSegmentAfterLastDot(k);
    var name := OutputName(k);
    assert name[..|name| - 4] == LastSegment(k);
  }

  /** The documents this run writes, by file name, after writing each module's
      document in the order of `models_info`, a later document replacing an earlier
      one of the same name. Files already in the output directory are not part of it. */
  function Written(modules: seq<string>, info: map<string, seq<Value>>): map<string, seq<Value>>
    decreases |modules|
  {
    if modules == [] then map[]
    else
      var k := modules[|modules| - 1];
      Written(modules[..|modules| - 1], info)[OutputName(k) := if k in info then info[k] else []]
  }

  /** The loop that writes one document per module. The YAML text is not modelled:
      a document is the list of records it serialises. */
  method WriteDocuments(modelsInfo: Grouping) returns (files: map<string, seq<Value>>)
    ensures files == Written(modelsInfo.modules, modelsInfo.info)
  {
    files := map[];
    var i := 0;
    while i < |modelsInfo.modules|
      invariant 0 <= i <= |modelsInfo.modules|
      invariant files == Written(modelsInfo.modules[..i], modelsInfo.info)
    {
      var k := modelsInfo.modules[i];
      var moduleName := LastSegment(k);
      files := files[moduleName + ".yml" := if k in modelsInfo.info then modelsInfo.info[k] else []];
      assert modelsInfo.modules[..i + 1][..i] == modelsInfo.modules[..i];
      i := i + 1;
    }
    assert modelsInfo.modules[..i] == modelsInfo.modules;
  }

  /** When no two modules share a last segment, every module's records end up in
      its own document, and every document this run writes belongs to some module. */
  lemma {:induction false} WrittenDistinctNames(modules: seq<string>, info: map<string, seq<Value>>)
    requires forall i, j :: 0 <= i < j < |modules| ==> OutputName(modules[i]) != OutputName(modules[j])
    ensures forall k :: k in modules && k in info ==> OutputName(k) in Written(modules, info) && Written(modules, info)[OutputName(k)] == info[k]
    ensures forall name :: name in Written(modules, info) <==> exists k :: k in modules && OutputName(k) == name
    decreases |modules|
  {
    if modules != [] {
      var init := modules[..|modules| - 1];
      WrittenDistinctNames(init, info);
      var last := modules[|modules| - 1];
      forall k | k in modules && k in info
        ensures OutputName(k) in Written(modules, info) && Written(modules, info)[OutputName(k)] == info[k]
      {
        if k != last {
          var i :| 0 <= i < |init| && init[i] == k;
          assert modules[i] == k;
        }
      }
      forall name | name in Written(modules, info)
        ensures exists k :: k in modules && OutputName(k) == name
      {
        if name != OutputName(last) {
          assert name in Written(init, info);
          var k :| k in init && OutputName(k) == name;
          assert k in modules;
        }
      }
    }
  }

  /** The whole command: when no two modules of `models_info` share a last segment,
      the document of every module with an allowed model is its file, holding the
      records of that module's allowed models in registry order. */
  lemma DocumentOfModule(models: seq<ModelDescriptor>, k: string)
    requires forall i, j :: 0 <= i < j < |Groups(models).modules| ==>
      OutputName(Groups(models).modules[i]) != OutputName(Groups(models).modules[j])
    requires k in AllowedModules(models)
    ensures OutputName(k) in Written(Groups(models).modules, Groups(models).info)
    ensures Written(Groups(models).modules, Groups(models).info)[OutputName(k)] == RecordsOf(Members(models, k))
  {
    var g := Groups(models);
    GroupsContents(models);
    GroupsModules(models);
    MembersNonEmpty(models, k);
    WrittenDistinctNames(g.modules, g.info);
  }

  /** Two modules whose paths end in the same segment share one document, and the
      later one's records replace the earlier one's. */
  lemma SameLastSegmentOverwrites(a: seq<Value>, b: seq<Value>)
    ensures Written(["a.m", "b.m"], map["a.m" := a, "b.m" := b]) == map["m.yml" := b]
  {
    var modules := ["a.m", "b.m"];
    assert Split("m", '.') == ["m"] by {
      assert "m"[1..] == [];
      assert Split([], '.') == [[]];
      assert ['m'] + [] == "m";
    }
    assert Split(".m", '.') == ["", "m"] by {
      assert ".m"[1..] == "m";
    }
    assert Split("a.m", '.') == ["a", "m"] by {
      assert "a.m"[1..] == ".m";
      assert ['a'] + "" == "a";
    }
    assert Split("b.m", '.') == ["b", "m"] by {
      assert "b.m"[1..] == ".m";
      assert ['b'] + "" == "b";
    }
    assert OutputName("a.m") == "m.yml" && OutputName("b.m") == "m.yml";
    var info := map["a.m" := a, "b.m" := b];
    assert modules[..1][..0] == [] && modules[..1] == ["a.m"] && modules[..|modules| - 1] == ["a.m"];
    assert Written(["a.m"], info) == map["m.yml" := a];
    assert Written(modules, info) == map["m.yml" := a]["m.yml" := b];
  }
}
