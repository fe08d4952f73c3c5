/** The records the command builds for one model: one per field (with `None`
    values pruned), one per constraint, one per index, and the model's own record
    that holds them. The Django registry is outside the model: each model, field,
    constraint and index is given as a descriptor holding the attribute values the
    command reads from it. */
module Records {
  import opened Wrappers
  import opened Values
  import opened PyObjects
  import opened Choices
  import opened FieldList
  import opened Sequences

  /** What the command reads from a Django field. */
  datatype FieldDescriptor = FieldDescriptor(
    name: string,
    /** `get_internal_type()` */
    internalType: string,
    /** `getattr(field, "choices", None)` */
    choices: Option<seq<PyObj>>,
    /** `verbose_name` as `str()` renders it, `None` when unset */
    verboseName: Option<string>,
    /** `help_text` as text, `None` when unset */
    helpText: Option<string>,
    isNull: bool,
    allowBlank: bool,
    isUnique: bool,
    primaryKey: bool,
    isRelation: bool,
    /** `remote_field.model.__name__` when the field has a `remote_field`, `None` when it has none */
    remoteModel: Option<string>,
    dbIndex: bool)

  /** What the command reads from a Django constraint. */
  datatype ConstraintDescriptor = ConstraintDescriptor(
    /** `constraint.__class__.__name__` */
    className: string,
    /** `getattr(constraint, "fields", None)` */
    fields: Option<seq<string>>,
    name: string,
    /** `str(condition)` when `getattr(constraint, "condition", None)` is not `None` */
    condition: Option<string>)

  /** What the command reads from a Django index. */
  datatype IndexDescriptor = IndexDescriptor(name: string, fields: Option<seq<string>>)

  /** What the command reads from a Django model class and its `_meta`. */
  datatype ModelDescriptor = ModelDescriptor(
    appLabel: string,
    /** `model.__module__` */
    moduleName: string,
    dbTable: string,
    /** the field list of `model.__doc__ or ""` as the reStructuredText parser reports it */
    doc: seq<Entry>,
    fields: seq<FieldDescriptor>,
    constraints: seq<ConstraintDescriptor>,
    indexes: seq<IndexDescriptor>)

  /** `x if x else None` (and `x or None`) for text: the empty string counts as absent. */
  function NonEmpty(t: Option<string>): (r: Option<string>)
    ensures r.Some? <==> t.Some? && t.value != ""
    ensures r.Some? ==> r == t
  {
    if t.Some? && t.value != "" then t else None
  }

  /** `list(x or [])` for a sequence of names. */
  function OrEmpty(xs: Option<seq<string>>): (r: seq<string>)
    ensures xs.Some? ==> r == xs.value
    ensures xs.None? ==> r == []
  {
    if xs.Some? then xs.value else []
  }

  /** `v` where Python has a value, `None` where it has none. */
  function OrNull(v: Option<Value>): Value
  {
    if v.Some? then v.value else Null
  }

  function StrIfSome(t: Option<string>): Option<Value>
  {
    if t.Some? then Some(Str(t.value)) else None
  }

  /** The `{"value": ..., "label": ...}` records of a field's choices. */
  function ChoicesValue(cs: seq<Choice>): (v: Value)
    ensures v.List? && |v.items| == |cs|
    ensures forall i :: 0 <= i < |cs| ==>
      v.items[i] == Dict([("value", Str(cs[i].value)), ("label", Str(cs[i].display))])
  {
    List(seq(|cs|, i requires 0 <= i < |cs| =>
      Dict([("value", Str(cs[i].value)), ("label", Str(cs[i].display))])))
  }

  function ChoicesIfSome(choices: Option<seq<Choice>>): Option<Value>
  {
    if choices.Some? then Some(ChoicesValue(choices.value)) else None
  }

  /** The `relation` of a field: the related model's name when the field is a
      relation with a remote field. */
  function Relation(f: FieldDescriptor): (r: Option<string>)
    ensures r.Some? <==> f.isRelation && f.remoteModel.Some?
    ensures r.Some? ==> r == f.remoteModel
  {
    if f.isRelation && f.remoteModel.Some? then f.remoteModel else None
  }

  /** The dict literal of the comprehension, before pruning, in its declared key order. */
  function FieldCandidate(f: FieldDescriptor, choices: Option<seq<Choice>>): (e: seq<(string, Value)>)
    ensures Keys(e) == ["name", "type", "choices", "verbose_name", "help_text", "is_null",
                        "is_allow_blank", "is_unique", "primary_key", "relation", "index"]
  {
    [ ("name", Str(f.name)),
      ("type", Str(f.internalType)),
      ("choices", OrNull(ChoicesIfSome(choices))),
      ("verbose_name", OrNull(StrIfSome(NonEmpty(f.verboseName)))),
      ("help_text", OrNull(StrIfSome(NonEmpty(f.helpText)))),
      ("is_null", Bool(f.isNull)),
      ("is_allow_blank", Bool(f.allowBlank)),
      ("is_unique", Bool(f.isUnique)),
      ("primary_key", Bool(f.primaryKey)),
      ("relation", OrNull(StrIfSome(Relation(f)))),
      ("index", Bool(f.dbIndex)) ]
  }

  /** The record of one field: the candidate dict without its `None` values. */
  function FieldRecord(f: FieldDescriptor, choices: Option<seq<Choice>>): (v: Value)
    ensures v.Dict?
  {
    Dict(Prune(FieldCandidate(f, choices)))
  }

  /** An entry kept only when its value is present. */
  function Optional(key: string, v: Option<Value>): seq<(string, Value)>
  {
    if v.Some? then [(key, v.value)] else []
  }

  /** Pruning a one-entry dict whose value is optional text: the entry stays exactly
      when the text is present. */
  lemma PruneText(key: string, t: Option<string>)
    ensures Prune([(key, OrNull(StrIfSome(t)))]) == Optional(key, StrIfSome(t))
  {
  }

  /** Pruning the one-entry dict of optional choices: the entry stays exactly when
      there are choices. */
  lemma PruneChoices(choices: Option<seq<Choice>>)
    ensures Prune([("choices", OrNull(ChoicesIfSome(choices)))]) == Optional("choices", ChoicesIfSome(choices))
  {
  }

  /** Pruning a dict assembled from pieces, where the pieces `a`, `e` and `h` hold no `None`. */
  lemma PruneAround(a: seq<(string, Value)>, b: seq<(string, Value)>, c: seq<(string, Value)>,
                    d: seq<(string, Value)>, e: seq<(string, Value)>, g: seq<(string, Value)>,
                    h: seq<(string, Value)>)
    requires forall i :: 0 <= i < |a| ==> a[i].1 != Null
    requires forall i :: 0 <= i < |e| ==> e[i].1 != Null
    requires forall i :: 0 <= i < |h| ==> h[i].1 != Null
    ensures Prune(a + b + c + d + e + g + h) == a + Prune(b) + Prune(c) + Prune(d) + e + Prune(g) + h
  {
    PruneNoNull(a);
    PruneNoNull(e);
    PruneNoNull(h);
    PruneAppend(a + b + c + d + e + g, h);
    PruneAppend(a + b + c + d + e, g);
    PruneAppend(a + b + c + d, e);
    PruneAppend(a + b + c, d);
    PruneAppend(a + b, c);
    PruneAppend(a, b);
  }

  /** The field record written with explicit optional entries instead of pruning:
      each optional attribute contributes an entry only when it has a value. */
  function FieldShape(f: FieldDescriptor, choices: Option<seq<Choice>>): seq<(string, Value)>
  {
    [("name", Str(f.name)), ("type", Str(f.internalType))]
    + Optional("choices", ChoicesIfSome(choices))
    + Optional("verbose_name", StrIfSome(NonEmpty(f.verboseName)))
    + Optional("help_text", StrIfSome(NonEmpty(f.helpText)))
    + [("is_null", Bool(f.isNull)), ("is_allow_blank", Bool(f.allowBlank)),
       ("is_unique", Bool(f.isUnique)), ("primary_key", Bool(f.primaryKey))]
    + Optional("relation", StrIfSome(Relation(f)))
    + [("index", Bool(f.dbIndex))]
  }

  /** Which keys survive the pruning and what they hold: `name`, `type`, the four
      flags and `index` always; `choices` when there are choices; `verbose_name` and
      `help_text` when non-empty; `relation` when the field is a relation with a
      remote field; all in the declared order. */
  lemma FieldRecordEntries(f: FieldDescriptor, choices: Option<seq<Choice>>)
    ensures FieldRecord(f, choices).entries == FieldShape(f, choices)
  {
    var ch := ChoicesIfSome(choices);
    var vn := StrIfSome(NonEmpty(f.verboseName));
    var ht := StrIfSome(NonEmpty(f.helpText));
    var rel := StrIfSome(Relation(f));
    var a := [("name", Str(f.name)), ("type", Str(f.internalType))];
    var b := [("choices", OrNull(ch))];
    var c := [("verbose_name", OrNull(vn))];
    var d := [("help_text", OrNull(ht))];
    var e := [("is_null", Bool(f.isNull)), ("is_allow_blank", Bool(f.allowBlank)),
              ("is_unique", Bool(f.isUnique)), ("primary_key", Bool(f.primaryKey))];
    var g := [("relation", OrNull(rel))];
    var h := [("index", Bool(f.dbIndex))];
    assert FieldCandidate(f, choices) == a + b + c + d + e + g + h;
    PruneAround(a, b, c, d, e, g, h);
    PruneChoices(choices);
    PruneText("verbose_name", NonEmpty(f.verboseName));
    PruneText("help_text", NonEmpty(f.helpText));
    PruneText("relation", Relation(f));
  }

  /** No value of a field record is `None`, and every entry of the candidate dict
      whose value is not `None` is kept. */
  lemma FieldRecordNoNull(f: FieldDescriptor, choices: Option<seq<Choice>>)
    ensures forall i :: 0 <= i < |FieldRecord(f, choices).entries| ==> FieldRecord(f, choices).entries[i].1 != Null
    ensures forall e :: e in FieldCandidate(f, choices) && e.1 != Null ==> e in FieldRecord(f, choices).entries
  {
    PruneMembers(FieldCandidate(f, choices));
  }

  /** The keys a field record has, in the literal's order: the seven that are always
      there, and `choices`, `verbose_name`, `help_text` and `relation` only when they
      have a value. */
  function FieldKeys(f: FieldDescriptor, choices: Option<seq<Choice>>): seq<string>
  {
    ["name", "type"]
      + (if choices.Some? then ["choices"] else [])
      + (if NonEmpty(f.verboseName).Some? then ["verbose_name"] else [])
      + (if NonEmpty(f.helpText).Some? then ["help_text"] else [])
      + ["is_null", "is_allow_blank", "is_unique", "primary_key"]
      + (if f.isRelation && f.remoteModel.Some? then ["relation"] else [])
      + ["index"]
  }

  /** The keys of a field record, in order. */
  lemma FieldRecordKeys(f: FieldDescriptor, choices: Option<seq<Choice>>)
    ensures Keys(FieldRecord(f, choices).entries) == FieldKeys(f, choices)
  {
    FieldRecordEntries(f, choices);
    FieldShapeKeys(f, choices);
  }

  lemma FieldShapeKeys(f: FieldDescriptor, choices: Option<seq<Choice>>)
    ensures Keys(FieldShape(f, choices)) == FieldKeys(f, choices)
  {
    var a := [("name", Str(f.name)), ("type", Str(f.internalType))];
    var e := [("is_null", Bool(f.isNull)), ("is_allow_blank", Bool(f.allowBlank)),
              ("is_unique", Bool(f.isUnique)), ("primary_key", Bool(f.primaryKey))];
    var h := [("index", Bool(f.dbIndex))];
    KeysOfPieces(a, Optional("choices", ChoicesIfSome(choices)),
                 Optional("verbose_name", StrIfSome(NonEmpty(f.verboseName))),
                 Optional("help_text", StrIfSome(NonEmpty(f.helpText))),
                 e, Optional("relation", StrIfSome(Relation(f))), h);
    assert Keys(a) == ["name", "type"];
    assert Keys(e) == ["is_null", "is_allow_blank", "is_unique", "primary_key"];
    assert Keys(h) == ["index"];
    KeysOptional("choices", ChoicesIfSome(choices));
    KeysOptional("verbose_name", StrIfSome(NonEmpty(f.verboseName)));
    KeysOptional("help_text", StrIfSome(NonEmpty(f.helpText)));
    KeysOptional("relation", StrIfSome(Relation(f)));
  }

  lemma KeysOptional(key: string, v: Option<Value>)
    ensures Keys(Optional(key, v)) == if v.Some? then [key] else []
  {
  }

  lemma KeysOfPieces(a: seq<(string, Value)>, b: seq<(string, Value)>, c: seq<(string, Value)>,
                     d: seq<(string, Value)>, e: seq<(string, Value)>, g: seq<(string, Value)>,
                     h: seq<(string, Value)>)
    ensures Keys(a + b + c + d + e + g + h)
         == Keys(a) + Keys(b) + Keys(c) + Keys(d) + Keys(e) + Keys(g) + Keys(h)
  {
    KeysAppend(a + b + c + d + e + g, h);
    KeysAppend(a + b + c + d + e, g);
    KeysAppend(a + b + c + d, e);
    KeysAppend(a + b + c, d);
    KeysAppend(a + b, c);
    KeysAppend(a, b);
  }

  /** The record of one constraint, as `_serialize_constraint` builds it. */
  function ConstraintRecord(c: ConstraintDescriptor): (v: Value)
    ensures v.Dict?
  {
    var data := [("type", Str(c.className)), ("fields", StrList(OrEmpty(c.fields))), ("name", Str(c.name))];
    if c.condition.Some? then Dict(data + [("condition", Str(c.condition.value))]) else Dict(data)
  }

  /** A constraint record always has its class name, its fields (`[]` when the
      constraint has none, never absent) and its name, in that order, then
      `condition` exactly when the constraint has one. */
  lemma ConstraintRecordKeys(c: ConstraintDescriptor)
    ensures Keys(ConstraintRecord(c).entries)
         == ["type", "fields", "name"] + (if c.condition.Some? then ["condition"] else [])
  {
    var e := ConstraintRecord(c).entries;
    assert e[..3] == [("type", Str(c.className)), ("fields", StrList(OrEmpty(c.fields))), ("name", Str(c.name))];
  }

  /** What the three keys every constraint record has hold: the class name, the
      fields (`[]` when the constraint has none) and the name. */
  lemma ConstraintRecordValues(c: ConstraintDescriptor)
    ensures var e := ConstraintRecord(c).entries;
      && Lookup(e, "type") == Some(Str(c.className))
      && Lookup(e, "fields") == Some(StrList(OrEmpty(c.fields)))
      && Lookup(e, "name") == Some(Str(c.name))
  {
    var e := ConstraintRecord(c).entries;
    assert "type"[0] != "name"[0];
    assert Lookup(e[1..][1..], "name") == Some(Str(c.name));
  }

  /** The condition of a constraint record: its text when the constraint has one,
      absent otherwise. */
  lemma ConstraintRecordCondition(c: ConstraintDescriptor)
    ensures Lookup(ConstraintRecord(c).entries, "condition") == StrIfSome(c.condition)
  {
    var e := ConstraintRecord(c).entries;
    var tail := if c.condition.Some? then [("condition", Str(c.condition.value))] else [];
    assert e[1..][1..][1..] == tail;
    assert Lookup(e[1..][1..], "condition") == Lookup(tail, "condition");
  }

  /** The record of one index: its name and its fields, `[]` when it has none. */
  function IndexRecord(i: IndexDescriptor): (v: Value)
    ensures v.Dict? && Keys(v.entries) == ["name", "fields"]
    ensures Lookup(v.entries, "name") == Some(Str(i.name))
    ensures Lookup(v.entries, "fields") == Some(StrList(OrEmpty(i.fields)))
  {
    Dict([("name", Str(i.name)), ("fields", StrList(OrEmpty(i.fields)))])
  }

  /** The record of a field as the command builds it, with its choices serialised. */
  function FieldRecordOf(f: FieldDescriptor): Value
  {
    FieldRecord(f, Serialized(f.choices))
  }

  /** A field record has a `choices` key exactly when the field has at least one
      well-formed choice; it then holds the normalised choices, never an empty list. */
  lemma FieldChoicesPresence(f: FieldDescriptor)
    ensures "choices" in Keys(FieldRecordOf(f).entries) <==>
      f.choices.Some? && exists i :: 0 <= i < |f.choices.value| && WellFormed(f.choices.value[i])
  {
    var ch := Serialized(f.choices);
    FieldRecordKeys(f, ch);
    var v := if NonEmpty(f.verboseName).Some? then ["verbose_name"] else [];
    var h := if NonEmpty(f.helpText).Some? then ["help_text"] else [];
    var r := if f.isRelation && f.remoteModel.Some? then ["relation"] else [];
    var ks := ["name", "type"] + (if ch.Some? then ["choices"] else []) + v + h
      + ["is_null", "is_allow_blank", "is_unique", "primary_key"] + r + ["index"];
    assert "choices" in ks <==> ch.Some? by {
      assert "choices" !in v && "choices" !in h && "choices" !in r;
      assert "choices" !in ["name", "type"];
      assert "choices" !in ["is_null", "is_allow_blank", "is_unique", "primary_key"];
    }
    assert Keys(FieldRecordOf(f).entries) == ks;
    assert ch.Some? <==> f.choices.Some? && exists i :: 0 <= i < |f.choices.value| && WellFormed(f.choices.value[i]);
  }

  /** The `doc` record of a model: its folded field list. */
  function DocOf(m: ModelDescriptor): (v: Value)
    ensures v.Dict? && Keys(v.entries) == Distinct(Labels(StripAll(m.doc)))
  {
    FoldKeys(StripAll(m.doc));
    ToValue(Fold(StripAll(m.doc)))
  }

  /** The record of one model, as the loop of the command assembles it. */
  function ModelRecord(m: ModelDescriptor): (v: Value)
    ensures v.Dict?
  {
    Dict([ ("name", Str(m.dbTable)),
           ("doc", DocOf(m)),
           ("fields", List(seq(|m.fields|, i requires 0 <= i < |m.fields| => FieldRecordOf(m.fields[i])))),
           ("constraints", List(seq(|m.constraints|, i requires 0 <= i < |m.constraints| => ConstraintRecord(m.constraints[i])))),
           ("index", List(seq(|m.indexes|, i requires 0 <= i < |m.indexes| => IndexRecord(m.indexes[i])))) ])
  }

  /** A model record holds `name`, `doc`, `fields`, `constraints` and `index`, in
      that order: the table name, the folded docstring, then one field record per
      field, one constraint record per constraint and one index record per index,
      each in the model's own order. */
  lemma ModelRecordShape(m: ModelDescriptor)
    ensures var v := ModelRecord(m);
      && Keys(v.entries) == ["name", "doc", "fields", "constraints", "index"]
      && v.entries[0].1 == Str(m.dbTable) && v.entries[1].1 == DocOf(m)
    ensures var fs := ModelRecord(m).entries[2].1;
      fs.List? && |fs.items| == |m.fields|
      && forall i :: 0 <= i < |m.fields| ==> fs.items[i] == FieldRecordOf(m.fields[i])
    ensures var cs := ModelRecord(m).entries[3].1;
      cs.List? && |cs.items| == |m.constraints|
      && forall i :: 0 <= i < |m.constraints| ==> cs.items[i] == ConstraintRecord(m.constraints[i])
    ensures var ix := ModelRecord(m).entries[4].1;
      ix.List? && |ix.items| == |m.indexes|
      && forall i :: 0 <= i < |m.indexes| ==> ix.items[i] == IndexRecord(m.indexes[i])
  {
  }

  /** The inner loop of the command: one field record per field of `meta.fields`,
      in the same order. */
  method FieldRecords(fields: seq<FieldDescriptor>) returns (records: seq<Value>)
    ensures |records| == |fields|
    ensures forall j :: 0 <= j < |fields| ==> records[j] == FieldRecordOf(fields[j])
  {
    records := [];
    var i := 0;
    while i < |fields|
      invariant 0 <= i <= |fields|
      invariant |records| == i
      invariant forall j :: 0 <= j < i ==> records[j] == FieldRecordOf(fields[j])
    {
      var f := fields[i];
      var choices := SerializeChoices(f.choices);
      records := records + [FieldRecord(f, choices)];
      i := i + 1;
    }
  }

  /** The body of the command's loop for one model: folds the docstring, builds the
      field records, then the constraint and index records. */
  method ProjectModel(m: ModelDescriptor) returns (record: Value)
    ensures record == ModelRecord(m)
  {
    var doc := FieldListToDict(m.doc);
    FoldKeys(StripAll(m.doc));
    var fields := FieldRecords(m.fields);
    assert fields == seq(|m.fields|, j requires 0 <= j < |m.fields| => FieldRecordOf(m.fields[j]));
    record := Dict([ ("name", Str(m.dbTable)),
                     ("doc", ToValue(doc)),
                     ("fields", List(fields)),
                     ("constraints", List(seq(|m.constraints|, j requires 0 <= j < |m.constraints| => ConstraintRecord(m.constraints[j])))),
                     ("index", List(seq(|m.indexes|, j requires 0 <= j < |m.indexes| => IndexRecord(m.indexes[j])))) ]);
  }
}
