# model_to_document, modelled in Dafny

A model of the Django management command `model_to_document`, which writes one
YAML document per Python module describing the `defaultdb` models defined there.
For every model of the `defaultdb` app, in registry order, the command builds a
record:

- `name`: the table name;
- `doc`: the reStructuredText field list of the docstring, folded into a dict;
- `fields`: one record per field, with every `None` attribute pruned;
- `constraints` and `index`: one record per constraint and per index.

It appends that record to the list of the model's `__module__`. It then writes each
module's list to `<last segment of the module path>.yml`.

The modules follow the command's structure:

| file | module | what it holds |
|---|---|---|
| `text.dfy` | `Text` | `str.strip()` and `str.split(sep)`, with their characterising lemmas |
| `values.dfy` | `Values` | the YAML-shaped document value; insertion-ordered dicts (`Keys`, `Lookup`); the `if v is not None` pruning |
| `pyobjects.dfy` | `PyObjects` | the Python objects a `choices` entry can be made of, and `str()` of them |
| `choices.dfy` | `Choices` | `_normalize_choices` and `_serialize_choices` |
| `field_list.dfy` | `FieldList` | `_rst_field_list_to_dict` |
| `records.dfy` | `Records` | field, constraint, index and model records |
| `collector.dfy` | `Collector` | `handle`: filtering, grouping per module, output names and writes |
| `sequences.dfy`, `wrappers.dfy` | `Sequences`, `Wrappers` | first-occurrence order; `Option` |

Each loop of the source is a method. The loops of `_rst_field_list_to_dict`,
`_normalize_choices`, the model loop and the write loop are proved equal to a
specification function defined one element at a time (`Fold`, `Normalized`,
`Groups`, `Written`). The inner field loop is proved element by element: its
`j`-th record is `FieldRecordOf` of the `j`-th field. The command's promises are
lemmas about those functions.

Behaviour the model makes explicit:

- **Repeated labels.** A docstring label seen once holds a string. Seen twice, it holds
  a two-element list; later repeats append. The key keeps its first position.
- **Choices.** Entries that are not 2-item lists or tuples, or whose label is not a
  `str`, are dropped silently. Django's grouped choices `(group, [...])` are among them.
  `None` replaces an empty result.
- **Constraints.** `fields` is `[]` when a constraint has none. `condition` appears
  only when the constraint has one.
- **Output names.** Models are grouped by their full module path. The file name keeps
  only the last segment. So two modules `a.m` and `b.m` write the same `m.yml`, and the
  later one replaces the earlier (`Collector.SameLastSegmentOverwrites`).

## Model

| member | source | states |
|---|---|---|
| `Text.IsSpace` | src/defaultdb/management/commands/model_to_document.py:81-82 | the characters `str.strip()` removes: Python's `isspace` set, ASCII controls `\t`..`\r` and `\x1c`..`\x1f`, NEL, NO-BREAK SPACE and the Unicode space separators; its meaning for strip is stated by `Strip` and `StripOfPadded` |
| `Text.Strip` | src/defaultdb/management/commands/model_to_document.py:81-82 | the stripped text has no whitespace (Python's `isspace` set) at either end and is no longer than the input |
| `Text.StripOfPadded` | src/defaultdb/management/commands/model_to_document.py:81-82 | any whitespace around a text without edge whitespace is removed exactly, leaving that text |
| `Text.StripTrimmed` | src/defaultdb/management/commands/model_to_document.py:81-82 | text with no whitespace at either end is left unchanged |
| `Text.StripIdempotent` | src/defaultdb/management/commands/model_to_document.py:81-82 | stripping twice gives the same as stripping once |
| `Text.Split` | src/defaultdb/management/commands/model_to_document.py:71 | `split` gives at least one piece, and no piece contains the separator |
| `Text.JoinSplit` | src/defaultdb/management/commands/model_to_document.py:71 | joining the pieces with the separator gives back the module path |
| `Text.LastSegment` | src/defaultdb/management/commands/model_to_document.py:71 | `k.split(".")[-1]`, the last piece of the split; `LastSegmentAfterLastDot` states that it is the part after the last dot |
| `Text.SplitSingle` | src/defaultdb/management/commands/model_to_document.py:71 | a path splits into one piece, itself, exactly when it contains no separator |
| `Text.LastPieceAfterLastSep` | src/defaultdb/management/commands/model_to_document.py:71 | the last piece is a suffix of the text without separators, and it is either the whole text or preceded by a separator |
| `Text.LastSegmentAfterLastDot` | src/defaultdb/management/commands/model_to_document.py:71 | `k.split(".")[-1]` is the part of the module path after its last dot, or the whole path when it has no dot |
| `Sequences.Distinct` | src/defaultdb/management/commands/model_to_document.py:84-90 | the key order of a dict filled in a given order: the same elements, each once, none added |
| `Values.Keys` | src/defaultdb/management/commands/model_to_document.py:95-99 | a dict's keys, one per entry, in insertion order |
| `Values.KeysAppend` | src/defaultdb/management/commands/model_to_document.py:37-55 | the keys of two dicts placed one after the other are the keys of the first, then those of the second |
| `Values.Lookup` | src/defaultdb/management/commands/model_to_document.py:95-102 | a lookup finds a value exactly when the key is among the dict's keys, and the entry it finds is in the dict |
| `Values.StrList` | src/defaultdb/management/commands/model_to_document.py:97 | `list(...)` of names gives one string element per name, in order |
| `Values.Prune` | src/defaultdb/management/commands/model_to_document.py:39-53 | pruning `None` values never adds entries |
| `Values.PruneMembers` | src/defaultdb/management/commands/model_to_document.py:39-53 | after pruning, no value is `None`, and an entry survives exactly when its value is not `None` (`False` and `""` survive) |
| `Values.PruneAppend` | src/defaultdb/management/commands/model_to_document.py:39-53 | pruning works entry by entry, so the kept entries keep their order |
| `Values.PruneNoNull` | src/defaultdb/management/commands/model_to_document.py:39-53 | a dict without `None` values is unchanged by pruning |
| `PyObjects.Digits` | src/defaultdb/management/commands/model_to_document.py:121 | `str()` of a non-negative integer is a non-empty string of decimal digits |
| `PyObjects.DigitsValue` | src/defaultdb/management/commands/model_to_document.py:121 | `str()` of a non-negative integer is its decimal numeral: the digits read back give the number, and only `0` starts with the digit `0` |
| `PyObjects.StrOf` | src/defaultdb/management/commands/model_to_document.py:121 | `str(value)` of a choice value: a `str` unchanged; a non-negative `int` its decimal numeral with no leading zero, whose digits read back give the number; a negative `int` a minus sign before the numeral of its magnitude |
| `Choices.WellFormed` | src/defaultdb/management/commands/model_to_document.py:114-119 | the test an entry must pass to be kept: a `list` or `tuple` of exactly two items whose label is a `str`; `NormalizedMembers` and `NormalizedDropsMalformed` state what it keeps and drops |
| `Choices.ToChoice` | src/defaultdb/management/commands/model_to_document.py:121 | `{"value": str(value), "label": str(label)}` of a kept pair, `str(label)` being the label itself; `NormalizedAllWellFormed` states it entry by entry |
| `Choices.Normalized` | src/defaultdb/management/commands/model_to_document.py:111-123 | the normalised list never has more entries than the raw choices |
| `Choices.NormalizedAppend` | src/defaultdb/management/commands/model_to_document.py:113-121 | entries are filtered one at a time, so the normalised list keeps the source order |
| `Choices.NormalizedMembers` | src/defaultdb/management/commands/model_to_document.py:113-121 | a `{value, label}` record is in the result exactly when some raw entry is a 2-item list or tuple with a `str` label that yields it |
| `Choices.NormalizedAllWellFormed` | src/defaultdb/management/commands/model_to_document.py:113-121 | when every entry is a well-formed pair, there is one record per entry, in order, holding `str(value)` and the label |
| `Choices.NormalizedDropsMalformed` | src/defaultdb/management/commands/model_to_document.py:114-119 | one malformed entry (wrong type, wrong length, or a label that is not `str`) makes the result shorter than the input |
| `Choices.NormalizedEmpty` | src/defaultdb/management/commands/model_to_document.py:129-131 | the normalised list is empty exactly when no entry is well-formed |
| `Choices.Serialized` | src/defaultdb/management/commands/model_to_document.py:125-133 | `_serialize_choices` gives `None` exactly when the choices are absent or no entry is well-formed; it never gives an empty list, and otherwise gives the normalised list |
| `Choices.NormalizeChoices` | src/defaultdb/management/commands/model_to_document.py:111-123 | the loop with its two `continue`s builds exactly the normalised list |
| `Choices.SerializeChoices` | src/defaultdb/management/commands/model_to_document.py:106-133 | the method's result is the serialised choices, with both early `None` returns |
| `Choices.DropsNonTextLabel` | src/defaultdb/management/commands/model_to_document.py:117-119 | of `("DRAFT", "Draft")` and `("BAD", 123)`, only the first pair is kept |
| `FieldList.StripAll` | src/defaultdb/management/commands/model_to_document.py:81-82 | every field name and body is stripped, one pair per field, in document order |
| `FieldList.Step` | src/defaultdb/management/commands/model_to_document.py:84-90 | one iteration of the loop on a stripped pair: a new label is stored as a string, a second one promotes it to a two-element list, later ones append, and a key never moves; stated over whole inputs by `FoldValues`, `FoldKeys` and `FoldCount` |
| `FieldList.Fold` | src/defaultdb/management/commands/model_to_document.py:80-90 | the dict after the loop over the stripped pairs; `FoldValues`, `FoldKeys`, `KeysAreLabels` and `FoldCount` state its keys and values, `FieldListToDict` that the loop computes it |
| `FieldList.FoldValues` | src/defaultdb/management/commands/model_to_document.py:84-90 | a label is a key exactly when it occurs; its key holds all its values in document order; it holds a plain string exactly when it occurs once |
| `FieldList.FoldKeys` | src/defaultdb/management/commands/model_to_document.py:84-90 | the keys are the distinct stripped labels in order of first occurrence, and every key has a value |
| `FieldList.KeysAreLabels` | src/defaultdb/management/commands/model_to_document.py:84-90 | the keys are exactly the labels, with no duplicates |
| `FieldList.FoldCount` | src/defaultdb/management/commands/model_to_document.py:84-90 | no value is lost: the values stored under all keys (a string counting as one) are as many as the fields |
| `FieldList.ToValue` | src/defaultdb/management/commands/model_to_document.py:92 | the returned dict has the fold's keys, in the fold's order, each holding its label's string or its list of strings |
| `FieldList.FieldListToDict` | src/defaultdb/management/commands/model_to_document.py:76-92 | the loop computes the fold of the stripped pairs, and an empty field list gives an empty dict |
| `FieldList.CampaignDoc` | src/defaultdb/management/commands/model_to_document.py:84-90 | `:title:` once and `:context:` twice give a string title and a two-element context list |
| `Records.NonEmpty` | src/defaultdb/management/commands/model_to_document.py:44-45 | `x if x else None` and `x or None`: present exactly when the text is present and non-empty, and then unchanged |
| `Records.OrEmpty` | src/defaultdb/management/commands/model_to_document.py:97 | `x or []`: the names when present, `[]` when absent |
| `Records.ChoicesValue` | src/defaultdb/management/commands/model_to_document.py:121 | one `{value, label}` dict per choice, in order |
| `Records.Relation` | src/defaultdb/management/commands/model_to_document.py:50 | `relation` is set exactly when the field is a relation with a remote field, and then holds the related model's name |
| `Records.FieldCandidate` | src/defaultdb/management/commands/model_to_document.py:38-52 | the dict literal before the `None` filter: its eleven keys in the literal's order; `FieldRecordNoNull` states which of its entries survive |
| `Records.FieldRecord` | src/defaultdb/management/commands/model_to_document.py:37-55 | the comprehension's dict, a record; its keys, values and order are stated by `FieldRecordKeys`, `FieldRecordEntries` and `FieldRecordNoNull` |
| `Records.FieldRecordOf` | src/defaultdb/management/commands/model_to_document.py:35-55 | the record of a field with its choices serialised; `FieldChoicesPresence` states when it has `choices`, `FieldRecords` that the inner loop builds it |
| `Records.FieldRecordNoNull` | src/defaultdb/management/commands/model_to_document.py:37-55 | no value of a field record is `None`, and every non-`None` attribute of the literal is kept |
| `Records.FieldRecordEntries` | src/defaultdb/management/commands/model_to_document.py:37-55 | a field record has `name`, `type`, the four flags and `index` always; `choices`, `verbose_name`, `help_text` and `relation` only when present; all in the literal's order |
| `Records.FieldRecordKeys` | src/defaultdb/management/commands/model_to_document.py:37-55 | the keys of a field record, in order, with each optional key conditioned on its attribute |
| `Records.FieldShapeKeys` | src/defaultdb/management/commands/model_to_document.py:37-55 | the keys of the present-if-set form of the record, in the literal's order |
| `Records.FieldChoicesPresence` | src/defaultdb/management/commands/model_to_document.py:35-55 | a field record has `choices` exactly when the field has at least one well-formed choice |
| `Records.ConstraintRecord` | src/defaultdb/management/commands/model_to_document.py:94-104 | the dict `_serialize_constraint` builds; its keys, values and condition are stated by `ConstraintRecordKeys`, `ConstraintRecordValues` and `ConstraintRecordCondition` |
| `Records.ConstraintRecordKeys` | src/defaultdb/management/commands/model_to_document.py:94-104 | a constraint record's keys are `type`, `fields`, `name`, then `condition` exactly when the constraint has a condition |
| `Records.ConstraintRecordValues` | src/defaultdb/management/commands/model_to_document.py:95-99 | `type` is the class name, `fields` is the list of field names (`[]` when absent), `name` is the constraint's name |
| `Records.ConstraintRecordCondition` | src/defaultdb/management/commands/model_to_document.py:101-102 | `condition` holds the condition's text when there is one, and is absent otherwise |
| `Records.IndexRecord` | src/defaultdb/management/commands/model_to_document.py:63 | an index record has keys `name` and `fields`, holding the index name and its field names (`[]` when absent) |
| `Records.DocOf` | src/defaultdb/management/commands/model_to_document.py:31 | `doc` is a dict whose keys are the distinct stripped labels of the docstring's field list, in order of first occurrence |
| `Records.ModelRecord` | src/defaultdb/management/commands/model_to_document.py:57-64 | the record appended for a model; `ModelRecordShape` states its keys and contents, `ProjectModel` that the loop body builds it |
| `Records.ModelRecordShape` | src/defaultdb/management/commands/model_to_document.py:57-65 | a model record has `name`, `doc`, `fields`, `constraints`, `index`, in that order, with one record per field, constraint and index, each in the model's order |
| `Records.FieldRecords` | src/defaultdb/management/commands/model_to_document.py:33-55 | the inner loop gives one record per field, in order, each with its choices serialised |
| `Records.ProjectModel` | src/defaultdb/management/commands/model_to_document.py:31-65 | one iteration of the model loop builds exactly the model's record |
| `Collector.Allowed` | src/defaultdb/management/commands/model_to_document.py:28-29 | a model is kept exactly when its app label is in `ALLOW_APP_LABEL`, `("defaultdb",)`; `MembersCount` states that other apps' models are in no group |
| `Collector.GroupStep` | src/defaultdb/management/commands/model_to_document.py:25-65 | one iteration of the model loop: a model of another app changes nothing; otherwise its record is appended to its module's list, the module added to the key order on first use |
| `Collector.Groups` | src/defaultdb/management/commands/model_to_document.py:23-65 | `models_info` after the loop; `GroupsContents` and `GroupsModules` state its lists and key order, `Collect` that the loop computes it |
| `Collector.Members` | src/defaultdb/management/commands/model_to_document.py:25-57 | a module's group holds only models of the registry that are in the allowed app and in that module |
| `Collector.MembersNonEmpty` | src/defaultdb/management/commands/model_to_document.py:25-57 | a module has at least one member exactly when an allowed model names it |
| `Collector.GroupsContents` | src/defaultdb/management/commands/model_to_document.py:23-65 | `models_info` has a key exactly for each module with an allowed model, so no list is empty; each list holds its module's records in registry order |
| `Collector.GroupsModules` | src/defaultdb/management/commands/model_to_document.py:23-65 | the keys of `models_info` are the modules of the allowed models, in order of first appearance, each once |
| `Collector.MembersAppend` | src/defaultdb/management/commands/model_to_document.py:25-57 | grouping works model by model, so within a module the registry order is kept |
| `Collector.MembersCount` | src/defaultdb/management/commands/model_to_document.py:25-57 | an allowed model occurs in its own module's group as often as in the registry and in no other group; a model of another app is in no group |
| `Collector.Collect` | src/defaultdb/management/commands/model_to_document.py:22-65 | the loop with its `continue` and its `defaultdict(list)` appends builds exactly the grouping |
| `Collector.OutputName` | src/defaultdb/management/commands/model_to_document.py:71-72 | `f"{module_name}.yml"` with `module_name = k.split(".")[-1]`; `OutputNameStem` states what it is |
| `Collector.OutputNameStem` | src/defaultdb/management/commands/model_to_document.py:71-72 | the file name of a module is `.yml` after a dot-free stem, the stem being the module path's suffix after its last dot, or the whole path |
| `Collector.Written` | src/defaultdb/management/commands/model_to_document.py:70-74 | the documents this run writes, by file name; `WrittenDistinctNames` and `SameLastSegmentOverwrites` state what each file holds, `WriteDocuments` that the loop computes it |
| `Collector.WriteDocuments` | src/defaultdb/management/commands/model_to_document.py:70-74 | writing module by module leaves each file name holding the last document written under it |
| `Collector.WrittenDistinctNames` | src/defaultdb/management/commands/model_to_document.py:70-74 | when no two modules share a last segment, each module's records are in its own file, and every file this run writes belongs to some module |
| `Collector.DocumentOfModule` | src/defaultdb/management/commands/model_to_document.py:22-74 | end to end: when no two modules share a last segment, the file of each module with an allowed model holds exactly that module's allowed models' records, in registry order |
| `Collector.SameLastSegmentOverwrites` | src/defaultdb/management/commands/model_to_document.py:70-72 | modules `a.m` then `b.m` both write `m.yml`, which ends up holding only `b.m`'s records |

## Left out

- YAML serialisation (`yaml.dump`, the `Dumper` that forbids indentless sequences, `allow_unicode`, `sort_keys=False`) is not modelled. A document is the list of records it serialises, and key order is kept because dict entries form a sequence.
- reStructuredText parsing (`publish_doctree`, `traverse(nodes.field)`, `astext()`) is not modelled. A docstring is given as the (field name text, field body text) pairs the parser reports, in document order, and `model.__doc__ or ""` is folded into that input.
- The Django registry and its attributes (`apps.get_models()`, `_meta`, `get_internal_type()`, `remote_field.model.__name__`, `__class__.__name__`) are given as descriptor values holding what the command reads.
- `help_text` is taken as text; the command does not apply `str()` to it, so a non-`str` help text (a lazy translation string) makes `yaml.dump` raise.
- `str()` of lists, tuples and arbitrary objects (lazy translation strings among them), of a constraint's `condition` and of `verbose_name` is given as text. Only `str()` of strings, integers and booleans is computed.
- A `choices` attribute is absent or a sequence. Other truthy non-sequence values are not modelled.
- Filesystem effects are not modelled: `settings.BASE_DIR`, `mkdir`, opening files and I/O errors. A failed write, which aborts the run, is not represented.
- The map of file names to documents holds only the documents this run writes. Files already in `docs/` are neither read nor removed, so a `.yml` left by an earlier run for a module that no longer exists stays there; the model does not describe those files.
- The command writes one file per module; there is no single-file output.
- Exceptions are not modelled. The command catches none, so any exception raised in Django, docutils or YAML aborts the whole run.

