/** Folding the labelled entries of a model's docstring (a reStructuredText field
    list such as `:title: ...` / `:context: ...`) into the `doc` dict of its record.
    The reStructuredText parser itself stays outside the model: its output is taken
    as the sequence of (field name text, field body text) pairs it reports, in
    document order. */
module FieldList {
  import opened Text
  import opened Sequences
  import opened Values

  /** One field of the list: the text of its name and of its body. */
  type Entry = (string, string)

  /** The entries with their name and body stripped, as the loop reads them. */
  function StripAll(entries: seq<Entry>): (ps: seq<Entry>)
    ensures |ps| == |entries|
    ensures forall i :: 0 <= i < |entries| ==> ps[i] == (Strip(entries[i].0), Strip(entries[i].1))
  {
    seq(|entries|, i requires 0 <= i < |entries| => (Strip(entries[i].0), Strip(entries[i].1)))
  }

  /** A label seen once keeps a plain string; a repeated label holds a list. */
  datatype DocValue = Scalar(value: string) | Many(values: seq<string>)

  /** The values a label holds, in the order they were stored. */
  function ValuesOf(d: DocValue): seq<string>
  {
    match d
    case Scalar(v) => [v]
    case Many(vs) => vs
  }

  /** The folded dict: its keys in insertion order, and what each key holds. */
  datatype DocMap = DocMap(keys: seq<string>, values: map<string, DocValue>)

  const Empty := DocMap([], map[])

  /** One iteration of the fold, for a stripped pair: a new label stores its value
      as a scalar; a second occurrence promotes the scalar to a two-element list;
      later ones append. Replacing the value of an existing key does not move it in
      the key order. */
  function Step(d: DocMap, p: Entry): DocMap
  {
    var (key, val) := p;
    if key in d.values then
      match d.values[key]
      case Many(vs) => DocMap(d.keys, d.values[key := Many(vs + [val])])
      case Scalar(v) => DocMap(d.keys, d.values[key := Many([v, val])])
    else
      DocMap(d.keys + [key], d.values[key := Scalar(val)])
  }

  /** The dict after folding every stripped pair, in order. */
  function Fold(pairs: seq<Entry>): DocMap
    decreases |pairs|
  {
    if pairs == [] then Empty
    else Step(Fold(pairs[..|pairs| - 1]), pairs[|pairs| - 1])
  }

  /** The labels of the pairs, in document order. */
  function Labels(pairs: seq<Entry>): (ls: seq<string>)
    ensures |ls| == |pairs|
    ensures forall i :: 0 <= i < |pairs| ==> ls[i] == pairs[i].0
  {
    seq(|pairs|, i requires 0 <= i < |pairs| => pairs[i].0)
  }

  /** The values of the pairs labelled `key`, in document order. */
  function ValuesFor(pairs: seq<Entry>, key: string): (vs: seq<string>)
    ensures |vs| <= |pairs|
    decreases |pairs|
  {
    if pairs == [] then []
    else
      var last := pairs[|pairs| - 1];
      ValuesFor(pairs[..|pairs| - 1], key) + (if last.0 == key then [last.1] else [])
  }

  /** The number of values stored under the keys `keys`, a scalar counting as one. */
  function Stored(keys: seq<string>, values: map<string, DocValue>): nat
  {
    if keys == [] then 0
    else (if keys[0] in values then |ValuesOf(values[keys[0]])| else 0) + Stored(keys[1..], values)
  }

  /** What a key of the `doc` dict holds, as a document value. */
  function DocValueOf(d: DocValue): Value
  {
    match d
    case Scalar(v) => Str(v)
    case Many(vs) => StrList(vs)
  }

  /** The folded dict as the `doc` value: one entry per key, in key order, each
      holding that key's string or list. */
  function ToValue(d: DocMap): (v: Value)
    requires forall k :: k in d.keys ==> k in d.values
    ensures v.Dict? && Keys(v.entries) == d.keys
    ensures forall i :: 0 <= i < |d.keys| ==> v.entries[i].1 == DocValueOf(d.values[d.keys[i]])
  {
    Dict(seq(|d.keys|, i requires 0 <= i < |d.keys| => (d.keys[i], DocValueOf(d.values[d.keys[i]]))))
  }

  /** What each label holds: a label is a key exactly when it occurs; its key holds
      all of its values in encounter order; and it holds a plain string exactly
      when it occurs once (so a list always has at least two elements). */
  lemma {:induction false} FoldValues(entries: seq<Entry>, k: string)
    ensures var d := Fold(entries);
      && (k in d.values <==> ValuesFor(entries, k) != [])
      && (k in d.values ==> ValuesOf(d.values[k]) == ValuesFor(entries, k))
      && (k in d.values ==> (d.values[k].Scalar? <==> |ValuesFor(entries, k)| == 1))
    decreases |entries|
  {
    if entries != [] {
      var init := entries[..|entries| - 1];
      var last := entries[|entries| - 1];
      FoldValues(init, k);
      var d0 := Fold(init);
      assert Fold(entries) == Step(d0, last);
      var vs := ValuesFor(init, k);
      if last.0 == k {
        assert ValuesFor(entries, k) == vs + [last.1];
      } else {
        assert ValuesFor(entries, k) == vs;
        assert Fold(entries).values == d0.values[last.0 := Fold(entries).values[last.0]];
      }
    }
  }

  /** The keys are the distinct stripped labels in order of first occurrence, each
      once, and they are exactly the labels that hold a value. */
  lemma {:induction false} FoldKeys(entries: seq<Entry>)
    ensures Fold(entries).keys == Distinct(Labels(entries))
    ensures forall k :: k in Fold(entries).keys <==> k in Fold(entries).values
    decreases |entries|
  {
    if entries != [] {
      var init := entries[..|entries| - 1];
      var last := entries[|entries| - 1];
      FoldKeys(init);
      var ls := Labels(entries);
      assert ls[..|ls| - 1] == Labels(init);
      assert ls[|ls| - 1] == last.0;
      assert Distinct(ls) == if last.0 in Distinct(Labels(init)) then Distinct(Labels(init))
                             else Distinct(Labels(init)) + [last.0];
      assert Fold(entries) == Step(Fold(init), last);
    }
  }

  /** Every key of the dict is a label of the input, and every label is a key. */
  lemma KeysAreLabels(entries: seq<Entry>)
    ensures forall k :: k in Fold(entries).values <==> k in Labels(entries)
    ensures NoDuplicates(Fold(entries).keys)
  {
    FoldKeys(entries);
  }

  lemma {:induction false} StoredAppend(a: seq<string>, b: seq<string>, values: map<string, DocValue>)
    ensures Stored(a + b, values) == Stored(a, values) + Stored(b, values)
  {
    if a == [] {
      assert a + b == b;
    } else {
      assert (a + b)[1..] == a[1..] + b;
      StoredAppend(a[1..], b, values);
    }
  }

  lemma {:induction false} StoredUpdateAbsent(keys: seq<string>, values: map<string, DocValue>, k: string, v: DocValue)
    requires k !in keys
    ensures Stored(keys, values[k := v]) == Stored(keys, values)
  {
    if keys != [] {
      StoredUpdateAbsent(keys[1..], values, k, v);
    }
  }

  lemma {:induction false} StoredUpdateOnce(keys: seq<string>, values: map<string, DocValue>, k: string, v: DocValue)
    requires NoDuplicates(keys) && k in keys && k in values
    ensures Stored(keys, values[k := v]) == Stored(keys, values) - |ValuesOf(values[k])| + |ValuesOf(v)|
  {
    if keys[0] == k {
      assert k !in keys[1..];
      StoredUpdateAbsent(keys[1..], values, k, v);
    } else {
      StoredUpdateOnce(keys[1..], values, k, v);
    }
  }

  /** No entry is lost: the values stored under all keys, a scalar counting as one,
      are as many as the entries. */
  lemma {:induction false} FoldCount(entries: seq<Entry>)
    ensures Stored(Fold(entries).keys, Fold(entries).values) == |entries|
    decreases |entries|
  {
    if entries != [] {
      var init := entries[..|entries| - 1];
      FoldCount(init);
      FoldKeys(init);
      var d0 := Fold(init);
      var last := entries[|entries| - 1];
      var key := last.0;
      if key in d0.values {
        var v' := Fold(entries).values[key];
        assert |ValuesOf(v')| == |ValuesOf(d0.values[key])| + 1;
        StoredUpdateOnce(d0.keys, d0.values, key, v');
      } else {
        StoredUpdateAbsent(d0.keys, d0.values, key, Scalar(last.1));
        StoredAppend(d0.keys, [key], d0.values[key := Scalar(last.1)]);
      }
    }
  }

  /** Folding one more entry of the input is one more step on its stripped pair. */
  lemma FoldStrippedPrefix(entries: seq<Entry>, i: nat)
    requires i < |entries|
    ensures Fold(StripAll(entries)[..i + 1])
         == Step(Fold(StripAll(entries)[..i]), (Strip(entries[i].0), Strip(entries[i].1)))
  {
    var pairs := StripAll(entries);
    assert pairs[..i + 1][..i] == pairs[..i];
  }

  /** The loop of the command: strips each entry's name and body, then promotes a
      repeated label from a string to a list and appends to that list in place. */
  method FieldListToDict(entries: seq<Entry>) returns (result: DocMap)
    ensures result == Fold(StripAll(entries))
    ensures entries == [] ==> result == Empty
  {
    var keys: seq<string> := [];
    var values: map<string, DocValue> := map[];
    var i := 0;
    while i < |entries|
      invariant 0 <= i <= |entries|
      invariant DocMap(keys, values) == Fold(StripAll(entries)[..i])
    {
      ghost var before := DocMap(keys, values);
      var key := Strip(entries[i].0);
      var val := Strip(entries[i].1);
      FoldStrippedPrefix(entries, i);
      if key in values {
        match values[key] {
          case Many(vs) =>
            values := values[key := Many(vs + [val])];
          case Scalar(v) =>
            values := values[key := Many([v, val])];
        }
        assert DocMap(keys, values) == Step(before, (key, val));
      } else {
        keys := keys + [key];
        values := values[key := Scalar(val)];
        assert DocMap(keys, values) == Step(before, (key, val));
      }
      i := i + 1;
    }
    assert StripAll(entries)[..i] == StripAll(entries);
    result := DocMap(keys, values);
  }

  /** The docstring of `Campaign`: a title and two context notes. */
  lemma CampaignDoc()
    ensures Fold([("title", "キャンペーン"),
                  ("context", "記事に紐づけられるイベント"),
                  ("context", "キャンペーンは運営のみ作成できる")])
         == DocMap(["title", "context"],
                   map["title" := Scalar("キャンペーン"),
                       "context" := Many(["記事に紐づけられるイベント", "キャンペーンは運営のみ作成できる"])])
  {
    var e := [("title", "キャンペーン"),
              ("context", "記事に紐づけられるイベント"),
              ("context", "キャンペーンは運営のみ作成できる")];
    assert e[..1][..0] == [] && e[..2][..1] == e[..1] && e[..2] == e[..3][..2] && e[..3] == e;
    var d1 := DocMap(["title"], map["title" := Scalar(e[0].1)]);
    var d2 := DocMap(["title", "context"], map["title" := Scalar(e[0].1), "context" := Scalar(e[1].1)]);
    assert Fold(e[..1]) == Step(Empty, e[0]) == d1;
    assert Fold(e[..2]) == Step(d1, e[1]) == d2;
    assert Fold(e) == Step(d2, e[2]);
  }
}
