/** The shape of the document the command hands to the YAML emitter: scalars,
    lists and insertion-ordered dicts, built from Python `str`, `bool` and `None`. */
module Values {
  import opened Wrappers

  datatype Value =
    | Null
    | Str(s: string)
    | Bool(b: bool)
    | List(items: seq<Value>)
    | Dict(entries: seq<(string, Value)>)

  /** The keys of an insertion-ordered dict, in order. */
  function Keys(entries: seq<(string, Value)>): (ks: seq<string>)
    ensures |ks| == |entries|
    ensures forall i :: 0 <= i < |entries| ==> ks[i] == entries[i].0
  {
    if entries == [] then [] else [entries[0].0] + Keys(entries[1..])
  }

  lemma {:induction false} KeysAppend(a: seq<(string, Value)>, b: seq<(string, Value)>)
    ensures Keys(a + b) == Keys(a) + Keys(b)
  {
    if a == [] {
      assert a + b == b;
    } else {
      assert (a + b)[1..] == a[1..] + b;
      KeysAppend(a[1..], b);
    }
  }

  /** Reading one key of a record the command builds: the value of the first entry
      with that key, `None` when there is none. */
  function Lookup(entries: seq<(string, Value)>, key: string): (r: Option<Value>)
    ensures r.Some? <==> key in Keys(entries)
    ensures r.Some? ==> (key, r.value) in entries
  {
    if entries == [] then None
    else if entries[0].0 == key then Some(entries[0].1)
    else Lookup(entries[1..], key)
  }

  /** A list of strings, as `list(...)` of names gives it. */
  function StrList(xs: seq<string>): (v: Value)
    ensures v.List? && |v.items| == |xs|
    ensures forall i :: 0 <= i < |xs| ==> v.items[i] == Str(xs[i])
  {
    List(seq(|xs|, i requires 0 <= i < |xs| => Str(xs[i])))
  }

  /** `{k: v for k, v in d.items() if v is not None}`: the entries whose value is not
      `None`, and only those. `False` and empty strings are kept. */
  function Prune(entries: seq<(string, Value)>): (r: seq<(string, Value)>)
    ensures |r| <= |entries|
  {
    if entries == [] then []
    else (if entries[0].1 == Null then [] else [entries[0]]) + Prune(entries[1..])
  }

  /** Pruning keeps exactly the entries whose value is not `None`. */
  lemma {:induction false} PruneMembers(entries: seq<(string, Value)>)
    ensures forall i :: 0 <= i < |Prune(entries)| ==> Prune(entries)[i].1 != Null
    ensures forall e :: e in Prune(entries) <==> e in entries && e.1 != Null
  {
    if entries != [] {
      PruneMembers(entries[1..]);
      assert entries == [entries[0]] + entries[1..];
    }
  }

  /** Pruning works entry by entry, so the surviving entries keep their relative order. */
  lemma {:induction false} PruneAppend(a: seq<(string, Value)>, b: seq<(string, Value)>)
    ensures Prune(a + b) == Prune(a) + Prune(b)
  {
    if a == [] {
      assert a + b == b;
    } else {
      assert (a + b)[0] == a[0];
      assert (a + b)[1..] == a[1..] + b;
      PruneAppend(a[1..], b);
    }
  }

  /** A dict with no `None` value is left as it is. */
  lemma {:induction false} PruneNoNull(entries: seq<(string, Value)>)
    requires forall i :: 0 <= i < |entries| ==> entries[i].1 != Null
    ensures Prune(entries) == entries
  {
    if entries != [] {
      PruneNoNull(entries[1..]);
    }
  }
}
