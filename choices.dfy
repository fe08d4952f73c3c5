/** `_serialize_choices` and its inner `_normalize_choices`: the allowed values of a
    field with `choices`, as `{value, label}` records, keeping only the well-formed
    `(value, label)` pairs, and `None` rather than an empty list. */
module Choices {
  import opened Wrappers
  import opened PyObjects

  datatype Choice = Choice(value: string, display: string)

  /** A raw entry is kept when it is a list or a tuple of exactly two items whose
      second item, the label, is a `str`. */
  predicate WellFormed(o: PyObj)
  {
    o.ListOrTuple? && |o.items| == 2 && o.items[1].StrObj?
  }

  /** `{"value": str(value), "label": str(label)}` for a kept entry. */
  function ToChoice(o: PyObj): Choice
    requires WellFormed(o)
  {
    Choice(StrOf(o.items[0]), o.items[1].s)
  }

  /** The records of the kept entries, in source order. */
  function Normalized(raw: seq<PyObj>): (r: seq<Choice>)
    ensures |r| <= |raw|
    decreases |raw|
  {
    if raw == [] then []
    else
      var last := raw[|raw| - 1];
      Normalized(raw[..|raw| - 1]) + (if WellFormed(last) then [ToChoice(last)] else [])
  }

  /** Entries are filtered one by one, so the kept ones stay in source order. */
  lemma {:induction false} NormalizedAppend(a: seq<PyObj>, b: seq<PyObj>)
    ensures Normalized(a + b) == Normalized(a) + Normalized(b)
    decreases |b|
  {
    if b == [] {
      assert a + b == a;
    } else {
      assert (a + b)[..|a + b| - 1] == a + b[..|b| - 1];
      NormalizedAppend(a, b[..|b| - 1]);
    }
  }

  /** A record is produced exactly for each well-formed entry. */
  lemma {:induction false} NormalizedMembers(raw: seq<PyObj>, c: Choice)
    ensures c in Normalized(raw) <==> exists i :: 0 <= i < |raw| && WellFormed(raw[i]) && ToChoice(raw[i]) == c
    decreases |raw|
  {
    if raw != [] {
      var init := raw[..|raw| - 1];
      NormalizedMembers(init, c);
      if exists i :: 0 <= i < |init| && WellFormed(init[i]) && ToChoice(init[i]) == c {
        var i :| 0 <= i < |init| && WellFormed(init[i]) && ToChoice(init[i]) == c;
        assert raw[i] == init[i];
      }
      if exists i :: 0 <= i < |raw| && WellFormed(raw[i]) && ToChoice(raw[i]) == c {
        var i :| 0 <= i < |raw| && WellFormed(raw[i]) && ToChoice(raw[i]) == c;
        if i < |init| {
          assert init[i] == raw[i];
        }
      }
    }
  }

  /** When every entry is well-formed nothing is dropped: one record per entry, in order. */
  lemma {:induction false} NormalizedAllWellFormed(raw: seq<PyObj>)
    requires forall i :: 0 <= i < |raw| ==> WellFormed(raw[i])
    ensures |Normalized(raw)| == |raw|
    ensures forall i :: 0 <= i < |raw| ==> Normalized(raw)[i] == ToChoice(raw[i])
    decreases |raw|
  {
    if raw != [] {
      NormalizedAllWellFormed(raw[..|raw| - 1]);
    }
  }

  /** Conversely, a malformed entry makes the result shorter than the input. */
  lemma {:induction false} NormalizedDropsMalformed(raw: seq<PyObj>, j: nat)
    requires j < |raw| && !WellFormed(raw[j])
    ensures |Normalized(raw)| < |raw|
  {
    NormalizedAppend(raw[..j], raw[j..]);
    assert raw[..j] + raw[j..] == raw;
    NormalizedAppend([raw[j]], raw[j + 1..]);
    assert [raw[j]] + raw[j + 1..] == raw[j..];
    assert Normalized([raw[j]]) == Normalized([]) + [];
  }

  /** Filtering leaves nothing exactly when no entry is well-formed. */
  lemma NormalizedEmpty(raw: seq<PyObj>)
    ensures Normalized(raw) == [] <==> forall i :: 0 <= i < |raw| ==> !WellFormed(raw[i])
  {
    if Normalized(raw) != [] {
      NormalizedMembers(raw, Normalized(raw)[0]);
    } else {
      forall i | 0 <= i < |raw| ensures !WellFormed(raw[i]) {
        if WellFormed(raw[i]) {
          NormalizedMembers(raw, ToChoice(raw[i]));
        }
      }
    }
  }

  /** What `_serialize_choices` returns for the field's `choices` attribute (`None`
      when the field has none): `None` when it is absent or empty or when no entry
      is well-formed, otherwise the normalised list, which is therefore never empty. */
  function Serialized(raw: Option<seq<PyObj>>): (r: Option<seq<Choice>>)
    ensures r != Some([])
    ensures r.None? <==> raw.None? || forall i :: 0 <= i < |raw.value| ==> !WellFormed(raw.value[i])
    ensures r.Some? ==> r.value == Normalized(raw.value)
  {
    if raw.None? || raw.value == [] then None
    else
      NormalizedEmpty(raw.value);
      var normalized := Normalized(raw.value);
      if normalized == [] then None else Some(normalized)
  }

  /** `_normalize_choices`: the loop that appends a record for each kept entry. */
  method NormalizeChoices(raw: seq<PyObj>) returns (normalized: seq<Choice>)
    ensures normalized == Normalized(raw)
  {
    normalized := [];
    var i := 0;
    while i < |raw|
      invariant 0 <= i <= |raw|
      invariant normalized == Normalized(raw[..i])
    {
      var choice := raw[i];
      assert raw[..i + 1][..i] == raw[..i];
      i := i + 1;
      if !choice.ListOrTuple? || |choice.items| != 2 {
        continue;
      }
      var value, display := choice.items[0], choice.items[1];
      if !display.StrObj? {
        continue;
      }
      normalized := normalized + [Choice(StrOf(value), StrOf(display))];
    }
    assert raw[..i] == raw;
  }

  /** `_serialize_choices`. */
  method SerializeChoices(raw: Option<seq<PyObj>>) returns (r: Option<seq<Choice>>)
    ensures r == Serialized(raw)
  {
    if raw.None? || raw.value == [] {
      return None;
    }
    var serialized := NormalizeChoices(raw.value);
    if serialized == [] {
      return None;
    }
    return Some(serialized);
  }

  /** A status field whose second pair has a non-text label keeps only the first pair. */
  lemma DropsNonTextLabel()
    ensures Normalized([ListOrTuple([StrObj("DRAFT"), StrObj("Draft")], "('DRAFT', 'Draft')"),
                        ListOrTuple([StrObj("BAD"), IntObj(123)], "('BAD', 123)")])
         == [Choice("DRAFT", "Draft")]
  {
    var raw := [ListOrTuple([StrObj("DRAFT"), StrObj("Draft")], "('DRAFT', 'Draft')"),
                ListOrTuple([StrObj("BAD"), IntObj(123)], "('BAD', 123)")];
    assert raw[..1][..0] == [] && raw[..2][..1] == raw[..1] && raw[..2] == raw;
  }
}
