/**
 * The serialised-field pipeline of the submission form: each configured field's
 * plugin serialises it (or declines), and the results are listed in field order,
 * turned into (label, value) choices, or collected into a name-to-value map.
 */
module Serialization {
  import opened Wrappers

  /** What a field plugin's `serialize_field` produces. */
  datatype SerializedField = SerializedField(name: string, displayLabel: string, value: string)

  /**
   * `get_serialized_fields`: the fields in form order, each passed to its plugin's
   * serialiser (`serialize`, with the confirmation flag); the declined ones are dropped.
   */
  function SerializedFields<F>(fields: seq<F>, serialize: (F, bool) -> Option<SerializedField>, isConfirmation: bool)
    : (r: seq<SerializedField>)
    ensures |r| <= |fields|
    ensures forall s :: s in r ==> exists f :: f in fields && serialize(f, isConfirmation) == Some(s)
  {
    if fields == [] then []
    else
      var rest := SerializedFields(fields[1..], serialize, isConfirmation);
      assert forall s :: s in rest ==> exists f :: f in fields && serialize(f, isConfirmation) == Some(s) by {
        forall s | s in rest ensures exists f :: f in fields && serialize(f, isConfirmation) == Some(s) {
          var f :| f in fields[1..] && serialize(f, isConfirmation) == Some(s);
          assert f in fields;
        }
      }
      match serialize(fields[0], isConfirmation)
      case Some(s) => [s] + rest
      case None => rest
  }

  /** Field order is kept: the serialisation of a concatenation is the concatenation. */
  lemma {:induction false} SerializedFieldsAppend<F>(a: seq<F>, b: seq<F>, serialize: (F, bool) -> Option<SerializedField>, isConfirmation: bool)
    ensures SerializedFields(a + b, serialize, isConfirmation)
         == SerializedFields(a, serialize, isConfirmation) + SerializedFields(b, serialize, isConfirmation)
  {
    if a == [] {
      assert a + b == b;
    } else {
      assert (a + b)[1..] == a[1..] + b;
      SerializedFieldsAppend(a[1..], b, serialize, isConfirmation);
    }
  }

  /** Nothing non-None is dropped: every serialised field of a configured field is listed. */
  lemma {:induction false} SerializedFieldsComplete<F>(fields: seq<F>, serialize: (F, bool) -> Option<SerializedField>, isConfirmation: bool, f: F)
    requires f in fields && serialize(f, isConfirmation).Some?
    ensures serialize(f, isConfirmation).value in SerializedFields(fields, serialize, isConfirmation)
  {
    if fields[0] != f {
      SerializedFieldsComplete(fields[1..], serialize, isConfirmation, f);
    }
  }

  /** When no field is declined, the output is exactly one entry per field, in order. */
  lemma {:induction false} SerializedFieldsNoneDeclined<F>(fields: seq<F>, serialize: (F, bool) -> Option<SerializedField>, isConfirmation: bool)
    requires forall i :: 0 <= i < |fields| ==> serialize(fields[i], isConfirmation).Some?
    ensures |SerializedFields(fields, serialize, isConfirmation)| == |fields|
    ensures forall i :: 0 <= i < |fields| ==>
              SerializedFields(fields, serialize, isConfirmation)[i] == serialize(fields[i], isConfirmation).value
  {
    if fields != [] {
      var tail := fields[1..];
      assert forall i :: 0 <= i < |tail| ==> tail[i] == fields[i + 1];
      SerializedFieldsNoneDeclined(tail, serialize, isConfirmation);
      var rest := SerializedFields(tail, serialize, isConfirmation);
      var out := SerializedFields(fields, serialize, isConfirmation);
      assert out == [serialize(fields[0], isConfirmation).value] + rest;
      assert forall i :: 1 <= i < |fields| ==> out[i] == rest[i - 1];
    }
  }

  /** `get_serialized_field_choices`: the (label, value) pair of each serialised field, in order. */
  function SerializedFieldChoices<F>(fields: seq<F>, serialize: (F, bool) -> Option<SerializedField>, isConfirmation: bool)
    : (r: seq<(string, string)>)
    ensures var s := SerializedFields(fields, serialize, isConfirmation);
            |r| == |s| && forall i :: 0 <= i < |s| ==> r[i] == (s[i].displayLabel, s[i].value)
  {
    var s := SerializedFields(fields, serialize, isConfirmation);
    seq(|s|, i requires 0 <= i < |s| => (s[i].displayLabel, s[i].value))
  }

  /** `dict((field.name, field.value) for field in fields)`: later entries overwrite earlier ones. */
  function NameValueMap(fields: seq<SerializedField>): map<string, string>
  {
    if fields == [] then map[]
    else
      var last := fields[|fields| - 1];
      NameValueMap(fields[..|fields| - 1])[last.name := last.value]
  }

  /** The keys of the map are exactly the names of the entries. */
  lemma {:induction false} NameValueMapKeys(fields: seq<SerializedField>, name: string)
    ensures name in NameValueMap(fields) <==> exists i :: 0 <= i < |fields| && fields[i].name == name
  {
    if fields != [] {
      var pre := fields[..|fields| - 1];
      NameValueMapKeys(pre, name);
      assert forall i :: 0 <= i < |pre| ==> pre[i] == fields[i];
      if name in NameValueMap(fields) && name != fields[|fields| - 1].name {
        var i :| 0 <= i < |pre| && pre[i].name == name;
        assert fields[i].name == name;
      }
    }
  }

  /** An entry that no later entry shares its name with gives the value for that name: the last one wins. */
  lemma {:induction false} LastValueWins(fields: seq<SerializedField>, i: nat)
    requires i < |fields|
    requires forall j :: i < j < |fields| ==> fields[j].name != fields[i].name
    ensures fields[i].name in NameValueMap(fields) && NameValueMap(fields)[fields[i].name] == fields[i].value
  {
    if i < |fields| - 1 {
      var pre := fields[..|fields| - 1];
      assert pre[i] == fields[i];
      assert forall j :: i < j < |pre| ==> pre[j] == fields[j];
      LastValueWins(pre, i);
    }
  }

  /** `get_cleaned_data`: the serialised fields as a name-to-value map. */
  function CleanedData<F>(fields: seq<F>, serialize: (F, bool) -> Option<SerializedField>, isConfirmation: bool)
    : map<string, string>
  {
    NameValueMap(SerializedFields(fields, serialize, isConfirmation))
  }

  /** The cleaned data has a key for exactly the names of the serialised fields. */
  lemma CleanedDataKeys<F>(fields: seq<F>, serialize: (F, bool) -> Option<SerializedField>, isConfirmation: bool, name: string)
    ensures var s := SerializedFields(fields, serialize, isConfirmation);
            name in CleanedData(fields, serialize, isConfirmation) <==> exists i :: 0 <= i < |s| && s[i].name == name
  {
    var s := SerializedFields(fields, serialize, isConfirmation);
    NameValueMapKeys(s, name);
    assert CleanedData(fields, serialize, isConfirmation) == NameValueMap(s);
  }

  /** For a name several fields share, the cleaned data holds the value of the last of them. */
  lemma CleanedDataLastWins<F>(fields: seq<F>, serialize: (F, bool) -> Option<SerializedField>, isConfirmation: bool, i: nat)
    requires i < |SerializedFields(fields, serialize, isConfirmation)|
    requires var s := SerializedFields(fields, serialize, isConfirmation);
             forall j :: i < j < |s| ==> s[j].name != s[i].name
    ensures var s := SerializedFields(fields, serialize, isConfirmation);
            s[i].name in CleanedData(fields, serialize, isConfirmation)
            && CleanedData(fields, serialize, isConfirmation)[s[i].name] == s[i].value
  {
    LastValueWins(SerializedFields(fields, serialize, isConfirmation), i);
  }
}
