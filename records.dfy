/**
 * The untyped values a Firebase Realtime Database snapshot hands back
 * (`snapshot.value`), and the `as?` casts the services apply to them.
 */
module Records {
  import opened Wrappers

  datatype Value =
    | Null
    | Str(s: string)
    | Num(n: int)
    | Bool(b: bool)
    | Arr(items: seq<Value>)
    | Obj(fields: map<string, Value>)

  /** A JSON object, as `[String: Any]`. */
  type Record = map<string, Value>

  /** `dict[key] as? String` */
  function StringField(r: Record, key: string): (s: Option<string>)
    ensures s.Some? <==> key in r && r[key].Str?
    ensures s.Some? ==> r[key] == Str(s.value)
  {
    if key in r && r[key].Str? then Some(r[key].s) else None
  }

  /** `value as? [String: Any]` */
  function AsRecord(v: Value): (r: Option<Record>)
    ensures r.Some? <==> v.Obj?
    ensures r.Some? ==> v == Obj(r.value)
  {
    if v.Obj? then Some(v.fields) else None
  }

  function AsString(v: Value): Option<string> {
    if v.Str? then Some(v.s) else None
  }

  /** `value as? [String]`: an array all of whose elements are strings. */
  function AsStringList(v: Value): (r: Option<seq<string>>)
    ensures r.Some? <==> v.Arr? && forall i :: 0 <= i < |v.items| ==> v.items[i].Str?
    ensures r.Some? ==> |r.value| == |v.items| && forall i :: 0 <= i < |r.value| ==> v.items[i] == Str(r.value[i])
  {
    if v.Arr? && forall i :: 0 <= i < |v.items| ==> v.items[i].Str? then
      Some(seq(|v.items|, i requires 0 <= i < |v.items| && v.items[i].Str? => v.items[i].s))
    else None
  }

  /** `value as? [[String: Any]]`: an array all of whose elements are objects. */
  function AsRecordList(v: Value): (r: Option<seq<Record>>)
    ensures r.Some? <==> v.Arr? && forall i :: 0 <= i < |v.items| ==> v.items[i].Obj?
    ensures r.Some? ==> |r.value| == |v.items| && forall i :: 0 <= i < |r.value| ==> v.items[i] == Obj(r.value[i])
  {
    if v.Arr? && forall i :: 0 <= i < |v.items| ==> v.items[i].Obj? then
      Some(seq(|v.items|, i requires 0 <= i < |v.items| && v.items[i].Obj? => v.items[i].fields))
    else None
  }

  /** The value a list of strings is stored as. */
  function StringListValue(l: seq<string>): Value {
    Arr(seq(|l|, i requires 0 <= i < |l| => Str(l[i])))
  }

  /** The value a list of objects is stored as. */
  function RecordListValue(l: seq<Record>): Value {
    Arr(seq(|l|, i requires 0 <= i < |l| => Obj(l[i])))
  }

  lemma AsStringListOfValue(l: seq<string>)
    ensures AsStringList(StringListValue(l)) == Some(l)
  {
    var v := StringListValue(l);
    assert forall i :: 0 <= i < |v.items| ==> v.items[i] == Str(l[i]);
    assert AsStringList(v).value == l;
  }

  lemma AsRecordListOfValue(l: seq<Record>)
    ensures AsRecordList(RecordListValue(l)) == Some(l)
  {
    var v := RecordListValue(l);
    assert forall i :: 0 <= i < |v.items| ==> v.items[i] == Obj(l[i]);
    assert AsRecordList(v).value == l;
  }

  /** `dict[key] as? [String] ?? []` */
  function StringListField(r: Record, key: string): (l: seq<string>)
    ensures key in r && AsStringList(r[key]).Some? ==> l == AsStringList(r[key]).value
    ensures !(key in r && AsStringList(r[key]).Some?) ==> l == []
  {
    if key in r then AsStringList(r[key]).GetOr([]) else []
  }

  /** `value as? [[String: Any]] ?? []` */
  function RecordListOrEmpty(v: Value): (l: seq<Record>)
    ensures AsRecordList(v).Some? ==> l == AsRecordList(v).value
    ensures AsRecordList(v).None? ==> l == []
  {
    AsRecordList(v).GetOr([])
  }
}
