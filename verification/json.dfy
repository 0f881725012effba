/**
 * The values `json.loads` can hand back, with the three Python behaviours the
 * pipeline depends on: truthiness (`if not x`), `dict.get(key, default)` and
 * the text an f-string gives a value (`str(x)`).
 */
module JsonValues {
  import opened PyText

  /**
   * A decoded JSON value. An object keeps its members in document order;
   * a float keeps its numeric value and the text Python prints for it.
   */
  datatype Json =
    | JNull
    | JBool(b: bool)
    | JInt(i: int)
    | JFloat(x: real, repr: string)
    | JStr(s: string)
    | JArr(items: seq<Json>)
    | JObj(members: seq<(string, Json)>)

  /** Python truthiness: `None`, `False`, zero and empty containers are false. */
  predicate Truthy(v: Json) {
    match v
    case JNull => false
    case JBool(b) => b
    case JInt(i) => i != 0
    case JFloat(x, _) => x != 0.0
    case JStr(s) => s != []
    case JArr(items) => items != []
    case JObj(members) => members != []
  }

  /** The falsy values are exactly None, False, 0, 0.0, "", [] and {}. */
  lemma FalsyValues(v: Json)
    ensures !Truthy(v) <==>
      v in {JNull, JBool(false), JInt(0), JStr([]), JArr([]), JObj([])} || (v.JFloat? && v.x == 0.0)
  {
  }

  /** The object has a member named `key`. */
  predicate HasKey(members: seq<(string, Json)>, key: string) {
    exists i :: 0 <= i < |members| && members[i].0 == key
  }

  /** `v` is the value of the last member named `key`. */
  predicate LastValue(members: seq<(string, Json)>, key: string, v: Json) {
    exists i :: 0 <= i < |members| && members[i] == (key, v) && forall j :: i < j < |members| ==> members[j].0 != key
  }

  /**
   * `d.get(key, default)` on the dict `json.loads` builds from `members`:
   * a repeated key keeps the value of its last occurrence.
   */
  function Get(members: seq<(string, Json)>, key: string, default: Json): (v: Json)
    ensures !HasKey(members, key) ==> v == default
    ensures HasKey(members, key) ==> LastValue(members, key, v)
  {
    if members == [] then default
    else
      var last := members[|members| - 1];
      if last.0 == key then
        assert members[|members| - 1] == (key, last.1);
        last.1
      else
        var v := Get(members[..|members| - 1], key, default);
        LastValueBeforeOther(members, key, v);
        v
  }

  /** A last member with another name changes neither whether `key` occurs nor its last value. */
  lemma LastValueBeforeOther(members: seq<(string, Json)>, key: string, v: Json)
    requires members != [] && members[|members| - 1].0 != key
    ensures HasKey(members, key) ==> HasKey(members[..|members| - 1], key)
    ensures LastValue(members[..|members| - 1], key, v) ==> LastValue(members, key, v)
  {
    var prefix := members[..|members| - 1];
    if HasKey(members, key) {
      var i :| 0 <= i < |members| && members[i].0 == key;
      assert prefix[i] == members[i];
    }
    if LastValue(prefix, key, v) {
      var i :| 0 <= i < |prefix| && prefix[i] == (key, v) && forall j :: i < j < |prefix| ==> prefix[j].0 != key;
      assert members[i] == prefix[i];
      assert forall j :: i < j < |members| ==> members[j].0 != key by {
        forall j | i < j < |members| ensures members[j].0 != key {
          if j < |prefix| {
            assert members[j] == prefix[j];
          }
        }
      }
    }
  }

  /** The name of the Python type a decoded value has. */
  function TypeName(v: Json): string {
    match v
    case JNull => "NoneType"
    case JBool(_) => "bool"
    case JInt(_) => "int"
    case JFloat(_, _) => "float"
    case JStr(_) => "str"
    case JArr(_) => "list"
    case JObj(_) => "dict"
  }

  /** The text of the `AttributeError` raised by calling `.get` on a decoded value that is not a dict. */
  function NoGetMessage(v: Json): string {
    "'" + TypeName(v) + "' object has no attribute 'get'"
  }

  /** `str(v)`, the text an f-string interpolates: a string as it is, a list in brackets, a dict in braces. */
  function Show(v: Json): string
    decreases v, 1
  {
    match v
    case JNull => "None"
    case JBool(b) => if b then "True" else "False"
    case JInt(i) => IntToString(i)
    case JFloat(_, repr) => repr
    case JStr(s) => s
    case JArr(items) => "[" + ShowItems(v, items, 0) + "]"
    case JObj(members) => "{" + ShowMembers(v, members, 0) + "}"
  }

  /** `repr(v)`, as the elements of a list or dict are printed; strings are quoted but not escaped. */
  function Repr(v: Json): string
    decreases v, 2
  {
    if v.JStr? then "'" + v.s + "'" else Show(v)
  }

  /**
   * A string is inserted as it is; None, True and False print as those
   * words; a list prints in brackets and a dict in braces.
   */
  lemma ShowFormats(v: Json)
    ensures v.JStr? ==> Show(v) == v.s
    ensures v.JNull? ==> Show(v) == "None"
    ensures v.JBool? ==> Show(v) == (if v.b then "True" else "False")
    ensures v.JArr? ==> StartsWith(Show(v), "[") && EndsWith(Show(v), "]")
    ensures v.JObj? ==> StartsWith(Show(v), "{") && EndsWith(Show(v), "}")
  {
  }

  function ShowItems(parent: Json, items: seq<Json>, k: nat): string
    requires parent.JArr? && parent.items == items
    decreases parent, 0, |items| - k
  {
    if k >= |items| then ""
    else
      assert items[k] in parent.items;
      (if k == 0 then "" else ", ") + Repr(items[k]) + ShowItems(parent, items, k + 1)
  }

  function ShowMembers(parent: Json, members: seq<(string, Json)>, k: nat): string
    requires parent.JObj? && parent.members == members
    decreases parent, 0, |members| - k
  {
    if k >= |members| then ""
    else
      assert members[k] in parent.members;
      (if k == 0 then "" else ", ") + "'" + members[k].0 + "': " + Repr(members[k].1)
      + ShowMembers(parent, members, k + 1)
  }
}
