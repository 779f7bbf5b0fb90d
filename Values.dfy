/**
 * Untyped answer values, as Jackson deserialises a submitted JSON answer
 * into Java objects, and the Java runtime exceptions that can escape the
 * services when such a value has an unexpected shape.
 */
module Values {

  /** The boxed Java class of a JSON number: Integer/Long or Double. */
  datatype NumKind = Integral | Floating

  /**
   * A submitted answer. `Num` carries the text that the boxed number's
   * `toString()` produces; `Obj` is a `LinkedHashMap`, so its entries keep
   * insertion order and have distinct keys.
   */
  datatype Value =
    | Null
    | Bool(b: bool)
    | Str(s: string)
    | Num(kind: NumKind, text: string)
    | List(items: seq<Value>)
    | Obj(entries: seq<(string, Value)>)

  /** Unchecked Java exceptions the services let escape. */
  datatype Crash = ClassCast | NullPointer | NumberFormat | IndexOutOfBounds

  predicate HasKey(entries: seq<(string, Value)>, key: string)
  {
    exists i :: 0 <= i < |entries| && entries[i].0 == key
  }

  /** `Map.get`: the value under the first entry with that key, or null. */
  function Get(entries: seq<(string, Value)>, key: string): (v: Value)
    ensures !HasKey(entries, key) ==> v == Null
    ensures HasKey(entries, key) ==>
      exists i :: 0 <= i < |entries| && entries[i].0 == key && entries[i].1 == v
  {
    if entries == [] then Null
    else if entries[0].0 == key then entries[0].1
    else
      var v := Get(entries[1..], key);
      assert HasKey(entries[1..], key) ==> HasKey(entries, key) by {
        if HasKey(entries[1..], key) {
          var i :| 0 <= i < |entries[1..]| && entries[1..][i].0 == key;
          assert entries[i + 1].0 == key;
        }
      }
      assert HasKey(entries, key) ==> HasKey(entries[1..], key) by {
        if HasKey(entries, key) {
          var i :| 0 <= i < |entries| && entries[i].0 == key;
          assert i != 0;
          assert entries[1..][i - 1].0 == key;
        }
      }
      if HasKey(entries, key) then
        var j :| 0 <= j < |entries[1..]| && entries[1..][j].0 == key && entries[1..][j].1 == v;
        assert entries[j + 1].0 == key && entries[j + 1].1 == v;
        v
      else v
  }

  /** `String.join(sep, parts)`. */
  function Join(sep: string, parts: seq<string>): string
  {
    if parts == [] then ""
    else if |parts| == 1 then parts[0]
    else parts[0] + sep + Join(sep, parts[1..])
  }

  /**
   * `String.valueOf(v)`: `toString()` of the Java object, "null" for null;
   * lists print as `[a, b]` and maps as `{k=v, ...}`.
   */
  function ToText(v: Value): string
    decreases v, 1, 0
  {
    match v
    case Null => "null"
    case Bool(b) => if b then "true" else "false"
    case Str(s) => s
    case Num(_, t) => t
    case List(items) => "[" + ItemsText(v, 0) + "]"
    case Obj(entries) => "{" + EntriesText(v, 0) + "}"
  }

  /** The texts of `v.items[i..]`, separated by ", ". */
  function ItemsText(v: Value, i: nat): string
    requires v.List? && i <= |v.items|
    decreases v, 0, |v.items| - i
  {
    if i == |v.items| then ""
    else if i == |v.items| - 1 then ToText(v.items[i])
    else ToText(v.items[i]) + ", " + ItemsText(v, i + 1)
  }

  /** The texts `k=v` of `v.entries[i..]`, separated by ", ". */
  function EntriesText(v: Value, i: nat): string
    requires v.Obj? && i <= |v.entries|
    decreases v, 0, |v.entries| - i
  {
    if i == |v.entries| then ""
    else
      var e := v.entries[i];
      assert e.1 < v by { assert e < v; }
      var head := e.0 + "=" + ToText(e.1);
      if i == |v.entries| - 1 then head else head + ", " + EntriesText(v, i + 1)
  }

  /** The rendering of a list or a map starts with its bracket. */
  lemma {:induction false} ContainerTextBracket(v: Value)
    requires v.List? || v.Obj?
    ensures |ToText(v)| > 0 && ToText(v)[0] == (if v.List? then '[' else '{')
  {
  }
}
