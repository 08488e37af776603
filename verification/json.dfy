/** Decoded JSON values as Python sees them after `json.loads`: objects
    keep their keys in payload order (a Python dict preserves insertion
    order), and integers and floats stay apart because Python renders them
    differently. The JSON text itself is not modelled. */
module JsonValues {
  import opened Wrappers
  import opened Text

  datatype Json =
    | JNull
    | JBool(b: bool)
    | JInt(i: int)
    | JFloat(f: real)
    | JStr(s: string)
    | JArray(items: seq<Json>)
    | JObject(fields: seq<(string, Json)>)

  /** Python `d.get(key)` on a dict given as its ordered fields (the first
      field with that key; a decoded dict has no repeated keys). */
  function Get(fields: seq<(string, Json)>, key: string): (r: Option<Json>)
    ensures r.Some? <==> exists i :: 0 <= i < |fields| && fields[i].0 == key
    ensures r.Some? ==> exists i :: 0 <= i < |fields| && fields[i] == (key, r.value)
  {
    if |fields| == 0 then None
    else if fields[0].0 == key then Some(fields[0].1)
    else
      var r := Get(fields[1..], key);
      assert forall i :: 1 <= i < |fields| ==> fields[i] == fields[1..][i - 1];
      r
  }

  /** The keys of a dict, in field order. */
  function Keys(fields: seq<(string, Json)>): (r: seq<string>)
    ensures |r| == |fields|
    ensures forall i :: 0 <= i < |fields| ==> r[i] == fields[i].0
  {
    if |fields| == 0 then [] else [fields[0].0] + Keys(fields[1..])
  }

  /** The first field carrying `key` is the one `Get` finds. */
  lemma {:induction false} GetFirst(fields: seq<(string, Json)>, i: nat, key: string)
    requires i < |fields| && fields[i].0 == key
    requires key !in Keys(fields)[..i]
    ensures Get(fields, key) == Some(fields[i].1)
  {
    if i > 0 {
      assert Keys(fields)[0] == fields[0].0;
      assert Keys(fields[1..])[..i - 1] == Keys(fields)[1..i];
      GetFirst(fields[1..], i - 1, key);
    }
  }

  /** In a dict of four distinct keys, each key finds its own value. */
  lemma GetFour(a: string, b: string, c: string, d: string, va: Json, vb: Json, vc: Json, vd: Json)
    requires a != b && a != c && a != d && b != c && b != d && c != d
    ensures var f := [(a, va), (b, vb), (c, vc), (d, vd)];
      Get(f, a) == Some(va) && Get(f, b) == Some(vb) && Get(f, c) == Some(vc) && Get(f, d) == Some(vd)
  {
    var f := [(a, va), (b, vb), (c, vc), (d, vd)];
    var g := [(b, vb), (c, vc), (d, vd)];
    var h := [(c, vc), (d, vd)];
    var k := [(d, vd)];
    assert f[1..] == g && g[1..] == h && h[1..] == k;
    assert Get(k, d) == Some(vd);
    assert Get(h, d) == Some(vd) && Get(h, c) == Some(vc);
    assert Get(g, d) == Some(vd) && Get(g, c) == Some(vc) && Get(g, b) == Some(vb);
  }

  /** A key that no field carries is absent. */
  lemma MissingKey(fields: seq<(string, Json)>, key: string)
    requires key !in Keys(fields)
    ensures !HasKey(fields, key)
  {
  }

  /** Python `key in d`. */
  predicate HasKey(fields: seq<(string, Json)>, key: string)
  {
    Get(fields, key).Some?
  }

  /** Python truthiness of a decoded value. */
  predicate Truthy(j: Json)
  {
    match j
    case JNull => false
    case JBool(b) => b
    case JInt(i) => i != 0
    case JFloat(f) => f != 0.0
    case JStr(s) => |s| > 0
    case JArray(items) => |items| > 0
    case JObject(fields) => |fields| > 0
  }

  /** Python `j == n` for an integer `n`: ints, floats and booleans compare
      numerically (`True == 1`, `1.0 == 1`); nothing else equals a number. */
  predicate EqualsInt(j: Json, n: int)
  {
    match j
    case JInt(i) => i == n
    case JFloat(f) => f == n as real
    case JBool(b) => (if b then 1 else 0) == n
    case _ => false
  }

  /** Python `str(j)`, given the rendering Python uses for a float
      (`floatStr`), which is library behaviour and not modelled. Strings
      render as themselves; containers render their elements with `Repr`. */
  function Str(j: Json, floatStr: real -> string): string
    decreases j, 0
  {
    match j
    case JNull => "None"
    case JBool(b) => if b then "True" else "False"
    case JInt(i) => IntStr(i)
    case JFloat(f) => floatStr(f)
    case JStr(s) => s
    case JArray(items) =>
      "[" + Join(seq(|items|, k requires 0 <= k < |items| => Repr(items[k], floatStr)), ", ") + "]"
    case JObject(fields) =>
      "{" + Join(seq(|fields|, k requires 0 <= k < |fields| =>
                   Quote(fields[k].0) + ": " + Repr(fields[k].1, floatStr)), ", ") + "}"
  }

  /** Python's `repr` of a string, for text without quotes, backslashes or
      unprintable characters. */
  function Quote(s: string): string { "'" + s + "'" }

  /** Python `repr(j)`: as `Str`, except that a string is quoted. */
  function Repr(j: Json, floatStr: real -> string): string
    decreases j, 1
  {
    match j
    case JStr(s) => Quote(s)
    case _ => Str(j, floatStr)
  }
}
