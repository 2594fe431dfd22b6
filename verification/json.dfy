/** Parsed JSON as the store sees it: property values, their truthiness and
    text forms, and objects whose properties keep insertion order. */
module Json {
  import opened Text
  import opened KeySets

  /** A property value. Arrays and objects nested inside a document are kept
      opaque, by the text a template literal shows for them and their JSON text. */
  datatype Value =
    | Null
    | Bool(b: bool)
    | Num(n: int)
    | Str(s: string)
    | Nested(shown: string, json: string)

  /** JavaScript truthiness: `null`, `false`, `0` and `""` are falsy, every
      other value (including an empty array or object) is truthy. */
  predicate Truthy(v: Value)
  {
    match v
    case Null => false
    case Bool(b) => b
    case Num(n) => n != 0
    case Str(s) => s != ""
    case Nested(_, _) => true
  }

  /** Exactly four values are falsy: `null`, `false`, `0` and the empty string. */
  lemma FalsyValues(v: Value)
    ensures !Truthy(v) <==> v == Null || v == Bool(false) || v == Num(0) || v == Str("")
  {
  }

  /** The text `${v}` produces in a template literal. */
  function Show(v: Value): (r: string)
    ensures v.Str? ==> Quote(r) == Serialize(v)
    ensures !v.Str? && !v.Nested? ==> r == Serialize(v)
  {
    match v
    case Null => "null"
    case Bool(b) => if b then "true" else "false"
    case Num(n) => IntText(n)
    case Str(s) => s
    case Nested(shown, _) => shown
  }

  /** A string as a JSON string literal (escaping is not modelled). */
  function Quote(s: string): string
  {
    "\"" + s + "\""
  }

  /** `JSON.stringify(v)`. */
  function Serialize(v: Value): (r: string)
    ensures !v.Nested? ==> |r| > 0
    ensures v.Str? ==> r[0] == '"' && r[|r| - 1] == '"'
  {
    match v
    case Null => "null"
    case Bool(b) => if b then "true" else "false"
    case Num(n) => IntText(n)
    case Str(s) => Quote(s)
    case Nested(_, json) => json
  }

  /** A JSON object: its property names in insertion order and their values. */
  datatype Obj<V> = Obj(keys: seq<Key>, vals: map<Key, V>) {

    /** Property names are unique, and the order list and the value map name
        the same properties. */
    ghost predicate Valid()
    {
      Distinct(keys) && forall k :: k in vals <==> k in keys
    }

    /** `o[k] = v`: a new property goes to the end, an existing one keeps its place. */
    function Put(k: Key, v: V): (r: Obj<V>)
      requires Valid()
      ensures r.Valid()
      ensures r.keys == UnionOf(keys, [k])
      ensures k in r.vals && r.vals[k] == v
      ensures forall j :: j != k ==> (j in r.vals <==> j in vals) && (j in vals ==> r.vals[j] == vals[j])
    {
      assert [k][..0] == [];
      Obj(if k in keys then keys else keys + [k], vals[k := v])
    }

    /** `o[k] = undefined` followed by `JSON.stringify`, which leaves out
        properties whose value is `undefined`: the property disappears and the
        others keep their order. */
    function Drop(k: Key): (r: Obj<V>)
      requires Valid()
      ensures r.Valid()
      ensures r.keys == Without(keys, [k])
      ensures k !in r.vals
      ensures forall j :: j != k ==> (j in r.vals <==> j in vals) && (j in vals ==> r.vals[j] == vals[j])
    {
      Obj(Without(keys, [k]), vals - {k})
    }

    /** `JSON.stringify(o)`, each value rendered by `render`. */
    function Stringify(render: V -> string): (r: string)
      ensures |r| >= 2 && r[0] == '{' && r[|r| - 1] == '}'
      ensures keys == [] ==> r == "{}"
    {
      "{" + Join(Members(keys, vals, render), ",") + "}"
    }
  }

  /** `{}` */
  function EmptyObj<V>(): (r: Obj<V>)
    ensures r.Valid() && r.keys == []
  {
    Obj([], map[])
  }

  /** The `"name":value` members of an object, in key order. */
  function Members<V>(keys: seq<Key>, vals: map<Key, V>, render: V -> string): (r: seq<string>)
    ensures |r| <= |keys|
  {
    if keys == [] then []
    else
      (if keys[0] in vals then [Quote(keys[0]) + ":" + render(vals[keys[0]])] else [])
      + Members(keys[1..], vals, render)
  }

  /** The member of key `k` in serialised form. */
  function Member<V>(k: Key, vals: map<Key, V>, render: V -> string): string
    requires k in vals
  {
    Quote(k) + ":" + render(vals[k])
  }

  /** When every key has a value, serialisation writes one member per key, in
      key order: the guard in `Members` never drops a property of a valid object. */
  lemma {:induction false} MembersInOrder<V>(keys: seq<Key>, vals: map<Key, V>, render: V -> string)
    requires forall i :: 0 <= i < |keys| ==> keys[i] in vals
    ensures |Members(keys, vals, render)| == |keys|
    ensures forall i :: 0 <= i < |keys| ==> Members(keys, vals, render)[i] == Member(keys[i], vals, render)
  {
    if keys != [] {
      MembersInOrder(keys[1..], vals, render);
    }
  }

  /** A document: a JSON object of plain values. */
  type Document = Obj<Value>

  /** `JSON.stringify(d)` for a document. */
  function DocumentText(d: Document): string
  {
    d.Stringify(Serialize)
  }
}
