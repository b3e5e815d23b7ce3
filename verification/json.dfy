/** Parsed JSON values as the visualizer receives them from `JSON.parse`, the keys under
    which the traversal reaches them, node classification (`getNodeType`) and the
    serialisation `JSON.stringify` produces for them. */
module Json {
  import opened Text

  /** A parsed JSON value. A number is kept as the text `JSON.stringify` prints for it
      (its canonical JavaScript rendering), since the model never computes with numbers;
      object members keep the order in which `Object.entries` lists them. */
  datatype Json =
    | JNull
    | JBool(b: bool)
    | JNum(token: string)
    | JStr(s: string)
    | JArr(items: seq<Json>)
    | JObj(members: seq<(string, Json)>)

  /** The `key` argument of `traverse`: the root call's default `'root'`, an object
      member's name, or an array element's numeric index. */
  datatype Key = KRoot | KName(name: string) | KIndex(index: nat)

  /** The three node types of `getNodeType`. */
  datatype Kind = ObjectNode | ArrayNode | PrimitiveNode

  predicate IsScalar(v: Json) {
    v.JNull? || v.JBool? || v.JNum? || v.JStr?
  }

  /** `getNodeType`: `null` and every scalar is a primitive, arrays are arrays, and any
      other (non-null) object is an object. */
  function NodeType(v: Json): (k: Kind)
    ensures k == ArrayNode <==> v.JArr?
    ensures k == ObjectNode <==> v.JObj?
    ensures k == PrimitiveNode <==> IsScalar(v)
  {
    if v.JNull? then PrimitiveNode
    else if v.JArr? then ArrayNode
    else if v.JObj? then ObjectNode
    else PrimitiveNode
  }

  predicate IsContainer(k: Kind) {
    k == ObjectNode || k == ArrayNode
  }

  /** How a key reads when interpolated into a template string. */
  function KeyText(k: Key): string {
    match k
    case KRoot => "root"
    case KName(name) => name
    case KIndex(i) => Decimal(i)
  }

  /** `key === 'root'`: true for the root call's default key and for an object member
      literally named "root"; never for a numeric index. */
  predicate IsRootKey(k: Key) {
    k.KRoot? || (k.KName? && k.name == "root")
  }

  // ---------------------------------------------------------------------------
  // Children, in the order `traverse` visits them
  // ---------------------------------------------------------------------------

  /** How many children `traverse` visits below `v`: array elements or object members. */
  function Arity(v: Json): nat {
    match v
    case JArr(items) => |items|
    case JObj(members) => |members|
    case _ => 0
  }

  function ChildValue(v: Json, j: nat): Json
    requires j < Arity(v)
  {
    match v
    case JArr(items) => items[j]
    case JObj(members) => members[j].1
  }

  function ChildKey(v: Json, j: nat): Key
    requires j < Arity(v)
  {
    match v
    case JArr(items) => KIndex(j)
    case JObj(members) => KName(members[j].0)
  }

  /** The number of values in `v`: itself plus, recursively, every element and member value. */
  function Size(v: Json): (n: nat)
    decreases v, 1
    ensures n >= 1
  {
    1 + SizesFrom(v, 0)
  }

  /** The combined size of the children of `v` from the `j`-th on. */
  function SizesFrom(v: Json, j: nat): nat
    decreases v, 0, Arity(v) - j
  {
    if j >= Arity(v) then 0 else Size(ChildValue(v, j)) + SizesFrom(v, j + 1)
  }

  /** A value together with the key and depth `traverse` reaches it with: the `obj`,
      `key` and `level` arguments of one call. */
  datatype Entry = Entry(key: Key, value: Json, level: nat)

  /** Reference pre-order listing of `v` and everything below it: the value first, then
      the listing of each child in member or index order, one level deeper. */
  function PreOrder(v: Json, key: Key, level: nat): (es: seq<Entry>)
    decreases v, 1
    ensures |es| == Size(v)
    ensures es[0] == Entry(key, v, level)
  {
    [Entry(key, v, level)] + PreOrderFrom(v, 0, level + 1)
  }

  function PreOrderFrom(v: Json, j: nat, level: nat): (es: seq<Entry>)
    decreases v, 0, Arity(v) - j
    ensures |es| == SizesFrom(v, j)
  {
    if j >= Arity(v) then [] else PreOrder(ChildValue(v, j), ChildKey(v, j), level) + PreOrderFrom(v, j + 1, level)
  }

  /** Every entry of `es` lies at `level` or deeper. */
  predicate AllAtLeast(es: seq<Entry>, level: nat) {
    forall i :: 0 <= i < |es| ==> es[i].level >= level
  }

  lemma AllAtLeastConcat(a: seq<Entry>, b: seq<Entry>, level: nat)
    requires AllAtLeast(a, level) && AllAtLeast(b, level)
    ensures AllAtLeast(a + b, level)
  {
    forall i | 0 <= i < |a + b|
      ensures (a + b)[i].level >= level
    {
      if i >= |a| {
        assert (a + b)[i] == b[i - |a|];
      }
    }
  }

  /** Everything the listing of `v` holds lies at `level` or deeper. */
  lemma {:induction false} PreOrderDeeper(v: Json, key: Key, level: nat)
    decreases v, 1
    ensures AllAtLeast(PreOrder(v, key, level), level)
  {
    PreOrderFromDeeper(v, 0, level + 1);
    AllAtLeastConcat([Entry(key, v, level)], PreOrderFrom(v, 0, level + 1), level);
  }

  lemma {:induction false} PreOrderFromDeeper(v: Json, j: nat, level: nat)
    decreases v, 0, Arity(v) - j
    ensures AllAtLeast(PreOrderFrom(v, j, level), level)
  {
    if j < Arity(v) {
      PreOrderDeeper(ChildValue(v, j), ChildKey(v, j), level);
      PreOrderFromDeeper(v, j + 1, level);
      AllAtLeastConcat(PreOrder(ChildValue(v, j), ChildKey(v, j), level), PreOrderFrom(v, j + 1, level), level);
    }
  }

  // ---------------------------------------------------------------------------
  // JSON.stringify
  // ---------------------------------------------------------------------------

  function HexDigit(d: nat): char
    requires d < 16
  {
    if d < 10 then DigitChar(d) else ('a' as int + (d - 10)) as char
  }

  /** The escape `JSON.stringify` writes for one code point of a string: the seven
      short escapes, `\u00xx` (lower-case hex) for the remaining control characters,
      and the code point itself otherwise. */
  function EscapeChar(c: char): (r: string)
    ensures |r| >= 1
  {
    var u := c as int;
    if u == 0x08 then "\\b"
    else if u == 0x09 then "\\t"
    else if u == 0x0A then "\\n"
    else if u == 0x0C then "\\f"
    else if u == 0x0D then "\\r"
    else if c == '"' then "\\\""
    else if c == '\\' then "\\\\"
    else if u < 0x20 then "\\u00" + [HexDigit(u / 16), HexDigit(u % 16)]
    else [c]
  }

  function Escape(s: string): string {
    if |s| == 0 then "" else EscapeChar(s[0]) + Escape(s[1..])
  }

  /** A code point `JSON.stringify` writes as itself. */
  predicate Plain(c: char) {
    c as int >= 0x20 && c != '"' && c != '\\'
  }

  /** Text without control characters, quotes or backslashes is written unchanged. */
  lemma {:induction false} EscapePlain(s: string)
    requires forall i :: 0 <= i < |s| ==> Plain(s[i])
    ensures Escape(s) == s
  {
    if |s| > 0 {
      EscapePlain(s[1..]);
      assert s == [s[0]] + s[1..];
    }
  }

  /** A string literal as `JSON.stringify` writes it. */
  function Quote(s: string): (r: string)
    ensures |r| >= 2 && r[0] == '"' && r[|r| - 1] == '"'
  {
    "\"" + Escape(s) + "\""
  }

  /** `JSON.stringify(v)` without indentation. */
  function Stringify(v: Json): string
    decreases v, 1
  {
    match v
    case JNull => "null"
    case JBool(b) => if b then "true" else "false"
    case JNum(token) => token
    case JStr(s) => Quote(s)
    case JArr(_) => "[" + Children(v, 0) + "]"
    case JObj(_) => "{" + Children(v, 0) + "}"
  }

  /** The children of `v` from the `j`-th on, separated by commas. */
  function Children(v: Json, j: nat): string
    decreases v, 0, Arity(v) - j
  {
    if j >= Arity(v) then ""
    else if j + 1 == Arity(v) then Member(v, j)
    else Member(v, j) + "," + Children(v, j + 1)
  }

  /** The `j`-th child of `v` as written inside the brackets: an element's value, or a
      member's quoted name, a colon and its value. */
  function Member(v: Json, j: nat): string
    requires j < Arity(v)
    decreases v, 0, 0
  {
    match v
    case JArr(items) => Stringify(items[j])
    case JObj(members) => Quote(members[j].0) + ":" + Stringify(members[j].1)
  }
}
