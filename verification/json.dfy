/** JSON values as the generation service's replies decode them (`json.loads`), and
    the two Python behaviours the core applies to them: `json.dumps(v,
    ensure_ascii=False)` and the way the sqlite3 driver stores a value in a TEXT
    column. Floating-point numbers are not modelled. */
module Json {
  import opened Util

  /** A decoded JSON value. The members of an object are the items of the Python
      dict that `json.loads` builds, in insertion order. */
  datatype Json =
    | JNull
    | JBool(b: bool)
    | JInt(i: int)
    | JStr(s: string)
    | JArray(items: seq<Json>)
    | JObject(members: seq<(string, Json)>)

  function HexDigit(d: int): char
    requires 0 <= d < 16
  {
    "0123456789abcdef"[d]
  }

  /** A character `json.dumps` writes as it is. */
  predicate IsPlain(c: char)
  {
    c != '"' && c != '\\' && c as int >= 0x20
  }

  /** One character as `json.dumps(..., ensure_ascii=False)` writes it inside a string. */
  function EscapeChar(c: char): (r: string)
    ensures |r| >= 1
    ensures IsPlain(c) ==> r == [c]
  {
    if c == '"' then "\\\""
    else if c == '\\' then "\\\\"
    else if c == '\n' then "\\n"
    else if c == '\r' then "\\r"
    else if c == '\t' then "\\t"
    else if c as int == 0x08 then "\\b"
    else if c as int == 0x0C then "\\f"
    else if c as int < 0x20 then "\\u00" + [HexDigit(c as int / 16), HexDigit(c as int % 16)]
    else [c]
  }

  function Escape(s: string): string
    decreases |s|
  {
    if s == [] then "" else EscapeChar(s[0]) + Escape(s[1..])
  }

  function Quote(s: string): string
  {
    "\"" + Escape(s) + "\""
  }

  /** Joins with Python's default item separator ", ". */
  function JoinItems(parts: seq<string>): string
  {
    if parts == [] then ""
    else if |parts| == 1 then parts[0]
    else parts[0] + ", " + JoinItems(parts[1..])
  }

  /** Text with no character that `json.dumps` escapes is written as it is. */
  lemma {:induction false} EscapeKeepsPlainText(s: string)
    ensures (forall i | 0 <= i < |s| :: IsPlain(s[i])) ==> Escape(s) == s
    decreases |s|
  {
    if s != [] {
      EscapeKeepsPlainText(s[1..]);
      assert forall i | 0 <= i < |s[1..]| :: s[1..][i] == s[i + 1];
      assert s == [s[0]] + s[1..];
    }
  }

  /** `json.dumps(j, ensure_ascii=False)`: a string is quoted, a list bracketed,
      a dict braced, and a string without characters to escape is written between
      quotes as it is. */
  function Dumps(j: Json): (r: string)
    ensures r != []
    ensures j.JStr? ==> |r| >= 2 && r[0] == '"' && r[|r| - 1] == '"'
    ensures j.JStr? && (forall i | 0 <= i < |j.s| :: IsPlain(j.s[i])) ==> r == "\"" + j.s + "\""
    ensures j.JArray? ==> |r| >= 2 && r[0] == '[' && r[|r| - 1] == ']'
    ensures j.JObject? ==> |r| >= 2 && r[0] == '{' && r[|r| - 1] == '}'
    decreases j
  {
    match j
    case JNull => "null"
    case JBool(b) => if b then "true" else "false"
    case JInt(i) => IntToString(i)
    case JStr(s) => EscapeKeepsPlainText(s); Quote(s)
    case JArray(items) =>
      "[" + JoinItems(seq(|items|, k requires 0 <= k < |items| => Dumps(items[k]))) + "]"
    case JObject(ms) =>
      "{" + JoinItems(seq(|ms|, k requires 0 <= k < |ms| => Quote(ms[k].0) + ": " + Dumps(ms[k].1))) + "}"
  }

  lemma {:induction false} JoinItemsContains(parts: seq<string>, i: int)
    requires 0 <= i < |parts|
    ensures Contains(JoinItems(parts), parts[i])
    decreases |parts|
  {
    if |parts| == 1 {
      ContainsSelf(parts[0]);
    } else if i == 0 {
      ContainsStart(parts[0], ", " + JoinItems(parts[1..]));
      assert parts[0] + (", " + JoinItems(parts[1..])) == JoinItems(parts);
    } else {
      JoinItemsContains(parts[1..], i - 1);
      ContainsPrepend(parts[0] + ", ", JoinItems(parts[1..]), parts[i]);
    }
  }

  /** The texts `json.dumps` joins for the members of a dict. */
  function MemberTexts(ms: seq<(string, Json)>): (r: seq<string>)
    ensures |r| == |ms| && forall k | 0 <= k < |ms| :: r[k] == Quote(ms[k].0) + ": " + Dumps(ms[k].1)
  {
    seq(|ms|, k requires 0 <= k < |ms| => Quote(ms[k].0) + ": " + Dumps(ms[k].1))
  }

  /** The texts `json.dumps` joins for the items of a list. */
  function ItemTexts(items: seq<Json>): (r: seq<string>)
    ensures |r| == |items| && forall k | 0 <= k < |items| :: r[k] == Dumps(items[k])
  {
    seq(|items|, k requires 0 <= k < |items| => Dumps(items[k]))
  }

  lemma DumpsObjectText(ms: seq<(string, Json)>)
    ensures Dumps(JObject(ms)) == "{" + JoinItems(MemberTexts(ms)) + "}"
  {
  }

  lemma DumpsArrayText(items: seq<Json>)
    ensures Dumps(JArray(items)) == "[" + JoinItems(ItemTexts(items)) + "]"
  {
  }

  /** Every member of a dict is written as its quoted key, ": " and its value's
      text, and every item of a list as its text. */
  lemma DumpsHoldsMembers(j: Json)
    ensures j.JObject? ==>
              forall k | 0 <= k < |j.members| :: Contains(Dumps(j), Quote(j.members[k].0) + ": " + Dumps(j.members[k].1))
    ensures j.JArray? ==> forall k | 0 <= k < |j.items| :: Contains(Dumps(j), Dumps(j.items[k]))
  {
    match j
    case JObject(ms) =>
      var parts := MemberTexts(ms);
      DumpsObjectText(ms);
      forall k | 0 <= k < |ms| ensures Contains(Dumps(j), parts[k]) {
        JoinItemsContains(parts, k);
        ContainsPrepend("{", JoinItems(parts), parts[k]);
        ContainsExtend("{" + JoinItems(parts), parts[k], "}");
      }
    case JArray(items) =>
      var parts := ItemTexts(items);
      DumpsArrayText(items);
      forall k | 0 <= k < |items| ensures Contains(Dumps(j), parts[k]) {
        JoinItemsContains(parts, k);
        ContainsPrepend("[", JoinItems(parts), parts[k]);
        ContainsExtend("[" + JoinItems(parts), parts[k], "]");
      }
    case _ =>
  }

  /** Joining a first text with the rest, seen through one-character brackets. */
  lemma JoinItemsCons(open: string, first: string, rest: seq<string>, close: string)
    requires |open| == 1 && rest != []
    ensures open + JoinItems([first] + rest) + close == open + first + ", " + (open + JoinItems(rest) + close)[1..]
  {
    assert ([first] + rest)[1..] == rest;
    assert (open + JoinItems(rest) + close)[1..] == JoinItems(rest) + close;
  }

  /** A dict's text member by member: "{}" for no member, the quoted key, ": "
      and the value's text in braces for one, and otherwise the first member
      followed, after ", ", by the text of the rest without its "{". */
  lemma DumpsObjectCons(key: string, value: Json, rest: seq<(string, Json)>)
    ensures Dumps(JObject([])) == "{}"
    ensures rest == [] ==> Dumps(JObject([(key, value)])) == "{" + Quote(key) + ": " + Dumps(value) + "}"
    ensures rest != [] ==>
              Dumps(JObject([(key, value)] + rest)) == "{" + Quote(key) + ": " + Dumps(value) + ", " + Dumps(JObject(rest))[1..]
  {
    DumpsObjectText([]);
    if rest == [] {
      DumpsObjectSingle(key, value);
    } else {
      DumpsObjectMany(key, value, rest);
    }
  }

  lemma DumpsObjectMany(key: string, value: Json, rest: seq<(string, Json)>)
    requires rest != []
    ensures Dumps(JObject([(key, value)] + rest)) == "{" + Quote(key) + ": " + Dumps(value) + ", " + Dumps(JObject(rest))[1..]
  {
    MemberTextsCons(key, value, rest);
    DumpsObjectText([(key, value)] + rest);
    DumpsObjectText(rest);
    JoinItemsCons("{", Quote(key) + ": " + Dumps(value), MemberTexts(rest), "}");
  }

  lemma DumpsObjectSingle(key: string, value: Json)
    ensures Dumps(JObject([(key, value)])) == "{" + Quote(key) + ": " + Dumps(value) + "}"
  {
    DumpsObjectText([(key, value)]);
    assert MemberTexts([(key, value)]) == [Quote(key) + ": " + Dumps(value)];
  }

  lemma MemberTextsCons(key: string, value: Json, rest: seq<(string, Json)>)
    ensures MemberTexts([(key, value)] + rest) == [Quote(key) + ": " + Dumps(value)] + MemberTexts(rest)
  {
    var ms := [(key, value)] + rest;
    assert forall k | 1 <= k < |ms| :: ms[k] == rest[k - 1];
  }

  /** A list's text item by item, in the same way. */
  lemma DumpsArrayCons(item: Json, rest: seq<Json>)
    ensures Dumps(JArray([])) == "[]"
    ensures rest == [] ==> Dumps(JArray([item])) == "[" + Dumps(item) + "]"
    ensures rest != [] ==> Dumps(JArray([item] + rest)) == "[" + Dumps(item) + ", " + Dumps(JArray(rest))[1..]
  {
    var items := [item] + rest;
    DumpsArrayText([]);
    DumpsArrayText(items);
    if rest == [] {
      assert ItemTexts(items) == [Dumps(item)];
    } else {
      DumpsArrayText(rest);
      assert ItemTexts(items) == [Dumps(item)] + ItemTexts(rest);
      JoinItemsCons("[", Dumps(item), ItemTexts(rest), "]");
    }
  }

  /** `d[key]` on a decoded object: the value of the first member with that key. */
  function Member(members: seq<(string, Json)>, key: string): (r: Option<Json>)
    ensures r.Some? <==> exists k | 0 <= k < |members| :: members[k].0 == key
    ensures r.Some? ==> exists k | 0 <= k < |members| :: members[k] == (key, r.value)
                                                         && forall j | 0 <= j < k :: members[j].0 != key
  {
    if members == [] then None
    else if members[0].0 == key then Some(members[0].1)
    else Member(members[1..], key)
  }

  /** What `for x in value` iterates over: a list's items, a dict's keys, a
      string's characters; None when Python raises TypeError (not iterable). */
  function Iterate(j: Json): (r: Option<seq<Json>>)
    ensures r.Some? <==> j.JArray? || j.JObject? || j.JStr?
    ensures j.JArray? ==> r == Some(j.items)
    ensures j.JObject? ==> |r.value| == |j.members| && forall k | 0 <= k < |j.members| :: r.value[k] == JStr(j.members[k].0)
    ensures j.JStr? ==> |r.value| == |j.s| && forall k | 0 <= k < |j.s| :: r.value[k] == JStr([j.s[k]])
  {
    match j
    case JArray(items) => Some(items)
    case JObject(ms) => Some(seq(|ms|, k requires 0 <= k < |ms| => JStr(ms[k].0)))
    case JStr(s) => Some(seq(|s|, k requires 0 <= k < |s| => JStr([s[k]])))
    case _ => None
  }

  /** A value bound as an sqlite3 parameter and stored in a TEXT column. */
  datatype Stored = StoredNull | StoredText(text: string) | Unsupported

  /** The driver binds a Python int as a signed 64-bit SQLite integer. */
  predicate FitsInt64(i: int)
  {
    -0x8000_0000_0000_0000 <= i < 0x8000_0000_0000_0000
  }

  /** None becomes NULL; a number or a bool (an int in Python) is converted to
      text by the column's TEXT affinity; the driver raises (OverflowError) on an
      int outside the signed 64-bit range, and on a list or dict, which it cannot
      bind. */
  function BindText(j: Json): (r: Stored)
    ensures r.Unsupported? <==> j.JArray? || j.JObject? || (j.JInt? && !FitsInt64(j.i))
    ensures r.StoredNull? <==> j.JNull?
    ensures j.JStr? ==> r == StoredText(j.s)
    ensures j.JInt? && FitsInt64(j.i) ==> r == StoredText(IntToString(j.i))
    ensures j.JBool? ==> r == StoredText(if j.b then "1" else "0")
  {
    match j
    case JNull => StoredNull
    case JBool(b) => StoredText(if b then "1" else "0")
    case JInt(i) => if FitsInt64(i) then StoredText(IntToString(i)) else Unsupported
    case JStr(s) => StoredText(s)
    case JArray(_) => Unsupported
    case JObject(_) => Unsupported
  }
}
