/**
 * Decoded JSON values as Python holds them after `json.load`: `None`,
 * booleans, integers, strings, lists and dicts (a dict keeps its keys in
 * insertion order). The accessors raise the exceptions Python raises.
 */
module Json {
  import opened Py

  datatype Json =
    | JNull
    | JBool(b: bool)
    | JNum(n: int)
    | JStr(s: string)
    | JArr(items: seq<Json>)
    | JObj(fields: seq<(string, Json)>)

  /** Python truthiness: `None`, `False`, `0`, `""`, `[]` and `{}` are false. */
  predicate Truthy(j: Json) {
    match j
    case JNull => false
    case JBool(b) => b
    case JNum(n) => n != 0
    case JStr(s) => s != ""
    case JArr(items) => items != []
    case JObj(fields) => fields != []
  }

  /** The keys of an insertion-ordered dict, in order (`list(d)`). */
  function Keys<V>(fields: seq<(string, V)>): (r: seq<string>)
    ensures |r| == |fields|
    ensures forall i :: 0 <= i < |fields| ==> r[i] == fields[i].0
  {
    seq(|fields|, i requires 0 <= i < |fields| => fields[i].0)
  }

  /** The value bound to `k`; the first binding wins. */
  function Lookup(fields: seq<(string, Json)>, k: string): (r: Option<Json>)
    ensures r.None? <==> k !in Keys(fields)
    ensures r.Some? ==> (k, r.value) in fields
    decreases |fields|
  {
    if |fields| == 0 then None
    else if fields[0].0 == k then Some(fields[0].1)
    else
      assert Keys(fields) == [fields[0].0] + Keys(fields[1..]);
      Lookup(fields[1..], k)
  }

  /** In a dict whose earlier keys differ, the i-th member is what its key looks up. */
  lemma {:induction false} LookupAt(fields: seq<(string, Json)>, i: int)
    requires 0 <= i < |fields|
    requires forall j :: 0 <= j < i ==> fields[j].0 != fields[i].0
    ensures Lookup(fields, fields[i].0) == Some(fields[i].1)
    decreases i
  {
    if i > 0 {
      LookupAt(fields[1..], i - 1);
      assert fields[1..][i - 1] == fields[i];
    }
  }

  /** Looking up in two consecutive runs of members: the first run wins. */
  lemma {:induction false} LookupAppend(a: seq<(string, Json)>, b: seq<(string, Json)>, k: string)
    ensures Lookup(a + b, k) == if k in Keys(a) then Lookup(a, k) else Lookup(b, k)
    decreases |a|
  {
    if |a| == 0 {
      assert a + b == b;
    } else {
      var t := a[1..];
      assert (a + b)[1..] == t + b;
      assert (a + b)[0] == a[0];
      LookupAppend(t, b, k);
      assert Keys(a) == [a[0].0] + Keys(t);
    }
  }

  lemma KeysAppend(a: seq<(string, Json)>, b: seq<(string, Json)>)
    ensures Keys(a + b) == Keys(a) + Keys(b)
  {
  }

  /** Python `d[k]` with a string key. */
  function Index(j: Json, k: string): (r: Result<Json>)
    ensures r.Ok? <==> j.JObj? && k in Keys(j.fields)
    ensures r.Ok? ==> Lookup(j.fields, k) == Some(r.value)
  {
    match j
    case JObj(fields) =>
      (match Lookup(fields, k)
       case Some(v) => Ok(v)
       case None => Err(KeyError(k)))
    case JNull => Err(TypeError("'NoneType' object is not subscriptable"))
    case JBool(_) => Err(TypeError("'bool' object is not subscriptable"))
    case JNum(_) => Err(TypeError("'int' object is not subscriptable"))
    case _ => Err(TypeError("indices must be integers or slices, not str"))
  }

  /** Python `xs[i]` with an integer index; negative indices count from the end. */
  function At(j: Json, i: int): (r: Result<Json>)
    ensures r.Ok? <==> j.JArr? && -|j.items| <= i < |j.items|
    ensures r.Ok? ==> r.value == j.items[if i < 0 then i + |j.items| else i]
  {
    match j
    case JArr(items) =>
      if 0 <= i < |items| then Ok(items[i])
      else if -|items| <= i < 0 then Ok(items[i + |items|])
      else Err(IndexError)
    case JObj(_) => Err(KeyError(IntToString(i)))
    case _ => Err(TypeError("object is not subscriptable"))
  }

  /** Python `v[0]`: the first list item or the first character; a dict has no key 0. */
  function First(v: Json): (r: Result<Json>)
    ensures v.JArr? && |v.items| > 0 ==> r == Ok(v.items[0])
  {
    match v
    case JArr(items) => if |items| > 0 then Ok(items[0]) else Err(IndexError)
    case JStr(s) => if |s| > 0 then Ok(JStr([s[0]])) else Err(IndexError)
    case JObj(_) => Err(KeyError("0"))
    case _ => Err(TypeError("object is not subscriptable"))
  }

  /**
   * Python `d[k] = v`: the binding of `k` gets the new value in place, or
   * a new binding is added at the end; every other key keeps its value.
   */
  function Assign(fields: seq<(string, Json)>, k: string, v: Json): (r: seq<(string, Json)>)
    ensures Lookup(r, k) == Some(v)
    ensures forall k' :: k' != k ==> Lookup(r, k') == Lookup(fields, k')
    decreases |fields|
  {
    if |fields| == 0 then
      LookupCons((k, v), []);
      assert [(k, v)] + [] == [(k, v)];
      [(k, v)]
    else
      LookupCons(fields[0], fields[1..]);
      assert [fields[0]] + fields[1..] == fields;
      if fields[0].0 == k then
        LookupCons((k, v), fields[1..]);
        [(k, v)] + fields[1..]
      else
        var rest := Assign(fields[1..], k, v);
        LookupCons(fields[0], rest);
        [fields[0]] + rest
  }

  /** Looking a key up in a list of bindings with one more in front. */
  lemma LookupCons(f: (string, Json), rest: seq<(string, Json)>)
    ensures forall k :: Lookup([f] + rest, k) == if f.0 == k then Some(f.1) else Lookup(rest, k)
  {
    assert ([f] + rest)[1..] == rest;
  }

  /** Python `d.get(k, default)`; on anything but a dict it raises `AttributeError`. */
  function GetOr(j: Json, k: string, default: Json): (r: Result<Json>)
    ensures r.Ok? <==> j.JObj?
    ensures j.JObj? ==> r.value == (if k in Keys(j.fields) then Lookup(j.fields, k).value else default)
  {
    match j
    case JObj(fields) =>
      (match Lookup(fields, k)
       case Some(v) => Ok(v)
       case None => Ok(default))
    case _ => Err(AttributeError("get"))
  }

  /** Python `d.get(k)`. */
  function Get(j: Json, k: string): Result<Json> {
    GetOr(j, k, JNull)
  }

  /** A value used where Python needs a `str` (`.split`, `.replace`, `.startswith`). */
  function AsStr(j: Json): (r: Result<string>)
    ensures r.Ok? <==> j.JStr?
  {
    if j.JStr? then Ok(j.s) else Err(AttributeError("str method on a non-string"))
  }

  /** Python `needle in hay`: substring, list element or dict key. */
  function PyIn(needle: string, hay: Json): (r: Result<bool>)
    ensures hay.JStr? ==> r == Ok(Contains(hay.s, needle))
    ensures hay.JArr? ==> r == Ok(JStr(needle) in hay.items)
    ensures hay.JObj? ==> r == Ok(needle in Keys(hay.fields))
    ensures r.Err? <==> !(hay.JStr? || hay.JArr? || hay.JObj?)
  {
    match hay
    case JStr(s) => Ok(Contains(s, needle))
    case JArr(items) => Ok(JStr(needle) in items)
    case JObj(fields) => Ok(needle in Keys(fields))
    case _ => Err(TypeError("argument of type is not iterable"))
  }

  /** Python's `v or []`. */
  function OrEmpty(v: Json): Json {
    if Truthy(v) then v else JArr([])
  }

  /** The items Python's `for x in v` visits: list items, dict keys, or one-character strings. */
  function Iterate(v: Json): (r: Result<seq<Json>>)
    ensures v.JArr? ==> r == Ok(v.items)
    ensures r.Err? <==> !(v.JArr? || v.JObj? || v.JStr?)
  {
    match v
    case JArr(items) => Ok(items)
    case JObj(fields) => Ok(seq(|fields|, i requires 0 <= i < |fields| => JStr(fields[i].0)))
    case JStr(s) => Ok(seq(|s|, i requires 0 <= i < |s| => JStr([s[i]])))
    case _ => Err(TypeError("object is not iterable"))
  }

  // ---------------------------------------------------------------------
  // Serialisation

  function HexDigit(d: nat): char
    requires d < 16
  {
    if d < 10 then ('0' as int + d) as char else ('a' as int + d - 10) as char
  }

  function Hex4(v: nat): string
    requires v < 0x10000
  {
    [HexDigit(v / 0x1000), HexDigit(v / 0x100 % 16), HexDigit(v / 16 % 16), HexDigit(v % 16)]
  }

  /** One character as `json.dumps` writes it in a string (ASCII output, lowercase hex). */
  function EscapeChar(c: char): string {
    if c == '"' then "\\\""
    else if c == '\\' then "\\\\"
    else if c == '\n' then "\\n"
    else if c == '\r' then "\\r"
    else if c == '\t' then "\\t"
    else if c == '\U{8}' then "\\b"
    else if c == '\U{C}' then "\\f"
    else if ' ' <= c <= '~' then [c]
    else if (c as int) < 0x10000 then "\\u" + Hex4(c as int)
    else
      var v := c as int - 0x10000;
      "\\u" + Hex4(0xD800 + v / 0x400) + "\\u" + Hex4(0xDC00 + v % 0x400)
  }

  function EscapeString(s: string): string
    decreases |s|
  {
    if |s| == 0 then "" else EscapeChar(s[0]) + EscapeString(s[1..])
  }

  function Quote(s: string): string {
    "\"" + EscapeString(s) + "\""
  }

  /** `json.dumps(j)` with its default separators. */
  function Dumps(j: Json): string
    decreases j
  {
    match j
    case JNull => "null"
    case JBool(b) => if b then "true" else "false"
    case JNum(n) => IntToString(n)
    case JStr(s) => Quote(s)
    case JArr(items) =>
      "[" + Join(seq(|items|, i requires 0 <= i < |items| => Dumps(items[i])), ", ") + "]"
    case JObj(fields) =>
      "{" + Join(seq(|fields|, i requires 0 <= i < |fields| =>
                       Quote(fields[i].0) + ": " + Dumps(fields[i].1)), ", ") + "}"
  }

  /** Python's `repr` of a string: single quotes unless the text has a `'` and no `"`. */
  function ReprString(s: string): string {
    var q := if '\'' in s && '"' !in s then '"' else '\'';
    [q] + ReprChars(s, q) + [q]
  }

  function ReprChars(s: string, q: char): string
    decreases |s|
  {
    if |s| == 0 then ""
    else
      var c := s[0];
      var e :=
        if c == '\\' then "\\\\"
        else if c == q then ['\\', q]
        else if c == '\n' then "\\n"
        else if c == '\r' then "\\r"
        else if c == '\t' then "\\t"
        else if c < ' ' || c == '\U{7F}' then "\\x" + Hex4(c as int)[2..]
        else [c];
      e + ReprChars(s[1..], q)
  }

  /** Python's `str(v)` of a decoded value. */
  function PyStr(j: Json): string
    decreases j
  {
    match j
    case JStr(s) => s
    case _ => PyRepr(j)
  }

  /** Python's `repr(v)` of a decoded value. */
  function PyRepr(j: Json): string
    decreases j
  {
    match j
    case JNull => "None"
    case JBool(b) => if b then "True" else "False"
    case JNum(n) => IntToString(n)
    case JStr(s) => ReprString(s)
    case JArr(items) =>
      "[" + Join(seq(|items|, i requires 0 <= i < |items| => PyRepr(items[i])), ", ") + "]"
    case JObj(fields) =>
      "{" + Join(seq(|fields|, i requires 0 <= i < |fields| =>
                       ReprString(fields[i].0) + ": " + PyRepr(fields[i].1)), ", ") + "}"
  }

  /** Every character `json.dumps` writes for a string is printable ASCII. */
  lemma {:induction false} EscapeStringIsAscii(s: string)
    ensures forall i :: 0 <= i < |EscapeString(s)| ==> ' ' <= EscapeString(s)[i] <= '~'
    decreases |s|
  {
    if |s| > 0 {
      EscapeStringIsAscii(s[1..]);
      EscapeCharIsAscii(s[0]);
      PrintableConcat(EscapeChar(s[0]), EscapeString(s[1..]));
    }
  }

  predicate Printable(s: string) {
    forall i :: 0 <= i < |s| ==> ' ' <= s[i] <= '~'
  }

  lemma PrintableConcat(a: string, b: string)
    requires Printable(a) && Printable(b)
    ensures Printable(a + b)
  {
  }

  lemma Hex4IsAscii(v: nat)
    requires v < 0x10000
    ensures Printable(Hex4(v))
  {
  }

  lemma EscapeCharIsAscii(c: char)
    ensures Printable(EscapeChar(c))
  {
    if !(' ' <= c <= '~') && c as int >= 0x10000 {
      SurrogatePairIsAscii(c as int - 0x10000);
    } else if !(' ' <= c <= '~') && c as int < 0x10000 {
      Hex4IsAscii(c as int);
      PrintableConcat("\\u", Hex4(c as int));
    }
  }

  lemma SurrogatePairIsAscii(v: nat)
    requires v < 0x100000
    ensures Printable("\\u" + Hex4(0xD800 + v / 0x400) + "\\u" + Hex4(0xDC00 + v % 0x400))
  {
    var high := Hex4(0xD800 + v / 0x400);
    var low := Hex4(0xDC00 + v % 0x400);
    Hex4IsAscii(0xD800 + v / 0x400);
    Hex4IsAscii(0xDC00 + v % 0x400);
    PrintableConcat("\\u", high);
    PrintableConcat("\\u" + high, "\\u");
    PrintableConcat("\\u" + high + "\\u", low);
  }

  /** A string made of printable ASCII other than quote and backslash is written as is. */
  lemma {:induction false} EscapePlain(s: string)
    requires forall i :: 0 <= i < |s| ==> ' ' <= s[i] <= '~' && s[i] != '"' && s[i] != '\\'
    ensures EscapeString(s) == s
    decreases |s|
  {
    if |s| > 0 {
      EscapePlain(s[1..]);
      assert [s[0]] + s[1..] == s;
    }
  }
}
