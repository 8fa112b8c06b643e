/**
 * JavaScript values as the browser client receives them from JSON messages,
 * with the few operations the client applies to them: property reads,
 * truthiness, strict equality, `for...in` enumeration, parseInt, and the
 * `camelize` key normalisation (html/js/index.js).
 */
module JsValues {
  import opened Wrappers
  import opened Strings

  /**
   * A value decoded from JSON, or `undefined`.  An object lists its
   * properties in enumeration order; numbers are integers.
   */
  datatype Json =
    | JUndefined
    | JNull
    | JBool(b: bool)
    | JNum(n: int)
    | JStr(s: string)
    | JArr(items: seq<Json>)
    | JObj(fields: seq<(string, Json)>)

  /** The value of the last property named `key`, if any. */
  function LastValue(fields: seq<(string, Json)>, key: string): (r: Option<Json>)
    ensures r.None? <==> forall i :: 0 <= i < |fields| ==> fields[i].0 != key
    ensures r.Some? ==> exists i :: 0 <= i < |fields| && fields[i] == (key, r.value)
  {
    if |fields| == 0 then None
    else if fields[|fields| - 1].0 == key then
      assert fields[|fields| - 1] == (key, fields[|fields| - 1].1);
      Some(fields[|fields| - 1].1)
    else
      var r := LastValue(fields[..|fields| - 1], key);
      assert forall i :: 0 <= i < |fields| - 1 ==> fields[..|fields| - 1][i] == fields[i];
      r
  }

  /** Property read `v.key`: undefined when `v` is not an object or lacks the key. */
  function Get(v: Json, key: string): (r: Json)
    ensures !v.JObj? ==> r == JUndefined
  {
    match v
    case JObj(fields) => (match LastValue(fields, key) case Some(x) => x case None => JUndefined)
    case _ => JUndefined
  }

  /** The object literal `{k1: v1, k2: v2}`. */
  function Object2(k1: string, v1: Json, k2: string, v2: Json): (r: Json)
    ensures Get(r, k2) == v2
    ensures k1 != k2 ==> Get(r, k1) == v1
  {
    var fields := [(k1, v1), (k2, v2)];
    assert LastValue(fields, k2) == Some(v2);
    assert k1 != k2 ==> LastValue(fields[..1], k1) == Some(v1);
    JObj(fields)
  }

  /** Element read `v[i]` of an array: undefined outside the array. */
  function Item(v: Json, i: int): (r: Json)
    ensures v.JArr? && 0 <= i < |v.items| ==> r == v.items[i]
  {
    if v.JArr? && 0 <= i < |v.items| then v.items[i] else JUndefined
  }

  /** JavaScript truthiness. */
  predicate Truthy(v: Json) {
    match v
    case JUndefined => false
    case JNull => false
    case JBool(b) => b
    case JNum(n) => n != 0
    case JStr(s) => s != ""
    case _ => true
  }

  /**
   * `===`.  Arrays and objects compare by identity in JavaScript; here two
   * of them are identical when they are equal values.
   */
  predicate StrictEq(a: Json, b: Json) {
    a == b
  }

  /**
   * `==` between a picked card and a card: null and undefined are equal to
   * each other; objects compare by identity, here by value.
   */
  predicate LooseEq(a: Json, b: Json) {
    ((a.JUndefined? || a.JNull?) && (b.JUndefined? || b.JNull?)) || a == b
  }

  /** `v.length` of an array or a string; None where JavaScript gives undefined. */
  function Length(v: Json): (r: Option<nat>)
    ensures r.Some? <==> v.JArr? || v.JStr?
  {
    match v
    case JArr(items) => Some(|items|)
    case JStr(s) => Some(|s|)
    case _ => None
  }

  /**
   * The own enumerable properties `for...in` visits with `hasOwnProperty`
   * true: an object's properties, an array's or a string's indices; nothing
   * for other values.
   */
  function OwnEntries(v: Json): (r: seq<(string, Json)>)
    ensures v.JObj? ==> r == v.fields
    ensures v.JArr? ==> |r| == |v.items| && forall i :: 0 <= i < |r| ==> r[i] == (NatToString(i), v.items[i])
    ensures v.JStr? ==> |r| == |v.s| && forall i :: 0 <= i < |r| ==> r[i] == (NatToString(i), JStr([v.s[i]]))
    ensures !(v.JObj? || v.JArr? || v.JStr?) ==> r == []
  {
    match v
    case JObj(fields) => fields
    case JArr(items) => seq(|items|, i requires 0 <= i < |items| => (NatToString(i), items[i]))
    case JStr(s) => seq(|s|, i requires 0 <= i < |s| => (NatToString(i), JStr([s[i]])))
    case _ => []
  }

  /** `String(v)`, as a template literal writes a value into text. */
  function JsText(v: Json): (r: string)
    ensures v.JNum? && v.n >= 0 ==> r == NatToString(v.n)
    ensures v.JStr? ==> r == v.s
  {
    match v
    case JUndefined => "undefined"
    case JNull => "null"
    case JBool(b) => if b then "true" else "false"
    case JNum(n) => IntToString(n)
    case JStr(s) => s
    case JArr(items) =>
      Join(seq(|items|, i requires 0 <= i < |items| =>
        if items[i].JUndefined? || items[i].JNull? then "" else JsText(items[i])), ",")
    case JObj(_) => "[object Object]"
  }

  // ------------------------------------------------------------- assignment

  /**
   * `for (p in src) target[p] = src[p]` over the enumerated properties: each
   * assignment in order, so a later property with the same key wins.
   */
  function Assign(target: map<string, Json>, fields: seq<(string, Json)>): (r: map<string, Json>)
    ensures forall k :: LastValue(fields, k).Some? ==> k in r && r[k] == LastValue(fields, k).value
    ensures forall k :: LastValue(fields, k).None? ==> (k in r <==> k in target) && (k in target ==> r[k] == target[k])
  {
    if |fields| == 0 then target
    else
      var (k, v) := fields[|fields| - 1];
      Assign(target, fields[..|fields| - 1])[k := v]
  }

  /** Assigning the same properties twice gives what assigning them once gives. */
  lemma AssignTwice(target: map<string, Json>, fields: seq<(string, Json)>)
    ensures Assign(Assign(target, fields), fields) == Assign(target, fields)
  {
    var once := Assign(target, fields);
    var twice := Assign(once, fields);
    assert forall k :: k in twice <==> k in once;
  }

  /** Assignment touches exactly the assigned keys. */
  lemma AssignKeys(target: map<string, Json>, fields: seq<(string, Json)>)
    ensures Assign(target, fields).Keys == target.Keys + set i | 0 <= i < |fields| :: fields[i].0
  {
    var r := Assign(target, fields);
    forall k | k in r
      ensures k in target || exists i :: 0 <= i < |fields| && fields[i].0 == k
    {
      if LastValue(fields, k).Some? {
        var i :| 0 <= i < |fields| && fields[i] == (k, LastValue(fields, k).value);
      }
    }
    forall i | 0 <= i < |fields|
      ensures fields[i].0 in r
    {
      assert LastValue(fields, fields[i].0).Some?;
    }
  }

  // ------------------------------------------------------------- numbers

  /**
   * The white space and line terminators parseInt skips at the start: tab,
   * vertical tab, form feed, the byte order mark, the space separators and
   * the line terminators.
   */
  predicate JsSpace(c: char) {
    c == '\t' || c == '\U{000B}' || c == '\U{000C}' || c == '\U{FEFF}' ||
    c == ' ' || c == '\U{00A0}' || c == '\U{1680}' || '\U{2000}' <= c <= '\U{200A}' ||
    c == '\U{202F}' || c == '\U{205F}' || c == '\U{3000}' ||
    LineTerminator(c)
  }

  /** The text after its leading white space. */
  function TrimStart(s: string): (r: string)
    ensures |r| <= |s| && r == s[|s| - |r|..]
    ensures forall i :: 0 <= i < |s| - |r| ==> JsSpace(s[i])
    ensures |r| > 0 ==> !JsSpace(r[0])
  {
    if |s| > 0 && JsSpace(s[0]) then TrimStart(s[1..]) else s
  }

  predicate IsHexDigit(c: char) {
    IsDigit(c) || 'a' <= c <= 'f' || 'A' <= c <= 'F'
  }

  predicate AllHex(s: string) {
    forall i :: 0 <= i < |s| ==> IsHexDigit(s[i])
  }

  function HexDigitValue(c: char): (d: nat)
    requires IsHexDigit(c)
    ensures d < 16
  {
    if IsDigit(c) then c as int - '0' as int
    else if 'a' <= c <= 'f' then c as int - 'a' as int + 10
    else c as int - 'A' as int + 10
  }

  /** The value of a string of hexadecimal digits ("" is 0). */
  function HexValue(s: string): nat
    requires AllHex(s)
  {
    if |s| == 0 then 0 else HexValue(s[..|s| - 1]) * 16 + HexDigitValue(s[|s| - 1])
  }

  /** The leading run of decimal digits. */
  function DigitPrefix(s: string): (r: string)
    ensures |r| <= |s| && r == s[..|r|] && AllDigits(r)
    ensures |r| < |s| ==> !IsDigit(s[|r|])
  {
    if |s| == 0 || !IsDigit(s[0]) then ""
    else
      var rest := DigitPrefix(s[1..]);
      assert ([s[0]] + rest)[1..] == rest;
      [s[0]] + rest
  }

  /** The leading run of hexadecimal digits. */
  function HexPrefix(s: string): (r: string)
    ensures |r| <= |s| && r == s[..|r|] && AllHex(r)
    ensures |r| < |s| ==> !IsHexDigit(s[|r|])
  {
    if |s| == 0 || !IsHexDigit(s[0]) then ""
    else
      var rest := HexPrefix(s[1..]);
      assert ([s[0]] + rest)[1..] == rest;
      [s[0]] + rest
  }

  /** A text starts with the "0x" or "0X" that switches parseInt to base 16. */
  predicate HexMarked(s: string) {
    |s| >= 2 && s[0] == '0' && (s[1] == 'x' || s[1] == 'X')
  }

  /** The magnitude parseInt reads after the sign, if it finds any digit. */
  function Magnitude(body: string): (r: Option<nat>)
    ensures !HexMarked(body) ==> (r.Some? <==> |DigitPrefix(body)| > 0)
    ensures !HexMarked(body) && r.Some? ==> r.value == DigitsValue(DigitPrefix(body))
    ensures HexMarked(body) ==> (r.Some? <==> |HexPrefix(body[2..])| > 0)
    ensures HexMarked(body) && r.Some? ==> r.value == HexValue(HexPrefix(body[2..]))
  {
    if HexMarked(body) then
      var digits := HexPrefix(body[2..]);
      if |digits| == 0 then None else Some(HexValue(digits))
    else
      var digits := DigitPrefix(body);
      if |digits| == 0 then None else Some(DigitsValue(digits))
  }

  /**
   * parseInt on text that starts with no white space: an optional sign, then
   * "0x" or "0X" selects base 16; the longest run of digits of the base is
   * read, and no digit at all gives NaN, which JSON.stringify writes as null.
   */
  function ParseTrimmed(t: string): (r: Json)
    ensures r.JNum? || r.JNull?
    ensures AllDigits(t) && |t| > 0 ==> r == JNum(DigitsValue(t))
  {
    var negative := |t| > 0 && t[0] == '-';
    var body := if |t| > 0 && (t[0] == '-' || t[0] == '+') then t[1..] else t;
    if AllDigits(t) && |t| > 0 then
      assert body == t && DigitPrefix(t) == t;
      JNum(DigitsValue(t))
    else
      match Magnitude(body)
      case None => JNull
      case Some(m) => var k: int := m; JNum(if negative then -k else k)
  }

  /** parseInt on text: leading white space is skipped first. */
  function ParseIntText(s: string): (r: Json)
    ensures r.JNum? || r.JNull?
    ensures AllDigits(s) && |s| > 0 ==> r == JNum(DigitsValue(s))
  {
    if AllDigits(s) && |s| > 0 then
      assert !JsSpace(s[0]);
      ParseTrimmed(s)
    else ParseTrimmed(TrimStart(s))
  }

  /**
   * parseInt(v) as the message encoder serialises it: a number stays as it
   * is, and any other value is parsed from its text.
   */
  function ParseInt(v: Json): (r: Json)
    ensures r.JNum? || r.JNull?
    ensures v.JNum? ==> r == v
    ensures v.JStr? ==> r == ParseIntText(v.s)
    ensures v.JStr? && AllDigits(v.s) && |v.s| > 0 ==> r == JNum(DigitsValue(v.s))
  {
    match v
    case JNum(n) => v
    case _ => ParseIntText(JsText(v))
  }

  /** Decimal text of a non-negative number reads back as that number. */
  lemma ParseIntOfNat(n: nat)
    ensures ParseInt(JStr(NatToString(n))) == JNum(n)
  {
  }

  /** Go's and JavaScript's decimal text of any integer reads back as that integer. */
  lemma ParseIntOfInt(i: int)
    ensures ParseInt(JStr(IntToString(i))) == JNum(i)
  {
    var s := IntToString(i);
    if i < 0 {
      var body := s[1..];
      assert !AllDigits(s) && !JsSpace(s[0]);
      assert TrimStart(s) == s;
      assert !HexMarked(body) by {
        assert |body| >= 2 ==> IsDigit(body[1]);
      }
      AllDigitPrefix(body);
      assert Magnitude(body) == Some(-i);
    }
  }

  /** A run of digits is its own digit prefix. */
  lemma AllDigitPrefix(s: string)
    requires AllDigits(s)
    ensures DigitPrefix(s) == s
  {
    var r := DigitPrefix(s);
    assert |r| == |s|;
  }

  /** Text that starts with neither white space, a sign nor a digit reads as NaN. */
  lemma ParseIntNoDigit(s: string)
    requires |s| > 0 && !JsSpace(s[0]) && !IsDigit(s[0]) && s[0] != '-' && s[0] != '+'
    ensures ParseIntText(s) == JNull
  {
    assert TrimStart(s) == s;
    assert !HexMarked(s);
  }

  /** null, undefined, booleans and objects are not numbers to parseInt. */
  lemma ParseIntNonNumeric(v: Json)
    requires v.JNull? || v.JUndefined? || v.JBool? || v.JObj?
    ensures ParseInt(v) == JNull
  {
    var t := JsText(v);
    assert t[0] in "nutf[";
    ParseIntNoDigit(t);
  }

  /** Leading white space does not change what parseInt reads. */
  lemma ParseIntSkipsSpace(space: string, s: string)
    requires forall i :: 0 <= i < |space| ==> JsSpace(space[i])
    ensures ParseIntText(space + s) == ParseIntText(s)
  {
    TrimSpace(space, s);
    ParseIntTextTrims(space + s);
    ParseIntTextTrims(s);
  }

  /** parseInt on text is parseInt on the trimmed text. */
  lemma ParseIntTextTrims(s: string)
    ensures ParseIntText(s) == ParseTrimmed(TrimStart(s))
  {
    if AllDigits(s) && |s| > 0 {
      assert !JsSpace(s[0]);
      assert TrimStart(s) == s;
    }
  }

  /** Trimming skips leading white space. */
  lemma {:induction false} TrimSpace(space: string, s: string)
    requires forall i :: 0 <= i < |space| ==> JsSpace(space[i])
    ensures TrimStart(space + s) == TrimStart(s)
  {
    if |space| > 0 {
      assert (space + s)[0] == space[0];
      assert (space + s)[1..] == space[1..] + s;
      TrimSpace(space[1..], s);
    } else {
      assert space + s == s;
    }
  }

  /** "0x" followed by hexadecimal digits reads as their base-16 value. */
  lemma ParseIntHex(s: string)
    requires |s| > 2 && s[0] == '0' && s[1] == 'x' && AllHex(s[2..])
    ensures ParseIntText(s) == JNum(HexValue(s[2..]))
  {
    ParseIntTextTrims(s);
    HexMarkedText(s);
    HexMagnitude(s);
  }

  lemma HexMarkedText(s: string)
    requires HexMarked(s)
    ensures TrimStart(s) == s && !AllDigits(s)
  {
    assert !JsSpace(s[0]);
    assert !IsDigit(s[1]);
  }

  lemma HexMagnitude(s: string)
    requires HexMarked(s) && |s| > 2 && AllHex(s[2..])
    ensures Magnitude(s) == Some(HexValue(s[2..]))
  {
    AllHexPrefix(s[2..]);
  }

  /** A run of hexadecimal digits is its own hexadecimal prefix. */
  lemma AllHexPrefix(s: string)
    requires AllHex(s)
    ensures HexPrefix(s) == s
  {
    var r := HexPrefix(s);
    assert |r| == |s|;
  }

  // ------------------------------------------------------------- camelize

  predicate IsLower(c: char) { 'a' <= c <= 'z' }
  predicate IsUpper(c: char) { 'A' <= c <= 'Z' }

  /** toUpperCase for the ASCII letters; other characters stay. */
  function Upper(c: char): (r: char)
    ensures IsLower(c) ==> IsUpper(r)
    ensures !IsLower(c) ==> r == c
  {
    if IsLower(c) then (c as int - 32) as char else c
  }

  function Lower(c: char): (r: char)
    ensures IsUpper(c) ==> IsLower(r) && Upper(r) == c
    ensures !IsUpper(c) ==> r == c
  {
    if IsUpper(c) then (c as int + 32) as char else c
  }

  /** The characters a regular expression's `.` does not match. */
  predicate LineTerminator(c: char) {
    c == '\n' || c == '\r' || c == '\U{2028}' || c == '\U{2029}'
  }

  /**
   * camelize: scanning left to right, each "_" followed by a character that
   * is not a line terminator becomes that character upper-cased; the scan
   * resumes after the pair.
   */
  function Camelize(s: string): (r: string)
    ensures |r| <= |s|
  {
    if |s| == 0 then ""
    else if s[0] == '_' && |s| >= 2 && !LineTerminator(s[1]) then [Upper(s[1])] + Camelize(s[2..])
    else [s[0]] + Camelize(s[1..])
  }

  /** A name without underscores is already camelized. */
  lemma {:induction false} CamelizePlain(s: string)
    requires NoChar(s, '_')
    ensures Camelize(s) == s
  {
    if |s| > 0 {
      assert NoChar(s[1..], '_');
      CamelizePlain(s[1..]);
      assert [s[0]] + s[1..] == s;
    }
  }

  /** The snake_case spelling of a camelCase name: each capital becomes "_" and its small letter. */
  function Snakify(s: string): (r: string)
    ensures |r| >= |s|
  {
    if |s| == 0 then ""
    else if IsUpper(s[0]) then ['_', Lower(s[0])] + Snakify(s[1..])
    else [s[0]] + Snakify(s[1..])
  }

  /** camelize undoes the snake_case spelling of any name without underscores. */
  lemma {:induction false} CamelizeSnakify(s: string)
    requires NoChar(s, '_')
    ensures Camelize(Snakify(s)) == s
  {
    if |s| > 0 {
      var t := Snakify(s[1..]);
      assert NoChar(s[1..], '_');
      CamelizeSnakify(s[1..]);
      if IsUpper(s[0]) {
        var u := ['_', Lower(s[0])] + t;
        assert u[2..] == t;
      } else {
        var u := [s[0]] + t;
        assert u[1..] == t;
      }
      assert [s[0]] + s[1..] == s;
    }
  }

  /** A text that does not end inside a "_" pair camelizes independently of what follows. */
  lemma {:induction false} CamelizeAppend(a: string, b: string)
    requires |a| == 0 || a[|a| - 1] != '_'
    ensures Camelize(a + b) == Camelize(a) + Camelize(b)
  {
    var ab := a + b;
    if |a| == 0 {
      assert ab == b;
    } else if a[0] == '_' && |a| >= 2 && !LineTerminator(a[1]) {
      assert ab[0] == '_' && ab[1] == a[1] && |ab| >= 2;
      assert ab[2..] == a[2..] + b;
      CamelizeAppend(a[2..], b);
      assert Camelize(ab) == [Upper(a[1])] + Camelize(a[2..] + b);
      assert Camelize(a) == [Upper(a[1])] + Camelize(a[2..]);
      AppendAssoc([Upper(a[1])], Camelize(a[2..]), Camelize(b));
    } else {
      assert ab[0] == a[0];
      assert ab[1..] == a[1..] + b;
      if |a| == 1 {
        assert a[0] != '_';
      } else {
        assert ab[1] == a[1];
      }
      CamelizeAppend(a[1..], b);
      assert Camelize(ab) == [a[0]] + Camelize(a[1..] + b);
      assert Camelize(a) == [a[0]] + Camelize(a[1..]);
      AppendAssoc([a[0]], Camelize(a[1..]), Camelize(b));
    }
  }
}
