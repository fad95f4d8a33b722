/**
 The JSON values the sorter handles once JSON.parse has produced them, and the
 few JavaScript coercions the sorter applies to them: property enumeration
 (Object.keys, object spread), property lookup (`v[name]`, `name in v`) and
 string conversion (`v.toString()`).
 */
module JsonValue {

  datatype Option<+T> = None | Some(value: T)

  /** A parsed JSON value. A number is carried by the text that
      Number.prototype.toString gives it; the members of an object are listed
      in the order in which the engine enumerates them. */
  datatype Json =
    | JNull
    | JBool(b: bool)
    | JNum(text: string)
    | JStr(s: string)
    | JArr(elems: seq<Json>)
    | JObj(fields: seq<(string, Json)>)

  /** `typeof v === "object"`, which holds of objects, arrays and null. */
  predicate TypeofObject(v: Json) {
    v.JNull? || v.JArr? || v.JObj?
  }

  // ---------------------------------------------------------------------------
  // Decimal text of non-negative integers: array index names and the numbers
  // the id renumbering writes.

  predicate IsDigits(s: string) {
    forall i | 0 <= i < |s| :: '0' <= s[i] <= '9'
  }

  function DigitChar(d: nat): char
    requires d < 10
  {
    ('0' as int + d) as char
  }

  function NatToString(n: nat): (s: string)
    ensures |s| > 0 && IsDigits(s)
  {
    if n < 10 then [DigitChar(n)] else NatToString(n / 10) + [DigitChar(n % 10)]
  }

  /** The integer a string of decimal digits denotes. */
  function DigitsValue(s: string): nat
    requires IsDigits(s)
  {
    if |s| == 0 then 0
    else 10 * DigitsValue(s[..|s| - 1]) + (s[|s| - 1] as int - '0' as int)
  }

  /** Reading the decimal text back gives the number it was written from. */
  lemma {:induction false} NatToStringRoundTrip(n: nat)
    ensures DigitsValue(NatToString(n)) == n
  {
    if n >= 10 {
      var s := NatToString(n);
      assert s[..|s| - 1] == NatToString(n / 10);
      NatToStringRoundTrip(n / 10);
    }
  }

  /** Distinct numbers have distinct decimal texts. */
  lemma NatToStringInjective(m: nat, n: nat)
    requires NatToString(m) == NatToString(n)
    ensures m == n
  {
    NatToStringRoundTrip(m);
    NatToStringRoundTrip(n);
  }

  // ---------------------------------------------------------------------------
  // Properties.

  /** The own enumerable properties of a value in enumeration order: the
      names Object.keys lists and the members object spread copies. An array's
      properties are its indices; a primitive has none. */
  function Entries(v: Json): seq<(string, Json)>
  {
    match v
    case JObj(fields) => fields
    case JArr(elems) => IndexEntries(elems, 0)
    case _ => []
  }

  /** The elements paired with their index names, counting from `first`. */
  function IndexEntries(elems: seq<Json>, first: nat): (r: seq<(string, Json)>)
    ensures |r| == |elems|
  {
    if |elems| == 0 then [] else [(NatToString(first), elems[0])] + IndexEntries(elems[1..], first + 1)
  }

  /** The value of the first member called `name`, if any. */
  function FindField(fields: seq<(string, Json)>, name: string): Option<Json>
  {
    if |fields| == 0 then None
    else if fields[0].0 == name then Some(fields[0].1)
    else FindField(fields[1..], name)
  }

  /** A member is found exactly when some member has the name, and what is
      found is one of the members. */
  lemma {:induction false} FindFieldSpec(fields: seq<(string, Json)>, name: string)
    ensures FindField(fields, name).Some? <==> exists i | 0 <= i < |fields| :: fields[i].0 == name
    ensures FindField(fields, name).Some? ==>
              exists i | 0 <= i < |fields| :: fields[i] == (name, FindField(fields, name).value)
  {
    if |fields| > 0 && fields[0].0 != name {
      FindFieldSpec(fields[1..], name);
      assert forall i | 1 <= i < |fields| :: fields[i] == fields[1..][i - 1];
    }
  }

  /** `v[name]` for an own property of `v`; `None` stands for `undefined`. */
  function Lookup(v: Json, name: string): Option<Json> {
    FindField(Entries(v), name)
  }

  /** `name in v`. */
  predicate HasProperty(v: Json, name: string) {
    Lookup(v, name).Some?
  }

  /** `v[name]` is defined exactly when `v` has a property called `name`, and
      then it is the value of the first such property; `name in v` holds
      exactly then. */
  lemma LookupSpec(v: Json, name: string)
    ensures HasProperty(v, name) <==> exists i | 0 <= i < |Entries(v)| :: Entries(v)[i].0 == name
    ensures HasProperty(v, name) ==>
              exists i | 0 <= i < |Entries(v)| :: Entries(v)[i] == (name, Lookup(v, name).value)
                && forall j | 0 <= j < i :: Entries(v)[j].0 != name
  {
    FirstFieldSpec(Entries(v), name);
  }

  lemma {:induction false} FirstFieldSpec(fields: seq<(string, Json)>, name: string)
    ensures FindField(fields, name).Some? <==> exists i | 0 <= i < |fields| :: fields[i].0 == name
    ensures FindField(fields, name).Some? ==>
              exists i | 0 <= i < |fields| :: fields[i] == (name, FindField(fields, name).value)
                && forall j | 0 <= j < i :: fields[j].0 != name
  {
    FindFieldSpec(fields, name);
    if |fields| > 0 && fields[0].0 != name && FindField(fields, name).Some? {
      FirstFieldSpec(fields[1..], name);
      var i :| 0 <= i < |fields[1..]| && fields[1..][i] == (name, FindField(fields, name).value)
                && forall j | 0 <= j < i :: fields[1..][j].0 != name;
      assert fields[i + 1] == (name, FindField(fields, name).value);
      forall j | 0 <= j < i + 1 ensures fields[j].0 != name {
        if j > 0 { assert fields[j] == fields[1..][j - 1]; }
      }
    }
  }

  /** `arr[i]`: an array's property named by the decimal text of an index is
      the element at that index, and no other index name is a property. */
  lemma ArrayIndexLookup(elems: seq<Json>, i: nat)
    ensures i < |elems| ==> Lookup(JArr(elems), NatToString(i)) == Some(elems[i])
    ensures i >= |elems| ==> !HasProperty(JArr(elems), NatToString(i))
  {
    IndexEntriesLookup(elems, 0, i);
  }

  lemma {:induction false} IndexEntriesLookup(elems: seq<Json>, first: nat, i: nat)
    ensures i < |elems| ==> FindField(IndexEntries(elems, first), NatToString(first + i)) == Some(elems[i])
    ensures i >= |elems| ==> FindField(IndexEntries(elems, first), NatToString(first + i)).None?
  {
    if |elems| > 0 {
      var es := IndexEntries(elems, first);
      assert es[0].0 == NatToString(first);
      assert es[1..] == IndexEntries(elems[1..], first + 1);
      if i == 0 {
      } else {
        if NatToString(first) == NatToString(first + i) {
          NatToStringInjective(first, first + i);
        }
        IndexEntriesLookup(elems[1..], first + 1, i - 1);
        assert first + 1 + (i - 1) == first + i;
      }
    }
  }

  /** `Object.keys(v)`: the names of the own properties, in order. */
  function Keys(v: Json): (ks: seq<string>)
    ensures |ks| == |Entries(v)|
    ensures forall k :: k in ks <==> HasProperty(v, k)
  {
    var es := Entries(v);
    var ks := seq(|es|, i requires 0 <= i < |es| => es[i].0);
    forall k ensures HasProperty(v, k) <==> exists i | 0 <= i < |es| :: es[i].0 == k {
      FindFieldSpec(es, k);
    }
    assert forall k :: k in ks <==> exists i | 0 <= i < |es| :: es[i].0 == k by {
      forall k | k in ks ensures exists i | 0 <= i < |es| :: es[i].0 == k {
        var i :| 0 <= i < |ks| && ks[i] == k;
        assert es[i].0 == k;
      }
      forall k | exists i | 0 <= i < |es| :: es[i].0 == k ensures k in ks {
        var i :| 0 <= i < |es| && es[i].0 == k;
        assert ks[i] == k;
      }
    }
    ks
  }

  // ---------------------------------------------------------------------------
  // String conversion.

  /** `v.toString()`. */
  function ToString(v: Json): (r: string)
    ensures v.JArr? && |v.elems| == 1 && v.elems[0] != JNull ==> r == ToString(v.elems[0])
    ensures v.JArr? ==> |r| >= |v.elems| - 1
    decreases v
  {
    match v
    case JNull => "null"
    case JBool(b) => if b then "true" else "false"
    case JNum(text) => text
    case JStr(s) => s
    case JObj(_) => "[object Object]"
    case JArr(elems) => JoinElements(elems)
  }

  /** An array's elements converted and joined by commas, as
      Array.prototype.join does, with null elements written as "". */
  function JoinElements(elems: seq<Json>): (r: string)
    ensures |r| >= |elems| - 1
    decreases elems
  {
    if |elems| == 0 then ""
    else
      var first := if elems[0].JNull? then "" else ToString(elems[0]);
      if |elems| == 1 then first else first + "," + JoinElements(elems[1..])
  }

  /** Array.prototype.join with separator ",": the parts separated by commas. */
  function Join(parts: seq<string>): string {
    if |parts| == 0 then "" else if |parts| == 1 then parts[0] else parts[0] + "," + Join(parts[1..])
  }

  /** What join writes for each element: nothing for null, its string form
      otherwise. */
  function ElementStrings(elems: seq<Json>): (r: seq<string>)
    ensures |r| == |elems|
  {
    if |elems| == 0 then [] else [if elems[0].JNull? then "" else ToString(elems[0])] + ElementStrings(elems[1..])
  }

  /** An array's string form is its elements' string forms joined by commas. */
  lemma {:induction false} ArrayToStringJoins(elems: seq<Json>)
    ensures ToString(JArr(elems)) == Join(ElementStrings(elems))
  {
    if |elems| > 1 {
      ArrayToStringJoins(elems[1..]);
      assert ElementStrings(elems)[1..] == ElementStrings(elems[1..]);
    }
  }

  /** `rec[key]?.toString()`: `None` when the value is missing or null, since
      the optional chain then yields `undefined`. */
  function KeyString(rec: Json, key: string): (r: Option<string>)
    ensures r.Some? <==> HasProperty(rec, key) && Lookup(rec, key).value != JNull
    ensures r.Some? && Lookup(rec, key).value.JStr? ==> r.value == Lookup(rec, key).value.s
  {
    match Lookup(rec, key)
    case None => None
    case Some(JNull) => None
    case Some(v) => Some(ToString(v))
  }
}
