/**
 The id renumbering that follows the sort: when the first sorted record has an
 "id" property, every record `item` at `index` is replaced by
 `{...item, id: index + 1}`.
 */
module Renumbering {
  import opened JsonValue

  /** The members not called `name`, in order. */
  function Without(fields: seq<(string, Json)>, name: string): (r: seq<(string, Json)>)
    ensures FindField(r, name).None?
    ensures forall k | k != name :: FindField(r, k) == FindField(fields, k)
  {
    if |fields| == 0 then []
    else if fields[0].0 == name then Without(fields[1..], name)
    else [fields[0]] + Without(fields[1..], name)
  }

  /** Object spread followed by `name: v`: an existing `name` keeps its place
      and takes the new value, otherwise the member is added last. An object
      holds a name once, so a later duplicate in `fields` is dropped. */
  function SetField(fields: seq<(string, Json)>, name: string, v: Json): (r: seq<(string, Json)>)
    ensures FindField(r, name) == Some(v)
    ensures forall k | k != name :: FindField(r, k) == FindField(fields, k)
    ensures Without(r, name) == Without(fields, name)
    ensures FindField(fields, name).None? ==> r == fields + [(name, v)]
  {
    if |fields| == 0 then [(name, v)]
    else if fields[0].0 == name then
      var r := [(name, v)] + Without(fields[1..], name);
      assert r[1..] == Without(fields[1..], name);
      WithoutIdempotent(fields[1..], name);
      r
    else
      var r := [fields[0]] + SetField(fields[1..], name, v);
      assert fields == [fields[0]] + fields[1..];
      r
  }

  /** When `fields` has a member called `name`, the first one keeps its
      place and takes the value `v`; the members before it stay, and later
      members called `name` are dropped. */
  lemma {:induction false} SetFieldInPlace(fields: seq<(string, Json)>, name: string, v: Json, i: nat)
    requires i < |fields| && fields[i].0 == name
    requires forall j | 0 <= j < i :: fields[j].0 != name
    ensures SetField(fields, name, v) == fields[..i] + [(name, v)] + Without(fields[i + 1..], name)
  {
    if i == 0 {
      assert fields[..0] == [];
    } else {
      var tail := fields[1..];
      forall j | 0 <= j < i - 1 ensures tail[j].0 != name {
        assert tail[j] == fields[j + 1];
      }
      SetFieldInPlace(tail, name, v, i - 1);
      assert tail[i - 1 + 1..] == fields[i + 1..];
      var w := Without(fields[i + 1..], name);
      assert Without(tail[i - 1 + 1..], name) == w;
      SetFieldCons(fields, name, v);
      ConsPrefix(fields, i, SetField(tail, name, v), [(name, v)], w);
    }
  }

  lemma SetFieldCons(fields: seq<(string, Json)>, name: string, v: Json)
    requires |fields| > 0 && fields[0].0 != name
    ensures SetField(fields, name, v) == [fields[0]] + SetField(fields[1..], name, v)
  {
  }

  /** Putting the first element back in front of a sequence built on a
      prefix of the rest. */
  lemma ConsPrefix<X>(s: seq<X>, i: nat, r: seq<X>, b: seq<X>, c: seq<X>)
    requires 0 < i <= |s| && r == s[1..][..i - 1] + b + c
    ensures [s[0]] + r == s[..i] + b + c
  {
    assert s[..i] == [s[0]] + s[1..][..i - 1];
  }

  /** The number the renumbering writes at 1-based position `n`. */
  function IdValue(n: nat): Json {
    JNum(NatToString(n))
  }

  /** `{...rec, id: n}`. The copy is an object even when `rec` is an array,
      whose indices become its members. */
  function WithId(rec: Json, n: nat): (r: Json)
    ensures r.JObj? && FindField(r.fields, "id").Some?
  {
    JObj(SetField(Entries(rec), "id", IdValue(n)))
  }

  /** The copy has "id" set to `n` and every other member of `rec`, in
      `rec`'s order. */
  lemma WithIdSpec(rec: Json, n: nat)
    ensures Lookup(WithId(rec, n), "id") == Some(IdValue(n))
    ensures forall k | k != "id" :: Lookup(WithId(rec, n), k) == Lookup(rec, k)
    ensures Without(Entries(WithId(rec, n)), "id") == Without(Entries(rec), "id")
    ensures !HasProperty(rec, "id") ==> Entries(WithId(rec, n)) == Entries(rec) + [("id", IdValue(n))]
  {
  }

  /** An existing "id" keeps its place among the copy's members. */
  lemma WithIdKeepsPlace(rec: Json, n: nat, i: nat)
    requires i < |Entries(rec)| && Entries(rec)[i].0 == "id"
    requires forall j | 0 <= j < i :: Entries(rec)[j].0 != "id"
    ensures Entries(WithId(rec, n))
            == Entries(rec)[..i] + [("id", IdValue(n))] + Without(Entries(rec)[i + 1..], "id")
  {
    SetFieldInPlace(Entries(rec), "id", IdValue(n), i);
  }

  /** `s.map((item, index) => ({...item, id: index + 1}))`. */
  function Renumber(s: seq<Json>): (r: seq<Json>)
    ensures |r| == |s|
    ensures forall i | 0 <= i < |r| :: r[i].JObj?
  {
    seq(|s|, i requires 0 <= i < |s| => WithId(s[i], i + 1))
  }

  /** The renumbering test `s.length > 0 && "id" in s[0]`:
      the first record lists "id" among its keys. */
  predicate FirstHasId(s: seq<Json>)
    ensures FirstHasId(s) <==> |s| > 0 && "id" in Keys(s[0])
  {
    |s| > 0 && HasProperty(s[0], "id")
  }

  /** Renumbers exactly when the first record has an "id" property. */
  function ReorderIds(s: seq<Json>): (r: seq<Json>)
    ensures |r| == |s|
    ensures !FirstHasId(s) ==> r == s
  {
    if FirstHasId(s) then Renumber(s) else s
  }

  /** After renumbering every record's "id" is its 1-based position, records
      that had none included, and no other property changes. */
  lemma ReorderIdsSpec(s: seq<Json>)
    ensures FirstHasId(s) ==>
              forall i | 0 <= i < |s| :: Lookup(ReorderIds(s)[i], "id") == Some(IdValue(i + 1))
    ensures forall i, k | 0 <= i < |s| && k != "id" :: Lookup(ReorderIds(s)[i], k) == Lookup(s[i], k)
  {
    var r := ReorderIds(s);
    forall i | 0 <= i < |s|
      ensures FirstHasId(s) ==> Lookup(r[i], "id") == Some(IdValue(i + 1))
      ensures forall k | k != "id" :: Lookup(r[i], k) == Lookup(s[i], k)
    {
      if FirstHasId(s) {
        assert r[i] == WithId(s[i], i + 1);
        WithIdSpec(s[i], i + 1);
      }
    }
  }

  /** Renumbering leaves each record's other members, and their order, as
      they were. */
  lemma ReorderIdsKeepsOtherMembers(s: seq<Json>, i: nat)
    requires i < |s|
    ensures Without(Entries(ReorderIds(s)[i]), "id") == Without(Entries(s[i]), "id")
  {
    if FirstHasId(s) {
      assert ReorderIds(s)[i] == WithId(s[i], i + 1);
      WithIdSpec(s[i], i + 1);
    }
  }

  // ---------------------------------------------------------------------------
  // Renumbering twice is renumbering once.

  lemma {:induction false} WithoutIdempotent(fields: seq<(string, Json)>, name: string)
    ensures Without(Without(fields, name), name) == Without(fields, name)
  {
    if |fields| > 0 {
      WithoutIdempotent(fields[1..], name);
    }
  }

  lemma {:induction false} SetFieldIdempotent(fields: seq<(string, Json)>, name: string, v: Json)
    ensures SetField(SetField(fields, name, v), name, v) == SetField(fields, name, v)
  {
    if |fields| > 0 {
      if fields[0].0 == name {
        WithoutIdempotent(fields[1..], name);
        assert SetField(fields, name, v)[1..] == Without(fields[1..], name);
      } else {
        SetFieldIdempotent(fields[1..], name, v);
        assert SetField(fields, name, v)[1..] == SetField(fields[1..], name, v);
      }
    }
  }

  lemma WithIdIdempotent(rec: Json, n: nat)
    ensures WithId(WithId(rec, n), n) == WithId(rec, n)
  {
    SetFieldIdempotent(Entries(rec), "id", IdValue(n));
  }

  lemma RenumberIdempotent(s: seq<Json>)
    ensures Renumber(Renumber(s)) == Renumber(s)
  {
    var r := Renumber(s);
    forall i | 0 <= i < |r| ensures Renumber(r)[i] == r[i] {
      assert r[i] == WithId(s[i], i + 1);
      WithIdIdempotent(s[i], i + 1);
    }
  }

  /** Applying the renumbering to its own output changes nothing. */
  lemma ReorderIdsIdempotent(s: seq<Json>)
    ensures ReorderIds(ReorderIds(s)) == ReorderIds(s)
  {
    if FirstHasId(s) {
      RenumberIdempotent(s);
      assert ReorderIds(s)[0] == WithId(s[0], 1);
    }
  }
}
