/**
 The JsonSorter component's state and the transitions its handlers make:
 loading a parsed file (`handleFileUpload`'s `onload`), choosing a key (the
 key dropdown's `onChange`) and sorting (`handleSort`).
 */
module JsonSorter {
  import opened JsonValue
  import opened Collation
  import opened StableSort
  import opened Renumbering

  /** `jsonData`, `keys` and `selectedKey`. */
  datatype State = State(data: seq<Json>, keys: seq<string>, selectedKey: string)

  /** The state before any file is loaded. */
  const Initial: State := State([], [], "")

  /** The alert a load shows, if any. */
  datatype Notice =
    | Silent
    | InvalidFormat  // "Invalid JSON format. Please upload an array of objects."
    | ParseError     // "Error parsing JSON file."

  datatype LoadResult = LoadResult(state: State, notice: Notice)

  /** The shape test on the parsed value: a non-empty array whose first
      element has `typeof` "object". Null passes it. */
  predicate PassesShapeCheck(v: Json)
    ensures PassesShapeCheck(v) <==> IsTable(v) || (v.JArr? && |v.elems| > 0 && v.elems[0] == JNull)
  {
    v.JArr? && |v.elems| > 0 && TypeofObject(v.elems[0])
  }

  /** A non-empty array whose first element is an object or an array. */
  predicate IsTable(v: Json) {
    v.JArr? && |v.elems| > 0 && (v.elems[0].JObj? || v.elems[0].JArr?)
  }

  /** The load handler, given what JSON.parse made of the file text (`None`
      when it threw). A first element of null passes the shape test, so
      `setJsonData` is called before `Object.keys(null)` throws; the data is
      then replaced while the keys and the selected key stay as they were,
      and the catch block shows the parse-error alert. */
  function Load(st: State, parsed: Option<Json>): (r: LoadResult)
    ensures r.notice == Silent <==> parsed.Some? && IsTable(parsed.value)
    ensures r.notice == Silent ==>
              && r.state.data == parsed.value.elems
              && r.state.keys == Keys(parsed.value.elems[0])
              && r.state.selectedKey == ""
    ensures r.notice == InvalidFormat <==> parsed.Some? && !PassesShapeCheck(parsed.value)
    ensures parsed.None? ==> r == LoadResult(st, ParseError)
    ensures parsed.Some? && !PassesShapeCheck(parsed.value) ==> r.state == st
    ensures parsed.Some? && PassesShapeCheck(parsed.value) && parsed.value.elems[0] == JNull ==>
              r == LoadResult(st.(data := parsed.value.elems), ParseError)
  {
    match parsed
    case None => LoadResult(st, ParseError)
    case Some(v) =>
      if !PassesShapeCheck(v) then LoadResult(st, InvalidFormat)
      else if v.elems[0].JNull? then LoadResult(st.(data := v.elems), ParseError)
      else LoadResult(State(v.elems, Keys(v.elems[0]), ""), Silent)
  }

  /** The comparator's view of a record: the string form of its value at
      `key`, absent when the value is missing or null. */
  function ValueAt(key: string): Json -> Option<string> {
    rec => KeyString(rec, key)
  }

  /** The dropdown offers "" and the loaded keys. */
  function SelectKey(st: State, k: string): (r: State)
    requires k == "" || k in st.keys
    ensures r.data == st.data && r.keys == st.keys && r.selectedKey == k
  {
    st.(selectedKey := k)
  }

  /** Every record has a non-null value at the selected key, which is what
      makes the comparator consistent; with no key selected nothing is sorted. */
  predicate Sortable(st: State) {
    st.selectedKey != "" ==> AllKeyed(st.data, ValueAt(st.selectedKey))
  }

  /** The sort handler: nothing happens without a selected key; otherwise a
      copy of the data is stably sorted and then renumbered if its first
      record has an "id" property. */
  function Sort(st: State): (r: State)
    requires Sortable(st)
    ensures r.keys == st.keys && r.selectedKey == st.selectedKey
    ensures |r.data| == |st.data|
    ensures st.selectedKey == "" ==> r.data == st.data
    ensures st.selectedKey != "" && !FirstHasId(SortBy(st.data, ValueAt(st.selectedKey))) ==>
              r.data == SortBy(st.data, ValueAt(st.selectedKey))
  {
    if st.selectedKey == "" then st
    else st.(data := ReorderIds(SortBy(st.data, ValueAt(st.selectedKey))))
  }

  /** Each record of the result is the record at the same position of the
      stably sorted data, with "id" set to its 1-based position when the first
      sorted record has an "id", and otherwise unchanged. */
  lemma SortSpec(st: State)
    requires Sortable(st) && st.selectedKey != ""
    ensures var sorted := SortBy(st.data, ValueAt(st.selectedKey));
            var r := Sort(st).data;
            && (FirstHasId(sorted) ==>
                  forall i | 0 <= i < |r| :: Lookup(r[i], "id") == Some(IdValue(i + 1)))
            && (forall i, k | 0 <= i < |r| && k != "id" :: Lookup(r[i], k) == Lookup(sorted[i], k))
            && (forall i | 0 <= i < |r| :: Without(Entries(r[i]), "id") == Without(Entries(sorted[i]), "id"))
  {
    var sorted := SortBy(st.data, ValueAt(st.selectedKey));
    ReorderIdsSpec(sorted);
    forall i | 0 <= i < |sorted|
      ensures Without(Entries(ReorderIds(sorted)[i]), "id") == Without(Entries(sorted[i]), "id")
    {
      ReorderIdsKeepsOtherMembers(sorted, i);
    }
  }

  // ---------------------------------------------------------------------------
  // The selected key is always empty or one of the keys.

  predicate Selectable(st: State) {
    st.selectedKey == "" || st.selectedKey in st.keys
  }

  lemma TransitionsKeepSelectable(st: State, parsed: Option<Json>, k: string)
    requires Selectable(st)
    ensures Selectable(Load(st, parsed).state)
    ensures k == "" || k in st.keys ==> Selectable(SelectKey(st, k))
    ensures Sortable(st) ==> Selectable(Sort(st))
  {
  }

  /** After a successful load every key names a property of the first record,
      and every property of the first record is a key. */
  lemma LoadedKeysDescribeFirstRecord(st: State, parsed: Option<Json>)
    requires Load(st, parsed).notice == Silent
    ensures var s := Load(st, parsed).state;
            |s.data| > 0 && forall k :: k in s.keys <==> HasProperty(s.data[0], k)
  {
  }

  // ---------------------------------------------------------------------------
  // What sorting does to the records.

  /** With a key other than "id", the sorted data is ordered by the
      comparator, and the values at the key are left as they were. */
  lemma SortOrders(st: State)
    requires Sortable(st) && st.selectedKey != "" && st.selectedKey != "id"
    ensures AllKeyed(Sort(st).data, ValueAt(st.selectedKey))
    ensures Ordered(Sort(st).data, ValueAt(st.selectedKey))
  {
    var key := st.selectedKey;
    var sorted := SortBy(st.data, ValueAt(key));
    var r := Sort(st).data;
    SortByOrdered(st.data, ValueAt(key));
    SortSpec(st);
    assert forall i | 0 <= i < |r| :: KeyString(r[i], key) == KeyString(sorted[i], key);
    forall i, j | 0 <= i < j < |r| ensures RecordCompare(r[i], r[j], ValueAt(key)) <= 0 {
      assert RecordCompare(sorted[i], sorted[j], ValueAt(key)) <= 0;
    }
  }

  /** Sorting by "id" does not keep the records ordered once there are ten:
      the first sorted record has an "id", so the ids are rewritten to 1, 2,
      ..., and the string "10" sorts before "2". Sorting the result again
      therefore moves records. */
  lemma IdSortNotOrdered(st: State)
    requires Sortable(st) && st.selectedKey == "id" && |st.data| >= 10
    ensures !Ordered(Sort(st).data, ValueAt("id"))
    ensures Sortable(Sort(st))
    ensures SortBy(Sort(st).data, ValueAt("id")) != Sort(st).data
  {
    var sorted := SortBy(st.data, ValueAt("id"));
    var r := Sort(st).data;
    SortByOrdered(st.data, ValueAt("id"));
    assert ValueAt("id")(sorted[0]).Some?;
    assert FirstHasId(sorted);
    ReorderIdsSpec(sorted);
    forall i | 0 <= i < |r| ensures ValueAt("id")(r[i]) == Some(NatToString(i + 1)) {
      assert Lookup(r[i], "id") == Some(IdValue(i + 1));
    }
    assert NatToString(2) == "2" && NatToString(10) == "10";
    assert Compare("2", "10") == 1;
    assert RecordCompare(r[1], r[9], ValueAt("id")) == 1;
    SortByOrdered(r, ValueAt("id"));
  }

  /** When no renumbering happens, the result is a rearrangement of the data. */
  lemma SortPermutes(st: State)
    requires Sortable(st)
    requires st.selectedKey != "" ==> !FirstHasId(SortBy(st.data, ValueAt(st.selectedKey)))
    ensures multiset(Sort(st).data) == multiset(st.data)
  {
  }

  /** When no renumbering happens, records whose values at the key have the
      same string form keep their relative order. */
  lemma SortStable(st: State)
    requires Sortable(st) && st.selectedKey != ""
    requires !FirstHasId(SortBy(st.data, ValueAt(st.selectedKey)))
    ensures PreservesTies(Sort(st).data, st.data, ValueAt(st.selectedKey))
  {
    SortByStable(st.data, ValueAt(st.selectedKey));
  }

  /** A record's properties other than "id". */
  function Strip(rec: Json): seq<(string, Json)> {
    Without(Entries(rec), "id")
  }

  /** The records of `s`, each taken without its "id", as a bag. */
  function StrippedBag(s: seq<Json>): multiset<seq<(string, Json)>> {
    if |s| == 0 then multiset{} else multiset{Strip(s[0])} + StrippedBag(s[1..])
  }

  lemma {:induction false} StrippedBagAppend(s: seq<Json>, t: seq<Json>)
    ensures StrippedBag(s + t) == StrippedBag(s) + StrippedBag(t)
  {
    if |s| == 0 {
      assert s + t == t;
    } else {
      assert (s + t)[1..] == s[1..] + t;
      StrippedBagAppend(s[1..], t);
    }
  }

  lemma {:induction false} InsertStripped(x: Json, s: seq<Json>, keyOf: Json -> Option<string>)
    ensures StrippedBag(Insert(x, s, keyOf)) == multiset{Strip(x)} + StrippedBag(s)
  {
    if |s| > 0 && RecordCompare(s[0], x, keyOf) < 0 {
      InsertStripped(x, s[1..], keyOf);
      StrippedBagAppend([s[0]], Insert(x, s[1..], keyOf));
    } else if |s| > 0 {
      StrippedBagAppend([x], s);
    }
  }

  lemma {:induction false} SortByStripped(s: seq<Json>, keyOf: Json -> Option<string>)
    ensures StrippedBag(SortBy(s, keyOf)) == StrippedBag(s)
  {
    if |s| > 0 {
      SortByStripped(s[1..], keyOf);
      InsertStripped(s[0], SortBy(s[1..], keyOf), keyOf);
    }
  }

  lemma {:induction false} PointwiseStripped(r: seq<Json>, s: seq<Json>)
    requires |r| == |s| && forall i | 0 <= i < |r| :: Strip(r[i]) == Strip(s[i])
    ensures StrippedBag(r) == StrippedBag(s)
  {
    if |r| > 0 {
      PointwiseStripped(r[1..], s[1..]);
    }
  }

  /** Leaving "id" aside, the sorted data holds the same records as before,
      each as many times: renumbering touches nothing but "id". */
  lemma SortPermutesApartFromIds(st: State)
    requires Sortable(st)
    ensures StrippedBag(Sort(st).data) == StrippedBag(st.data)
  {
    if st.selectedKey != "" {
      var sorted := SortBy(st.data, ValueAt(st.selectedKey));
      SortByStripped(st.data, ValueAt(st.selectedKey));
      SortSpec(st);
      PointwiseStripped(ReorderIds(sorted), sorted);
    }
  }

  /** Sorting twice by a key other than "id" gives what sorting once gives.
      (By "id" it need not: the new ids' decimal texts sort "10" before "2".) */
  lemma SortIdempotent(st: State)
    requires Sortable(st) && st.selectedKey != "id"
    ensures Sortable(Sort(st))
    ensures Sort(Sort(st)) == Sort(st)
  {
    if st.selectedKey != "" {
      var key := st.selectedKey;
      var sorted := SortBy(st.data, ValueAt(key));
      var r := Sort(st).data;
      SortOrders(st);
      SortByOrderedInput(r, ValueAt(key));
      assert r == ReorderIds(sorted);
      ReorderIdsIdempotent(sorted);
    }
  }
}
