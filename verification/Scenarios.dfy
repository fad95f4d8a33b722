/**
 Concrete runs of the component's transitions.

 The records of a run are lemma parameters fixed by `requires r == Rec(...)`
 rather than written out in the statements. The verifier then treats each
 record as one opaque term, and facts about a record are proved once in a
 small helper lemma and reused, instead of being re-derived from the literal
 at every use.
 */
module Scenarios {
  import opened JsonValue
  import opened Collation
  import opened StableSort
  import opened Renumbering
  import opened JsonSorter

  function Rec(k1: string, v1: Json, k2: string, v2: Json): Json {
    JObj([(k1, v1), (k2, v2)])
  }

  /** Giving a two-member record an id overwrites the "id" member in place. */
  lemma WithIdInPlace(k1: string, v1: Json, k2: string, v2: Json, n: nat)
    requires (k1 == "id") != (k2 == "id")
    ensures WithId(Rec(k1, v1, k2, v2), n)
            == if k1 == "id" then Rec(k1, IdValue(n), k2, v2) else Rec(k1, v1, k2, IdValue(n))
  {
    var fields := [(k1, v1), (k2, v2)];
    assert fields[1..] == [(k2, v2)];
    if k1 == "id" {
      assert Without([(k2, v2)], "id") == [(k2, v2)] by {
        assert [(k2, v2)][1..] == [];
      }
    } else {
      assert SetField([(k2, v2)], "id", IdValue(n)) == [(k2, IdValue(n))] by {
        assert [(k2, v2)][1..] == [];
      }
    }
  }

  lemma RenumberTwo(a: Json, b: Json)
    ensures Renumber([a, b]) == [WithId(a, 1), WithId(b, 2)]
  {
  }

  lemma RenumberThree(a: Json, b: Json, c: Json)
    ensures Renumber([a, b, c]) == [WithId(a, 1), WithId(b, 2), WithId(c, 3)]
  {
  }

  lemma SmallNumbers()
    ensures NatToString(1) == "1" && NatToString(2) == "2" && NatToString(3) == "3"
  {
  }

  /** A record's value at its first or second member. */
  lemma RecKeyString(k1: string, v1: Json, k2: string, v2: Json)
    requires k1 != k2 && v1 != JNull && v2 != JNull
    ensures KeyString(Rec(k1, v1, k2, v2), k1) == Some(ToString(v1))
    ensures KeyString(Rec(k1, v1, k2, v2), k2) == Some(ToString(v2))
  {
    assert [(k1, v1), (k2, v2)][1..] == [(k2, v2)];
    assert Lookup(Rec(k1, v1, k2, v2), k2) == FindField([(k2, v2)], k2) == Some(v2);
  }

  lemma LoadBobAlice(bob: Json, alice: Json)
    requires bob == Rec("id", JNum("1"), "name", JStr("Bob"))
    ensures Load(Initial, Some(JArr([bob, alice]))) == LoadResult(State([bob, alice], ["id", "name"], ""), Silent)
  {
    assert Keys(bob) == ["id", "name"];
  }

  lemma SortAliceFirst(bob: Json, alice: Json)
    requires bob == Rec("id", JNum("1"), "name", JStr("Bob"))
    requires alice == Rec("id", JNum("2"), "name", JStr("Alice"))
    ensures SortBy([bob, alice], ValueAt("name")) == [alice, bob]
  {
    RecKeyString("id", JNum("1"), "name", JStr("Bob"));
    RecKeyString("id", JNum("2"), "name", JStr("Alice"));
    assert Compare("Alice", "Bob") == -1;
    assert SortBy([alice], ValueAt("name")) == [alice];
    assert [bob, alice][1..] == [alice];
  }

  lemma RenumberAliceBob(bob: Json, alice: Json)
    requires bob == Rec("id", JNum("1"), "name", JStr("Bob"))
    requires alice == Rec("id", JNum("2"), "name", JStr("Alice"))
    ensures ReorderIds([alice, bob]) == [Rec("id", JNum("1"), "name", JStr("Alice")), Rec("id", JNum("2"), "name", JStr("Bob"))]
  {
    assert HasProperty(alice, "id");
    SmallNumbers();
    WithIdInPlace("id", JNum("2"), "name", JStr("Alice"), 1);
    WithIdInPlace("id", JNum("1"), "name", JStr("Bob"), 2);
    RenumberTwo(alice, bob);
  }

  /** Uploading [{"id":1,"name":"Bob"},{"id":2,"name":"Alice"}], choosing
      "name" and sorting gives [{"id":1,"name":"Alice"},{"id":2,"name":"Bob"}]:
      the records swap and the ids follow the new positions. */
  lemma UploadSelectSort(bob: Json, alice: Json)
    requires bob == Rec("id", JNum("1"), "name", JStr("Bob"))
    requires alice == Rec("id", JNum("2"), "name", JStr("Alice"))
    ensures var loaded := Load(Initial, Some(JArr([bob, alice])));
            && loaded.notice == Silent
            && loaded.state.keys == ["id", "name"]
            && "name" in loaded.state.keys
            && Sortable(SelectKey(loaded.state, "name"))
            && Sort(SelectKey(loaded.state, "name")).data
               == [Rec("id", JNum("1"), "name", JStr("Alice")), Rec("id", JNum("2"), "name", JStr("Bob"))]
  {
    LoadBobAlice(bob, alice);
    SortAliceFirst(bob, alice);
    RenumberAliceBob(bob, alice);
    RecKeyString("id", JNum("1"), "name", JStr("Bob"));
    RecKeyString("id", JNum("2"), "name", JStr("Alice"));
  }

  lemma SortTies(b1: Json, a2: Json, a3: Json)
    requires b1 == Rec("k", JStr("b"), "id", JNum("1"))
    requires a2 == Rec("k", JStr("a"), "id", JNum("2"))
    requires a3 == Rec("k", JStr("a"), "id", JNum("3"))
    ensures SortBy([b1, a2, a3], ValueAt("k")) == [a2, a3, b1]
  {
    SortTiesTail(a2, a3);
    InsertBehind(b1, a2, a3);
    assert [b1, a2, a3][1..] == [a2, a3];
  }

  lemma TiesSortable(b1: Json, a2: Json, a3: Json)
    requires b1 == Rec("k", JStr("b"), "id", JNum("1"))
    requires a2 == Rec("k", JStr("a"), "id", JNum("2"))
    requires a3 == Rec("k", JStr("a"), "id", JNum("3"))
    ensures AllKeyed([b1, a2, a3], ValueAt("k"))
  {
    RecKeyString("k", JStr("b"), "id", JNum("1"));
    RecKeyString("k", JStr("a"), "id", JNum("2"));
    RecKeyString("k", JStr("a"), "id", JNum("3"));
  }

  lemma SortTiesTail(a2: Json, a3: Json)
    requires a2 == Rec("k", JStr("a"), "id", JNum("2"))
    requires a3 == Rec("k", JStr("a"), "id", JNum("3"))
    ensures SortBy([a2, a3], ValueAt("k")) == [a2, a3]
  {
    RecKeyString("k", JStr("a"), "id", JNum("2"));
    RecKeyString("k", JStr("a"), "id", JNum("3"));
    assert SortBy([a3], ValueAt("k")) == [a3];
    assert [a2, a3][1..] == [a3];
    assert RecordCompare(a3, a2, ValueAt("k")) == 0;
  }

  lemma InsertBehind(b1: Json, a2: Json, a3: Json)
    requires b1 == Rec("k", JStr("b"), "id", JNum("1"))
    requires a2 == Rec("k", JStr("a"), "id", JNum("2"))
    requires a3 == Rec("k", JStr("a"), "id", JNum("3"))
    ensures Insert(b1, [a2, a3], ValueAt("k")) == [a2, a3, b1]
  {
    RecKeyString("k", JStr("b"), "id", JNum("1"));
    RecKeyString("k", JStr("a"), "id", JNum("2"));
    RecKeyString("k", JStr("a"), "id", JNum("3"));
    assert Compare("a", "b") == -1;
    assert RecordCompare(a2, b1, ValueAt("k")) == -1 && RecordCompare(a3, b1, ValueAt("k")) == -1;
    assert [a2, a3][1..] == [a3];
    assert Insert(b1, [a3], ValueAt("k")) == [a3, b1];
  }

  lemma RenumberTies(b1: Json, a2: Json, a3: Json)
    requires b1 == Rec("k", JStr("b"), "id", JNum("1"))
    requires a2 == Rec("k", JStr("a"), "id", JNum("2"))
    requires a3 == Rec("k", JStr("a"), "id", JNum("3"))
    ensures ReorderIds([a2, a3, b1]) == [Rec("k", JStr("a"), "id", JNum("1")),
                                         Rec("k", JStr("a"), "id", JNum("2")),
                                         Rec("k", JStr("b"), "id", JNum("3"))]
  {
    assert [("k", JStr("a")), ("id", JNum("2"))][1..] == [("id", JNum("2"))];
    assert HasProperty(a2, "id");
    SmallNumbers();
    WithIdInPlace("k", JStr("a"), "id", JNum("2"), 1);
    WithIdInPlace("k", JStr("a"), "id", JNum("3"), 2);
    WithIdInPlace("k", JStr("b"), "id", JNum("1"), 3);
    RenumberThree(a2, a3, b1);
  }

  /** Sorting [{k:"b",id:1},{k:"a",id:2},{k:"a",id:3}] by k keeps the two "a"
      records in their input order and renumbers all three. */
  lemma TiedRecordsKeepTheirOrder(b1: Json, a2: Json, a3: Json)
    requires b1 == Rec("k", JStr("b"), "id", JNum("1"))
    requires a2 == Rec("k", JStr("a"), "id", JNum("2"))
    requires a3 == Rec("k", JStr("a"), "id", JNum("3"))
    ensures Sortable(State([b1, a2, a3], ["k", "id"], "k"))
    ensures SortBy([b1, a2, a3], ValueAt("k")) == [a2, a3, b1]
    ensures Sort(State([b1, a2, a3], ["k", "id"], "k")).data
            == [Rec("k", JStr("a"), "id", JNum("1")),
                Rec("k", JStr("a"), "id", JNum("2")),
                Rec("k", JStr("b"), "id", JNum("3"))]
  {
    TiesSortable(b1, a2, a3);
    SortTies(b1, a2, a3);
    RenumberTies(b1, a2, a3);
  }

  /** Sorting [{x:2},{x:1}] by x adds no "id". */
  lemma NoIdNoRenumbering()
    ensures var st := State([JObj([("x", JNum("2"))]), JObj([("x", JNum("1"))])], ["x"], "x");
            Sort(st).data == [JObj([("x", JNum("1"))]), JObj([("x", JNum("2"))])]
  {
  }

  /** Loading [null] replaces the data but keeps the keys and the selected
      key, and shows the parse-error alert. */
  lemma NullFirstRecordLoadsHalfway()
    ensures var st := State([JObj([("a", JNum("1"))])], ["a"], "a");
            Load(st, Some(JArr([JNull]))) == LoadResult(State([JNull], ["a"], "a"), ParseError)
  {
  }

  /** An array as first element loads, with its indices as the keys. */
  lemma ArrayFirstRecordLoads()
    ensures var r := Load(Initial, Some(JArr([JArr([JStr("x"), JStr("y")])])));
            r.notice == Silent && r.state.keys == ["0", "1"]
  {
  }

  /** Without a value at the key the comparator is not antisymmetric: it
      calls a record lacking the key equal to one that has it, but not the
      other way round. This is why sorting asks for a value in every record. */
  lemma MissingValueBreaksComparator()
    ensures var a, b := JObj([]), JObj([("k", JStr("v"))]);
            RecordCompare(a, b, ValueAt("k")) == 0 && RecordCompare(b, a, ValueAt("k")) == 1
  {
  }
}
