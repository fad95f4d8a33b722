/**
 The sort step of the sorter: `[...data].sort(cmp)` with the comparator that
 compares the string forms of two records' values at the selected key.
 Array.prototype.sort is stable, so its result is determined by the
 comparator; it is computed here by insertion sort and characterised by
 `SortByUnique`: when every record has a value at the key, it is the one
 ordered sequence that keeps every group of tied records in input order.

 The records are of any type `T`; `keyOf` gives a record's value at the
 selected key as a string, or `None` when that value is missing or null
 (`rec[key]?.toString()` yielding `undefined`).
 */
module StableSort {
  import opened JsonValue
  import opened Collation

  /** The comparator `(a, b) => a[key]?.toString().localeCompare(b[key]?.toString())`.
      A missing or null value in `a` makes it return `undefined`, which the
      sort reads as 0; a missing or null value in `b` alone is compared as
      the string "undefined". */
  function RecordCompare<T>(a: T, b: T, keyOf: T -> Option<string>): (r: int)
    ensures -1 <= r <= 1
    ensures r == 0 <==> keyOf(a).None? || keyOf(a).value == Argument(keyOf(b))
  {
    match keyOf(a)
    case None => 0
    case Some(sa) => Compare(sa, Argument(keyOf(b)))
  }

  /** localeCompare's argument after string conversion: `undefined` becomes
      "undefined". */
  function Argument(o: Option<string>): string {
    match o
    case None => "undefined"
    case Some(s) => s
  }

  /** The record has a non-null value at the key. */
  predicate Keyed<T>(rec: T, keyOf: T -> Option<string>) {
    keyOf(rec).Some?
  }

  predicate AllKeyed<T>(s: seq<T>, keyOf: T -> Option<string>) {
    forall i | 0 <= i < |s| :: Keyed(s[i], keyOf)
  }

  /** Every record sorts no later than every record after it. */
  predicate Ordered<T>(s: seq<T>, keyOf: T -> Option<string>) {
    forall i, j | 0 <= i < j < |s| :: RecordCompare(s[i], s[j], keyOf) <= 0
  }

  /** The records whose value at the key has string form `k`, in order. */
  function Ties<T>(s: seq<T>, keyOf: T -> Option<string>, k: string): seq<T> {
    if |s| == 0 then []
    else (if keyOf(s[0]) == Some(k) then [s[0]] else []) + Ties(s[1..], keyOf, k)
  }

  /** Records that compare equal appear in `t` in the same relative order as
      in `s`. */
  ghost predicate PreservesTies<T>(t: seq<T>, s: seq<T>, keyOf: T -> Option<string>) {
    forall k :: Ties(t, keyOf, k) == Ties(s, keyOf, k)
  }

  /** Inserts `x`, which came before every element of `s` in the input, in
      front of the first element that does not sort strictly before it. */
  function Insert<T>(x: T, s: seq<T>, keyOf: T -> Option<string>): (r: seq<T>)
    ensures multiset(r) == multiset(s) + multiset{x}
    ensures |r| == |s| + 1
  {
    if |s| == 0 then [x]
    else if RecordCompare(s[0], x, keyOf) < 0 then
      var r := [s[0]] + Insert(x, s[1..], keyOf);
      assert s == [s[0]] + s[1..];
      r
    else [x] + s
  }

  /** A stable sort of `s` by the comparator. */
  function SortBy<T>(s: seq<T>, keyOf: T -> Option<string>): (r: seq<T>)
    ensures multiset(r) == multiset(s)
    ensures |r| == |s|
  {
    if |s| == 0 then []
    else
      var r := Insert(s[0], SortBy(s[1..], keyOf), keyOf);
      assert s == [s[0]] + s[1..];
      r
  }

  // ---------------------------------------------------------------------------
  // Lemmas about the comparator.

  lemma RecordCompareAntisymmetric<T>(a: T, b: T, keyOf: T -> Option<string>)
    requires Keyed(a, keyOf) && Keyed(b, keyOf)
    ensures RecordCompare(a, b, keyOf) == -RecordCompare(b, a, keyOf)
  {
    CompareAntisymmetric(keyOf(a).value, keyOf(b).value);
  }

  lemma RecordCompareTransitive<T>(a: T, b: T, c: T, keyOf: T -> Option<string>)
    requires Keyed(a, keyOf) && Keyed(b, keyOf) && Keyed(c, keyOf)
    requires RecordCompare(a, b, keyOf) <= 0 && RecordCompare(b, c, keyOf) <= 0
    ensures RecordCompare(a, c, keyOf) <= 0
  {
    CompareTransitive(keyOf(a).value, keyOf(b).value, keyOf(c).value);
  }

  /** A record the comparator puts strictly first has a value at the key, and
      does not tie with the other record. */
  lemma StrictlyBeforeNotTied<T>(a: T, b: T, keyOf: T -> Option<string>)
    requires RecordCompare(a, b, keyOf) < 0
    ensures Keyed(a, keyOf) && keyOf(a) != keyOf(b)
  {
  }

  // ---------------------------------------------------------------------------
  // Tie groups.

  lemma {:induction false} TiesAppend<T>(s: seq<T>, t: seq<T>, keyOf: T -> Option<string>, k: string)
    ensures Ties(s + t, keyOf, k) == Ties(s, keyOf, k) + Ties(t, keyOf, k)
  {
    if |s| > 0 {
      assert (s + t)[1..] == s[1..] + t;
      TiesAppend(s[1..], t, keyOf, k);
      var h := if keyOf(s[0]) == Some(k) then [s[0]] else [];
      calc {
        Ties(s + t, keyOf, k);
        h + Ties(s[1..] + t, keyOf, k);
        h + (Ties(s[1..], keyOf, k) + Ties(t, keyOf, k));
        (h + Ties(s[1..], keyOf, k)) + Ties(t, keyOf, k);
      }
    } else {
      assert s + t == t;
    }
  }

  /** Prepending a record that sorts no later than every record of an ordered
      sequence keeps it ordered. */
  lemma OrderedCons<T>(a: T, t: seq<T>, keyOf: T -> Option<string>)
    requires Ordered(t, keyOf)
    requires forall j | 0 <= j < |t| :: RecordCompare(a, t[j], keyOf) <= 0
    ensures Ordered([a] + t, keyOf)
  {
    var r := [a] + t;
    forall i, j | 0 <= i < j < |r| ensures RecordCompare(r[i], r[j], keyOf) <= 0 {
      if i == 0 {
        assert r[j] == t[j - 1];
      } else {
        assert r[i] == t[i - 1] && r[j] == t[j - 1];
      }
    }
  }

  /** Every member of a tie group is a record of `s` whose string form is `k`. */
  lemma {:induction false} TiesMember<T>(s: seq<T>, keyOf: T -> Option<string>, k: string, x: T)
    requires x in Ties(s, keyOf, k)
    ensures x in s && keyOf(x) == Some(k)
  {
    if keyOf(s[0]) == Some(k) && x == s[0] {
    } else {
      TiesMember(s[1..], keyOf, k, x);
    }
  }

  // ---------------------------------------------------------------------------
  // Insertion.

  /** Inserting `x` adds it at the front of its own tie group and leaves every
      other group alone: the records it is moved past sort strictly before it,
      so none of them ties with it. */
  lemma {:induction false} InsertTies<T>(x: T, s: seq<T>, keyOf: T -> Option<string>, k: string)
    ensures Ties(Insert(x, s, keyOf), keyOf, k)
         == (if keyOf(x) == Some(k) then [x] else []) + Ties(s, keyOf, k)
  {
    if |s| == 0 {
      assert Insert(x, s, keyOf) == [x];
    } else if RecordCompare(s[0], x, keyOf) < 0 {
      var tail := Insert(x, s[1..], keyOf);
      assert Insert(x, s, keyOf) == [s[0]] + tail;
      InsertTies(x, s[1..], keyOf, k);
      StrictlyBeforeNotTied(s[0], x, keyOf);
      TiesConsStep(s[0], tail, s[1..], x, keyOf, k);
      assert s == [s[0]] + s[1..];
    } else {
      assert Insert(x, s, keyOf) == [x] + s;
      TiesAppend([x], s, keyOf, k);
    }
  }

  /** The tie group of a sequence with a record in front. */
  lemma TiesCons<T>(y: T, s: seq<T>, keyOf: T -> Option<string>, k: string)
    ensures Ties([y] + s, keyOf, k) == (if keyOf(y) == Some(k) then [y] else []) + Ties(s, keyOf, k)
  {
    assert ([y] + s)[1..] == s;
  }

  /** Putting a record that does not tie with `x` in front of both sides of
      `tail`'s tie decomposition keeps it. */
  lemma TiesConsStep<T>(y: T, tail: seq<T>, t: seq<T>, x: T, keyOf: T -> Option<string>, k: string)
    requires keyOf(y) != keyOf(x)
    requires Ties(tail, keyOf, k) == (if keyOf(x) == Some(k) then [x] else []) + Ties(t, keyOf, k)
    ensures Ties([y] + tail, keyOf, k) == (if keyOf(x) == Some(k) then [x] else []) + Ties([y] + t, keyOf, k)
  {
    var rest := Ties(t, keyOf, k);
    TiesCons(y, tail, keyOf, k);
    TiesCons(y, t, keyOf, k);
    if keyOf(y) == Some(k) {
      assert Ties(tail, keyOf, k) == [] + rest == rest;
    } else if keyOf(x) == Some(k) {
      assert Ties([y] + t, keyOf, k) == [] + rest == rest;
    } else {
      assert Ties([y] + t, keyOf, k) == rest;
    }
  }

  lemma {:induction false} InsertOrdered<T>(x: T, s: seq<T>, keyOf: T -> Option<string>)
    requires Keyed(x, keyOf) && AllKeyed(s, keyOf) && Ordered(s, keyOf)
    ensures Ordered(Insert(x, s, keyOf), keyOf)
  {
    var r := Insert(x, s, keyOf);
    if |s| == 0 {
    } else if RecordCompare(s[0], x, keyOf) < 0 {
      var tail := Insert(x, s[1..], keyOf);
      InsertOrdered(x, s[1..], keyOf);
      forall j | 0 <= j < |tail| ensures RecordCompare(s[0], tail[j], keyOf) <= 0 {
        assert tail[j] in multiset(tail);
        if tail[j] != x {
          assert tail[j] in multiset(s[1..]);
          var m :| 0 <= m < |s[1..]| && s[1..][m] == tail[j];
          assert s[m + 1] == tail[j];
        }
      }
      OrderedCons(s[0], tail, keyOf);
    } else {
      RecordCompareAntisymmetric(s[0], x, keyOf);
      forall j | 0 <= j < |s| ensures RecordCompare(x, s[j], keyOf) <= 0 {
        if j > 0 {
          RecordCompareTransitive(x, s[0], s[j], keyOf);
        }
      }
      OrderedCons(x, s, keyOf);
    }
  }

  // ---------------------------------------------------------------------------
  // The sort.

  /** Sorting keeps every tie group in input order. */
  lemma {:induction false} SortByStable<T>(s: seq<T>, keyOf: T -> Option<string>)
    ensures PreservesTies(SortBy(s, keyOf), s, keyOf)
  {
    if |s| > 0 {
      SortByStable(s[1..], keyOf);
      forall k ensures Ties(SortBy(s, keyOf), keyOf, k) == Ties(s, keyOf, k) {
        InsertTies(s[0], SortBy(s[1..], keyOf), keyOf, k);
      }
    }
  }

  /** When every record has a value at the keyOf, the sort orders them. */
  lemma {:induction false} SortByOrdered<T>(s: seq<T>, keyOf: T -> Option<string>)
    requires AllKeyed(s, keyOf)
    ensures Ordered(SortBy(s, keyOf), keyOf)
    ensures AllKeyed(SortBy(s, keyOf), keyOf)
  {
    var r := SortBy(s, keyOf);
    forall i | 0 <= i < |r| ensures Keyed(r[i], keyOf) {
      assert r[i] in multiset(s);
    }
    if |s| > 0 {
      SortByOrdered(s[1..], keyOf);
      InsertOrdered(s[0], SortBy(s[1..], keyOf), keyOf);
    }
  }

  /** The head of an ordered sequence sorts no later than any of its records. */
  lemma OrderedHeadFirst<T>(s: seq<T>, x: T, keyOf: T -> Option<string>)
    requires AllKeyed(s, keyOf) && Ordered(s, keyOf) && x in s
    ensures Compare(keyOf(s[0]).value, keyOf(x).value) <= 0
  {
    var j :| 0 <= j < |s| && s[j] == x;
    if j > 0 {
      assert RecordCompare(s[0], s[j], keyOf) <= 0;
    }
  }

  /** A record that ties with some record of an ordered sequence sorts no
      earlier than the sequence's head. */
  lemma TieSortsAfterHead<T>(s: seq<T>, t: seq<T>, keyOf: T -> Option<string>)
    requires AllKeyed(s, keyOf) && Ordered(s, keyOf) && |s| > 0 && |t| > 0 && Keyed(t[0], keyOf)
    requires PreservesTies(t, s, keyOf)
    ensures Compare(keyOf(s[0]).value, keyOf(t[0]).value) <= 0
  {
    var kb := keyOf(t[0]).value;
    assert t[0] in Ties(t, keyOf, kb);
    assert Ties(t, keyOf, kb) == Ties(s, keyOf, kb);
    TiesMember(s, keyOf, kb, t[0]);
    OrderedHeadFirst(s, t[0], keyOf);
  }

  /** Two ordered sequences with the same tie groups are equal. */
  lemma {:induction false} OrderedTiesDetermine<T>(s: seq<T>, t: seq<T>, keyOf: T -> Option<string>)
    requires AllKeyed(s, keyOf) && Ordered(s, keyOf)
    requires AllKeyed(t, keyOf) && Ordered(t, keyOf)
    requires PreservesTies(t, s, keyOf)
    ensures s == t
    decreases |s|
  {
    if |s| == 0 && |t| == 0 {
    } else if |s| == 0 || |t| == 0 {
      // one of them has a record whose tie group the other lacks
      if |s| > 0 { HeadLeadsTies(s, keyOf); } else { HeadLeadsTies(t, keyOf); }
    } else {
      HeadsAgree(s, t, keyOf);
      TailsTie(s, t, keyOf);
      TailKeeps(s, keyOf);
      TailKeeps(t, keyOf);
      OrderedTiesDetermine(s[1..], t[1..], keyOf);
      assert s == [s[0]] + s[1..] && t == [t[0]] + t[1..];
    }
  }

  lemma HeadLeadsTies<T>(s: seq<T>, keyOf: T -> Option<string>)
    requires |s| > 0 && Keyed(s[0], keyOf)
    ensures Ties(s, keyOf, keyOf(s[0]).value) == [s[0]] + Ties(s[1..], keyOf, keyOf(s[0]).value)
  {
  }

  /** Two ordered sequences with the same tie groups start with the same
      record: their heads sort no later than each other, so they tie, and
      each leads that tie group. */
  lemma HeadsAgree<T>(s: seq<T>, t: seq<T>, keyOf: T -> Option<string>)
    requires |s| > 0 && AllKeyed(s, keyOf) && Ordered(s, keyOf)
    requires |t| > 0 && AllKeyed(t, keyOf) && Ordered(t, keyOf)
    requires PreservesTies(t, s, keyOf)
    ensures s[0] == t[0]
  {
    var ka, kb := keyOf(s[0]).value, keyOf(t[0]).value;
    TieSortsAfterHead(s, t, keyOf);
    TieSortsAfterHead(t, s, keyOf);
    CompareAntisymmetric(ka, kb);
    assert Ties(s, keyOf, ka)[0] == s[0];
    assert Ties(t, keyOf, ka)[0] == t[0];
    assert Ties(s, keyOf, ka) == Ties(t, keyOf, ka);
  }

  lemma TailsTie<T>(s: seq<T>, t: seq<T>, keyOf: T -> Option<string>)
    requires |s| > 0 && |t| > 0 && s[0] == t[0]
    requires PreservesTies(t, s, keyOf)
    ensures PreservesTies(t[1..], s[1..], keyOf)
  {
    forall k ensures Ties(t[1..], keyOf, k) == Ties(s[1..], keyOf, k) {
      var h := if keyOf(s[0]) == Some(k) then [s[0]] else [];
      assert Ties(s, keyOf, k) == h + Ties(s[1..], keyOf, k);
      assert Ties(t, keyOf, k) == h + Ties(t[1..], keyOf, k);
      assert Ties(s, keyOf, k) == Ties(t, keyOf, k);
      assert Ties(s[1..], keyOf, k) == Ties(s, keyOf, k)[|h|..];
    }
  }

  lemma TailKeeps<T>(s: seq<T>, keyOf: T -> Option<string>)
    requires |s| > 0 && AllKeyed(s, keyOf) && Ordered(s, keyOf)
    ensures AllKeyed(s[1..], keyOf) && Ordered(s[1..], keyOf)
  {
    forall i, j | 0 <= i < j < |s[1..]| ensures RecordCompare(s[1..][i], s[1..][j], keyOf) <= 0 {
      assert s[1..][i] == s[i + 1] && s[1..][j] == s[j + 1];
    }
  }

  /** The sort's result is the only ordered arrangement of `s` that keeps tied
      records in input order; so any stable sort by this comparator, whatever
      its algorithm, agrees with `SortBy`. */
  lemma SortByUnique<T>(s: seq<T>, t: seq<T>, keyOf: T -> Option<string>)
    requires AllKeyed(s, keyOf)
    requires AllKeyed(t, keyOf) && Ordered(t, keyOf) && PreservesTies(t, s, keyOf)
    ensures t == SortBy(s, keyOf)
  {
    SortByOrdered(s, keyOf);
    SortByStable(s, keyOf);
    OrderedTiesDetermine(SortBy(s, keyOf), t, keyOf);
  }

  /** Sorting an already ordered sequence changes nothing. */
  lemma SortByOrderedInput<T>(s: seq<T>, keyOf: T -> Option<string>)
    requires AllKeyed(s, keyOf) && Ordered(s, keyOf)
    ensures SortBy(s, keyOf) == s
  {
    SortByUnique(s, s, keyOf);
  }
}
