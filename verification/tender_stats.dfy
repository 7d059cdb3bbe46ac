/**
 * The tender chart: tenders are counted per month (the month key of a
 * creation time is supplied by the caller, standing for date-fns' `yyyy-MM`
 * formatting) and the series is sorted by month, ascending.
 */
module TenderStats {
  import opened MonthCounts

  /** Code-point order on strings, standing for `localeCompare(...) <= 0` on
      the `yyyy-MM` keys. */
  predicate LexLe(a: string, b: string)
    decreases |a|
  {
    a == [] || (b != [] && (a[0] < b[0] || (a[0] == b[0] && LexLe(a[1..], b[1..]))))
  }

  lemma {:induction false} LexTotal(a: string, b: string)
    ensures LexLe(a, b) || LexLe(b, a)
    decreases |a|
  {
    if a != [] && b != [] && a[0] == b[0] {
      LexTotal(a[1..], b[1..]);
    }
  }

  lemma {:induction false} LexAntisymmetric(a: string, b: string)
    requires LexLe(a, b) && LexLe(b, a)
    ensures a == b
    decreases |a|
  {
    if a != [] {
      LexAntisymmetric(a[1..], b[1..]);
      assert a == [a[0]] + a[1..] && b == [b[0]] + b[1..];
    }
  }

  lemma {:induction false} LexTransitive(a: string, b: string, c: string)
    requires LexLe(a, b) && LexLe(b, c)
    ensures LexLe(a, c)
    decreases |a|
  {
    if a != [] && a[0] == b[0] && b[0] == c[0] {
      LexTransitive(a[1..], b[1..], c[1..]);
    }
  }

  /** Ascending by key. */
  ghost predicate SortedByKey(es: seq<Entry>)
  {
    forall i, j :: 0 <= i < j < |es| ==> LexLe(es[i].key, es[j].key)
  }

  /** `e` inserted into an ascending list before the first larger key. */
  function InsertByKey(e: Entry, es: seq<Entry>): (r: seq<Entry>)
    ensures multiset(r) == multiset(es) + multiset{e}
    ensures |r| == |es| + 1
    decreases |es|
  {
    if es == [] || LexLe(e.key, es[0].key) then [e] + es
    else
      assert es == [es[0]] + es[1..];
      [es[0]] + InsertByKey(e, es[1..])
  }

  /** The sort the series goes through. */
  function SortByKey(es: seq<Entry>): (r: seq<Entry>)
    ensures multiset(r) == multiset(es)
    decreases |es|
  {
    if es == [] then []
    else
      assert es == [es[0]] + es[1..];
      InsertByKey(es[0], SortByKey(es[1..]))
  }

  /** Insertion adds `e` and keeps every entry already there. */
  lemma {:induction false} InsertMembers(e: Entry, es: seq<Entry>)
    ensures forall x :: x in InsertByKey(e, es) <==> x == e || x in es
    decreases |es|
  {
    if es != [] && !LexLe(e.key, es[0].key) {
      InsertMembers(e, es[1..]);
      assert es == [es[0]] + es[1..];
    }
  }

  lemma {:induction false} InsertSorted(e: Entry, es: seq<Entry>)
    requires SortedByKey(es)
    ensures SortedByKey(InsertByKey(e, es))
    decreases |es|
  {
    if es != [] && !LexLe(e.key, es[0].key) {
      var rest := InsertByKey(e, es[1..]);
      InsertSorted(e, es[1..]);
      InsertMembers(e, es[1..]);
      LexTotal(e.key, es[0].key);
      var r := [es[0]] + rest;
      assert r == InsertByKey(e, es);
      forall i, j | 0 <= i < j < |r| ensures LexLe(r[i].key, r[j].key) {
        assert r[j] == rest[j - 1];
        if i == 0 && r[j] != e {
          assert r[j] in es[1..];
          var k :| 0 <= k < |es[1..]| && es[1..][k] == r[j];
          assert es[k + 1] == r[j];
        } else if i > 0 {
          assert r[i] == rest[i - 1];
        }
      }
    } else if es != [] {
      ConsSorted(e, es);
    }
  }

  /** An entry no larger than the head of an ascending list can go in front. */
  lemma ConsSorted(e: Entry, es: seq<Entry>)
    requires SortedByKey(es) && es != [] && LexLe(e.key, es[0].key)
    ensures SortedByKey([e] + es)
  {
    var r := [e] + es;
    forall i, j | 0 <= i < j < |r| ensures LexLe(r[i].key, r[j].key) {
      if i == 0 {
        assert r[j] == es[j - 1];
        if j > 1 {
          LexTransitive(e.key, es[0].key, es[j - 1].key);
        }
      } else {
        assert r[i] == es[i - 1] && r[j] == es[j - 1];
      }
    }
  }

  lemma {:induction false} SortSorted(es: seq<Entry>)
    ensures SortedByKey(SortByKey(es))
    decreases |es|
  {
    if es != [] {
      SortSorted(es[1..]);
      InsertSorted(es[0], SortByKey(es[1..]));
    }
  }

  /** Sorting keeps every entry and no other, so it keeps the total. */
  lemma {:induction false} SortSum(es: seq<Entry>)
    ensures SumOf(SortByKey(es)) == SumOf(es)
    decreases |es|
  {
    if es != [] {
      SortSum(es[1..]);
      InsertSum(es[0], SortByKey(es[1..]));
    }
  }

  lemma {:induction false} InsertSum(e: Entry, es: seq<Entry>)
    ensures SumOf(InsertByKey(e, es)) == e.count + SumOf(es)
    decreases |es|
  {
    if es != [] && !LexLe(e.key, es[0].key) {
      InsertSum(e, es[1..]);
    }
  }

  /** The month of each timestamp, in order. */
  function MonthKeys(createdAt: seq<string>, monthKey: string -> string): (keys: seq<string>)
    ensures |keys| == |createdAt|
    ensures forall i :: 0 <= i < |createdAt| ==> keys[i] == monthKey(createdAt[i])
  {
    seq(|createdAt|, i requires 0 <= i < |createdAt| => monthKey(createdAt[i]))
  }

  /** `chartData`: `createdAt[i]` is the i-th tender's creation time and
      `monthKey` the month it falls in. */
  method ChartData(createdAt: seq<string>, monthKey: string -> string) returns (points: seq<Entry>)
    ensures points == SortByKey(Entries(Tally(MonthKeys(createdAt, monthKey))))
  {
    var keys := MonthKeys(createdAt, monthKey);
    var counts := CountByKey(keys);
    points := SortByKey(Entries(counts));
  }

  /** Sorting keeps exactly the entries it was given. */
  lemma SortMembers(es: seq<Entry>)
    ensures forall e :: e in SortByKey(es) <==> e in es
  {
    var sorted := SortByKey(es);
    forall e ensures e in sorted <==> e in es {
      assert e in sorted <==> e in multiset(sorted);
      assert e in es <==> e in multiset(es);
    }
  }

  /** Every counted month has an entry. */
  lemma EntriesCoverKeys(keys: seq<string>)
    ensures forall k :: k in keys ==> exists e :: e in Entries(Tally(keys)) && e.key == k
  {
    var t := Tally(keys);
    var es := Entries(t);
    forall k | k in keys ensures exists e :: e in es && e.key == k {
      var i :| 0 <= i < |t.order| && t.order[i] == k;
      assert es[i] in es && es[i].key == k;
    }
  }

  /** The series: one point per month that occurs, carrying the number of
      tenders of that month (at least one), ascending by month, with counts
      summing to the number of tenders; no tenders give an empty series. */
  lemma ChartSpec(keys: seq<string>)
    ensures SortedByKey(SortByKey(Entries(Tally(keys))))
    ensures SumOf(SortByKey(Entries(Tally(keys)))) == |keys|
    ensures forall e :: e in SortByKey(Entries(Tally(keys))) ==> e.key in keys && e.count == Occurrences(keys, e.key) >= 1
    ensures forall k :: k in keys ==> exists e :: e in SortByKey(Entries(Tally(keys))) && e.key == k
    ensures keys == [] ==> SortByKey(Entries(Tally(keys))) == []
  {
    var t := Tally(keys);
    var es := Entries(t);
    TallySpec(keys);
    TallySum(keys);
    EntriesSum(t.order, t.count);
    SortSorted(es);
    SortSum(es);
    SortMembers(es);
    EntriesCoverKeys(keys);
  }
}
