/**
 * The counting dictionary behind both statistics charts: a JavaScript object
 * whose entry for a key is incremented once per occurrence (`counts[k] =
 * (counts[k] || 0) + 1`), read back with `Object.entries` in the order the keys
 * were first seen.
 */
module MonthCounts {

  /** The dictionary: its keys in insertion order, and the count of each. */
  datatype Counts = Counts(order: seq<string>, count: map<string, nat>)

  /** One `[key, count]` pair of `Object.entries`. */
  datatype Entry = Entry(key: string, count: nat)

  /** `counts[k] = (counts[k] || 0) + 1`: an existing key is incremented in
      place; a new key is appended with count 1. */
  function Bump(t: Counts, k: string): Counts
  {
    if k in t.count then Counts(t.order, t.count[k := t.count[k] + 1])
    else Counts(t.order + [k], t.count[k := 1])
  }

  /** The dictionary after counting `keys` from left to right: its keys are
      those of the input, each listed once. */
  function Tally(keys: seq<string>): (t: Counts)
    ensures Consistent(t)
    ensures forall k :: k in t.count <==> k in keys
    decreases |keys|
  {
    if keys == [] then Counts([], map[])
    else
      var init, last := keys[..|keys| - 1], keys[|keys| - 1];
      assert keys == init + [last];
      BumpKeeps(Tally(init), last);
      Bump(Tally(init), last)
  }

  /** A bump keeps the dictionary consistent and adds its key. */
  lemma BumpKeeps(t: Counts, k: string)
    requires Consistent(t)
    ensures Consistent(Bump(t, k))
    ensures forall x :: x in Bump(t, k).count <==> x in t.count || x == k
  {
    if k !in t.count {
      var o := t.order + [k];
      forall i, j | 0 <= i < j < |o| ensures o[i] != o[j] {
        if j == |t.order| {
          assert o[i] in t.order;
        }
      }
    }
  }

  /** How often `k` occurs in `keys`. */
  function Occurrences(keys: seq<string>, k: string): nat
    decreases |keys|
  {
    if keys == [] then 0
    else Occurrences(keys[..|keys| - 1], k) + (if keys[|keys| - 1] == k then 1 else 0)
  }

  predicate Distinct(s: seq<string>)
  {
    forall i, j :: 0 <= i < j < |s| ==> s[i] != s[j]
  }

  /** The dictionary is consistent: its keys are listed once each, and the
      listed keys are exactly those with a count. */
  ghost predicate Consistent(t: Counts)
  {
    Distinct(t.order) && (forall k :: k in t.order <==> k in t.count)
  }

  /** The sum of the counts of the listed keys. */
  function SumCounts(order: seq<string>, count: map<string, nat>): nat
    requires forall k :: k in order ==> k in count
    decreases |order|
  {
    if order == [] then 0 else count[order[0]] + SumCounts(order[1..], count)
  }

  /** The entries of a list of keys under a count map. */
  function EntryList(order: seq<string>, count: map<string, nat>): (es: seq<Entry>)
    requires forall k :: k in order ==> k in count
    ensures |es| == |order|
  {
    seq(|order|, i requires 0 <= i < |order| => Entry(order[i], count[order[i]]))
  }

  /** `Object.entries(counts)` */
  function Entries(t: Counts): (es: seq<Entry>)
    requires Consistent(t)
    ensures |es| == |t.order|
    ensures forall i :: 0 <= i < |es| ==> es[i] == Entry(t.order[i], t.count[t.order[i]])
  {
    EntryList(t.order, t.count)
  }

  /** Each counted key carries its number of occurrences, which is at least one. */
  lemma {:induction false} TallySpec(keys: seq<string>)
    ensures forall k :: k in Tally(keys).count ==> Tally(keys).count[k] == Occurrences(keys, k) >= 1
    decreases |keys|
  {
    if keys != [] {
      var init, last := keys[..|keys| - 1], keys[|keys| - 1];
      TallySpec(init);
      assert keys == init + [last];
      forall k ensures k in keys <==> k in init || k == last {
        assert k in keys <==> k in init + [last];
      }
      OccurrencesMissing(init);
    }
  }

  /** A key that does not occur has no occurrences. */
  lemma {:induction false} OccurrencesMissing(keys: seq<string>)
    ensures forall k :: k !in keys ==> Occurrences(keys, k) == 0
    decreases |keys|
  {
    if keys != [] {
      var init := keys[..|keys| - 1];
      OccurrencesMissing(init);
      assert forall k :: k in init ==> k in keys;
    }
  }

  /** Summing over a list with one more key at the end. */
  lemma {:induction false} SumAppend(order: seq<string>, count: map<string, nat>, k: string)
    requires forall x :: x in order ==> x in count
    requires k in count
    ensures SumCounts(order + [k], count) == SumCounts(order, count) + count[k]
    decreases |order|
  {
    if order != [] {
      assert (order + [k])[1..] == order[1..] + [k];
      SumAppend(order[1..], count, k);
    }
  }

  /** Changing the count of a key listed once changes the sum by the difference;
      changing an unlisted one does not change it. */
  lemma {:induction false} SumUpdate(order: seq<string>, count: map<string, nat>, k: string, v: nat)
    requires forall x :: x in order ==> x in count
    requires Distinct(order)
    ensures k !in order ==> SumCounts(order, count[k := v]) == SumCounts(order, count)
    ensures k in order ==> SumCounts(order, count[k := v]) + count[k] == SumCounts(order, count) + v
    decreases |order|
  {
    if order != [] {
      SumUpdate(order[1..], count, k, v);
      if k in order && order[0] != k {
        assert k in order[1..];
      }
      if order[0] == k {
        assert k !in order[1..];
      }
    }
  }

  /** One bump adds one to the total. */
  lemma BumpSum(t: Counts, k: string)
    requires Consistent(t)
    ensures forall x :: x in Bump(t, k).order ==> x in Bump(t, k).count
    ensures SumCounts(Bump(t, k).order, Bump(t, k).count) == SumCounts(t.order, t.count) + 1
  {
    if k in t.count {
      SumUpdate(t.order, t.count, k, t.count[k] + 1);
    } else {
      SumUpdate(t.order, t.count, k, 1);
      SumAppend(t.order, t.count[k := 1], k);
    }
  }

  /** The counts add up to the number of keys counted. */
  lemma {:induction false} TallySum(keys: seq<string>)
    ensures SumCounts(Tally(keys).order, Tally(keys).count) == |keys|
    decreases |keys|
  {
    if keys != [] {
      var init := keys[..|keys| - 1];
      TallySum(init);
      BumpSum(Tally(init), keys[|keys| - 1]);
    }
  }

  /** The sum of the counts of a list of entries. */
  function SumOf(es: seq<Entry>): nat
    decreases |es|
  {
    if es == [] then 0 else es[0].count + SumOf(es[1..])
  }

  /** The entries carry the counts, so they sum to the same total. */
  lemma {:induction false} EntriesSum(order: seq<string>, count: map<string, nat>)
    requires forall k :: k in order ==> k in count
    ensures SumOf(EntryList(order, count)) == SumCounts(order, count)
    decreases |order|
  {
    if order != [] {
      EntriesSum(order[1..], count);
      assert EntryList(order, count)[1..] == EntryList(order[1..], count);
    }
  }

  /** The counting loop: one pass over the keys, bumping each in turn. */
  method CountByKey(keys: seq<string>) returns (t: Counts)
    ensures t == Tally(keys)
    ensures Consistent(t) && SumCounts(t.order, t.count) == |keys|
  {
    t := Counts([], map[]);
    var i := 0;
    while i < |keys|
      invariant 0 <= i <= |keys|
      invariant t == Tally(keys[..i])
    {
      assert keys[..i + 1][..i] == keys[..i];
      var k := keys[i];
      if k in t.count {
        t := Counts(t.order, t.count[k := t.count[k] + 1]);
      } else {
        t := Counts(t.order + [k], t.count[k := 1]);
      }
      i := i + 1;
    }
    assert keys[..|keys|] == keys;
    TallySum(keys);
  }
}
