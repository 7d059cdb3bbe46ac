/**
 * The procurement statistics widget: three row counts read from the backend,
 * where a missing count shows as zero, and the number of procurements per
 * month over the recent window, in the order the months were first seen.
 */
module ProcurementStats {
  import opened Base
  import opened MonthCounts

  datatype StatsData = StatsData(totalProcurements: nat, activeTenders: nat, completedTenders: nat,
                                 monthlyStats: seq<Entry>)

  /** `count || 0` */
  function CountOrZero(c: Option<nat>): (n: nat)
    ensures c.None? ==> n == 0
    ensures c.Some? ==> n == c.value
  {
    if c.Some? then c.value else 0
  }

  /** `processMonthlyData`: `createdAt[i]` is a procurement's creation time and
      `monthName` the short month name it is shown under. */
  method ProcessMonthlyData(createdAt: seq<string>, monthName: string -> string) returns (stats: seq<Entry>)
    ensures stats == Entries(Tally(seq(|createdAt|, i requires 0 <= i < |createdAt| => monthName(createdAt[i]))))
  {
    var keys := seq(|createdAt|, i requires 0 <= i < |createdAt| => monthName(createdAt[i]));
    var counts := CountByKey(keys);
    stats := Entries(counts);
  }

  /** The monthly series: distinct months, each with its number of
      procurements (at least one), summing to the number of procurements. */
  lemma MonthlySpec(keys: seq<string>)
    ensures var es := Entries(Tally(keys));
      && (forall i, j :: 0 <= i < j < |es| ==> es[i].key != es[j].key)
      && (forall i :: 0 <= i < |es| ==> es[i].key in keys && es[i].count == Occurrences(keys, es[i].key) >= 1)
      && SumOf(es) == |keys|
  {
    var t := Tally(keys);
    TallySpec(keys);
    TallySum(keys);
    EntriesSum(t.order, t.count);
  }

  class Widget {
    var stats: StatsData

    constructor ()
      ensures stats == StatsData(0, 0, 0, [])
    {
      stats := StatsData(0, 0, 0, []);
    }

    /** `fetchStats`: null counts become zero and a missing monthly read gives
        an empty series. */
    method FetchStats(total: Option<nat>, active: Option<nat>, completed: Option<nat>,
                      monthly: Option<seq<string>>, monthName: string -> string)
      modifies this
      ensures stats.totalProcurements == CountOrZero(total)
      ensures stats.activeTenders == CountOrZero(active)
      ensures stats.completedTenders == CountOrZero(completed)
      ensures monthly.None? ==> stats.monthlyStats == []
      ensures monthly.Some? ==>
        stats.monthlyStats == Entries(Tally(seq(|monthly.value|, i requires 0 <= i < |monthly.value| => monthName(monthly.value[i]))))
    {
      var monthlyStats: seq<Entry> := [];
      if monthly.Some? {
        monthlyStats := ProcessMonthlyData(monthly.value, monthName);
      }
      stats := StatsData(CountOrZero(total), CountOrZero(active), CountOrZero(completed), monthlyStats);
    }
  }
}
