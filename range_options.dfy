/** The dashboard's date ranges of `src/lib/rangeOptions.ts`. Dates are day numbers:
    `startOfDay(subDays(today, n))` is the day `today - n`. */
module RangeOptions {
  import opened Common

  datatype RangeOption = RangeOption(labelText: string, startDate: Option<int>, endDate: Option<int>)

  /** `RANGE_OPTIONS`, evaluated on the day `today`. */
  function RangeTable(today: int): map<string, RangeOption>
  {
    map[
      "last_7_days" := RangeOption("Last 7 days", Some(today - 6), None),
      "last_30_days" := RangeOption("Last 30 days", Some(today - 29), None),
      "last_90_days" := RangeOption("Last 90 days", Some(today - 89), None),
      "last_365_days" := RangeOption("Last 365 days", Some(today - 364), None),
      "all_time" := RangeOption("All Time", None, None)
    ]
  }

  /** `getRangeOption(range)`: nothing for a missing range or an unknown key. */
  function GetRangeOption(range: Option<string>, today: int): Option<RangeOption>
  {
    if range.None? then None
    else if range.value in RangeTable(today) then Some(RangeTable(today)[range.value])
    else None
  }

  /** A missing range gives nothing, each of the five keys gives its own entry, and
      any other key gives nothing. */
  lemma LookupByKey(today: int, other: string)
    requires other !in {"last_7_days", "last_30_days", "last_90_days", "last_365_days", "all_time"}
    ensures GetRangeOption(None, today).None?
    ensures GetRangeOption(Some("last_7_days"), today) == Some(RangeOption("Last 7 days", Some(today - 6), None))
    ensures GetRangeOption(Some("last_30_days"), today) == Some(RangeOption("Last 30 days", Some(today - 29), None))
    ensures GetRangeOption(Some("last_90_days"), today) == Some(RangeOption("Last 90 days", Some(today - 89), None))
    ensures GetRangeOption(Some("last_365_days"), today) == Some(RangeOption("Last 365 days", Some(today - 364), None))
    ensures GetRangeOption(Some("all_time"), today) == Some(RangeOption("All Time", None, None))
    ensures GetRangeOption(Some(other), today).None?
  {
  }

  /** The days from `start` to `today`, both included. */
  function DaysCovered(start: int, today: int): int
  {
    today - start + 1
  }

  /** Each `last_N_days` window starts N-1 days back, so it covers N days including today. */
  lemma LastNDaysCoverNDays(today: int)
    ensures var t := RangeTable(today);
      && DaysCovered(t["last_7_days"].startDate.value, today) == 7
      && DaysCovered(t["last_30_days"].startDate.value, today) == 30
      && DaysCovered(t["last_90_days"].startDate.value, today) == 90
      && DaysCovered(t["last_365_days"].startDate.value, today) == 365
  {
  }

  /** The table has exactly the five keys; every entry is open-ended and only
      `all_time` has no start. */
  lemma TableShape(today: int)
    ensures RangeTable(today).Keys == {"last_7_days", "last_30_days", "last_90_days", "last_365_days", "all_time"}
    ensures forall k :: k in RangeTable(today) ==> RangeTable(today)[k].endDate.None?
    ensures forall k :: k in RangeTable(today) ==> (RangeTable(today)[k].startDate.None? <==> k == "all_time")
  {
  }

  /** Longer windows start earlier. */
  lemma StartDatesOrdered(today: int)
    ensures var t := RangeTable(today);
      && t["last_365_days"].startDate.value <= t["last_90_days"].startDate.value
      && t["last_90_days"].startDate.value <= t["last_30_days"].startDate.value
      && t["last_30_days"].startDate.value <= t["last_7_days"].startDate.value
      && t["last_7_days"].startDate.value <= today
  {
  }
}
