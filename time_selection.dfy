/** Choosing the time directory whose time value is nearest a requested time. */
module TimeSelection {
  import opened Geometry

  /** One entry of a case's list of time directories: its name and its time value. */
  datatype Instant = Instant(name: string, value: real)

  /** OpenFOAM's `GREAT` for double precision: the initial "nearest distance". */
  const Great: real := 1000000000000000.0

  /** Entries named "constant" hold no time data and are never selected. */
  predicate IsTimeDirectory(inst: Instant)
  {
    inst.name != "constant"
  }

  function Distance(inst: Instant, t: real): real
  {
    Abs(inst.value - t)
  }

  /**
   * `i` is the index the search must return: a time directory closer than
   * `Great`, no farther from `t` than any other time directory, and strictly
   * closer than every time directory before it (the first of several equally
   * near ones).
   */
  predicate IsNearest(times: seq<Instant>, t: real, i: int)
  {
    && 0 <= i < |times|
    && IsTimeDirectory(times[i])
    && Distance(times[i], t) < Great
    && (forall j | 0 <= j < |times| && IsTimeDirectory(times[j]) :: Distance(times[i], t) <= Distance(times[j], t))
    && (forall j | 0 <= j < i && IsTimeDirectory(times[j]) :: Distance(times[i], t) < Distance(times[j], t))
  }

  /**
   * Index of the time directory nearest `t`, or -1 when no time directory lies
   * closer than `Great` (in particular when there is none).
   */
  method GetTimeIndex(times: seq<Instant>, t: real) returns (nearestIndex: int)
    ensures -1 <= nearestIndex < |times|
    ensures nearestIndex >= 0 ==> IsNearest(times, t, nearestIndex)
    ensures nearestIndex == -1 <==>
              forall j | 0 <= j < |times| && IsTimeDirectory(times[j]) :: Distance(times[j], t) >= Great
  {
    nearestIndex := -1;
    var nearestDiff := Great;
    for timeIndex := 0 to |times|
      invariant -1 <= nearestIndex < timeIndex
      invariant nearestIndex == -1 ==> nearestDiff == Great
      invariant nearestIndex >= 0 ==>
                  && IsTimeDirectory(times[nearestIndex])
                  && nearestDiff == Distance(times[nearestIndex], t)
                  && nearestDiff < Great
      invariant forall j | 0 <= j < timeIndex && IsTimeDirectory(times[j]) :: nearestDiff <= Distance(times[j], t)
      invariant forall j | 0 <= j < nearestIndex && IsTimeDirectory(times[j]) :: nearestDiff < Distance(times[j], t)
    {
      if times[timeIndex].name == "constant" {
        continue;
      }
      var diff := Abs(times[timeIndex].value - t);
      if diff < nearestDiff {
        nearestDiff := diff;
        nearestIndex := timeIndex;
      }
    }
  }

  /** The description of the nearest index determines it uniquely. */
  lemma NearestIsUnique(times: seq<Instant>, t: real, i: int, k: int)
    requires IsNearest(times, t, i) && IsNearest(times, t, k)
    ensures i == k
  {
  }
}
