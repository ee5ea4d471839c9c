/** What the two zone-to-colour table builders have in common: a list of zone
    boundaries cut into half-open bands, and a loop that builds one dictionary
    per band and merges it into the table with `dict.update`. */
module ZoneBands {
  import opened Errors

  /** x falls in band i, the half-open interval [zones[i], zones[i + 1]).
      A band whose upper boundary is not above its lower one holds nothing. */
  predicate InBand(zones: seq<int>, i: int, x: int) {
    0 <= i < |zones| - 1 && zones[i] <= x < zones[i + 1]
  }

  /** Band j is the last band holding x: a later band would overwrite it. */
  predicate LastBand(zones: seq<int>, j: int, x: int) {
    InBand(zones, j, x) && forall i :: j < i < |zones| - 1 ==> !InBand(zones, i, x)
  }

  predicate StrictlyIncreasing(zones: seq<int>) {
    forall i, j :: 0 <= i < j < |zones| ==> zones[i] < zones[j]
  }

  /** The integers Python's range(lo, hi) yields. */
  function Range(lo: int, hi: int): (r: set<int>)
    ensures forall x :: x in r <==> lo <= x < hi
    decreases hi - lo
  {
    if hi <= lo then {} else Range(lo, hi - 1) + {hi - 1}
  }

  /** The number of bands the builders loop over: len(zones[:-1]). */
  function BandCount(zones: seq<int>): nat {
    if |zones| == 0 then 0 else |zones| - 1
  }

  /** The table the builder loop leaves after merging the per-band results in
      order: the error of the first band that raises, or else the union of all
      band dictionaries in which a later band's entry replaces an earlier one. */
  function Merge<V>(bands: seq<Result<map<int, V>>>): (r: Result<map<int, V>>)
    ensures r.Ok? <==> forall i :: 0 <= i < |bands| ==> bands[i].Ok?
    ensures r.Err? ==> exists j :: 0 <= j < |bands| && bands[j] == Err(r.error)
  {
    if |bands| == 0 then Ok(map[])
    else
      match Merge(bands[..|bands| - 1])
      case Err(e) => Err(e)
      case Ok(table) =>
        match bands[|bands| - 1]
        case Err(e) => Err(e)
        case Ok(band) => Ok(table + band)
  }

  /** A failing merge reports the error of the first band that fails. */
  lemma {:induction false} MergeFirstError<V>(bands: seq<Result<map<int, V>>>, j: int)
    requires 0 <= j < |bands| && bands[j].Err?
    requires forall i :: 0 <= i < j ==> bands[i].Ok?
    ensures Merge(bands) == Err(bands[j].error)
  {
    var init := bands[..|bands| - 1];
    if j < |bands| - 1 {
      MergeFirstError(init, j);
    }
  }

  /** The merged table holds exactly the keys that some band holds. */
  lemma {:induction false} MergeKeys<V>(bands: seq<Result<map<int, V>>>, table: map<int, V>, x: int)
    requires Merge(bands) == Ok(table)
    ensures x in table <==> exists i :: 0 <= i < |bands| && bands[i].Ok? && x in bands[i].value
  {
    if |bands| > 0 {
      var init := bands[..|bands| - 1];
      assert forall i :: 0 <= i < |init| ==> init[i] == bands[i];
      MergeKeys(init, Merge(init).value, x);
    }
  }

  /** A key takes its value from the last band that holds it. */
  lemma {:induction false} MergeLastWins<V>(bands: seq<Result<map<int, V>>>, table: map<int, V>, j: int, x: int)
    requires Merge(bands) == Ok(table)
    requires 0 <= j < |bands| && bands[j].Ok? && x in bands[j].value
    requires forall i :: j < i < |bands| && bands[i].Ok? ==> x !in bands[i].value
    ensures x in table && table[x] == bands[j].value[x]
  {
    var init := bands[..|bands| - 1];
    if j < |bands| - 1 {
      assert forall i :: 0 <= i < |init| ==> init[i] == bands[i];
      MergeLastWins(init, Merge(init).value, j, x);
    }
  }

  /** range(lo, hi) yields hi - lo integers. */
  lemma {:induction false} RangeSize(lo: int, hi: int)
    requires lo <= hi
    ensures |Range(lo, hi)| == hi - lo
    decreases hi - lo
  {
    if lo < hi {
      RangeSize(lo, hi - 1);
    }
  }

  /** Every value between the first and the last boundary lies in some band,
      whatever the order of the boundaries in between. */
  lemma {:induction false} BandOf(zones: seq<int>, x: int) returns (i: int)
    requires |zones| >= 1 && zones[0] <= x < zones[|zones| - 1]
    ensures InBand(zones, i, x)
  {
    var n := |zones|;
    if zones[n - 2] <= x {
      i := n - 2;
    } else {
      i := BandOf(zones[..n - 1], x);
    }
  }

  /** With strictly increasing boundaries the bands are disjoint, so a value's
      band is also its last band. */
  lemma OnlyBand(zones: seq<int>, i: int, x: int)
    requires StrictlyIncreasing(zones) && InBand(zones, i, x)
    ensures LastBand(zones, i, x)
  {
  }

  /** A value that lies in some band has a last band holding it. */
  lemma LastBandExists(zones: seq<int>, x: int) returns (j: int)
    requires exists i :: InBand(zones, i, x)
    ensures LastBand(zones, j, x)
  {
    var i :| InBand(zones, i, x);
    j := |zones| - 2;
    while !InBand(zones, j, x)
      invariant i <= j <= |zones| - 2
      invariant forall k :: j < k < |zones| - 1 ==> !InBand(zones, k, x)
      decreases j
    {
      j := j - 1;
    }
  }
}
