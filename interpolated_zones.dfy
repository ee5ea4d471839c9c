/** The interpolated zone-to-colour table of color_setting.py: every integer
    raw value of band i maps to a split of the LED strip between the band's
    low colour, palette[i], and its high colour, palette[i + 1], in proportion
    to how far the value lies across the band. */
module InterpolatedZones {
  import opened Errors
  import opened Colours
  import opened ZoneBands

  /** The eight zone colours, grey to white. */
  const Palette: seq<Colour> := [Grey, Blue, Green, Yellow, Orange, Red, Purple, White]

  /** `count` LEDs lit in `colour`. */
  datatype Segment = Segment(count: int, colour: Colour)

  /** The strip split into a low-colour part and a high-colour part. */
  datatype Split = Split(low: Segment, high: Segment)

  /** The number of LEDs given the high colour for value x of the band
      [lo, hi) on a strip of n LEDs: the floor of (x - lo) * n / (hi - lo),
      that is the largest k with k * (hi - lo) <= (x - lo) * n. */
  function HighCount(lo: int, hi: int, n: int, x: int): (k: int)
    requires lo < hi
    ensures k * (hi - lo) <= (x - lo) * n < (k + 1) * (hi - lo)
  {
    ((x - lo) * n) / (hi - lo)
  }

  /** The split for value x of band i, [lo, hi): the whole strip of n LEDs,
      shared between the band's low and high colours. */
  function Cell(lo: int, hi: int, n: int, i: nat, x: int): (r: Split)
    requires lo < hi && i + 1 < |Palette|
    ensures r.low.colour == Palette[i] && r.high.colour == Palette[i + 1]
    ensures r.low.count + r.high.count == n
  {
    var k := HighCount(lo, hi, n, x);
    Split(Segment(n - k, Palette[i]), Segment(k, Palette[i + 1]))
  }

  /** The dictionary comprehension for the band [lo, hi) with index i. */
  function BandSplits(lo: int, hi: int, n: int, i: nat): (m: map<int, Split>)
    requires lo < hi && i + 1 < |Palette|
    ensures forall x :: x in m <==> lo <= x < hi
    ensures forall x :: x in m ==> m[x] == Cell(lo, hi, n, i, x)
  {
    var values := Range(lo, hi);
    map x | x in values :: Cell(lo, hi, n, i, x)
  }

  /** The dictionary comprehension for band i, or the exception it raises: the
      step n / (zones[i + 1] - zones[i]) divides by zero for two equal
      boundaries, even though their band holds no value; a band holding some
      value reads palette[i + 1], which the last palette colour does not have. */
  function Band(zones: seq<int>, n: int, i: nat): (r: Result<map<int, Split>>)
    requires i < |zones| - 1
    ensures r.Ok? <==> zones[i + 1] < zones[i] || (zones[i] < zones[i + 1] && i + 1 < |Palette|)
    ensures r.Err? ==> r.error == if zones[i] == zones[i + 1] then ZeroDivisionError else IndexError
    ensures r.Ok? ==> forall x :: x in r.value <==> InBand(zones, i, x)
    ensures r.Ok? ==> forall x :: x in r.value ==> i + 1 < |Palette| && zones[i] < zones[i + 1]
    ensures r.Ok? ==> forall x :: x in r.value ==> r.value[x] == Cell(zones[i], zones[i + 1], n, i, x)
  {
    if zones[i + 1] == zones[i] then Err(ZeroDivisionError)
    else if zones[i + 1] < zones[i] then Ok(map[])
    else if i + 1 < |Palette| then Ok(BandSplits(zones[i], zones[i + 1], n, i))
    else Err(IndexError)
  }

  /** The per-band results, in the order the builder loop visits them. */
  function Bands(zones: seq<int>, n: int): seq<Result<map<int, Split>>> {
    seq(BandCount(zones), i requires 0 <= i < BandCount(zones) => Band(zones, n, i))
  }

  /** The table get_zone_colormapping returns for a strip of n LEDs, or the
      exception it raises. */
  function Table(zones: seq<int>, n: int): (r: Result<map<int, Split>>)
    ensures r.Err? ==> r.error == ZeroDivisionError || r.error == IndexError
  {
    Merge(Bands(zones, n))
  }

  /** get_zone_colormapping: loop over the bands, merging each band's
      dictionary into the table. */
  method BuildTable(zones: seq<int>, n: int) returns (r: Result<map<int, Split>>)
    ensures r == Table(zones, n)
  {
    ghost var bands := Bands(zones, n);
    var table: map<int, Split> := map[];
    var i := 0;
    while i < BandCount(zones)
      invariant 0 <= i <= BandCount(zones)
      invariant Merge(bands[..i]) == Ok(table)
    {
      var band := Band(zones, n, i);
      if band.Err? {
        assert forall j :: 0 <= j < i ==> bands[..i][j] == bands[j];
        MergeFirstError(bands, i);
        return Err(band.error);
      }
      table := table + band.value;
      assert bands[..i + 1][..i] == bands[..i];
      i := i + 1;
    }
    assert bands[..i] == bands;
    return Ok(table);
  }

  /** The builder raises exactly when two adjacent boundaries are equal or a
      band from the eighth on holds a value; a ZeroDivisionError comes from
      equal boundaries and an IndexError from a band without a high colour. */
  lemma TableFails(zones: seq<int>, n: int)
    ensures Table(zones, n).Err? <==>
      exists i :: 0 <= i < |zones| - 1 &&
        (zones[i] == zones[i + 1] || (|Palette| - 1 <= i && zones[i] < zones[i + 1]))
    ensures Table(zones, n) == Err(ZeroDivisionError) ==>
      exists i :: 0 <= i < |zones| - 1 && zones[i] == zones[i + 1]
    ensures Table(zones, n) == Err(IndexError) ==>
      exists i :: |Palette| - 1 <= i < |zones| - 1 && zones[i] < zones[i + 1]
  {
    var bands := Bands(zones, n);
    assert forall i :: 0 <= i < |bands| ==> bands[i] == Band(zones, n, i);
    if Table(zones, n).Err? {
      var j :| 0 <= j < |bands| && bands[j] == Err(Table(zones, n).error);
      assert zones[j] == zones[j + 1] || (|Palette| - 1 <= j && zones[j] < zones[j + 1]);
    } else {
      forall i | 0 <= i < |zones| - 1
        ensures zones[i] != zones[i + 1] && (zones[i] < zones[i + 1] ==> i < |Palette| - 1)
      {
        assert bands[i].Ok?;
      }
    }
  }

  /** Two equal adjacent boundaries make the builder fail; when no earlier band
      has failed first, what it raises is the ZeroDivisionError of that band. */
  lemma EqualBoundaries(zones: seq<int>, n: int, i: nat)
    requires i < |zones| - 1 && zones[i] == zones[i + 1]
    ensures Table(zones, n).Err?
    ensures (forall j :: 0 <= j < i ==> Band(zones, n, j).Ok?) ==>
      Table(zones, n) == Err(ZeroDivisionError)
  {
    TableFails(zones, n);
    var bands := Bands(zones, n);
    assert forall j :: 0 <= j < |bands| ==> bands[j] == Band(zones, n, j);
    if forall j :: 0 <= j < i ==> Band(zones, n, j).Ok? {
      MergeFirstError(bands, i);
    }
  }

  /** Whatever the boundaries, a table that is built holds exactly the values
      of the non-empty bands, and a value takes the split of the last band
      holding it: an inverted band adds nothing, and a later band that overlaps
      an earlier one overwrites it. */
  lemma TableShape(zones: seq<int>, n: int, x: int)
    requires Table(zones, n).Ok?
    ensures x in Table(zones, n).value <==> exists i :: InBand(zones, i, x)
    ensures forall j :: LastBand(zones, j, x) ==>
      j + 1 < |Palette| && x in Table(zones, n).value &&
      Table(zones, n).value[x] == Cell(zones[j], zones[j + 1], n, j, x)
  {
    var bands := Bands(zones, n);
    var table := Table(zones, n).value;
    assert forall i :: 0 <= i < |bands| ==> bands[i] == Band(zones, n, i);
    MergeKeys(bands, table, x);
    if x in table {
      var i :| 0 <= i < |bands| && bands[i].Ok? && x in bands[i].value;
      assert InBand(zones, i, x);
    }
    if exists i :: InBand(zones, i, x) {
      var i :| InBand(zones, i, x);
      assert bands[i].Ok? && x in bands[i].value;
    }
    forall j | LastBand(zones, j, x)
      ensures j + 1 < |Palette| && x in table && table[x] == Cell(zones[j], zones[j + 1], n, j, x)
    {
      MergeLastWins(bands, table, j, x);
    }
  }

  /** Whatever the boundaries, every entry of a table that is built lights
      the whole strip: its low and high counts add up to n. */
  lemma TableCounts(zones: seq<int>, n: int, x: int)
    requires Table(zones, n).Ok? && x in Table(zones, n).value
    ensures Table(zones, n).value[x].low.count + Table(zones, n).value[x].high.count == n
  {
    TableShape(zones, n, x);
    var j := LastBandExists(zones, x);
  }

  /** For strictly increasing boundaries, at most eight of them, the table
      covers exactly the values from the first boundary up to but excluding the
      last, so it has last - first entries. */
  lemma IncreasingTable(zones: seq<int>, n: int)
    requires 1 <= |zones| <= |Palette| && StrictlyIncreasing(zones)
    ensures Table(zones, n).Ok?
    ensures Table(zones, n).value.Keys == Range(zones[0], zones[|zones| - 1])
    ensures |Table(zones, n).value| == zones[|zones| - 1] - zones[0]
  {
    TableFails(zones, n);
    var table := Table(zones, n).value;
    var last := zones[|zones| - 1];
    forall x
      ensures x in table <==> zones[0] <= x < last
    {
      TableShape(zones, n, x);
      if zones[0] <= x < last {
        var i := BandOf(zones, x);
      }
    }
    assert table.Keys == Range(zones[0], last);
    RangeSize(zones[0], last);
  }

  /** For strictly increasing boundaries, at most eight of them, each value of
      band i carries that band's split. */
  lemma IncreasingTableAt(zones: seq<int>, n: int, i: int, x: int)
    requires 1 <= |zones| <= |Palette| && StrictlyIncreasing(zones) && InBand(zones, i, x)
    ensures Table(zones, n).Ok? && x in Table(zones, n).value
    ensures Table(zones, n).value[x] == Cell(zones[i], zones[i + 1], n, i, x)
  {
    TableFails(zones, n);
    OnlyBand(zones, i, x);
    TableShape(zones, n, x);
  }

  /** Strictly increasing boundaries beyond the eighth leave the eighth band
      without a high colour. */
  lemma TooManyBoundaries(zones: seq<int>, n: int)
    requires StrictlyIncreasing(zones) && |zones| > |Palette|
    ensures Table(zones, n) == Err(IndexError)
  {
    TableFails(zones, n);
    var bands := Bands(zones, n);
    assert forall j :: 0 <= j < |bands| ==> bands[j] == Band(zones, n, j);
    MergeFirstError(bands, |Palette| - 1);
  }

  /** Multiplying by a positive factor keeps the order of two integers. */
  lemma MulMonotone(a: int, b: int, c: int)
    requires a <= b && 0 < c
    ensures a * c <= b * c
    ensures a < b ==> a * c < b * c
  {
  }

  /** Within a band the high count lies between 0 and n, and stays below n
      when the strip has LEDs: the last value of a band still shows at least
      one LED of the low colour. */
  lemma HighCountBounds(lo: int, hi: int, n: int, x: int)
    requires lo <= x < hi && 0 <= n
    ensures 0 <= HighCount(lo, hi, n, x) <= n
    ensures 0 < n ==> HighCount(lo, hi, n, x) < n
  {
    var d, k := hi - lo, HighCount(lo, hi, n, x);
    var a := (x - lo) * n;
    assert k * d <= a < (k + 1) * d;
    if n == 0 {
      assert a == 0;
    } else {
      MulMonotone(0, x - lo, n);
      MulMonotone(x - lo, d, n);
      assert 0 <= a < d * n;
      if k < 0 {
        MulMonotone(k + 1, 0, d);
      }
      if k >= n {
        MulMonotone(n, k, d);
      }
    }
  }

  /** The high count never decreases as the value moves up a band. */
  lemma HighCountMonotone(lo: int, hi: int, n: int, x: int, y: int)
    requires lo <= x <= y && lo < hi && 0 <= n
    ensures HighCount(lo, hi, n, x) <= HighCount(lo, hi, n, y)
  {
    var d := hi - lo;
    var kx, ky := HighCount(lo, hi, n, x), HighCount(lo, hi, n, y);
    if n > 0 {
      MulMonotone(x - lo, y - lo, n);
    }
    if kx > ky {
      MulMonotone(ky + 1, kx, d);
    }
  }

  /** The split of value x in band [lo, hi) with index i: the high count is
      the floor of (x - lo) * n / (hi - lo), zero at the band's lower edge, and
      never the whole strip, so the low part keeps at least one LED. */
  lemma CellSplit(lo: int, hi: int, n: int, i: nat, x: int)
    requires lo <= x < hi && i + 1 < |Palette|
    ensures Cell(lo, hi, n, i, x).high.count * (hi - lo) <= (x - lo) * n
      < (Cell(lo, hi, n, i, x).high.count + 1) * (hi - lo)
    ensures x == lo ==> Cell(lo, hi, n, i, x) == Split(Segment(n, Palette[i]), Segment(0, Palette[i + 1]))
    ensures 0 <= n ==> 0 <= Cell(lo, hi, n, i, x).high.count <= n
    ensures 0 < n ==> 1 <= Cell(lo, hi, n, i, x).low.count
  {
    if 0 <= n {
      HighCountBounds(lo, hi, n, x);
    }
  }

  /** Across one band, the high-colour part only grows and the low-colour part
      only shrinks as the value rises. */
  lemma CellMonotone(lo: int, hi: int, n: int, i: nat, x: int, y: int)
    requires lo <= x <= y < hi && i + 1 < |Palette| && 0 <= n
    ensures Cell(lo, hi, n, i, x).high.count <= Cell(lo, hi, n, i, y).high.count
    ensures Cell(lo, hi, n, i, x).low.count >= Cell(lo, hi, n, i, y).low.count
  {
    HighCountMonotone(lo, hi, n, x, y);
  }

  /** For strictly increasing boundaries starting at 0, at most eight of them:
      the table has max(zones) entries, its keys run from 0 to max(zones) - 1,
      and value 0 lights the whole strip grey. */
  lemma ZeroBasedTable(zones: seq<int>, n: int)
    requires 2 <= |zones| <= |Palette| && StrictlyIncreasing(zones) && zones[0] == 0
    ensures Table(zones, n).Ok?
    ensures |Table(zones, n).value| == zones[|zones| - 1]
    ensures 0 in Table(zones, n).value && zones[|zones| - 1] - 1 in Table(zones, n).value
    ensures forall x :: x in Table(zones, n).value ==> 0 <= x < zones[|zones| - 1]
    ensures Table(zones, n).value[0] == Split(Segment(n, Grey), Segment(0, Blue))
  {
    IncreasingTable(zones, n);
    IncreasingTableAt(zones, n, 0, 0);
    CellSplit(zones[0], zones[1], n, 0, 0);
  }

  /** The heart-rate boundaries of the repository's unit tests with a 100-LED
      strip: 255 entries, keys from 0 up to 254, and value 0 showing 100 grey
      LEDs and 0 blue ones. */
  lemma UnitTestHeartRateTable(zones: seq<int>)
    requires zones == [0, 141, 150, 158, 167, 172, 178, 255]
    ensures Table(zones, 100).Ok? && |Table(zones, 100).value| == 255
    ensures 0 in Table(zones, 100).value && 254 in Table(zones, 100).value
    ensures forall x :: x in Table(zones, 100).value ==> 0 <= x <= 254
    ensures Table(zones, 100).value[0] == Split(Segment(100, Grey), Segment(0, Blue))
  {
    assert StrictlyIncreasing(zones);
    ZeroBasedTable(zones, 100);
  }

  /** The power boundaries of the repository's unit tests with a 100-LED
      strip: 3000 entries, keys from 0 up to 2999, and value 0 showing 100 grey
      LEDs and 0 blue ones. */
  lemma UnitTestPowerTable(zones: seq<int>)
    requires zones == [0, 155, 214, 247, 267, 298, 340, 3000]
    ensures Table(zones, 100).Ok? && |Table(zones, 100).value| == 3000
    ensures 0 in Table(zones, 100).value && 2999 in Table(zones, 100).value
    ensures forall x :: x in Table(zones, 100).value ==> 0 <= x <= 2999
    ensures Table(zones, 100).value[0] == Split(Segment(100, Grey), Segment(0, Blue))
  {
    assert StrictlyIncreasing(zones);
    ZeroBasedTable(zones, 100);
  }
}
