/** The discrete zone-to-colour table: every integer raw value of band i maps to
    the i-th colour of a fixed seven-colour palette. The same builder appears
    twice in the repository, in led_control.py and in
    led_control_testing_power_values.py; this one model covers both. */
module DiscreteZones {
  import opened Errors
  import opened Colours
  import opened ZoneBands

  /** The seven zone colours, grey to purple. */
  const Palette: seq<Colour> := [Grey, Blue, Green, Yellow, Orange, Red, Purple]

  /** The dictionary comprehension for band i, or the IndexError that reading
      the band's colour raises. The colour is read once per value, so a band
      that holds no value never reads it and never raises. */
  function Band(zones: seq<int>, i: nat): (r: Result<map<int, Colour>>)
    requires i < |zones| - 1
    ensures r.Ok? <==> zones[i + 1] <= zones[i] || i < |Palette|
    ensures r.Err? ==> r.error == IndexError
    ensures r.Ok? ==> forall x :: x in r.value <==> InBand(zones, i, x)
    ensures r.Ok? ==> forall x :: x in r.value ==> i < |Palette| && r.value[x] == Palette[i]
  {
    if zones[i + 1] <= zones[i] then Ok(map[])
    else if i < |Palette| then
      var values := Range(zones[i], zones[i + 1]);
      Ok(map x | x in values :: Palette[i])
    else Err(IndexError)
  }

  /** The per-band results, in the order the builder loop visits them. */
  function Bands(zones: seq<int>): seq<Result<map<int, Colour>>> {
    seq(BandCount(zones), i requires 0 <= i < BandCount(zones) => Band(zones, i))
  }

  /** The table get_zone_colormapping returns, or the exception it raises:
      only the palette lookup can raise, so that is an IndexError. */
  function Table(zones: seq<int>): (r: Result<map<int, Colour>>)
    ensures r.Err? ==> r.error == IndexError
  {
    Merge(Bands(zones))
  }

  /** get_zone_colormapping: loop over the bands, merging each band's
      dictionary into the table. */
  method BuildTable(zones: seq<int>) returns (r: Result<map<int, Colour>>)
    ensures r == Table(zones)
  {
    ghost var bands := Bands(zones);
    var table: map<int, Colour> := map[];
    var i := 0;
    while i < BandCount(zones)
      invariant 0 <= i <= BandCount(zones)
      invariant Merge(bands[..i]) == Ok(table)
    {
      var band := Band(zones, i);
      if band.Err? {
        assert forall j :: 0 <= j < i ==> bands[..i][j] == bands[j];
        MergeFirstError(bands, i);
        return Err(band.error);
      }
      table := table + band.value;
      assert bands[..i + 1][..i] == bands[..i];
      i := i + 1;
    }
    assert bands[..i] == bands;
    return Ok(table);
  }

  /** The builder raises exactly when some band beyond the seventh holds a
      value. */
  lemma TableFails(zones: seq<int>)
    ensures Table(zones).Err? <==>
      exists i :: |Palette| <= i < |zones| - 1 && zones[i] < zones[i + 1]
  {
    var bands := Bands(zones);
    assert forall i :: 0 <= i < |bands| ==> bands[i] == Band(zones, i);
    if Table(zones).Err? {
      var j :| 0 <= j < |bands| && bands[j].Err?;
      assert |Palette| <= j < |zones| - 1 && zones[j] < zones[j + 1];
    } else {
      forall i | |Palette| <= i < |zones| - 1
        ensures zones[i + 1] <= zones[i]
      {
        assert bands[i].Ok?;
      }
    }
  }

  /** Whatever the boundaries, a table that is built holds exactly the values
      of the non-empty bands, and a value takes the colour of the last band
      holding it: an empty or inverted band adds nothing, and a later band
      that overlaps an earlier one overwrites it. */
  lemma TableShape(zones: seq<int>, x: int)
    requires Table(zones).Ok?
    ensures x in Table(zones).value <==> exists i :: InBand(zones, i, x)
    ensures forall j :: LastBand(zones, j, x) ==>
      j < |Palette| && x in Table(zones).value && Table(zones).value[x] == Palette[j]
  {
    var bands := Bands(zones);
    var table := Table(zones).value;
    assert forall i :: 0 <= i < |bands| ==> bands[i] == Band(zones, i);
    MergeKeys(bands, table, x);
    if x in table {
      var i :| 0 <= i < |bands| && bands[i].Ok? && x in bands[i].value;
      assert InBand(zones, i, x);
    }
    if exists i :: InBand(zones, i, x) {
      var i :| InBand(zones, i, x);
      assert bands[i].Ok? && x in bands[i].value;
    }
    forall j | LastBand(zones, j, x)
      ensures j < |Palette| && x in table && table[x] == Palette[j]
    {
      MergeLastWins(bands, table, j, x);
    }
  }

  /** For strictly increasing boundaries, at most eight of them, the table
      covers exactly the values from the first boundary up to but excluding the
      last, so it has last - first entries, and each value of band i carries the
      i-th colour. */
  lemma IncreasingTable(zones: seq<int>)
    requires 1 <= |zones| <= |Palette| + 1 && StrictlyIncreasing(zones)
    ensures Table(zones).Ok?
    ensures Table(zones).value.Keys == Range(zones[0], zones[|zones| - 1])
    ensures |Table(zones).value| == zones[|zones| - 1] - zones[0]
    ensures forall i, x :: InBand(zones, i, x) ==>
      x in Table(zones).value && Table(zones).value[x] == Palette[i]
  {
    TableFails(zones);
    var table := Table(zones).value;
    var last := zones[|zones| - 1];
    forall x
      ensures x in table <==> zones[0] <= x < last
    {
      TableShape(zones, x);
      if zones[0] <= x < last {
        var i := BandOf(zones, x);
      }
    }
    assert table.Keys == Range(zones[0], last);
    RangeSize(zones[0], last);
    forall i, x | InBand(zones, i, x)
      ensures x in table && table[x] == Palette[i]
    {
      OnlyBand(zones, i, x);
      TableShape(zones, x);
    }
  }

  /** Strictly increasing boundaries beyond the eighth need an eighth colour
      the palette does not have. */
  lemma TooManyBoundaries(zones: seq<int>)
    requires StrictlyIncreasing(zones) && |zones| > |Palette| + 1
    ensures Table(zones) == Err(IndexError)
  {
    TableFails(zones);
    assert zones[|Palette|] < zones[|Palette| + 1];
  }
}
