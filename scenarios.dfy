/** Concrete cases of the cleaning bounds and the pincode lookup. */
module Scenarios {
  import opened Wrappers
  import opened Frames
  import opened Strings
  import opened Offices
  import opened Cleaning
  import opened Resolution
  import opened Ranking

  /** A delivery row at latitude `lat` whose name carries surrounding spaces. */
  function RowAt(lat: real): RawRow {
    Record("110001", " Connaught Place ", "Delivery", Number(lat), Number(77.2), "New Delhi", "DELHI")
  }

  /** Latitudes 6 and 37 are kept (the bounds are inclusive); 5.999 and 37.001 are dropped. */
  lemma BoundaryScenario()
    ensures LoadData([RowAt(6.0), RowAt(5.999), RowAt(37.0), RowAt(37.001)])
            == [Cleaned(RowAt(6.0)), Cleaned(RowAt(37.0))]
  {
    assert Survives(RowAt(6.0)) && !Survives(RowAt(5.999));
    assert Survives(RowAt(37.0)) && !Survives(RowAt(37.001));
    KeepFirstAndThird(RowAt(6.0), RowAt(5.999), RowAt(37.0), RowAt(37.001));
  }

  /** Four rows of which the first and third survive clean to those two. */
  lemma KeepFirstAndThird(r0: RawRow, r1: RawRow, r2: RawRow, r3: RawRow)
    requires Survives(r0) && !Survives(r1) && Survives(r2) && !Survives(r3)
    ensures LoadData([r0, r1, r2, r3]) == [Cleaned(r0), Cleaned(r2)]
  {
    LoadDataRowwise([r0, r1, r2, r3]);
    CleanFirstAndThird([r0, r1, r2, r3]);
  }

  /** The same, cleaning row by row. */
  lemma CleanFirstAndThird(raw: seq<RawRow>)
    requires |raw| == 4
    requires Survives(raw[0]) && !Survives(raw[1]) && Survives(raw[2]) && !Survives(raw[3])
    ensures FilterMap(raw, CleanRow) == [Cleaned(raw[0]), Cleaned(raw[2])]
  {
    assert raw[3..][1..] == [];
    assert FilterMap(raw[3..], CleanRow) == [];
    assert raw[2..][1..] == raw[3..];
    assert FilterMap(raw[2..], CleanRow) == [Cleaned(raw[2])];
    assert raw[1..][1..] == raw[2..];
    assert FilterMap(raw[1..], CleanRow) == [Cleaned(raw[2])];
  }

  /** Surrounding spaces are removed from an office name, inner ones kept. */
  lemma StripScenario()
    ensures Strip(" G P O ") == "G P O"
  {
    assert LeadingSpaces("G P O ") == 0;
    assert " G P O "[1..] == "G P O ";
    assert LeadingSpaces(" G P O ") == 1;
    assert "G P O "[..5] == "G P O";
    assert TrailingStart("G P O") == 5;
    assert TrailingStart("G P O ") == 5;
  }

  /** Office "X" at pincode 110001: typing "1100" resolves to its coordinate. */
  lemma PrefixScenario(pressed: bool, ipLookup: Option<Coord>, geocode: string -> Option<Coord>)
    ensures var df := [Record("110001", "X", "Delivery", 28.6, 77.2, "New Delhi", "DELHI")];
            Resolve(df, pressed, ipLookup, "1100", geocode).location == Some(Coord(28.6, 77.2))
  {
  }

  /** Input "999999" matches no pincode; a failed geocode leaves no location. */
  lemma NoMatchScenario(geocode: string -> Option<Coord>)
    requires geocode("999999, India") == None
    ensures var df := [Record("110001", "X", "Delivery", 28.6, 77.2, "New Delhi", "DELHI")];
            var r := Resolve(df, false, None, "999999", geocode);
            r.location == None && r.queries == ["999999, India"]
  {
    var df := [Record("110001", "X", "Delivery", 28.6, 77.2, "New Delhi", "DELHI")];
    assert "999999"[0] != df[0].pincode[0];
    assert !HasMatch(df, "999999");
    assert "999999" + ", India" == "999999, India";
    ResolveNoMatch(df, false, None, "999999", geocode);
  }

  /** Offices at 1.2, 5.4 and 0.3 km are listed nearest first: 0.3, 1.2, 5.4. */
  lemma RankingScenario(o1: Office, o2: Office, o3: Office, ref: Coord,
                        dist: (Coord, Coord) -> real, nearest: seq<Ranked>)
    requires dist(ref, Position(o1)) == 1.2
    requires dist(ref, Position(o2)) == 5.4
    requires dist(ref, Position(o3)) == 0.3
    requires IsNearest(nearest, [o1, o2, o3], ref, dist)
    ensures |nearest| == 3
    ensures nearest[0].distanceKm == 0.3 && nearest[1].distanceKm == 1.2 && nearest[2].distanceKm == 5.4
  {
    var sorted := [Ranked(o3, 0.3), Ranked(o1, 1.2), Ranked(o2, 5.4)];
    SortedThree(o1, o2, o3, ref, dist);
    NearestDistancesDetermined(nearest, sorted, [o1, o2, o3], ref, dist);
  }

  /** The distance column of a three-row dataset. */
  lemma WithDistanceThree(o1: Office, o2: Office, o3: Office, ref: Coord, dist: (Coord, Coord) -> real)
    ensures WithDistance([o1, o2, o3], ref, dist)
            == [Ranked(o1, dist(ref, Position(o1))), Ranked(o2, dist(ref, Position(o2))), Ranked(o3, dist(ref, Position(o3)))]
  {
    var rows := WithDistance([o1, o2, o3], ref, dist);
    assert rows[0] == Ranked(o1, dist(ref, Position(o1)));
    assert rows[1] == Ranked(o2, dist(ref, Position(o2)));
    assert rows[2] == Ranked(o3, dist(ref, Position(o3)));
  }

  /** The three offices, nearest first, are a valid answer. */
  lemma SortedThree(o1: Office, o2: Office, o3: Office, ref: Coord, dist: (Coord, Coord) -> real)
    requires dist(ref, Position(o1)) == 1.2
    requires dist(ref, Position(o2)) == 5.4
    requires dist(ref, Position(o3)) == 0.3
    ensures IsNearest([Ranked(o3, 0.3), Ranked(o1, 1.2), Ranked(o2, 5.4)], [o1, o2, o3], ref, dist)
  {
    var r1, r2, r3 := Ranked(o1, 1.2), Ranked(o2, 5.4), Ranked(o3, 0.3);
    var sorted := [r3, r1, r2];
    WithDistanceThree(o1, o2, o3, ref, dist);
    assert multiset(sorted) == multiset([r1, r2, r3]);
    SortedAllIsNearest([o1, o2, o3], ref, dist, sorted);
  }
}
