/**
 * Which coordinate becomes `user_location`: the detected IP location when
 * the button was pressed, replaced by the first office whose pincode starts
 * with the typed text, or failing that by the geocoder's answer for the text
 * with ", India" appended.
 *
 * The two geocoding services are oracles: `ipLookup` is what the IP lookup
 * returned (`None` when it was not ok, gave no coordinate or raised), and
 * `geocode` maps a query to what the address geocoder returned (`None` when
 * it was not ok or raised).
 */
module Resolution {
  import opened Wrappers
  import opened Frames
  import opened Offices

  const CountrySuffix := ", India"

  /** The row mask `df['pincode'].astype(str).str.startswith(input)`. */
  function PincodeStartsWith(input: string): Office -> bool {
    (o: Office) => input <= o.pincode
  }

  /** The rows the mask selects, in dataset order. */
  function PincodeMatches(df: seq<Office>, input: string): (rows: seq<Office>)
    ensures forall o :: o in rows <==> o in df && input <= o.pincode
  {
    Filter(df, PincodeStartsWith(input))
  }

  predicate HasMatch(df: seq<Office>, input: string) {
    exists i :: 0 <= i < |df| && input <= df[i].pincode
  }

  /** Row `i` is the first row of `df` whose pincode starts with `input`. */
  predicate IsFirstMatch(df: seq<Office>, input: string, i: int) {
    && 0 <= i < |df|
    && input <= df[i].pincode
    && forall j :: 0 <= j < i ==> !(input <= df[j].pincode)
  }

  /** The location before the typed text is looked at (lines 54-65). */
  function FromIp(pressed: bool, ipLookup: Option<Coord>): (loc: Option<Coord>)
    ensures loc.Some? <==> pressed && ipLookup.Some?
    ensures loc.Some? ==> loc == ipLookup
  {
    if pressed then ipLookup else None
  }

  /**
   * The outcome of the resolution block: the final `user_location`, the
   * office whose name is shown when the pincode lookup succeeded, and the
   * queries sent to the address geocoder, in order.
   */
  datatype Resolution = Resolution(location: Option<Coord>, matched: Option<Office>, queries: seq<string>)

  function Resolve(df: seq<Office>, pressed: bool, ipLookup: Option<Coord>, input: string,
                   geocode: string -> Option<Coord>): (r: Resolution)
    ensures r.queries == [] || r.queries == [input + CountrySuffix]
    ensures r.matched.Some? ==>
              && r.matched.value in df && input <= r.matched.value.pincode
              && r.location == Some(Position(r.matched.value))
  {
    var fromIp := FromIp(pressed, ipLookup);
    if input == "" then Resolution(fromIp, None, [])
    else
      var rows := PincodeMatches(df, input);
      if rows != [] then Resolution(Some(Position(rows[0])), Some(rows[0]), [])
      else
        var query := input + CountrySuffix;
        var answer := geocode(query);
        Resolution(if answer.Some? then answer else fromIp, None, [query])
  }

  /** Lines 54-85: `user_location` set by one branch after another. */
  method ResolveLocation(df: seq<Office>, pressed: bool, ipLookup: Option<Coord>, input: string,
                         geocode: string -> Option<Coord>)
    returns (userLocation: Option<Coord>, matched: Option<Office>, queries: seq<string>)
    ensures Resolution(userLocation, matched, queries) == Resolve(df, pressed, ipLookup, input, geocode)
  {
    userLocation := None;
    if pressed && ipLookup.Some? {
      userLocation := ipLookup;
    }
    matched, queries := None, [];
    if input != "" {
      var rows := PincodeMatches(df, input);
      if rows != [] {
        userLocation := Some(Position(rows[0]));
        matched := Some(rows[0]);
      } else {
        var query := input + CountrySuffix;
        queries := queries + [query];
        var answer := geocode(query);
        if answer.Some? {
          userLocation := answer;
        }
      }
    }
  }

  /** When some pincode starts with the input, a first such row exists. */
  lemma {:induction false} FirstMatchBelow(df: seq<Office>, input: string, j: int) returns (i: int)
    requires 0 <= j < |df| && input <= df[j].pincode
    ensures IsFirstMatch(df, input, i) && i <= j
    decreases j
  {
    if k :| 0 <= k < j && input <= df[k].pincode {
      i := FirstMatchBelow(df, input, k);
    } else {
      i := j;
    }
  }

  /**
   * A pincode match wins: the location is the first matching row's, whatever
   * the IP lookup gave, and the geocoder is not asked.
   */
  lemma ResolveFirstMatch(df: seq<Office>, pressed: bool, ipLookup: Option<Coord>, input: string,
                          geocode: string -> Option<Coord>, i: int)
    requires input != "" && IsFirstMatch(df, input, i)
    ensures var r := Resolve(df, pressed, ipLookup, input, geocode);
            r.location == Some(Position(df[i])) && r.matched == Some(df[i]) && r.queries == []
  {
    FilterFirst(df, PincodeStartsWith(input), i);
  }

  /**
   * Without a pincode match the geocoder is asked exactly once, for the input
   * with ", India" appended; its answer replaces the location only when it
   * has one, otherwise the location is left as the IP step set it.
   */
  lemma ResolveNoMatch(df: seq<Office>, pressed: bool, ipLookup: Option<Coord>, input: string,
                       geocode: string -> Option<Coord>)
    requires input != "" && !HasMatch(df, input)
    ensures var r := Resolve(df, pressed, ipLookup, input, geocode);
            && r.queries == [input + ", India"]
            && r.matched == None
            && (geocode(input + ", India").Some? ==> r.location == geocode(input + ", India"))
            && (geocode(input + ", India").None? ==> r.location == FromIp(pressed, ipLookup))
  {
  }

  /** The geocoder is consulted exactly when the input is not empty and matches no pincode. */
  lemma GeocoderConsulted(df: seq<Office>, pressed: bool, ipLookup: Option<Coord>, input: string,
                          geocode: string -> Option<Coord>)
    ensures Resolve(df, pressed, ipLookup, input, geocode).queries != [] <==> input != "" && !HasMatch(df, input)
  {
  }

  /**
   * An empty input leaves the location as the IP step set it: the detected
   * coordinate when the button was pressed and the lookup succeeded, else none.
   */
  lemma ResolveEmptyInput(df: seq<Office>, pressed: bool, ipLookup: Option<Coord>,
                          geocode: string -> Option<Coord>)
    ensures Resolve(df, pressed, ipLookup, "", geocode) == Resolution(FromIp(pressed, ipLookup), None, [])
    ensures pressed && ipLookup.Some? ==> Resolve(df, pressed, ipLookup, "", geocode).location == ipLookup
  {
  }

  /**
   * No location at all (the idle prompt) exactly when the IP step gave none
   * and the input was empty or neither matched a pincode nor geocoded.
   */
  lemma ResolveAbsent(df: seq<Office>, pressed: bool, ipLookup: Option<Coord>, input: string,
                      geocode: string -> Option<Coord>)
    ensures Resolve(df, pressed, ipLookup, input, geocode).location.None? <==>
            && FromIp(pressed, ipLookup).None?
            && (input == "" || (!HasMatch(df, input) && geocode(input + ", India").None?))
  {
  }
}
