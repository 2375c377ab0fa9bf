/**
 * One run of the script: clean the dataset, resolve the location, then
 * either list the nearest offices or show the idle prompt.
 */
module App {
  import opened Wrappers
  import opened Offices
  import opened Cleaning
  import opened Resolution
  import opened Ranking

  /** What the page shows: the idle prompt, or the listing around a location. */
  datatype View = Idle | Listing(center: Coord, nearest: seq<Ranked>)

  /** Lines 42, 54-95 and 116-117: `if user_location:` decides between ranking and the prompt. */
  method Respond(raw: seq<RawRow>, pressed: bool, ipLookup: Option<Coord>, input: string,
                 geocode: string -> Option<Coord>, dist: (Coord, Coord) -> real)
    returns (view: View)
    ensures view.Idle? <==> Resolve(LoadData(raw), pressed, ipLookup, input, geocode).location.None?
    ensures view.Listing? ==>
              && Resolve(LoadData(raw), pressed, ipLookup, input, geocode).location == Some(view.center)
              && IsNearest(view.nearest, LoadData(raw), view.center, dist)
  {
    var df := LoadData(raw);
    var userLocation, _, _ := ResolveLocation(df, pressed, ipLookup, input, geocode);
    if userLocation.None? {
      view := Idle;
    } else {
      var nearest := Nearest(df, userLocation.value, dist);
      view := Listing(userLocation.value, nearest);
    }
  }
}
