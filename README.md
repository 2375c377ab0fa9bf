# Post Office Nearby — a Dafny model of its lookup core

The program is a single-page script that finds the delivery post offices in
India nearest to a user. It has three pieces of decision logic, and this
project models and proves each one:

- **Dataset cleaning** (`load_data`). Only rows whose `delivery` column is
  exactly `"Delivery"` are kept. Latitude and longitude are coerced to
  numbers, and rows where either is missing are dropped. The global range
  check is applied, then the inclusive India bounds (latitude 6..37,
  longitude 68..97). Finally the office name is whitespace-trimmed.
- **Location resolution**. `user_location` starts as nothing. If the button
  was pressed, it becomes the IP lookup's coordinate. Next, if the user typed
  something, it is replaced by the coordinate of the first office (in dataset
  order) whose pincode starts with the text. If no pincode matches, the
  geocoder is asked for the text with `", India"` appended, and its answer
  replaces the location only when the geocoder succeeds.
- **Nearest offices**. Each cleaned row gets a `distance_km` column, the rows
  are sorted by it in ascending order, and the first five are listed. With no
  location, the idle prompt is shown instead.

Modules:

- `Wrappers`: `Option`.
- `Frames`: the table operations, stated over sequences of rows: the mask
  selection `df[mask]`, a column rewrite, and a selection that also rewrites
  the rows it keeps.
- `Strings`: Python's `str.strip()`.
- `Offices`: one row type `Record<L>`, generic in the type of its two
  coordinate columns. A raw cell is `Cell`, a coerced value is
  `Option<real>`, and a cleaned coordinate is `real`.
- `Cleaning`: `LoadData` and its row-wise reference `CleanRow`.
- `Resolution`: the specification `Resolve`, and the method
  `ResolveLocation`, which reassigns `userLocation` branch by branch as the
  script does.
- `Ranking`: the method `Nearest` (a loop fills the distance column, then a
  sort and `head(5)`) and its specification `IsNearest`.
- `App`: `Respond`, which either lists offices or shows the idle prompt.
- `Scenarios`: concrete cases of the bounds, the trimming and the lookup.

External services are inputs, not code:

- `ipLookup: Option<Coord>` is what the IP lookup gave. It is `None` when the
  lookup was not ok, gave no coordinate, or raised.
- `geocode: string -> Option<Coord>` is the address geocoder. It gives `None`
  when the geocoder was not ok or raised.
- `dist: (Coord, Coord) -> real` is the geodesic distance. Nothing is assumed
  about it.

Two behaviours of the code shape the model:

- `sort_values` uses its default algorithm, quicksort, which is not stable.
  The model therefore leaves the order of rows at equal distance open.
- When neither the pincode lookup nor the geocoder succeeds, `user_location`
  keeps its earlier value (the IP result, if there was one) and no error is
  raised. The model does the same.

## Model

| member | source | states |
|---|---|---|
| `Frames.Filter` | pincode.py:24-33 | a mask selection is never longer than its input, and a value occurs in it iff it occurs in the input and satisfies the mask |
| `Frames.FilterCounts` | pincode.py:24-33 | a mask selection holds each row satisfying the mask exactly as often as the input does, and no other row |
| `Frames.FilterSelects` | pincode.py:24-33 | row k of a mask selection is the input row at the k-th position satisfying the mask, positions strictly increasing, so the input order is kept |
| `Frames.FilterFirst` | pincode.py:71-73 | when some row matches, the selection is not empty, and its row 0 (`iloc[0]`) is the first matching row of the input |
| `Frames.FilterMapSelects` | pincode.py:14-35 | a selection that also rewrites rows gives exactly the rewritten rows at the kept positions, in increasing position order |
| `Strings.Strip` | pincode.py:35 | the result neither starts nor ends with whitespace, and it is a slice of the input with only whitespace cut off each end |
| `Strings.StripIdempotent` | pincode.py:35 | trimming a trimmed name changes nothing |
| `Strings.StripAllSpace` | pincode.py:35 | a name made only of whitespace trims to the empty string |
| `Cleaning.ToNumeric` | pincode.py:17-18 | a cell coerces to a value iff it is a number, and then to that number |
| `Cleaning.DropMissing` | pincode.py:21 | a row is kept iff both coordinates are present; the kept row has those coordinates and the same pincode and name |
| `Cleaning.LoadData` | pincode.py:10-40 | the cleaned dataset never has more rows than the file; which rows it has is stated by `LoadDataRowwise`, `LoadDataSubsequence` and `CleanedInvariant` |
| `Cleaning.CleanRow` | pincode.py:14-35 | a row survives every cleaning step iff its delivery is `"Delivery"`, both coordinates are numbers, 6 <= lat <= 37 and 68 <= lon <= 97 (the global bounds add nothing); a survivor is the row with coordinates unwrapped and only the name trimmed |
| `Cleaning.LoadDataAppend` | pincode.py:14-35 | cleaning works row by row: cleaning a concatenation is the concatenation of the cleanings |
| `Cleaning.LoadDataRowwise` | pincode.py:10-40 | the step-by-step table pipeline equals cleaning each row on its own and keeping the survivors in order |
| `Cleaning.LoadDataSubsequence` | pincode.py:14-35 | the cleaned dataset is an order-preserving subsequence of the raw rows: strictly increasing positions, exactly the surviving rows, each unchanged except for the trimmed name |
| `Cleaning.LoadDataMembers` | pincode.py:14-35 | an office is in the cleaned dataset iff some raw row survives and cleans to it |
| `Cleaning.CleanedInvariant` | pincode.py:14-35 | every cleaned office has delivery `"Delivery"`, coordinates within both the global and the India bounds, and a trimmed name |
| `Cleaning.GlobalBoundsRedundant` | pincode.py:24-33 | applying the global bounds before the India bounds removes nothing more than the India bounds alone |
| `Resolution.FromIp` | pincode.py:54-65 | the IP step gives a location iff the button was pressed and the lookup gave a coordinate, and then that coordinate |
| `Resolution.Resolve` | pincode.py:54-85 | at most one geocoder query is made, and only for input + ", India"; a shown office is a dataset office whose pincode starts with the input, and the location is its coordinate |
| `Resolution.ResolveEmptyInput` | pincode.py:54-68 | with empty input the location is what the IP step left (the detected coordinate after a pressed, successful lookup, otherwise none), no office is shown and the geocoder is not asked |
| `Resolution.PincodeMatches` | pincode.py:71 | the pincode mask selects exactly the dataset rows whose pincode starts with the input |
| `Resolution.FirstMatchBelow` | pincode.py:71-73 | when some pincode starts with the input, a first such row exists, at or before any given match |
| `Resolution.ResolveLocation` | pincode.py:54-85 | reassigning `user_location` branch by branch ends in the outcome `Resolve` specifies: the same location, the same matched office and the same geocoder queries |
| `Resolution.ResolveFirstMatch` | pincode.py:69-74 | for non-empty input whose first pincode match is row i, the location is row i's coordinate whatever the IP lookup gave, row i is the office shown, and the geocoder is not asked |
| `Resolution.ResolveNoMatch` | pincode.py:75-85 | with no pincode match, the geocoder is asked exactly once, for input + ", India"; its coordinate is used if it has one, and otherwise the location stays what the IP step left (IP result or none) |
| `Resolution.GeocoderConsulted` | pincode.py:69-80 | the geocoder is asked iff the input is non-empty and no pincode starts with it |
| `Resolution.ResolveAbsent` | pincode.py:54-85 | no location results iff the IP step gave none and the input was empty, or matched no pincode and failed to geocode |
| `Ranking.WithDistance` | pincode.py:90-93 | one annotated row per office, in dataset order, whose distance is the distance from the location to that office |
| `Ranking.IsNearest` | pincode.py:95 | a valid answer never lists more than five rows, nor more rows than the dataset has |
| `Ranking.SortByDistance` | pincode.py:95 | the result is in ascending order of distance and is a permutation of the input |
| `Ranking.SortedPrefixIsNearest` | pincode.py:95 | the first min(5, n) rows of any ascending arrangement of the annotated dataset are a valid top-5 |
| `Ranking.Nearest` | pincode.py:88-95 | returns min(5, n) rows of the dataset annotated with distances, with no row used twice, in non-decreasing distance, and no row left out is strictly nearer than the last one returned |
| `Ranking.NearestDistances` | pincode.py:90-93 | every listed row is an office of the dataset, and its `distance_km` is the distance from the location to that office |
| `Ranking.SortedAllIsNearest` | pincode.py:95 | with at most five offices, `head(5)` lists the whole dataset, in any ascending arrangement |
| `Ranking.KthNotFarther` | pincode.py:95 | row k of one valid top-5 is never farther than row k of any other valid top-5 |
| `Ranking.NearestDistancesDetermined` | pincode.py:95 | any two valid top-5 answers have the same length and list the same distances in the same order; only which office is shown among ties is open |
| `App.Respond` | pincode.py:88-117 | the page is idle iff resolution produced no location; otherwise it is centred on the resolved location and lists a valid top-5 of the cleaned dataset |
| `Scenarios.BoundaryScenario` | pincode.py:30-33 | latitudes 6.0 and 37.0 are kept and 5.999 and 37.001 are dropped, in input order |
| `Scenarios.StripScenario` | pincode.py:35 | `" G P O "` trims to `"G P O"`: only the outer spaces go |
| `Scenarios.PrefixScenario` | pincode.py:71-73 | office X at pincode 110001, input "1100": the location is X's coordinate |
| `Scenarios.NoMatchScenario` | pincode.py:75-85 | input "999999" matches nothing; when the geocoder fails and no IP result exists, there is no location, and the one query was "999999, India" |
| `Scenarios.SortedThree` | pincode.py:90-95 | offices at 1.2, 5.4 and 0.3 km, listed as 0.3, 1.2, 5.4, are a valid answer |
| `Scenarios.RankingScenario` | pincode.py:90-95 | every valid answer for offices at 1.2, 5.4 and 0.3 km lists exactly three rows, at 0.3, 1.2 and 5.4 km in that order |

## Left out

- Reading the CSV file, the caching of `load_data`, and the diagnostic row count it writes are I/O and framework plumbing.
- All user-interface calls are presentation only: titles, the language selector, info/success/warning/error messages, the per-office text and one-decimal rounding, and the folium map.
- The IP lookup and the address geocoder are oracle inputs. Their internals are not modelled. A not-ok answer and a raised exception are both `None`, so the model does not tell apart the messages the script shows for them.
- The geodesic distance is the parameter `dist`. Its ellipsoidal floating-point computation and its metric properties are not modelled.
- Text to number parsing by `pd.to_numeric` is not modelled. `Cell.Number` stands for any cell that the reader or `to_numeric` turns into a finite number. `Text` and `Blank` stand for cells that become missing. A text such as "inf", which pandas turns into infinity, is dropped by the bounds there and as missing here: the same outcome.
- Coordinates are exact reals, so the bound comparisons are exact. Floating-point rounding of the CSV values is not modelled.
- Columns other than pincode, officename, delivery, latitude, longitude, district and statename are carried through unchanged by the script and do not appear in the model. `pincode` is the string `astype(str)` renders; a missing office name (NaN through `.str.strip()`) is not modelled.
- Nearest: the sort is modelled by an insertion sort. The contract does not fix which office comes first among rows at equal distance, because pandas' quicksort does not. The listed distances themselves are fixed (`NearestDistancesDetermined`); which tied office is shown is not.
- The `distance_km` column is added in place to the script's own frame `df`. The model builds a fresh sequence of annotated rows instead.
- With a location but an empty cleaned dataset, the model returns an empty list. How pandas' row-wise `apply` behaves on an empty frame is not modelled.
