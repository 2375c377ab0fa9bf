/**
 * `load_data`: from the rows of the post-office file to the cleaned dataset
 * of delivery offices with present, in-range coordinates.
 */
module Cleaning {
  import opened Wrappers
  import opened Frames
  import opened Strings
  import opened Offices

  /** `df['delivery'] == 'Delivery'`. */
  predicate IsDelivery(r: RawRow) {
    r.delivery == "Delivery"
  }

  /** `pd.to_numeric(cell, errors='coerce')`: anything but a number becomes missing. */
  function ToNumeric(c: Cell): (v: Option<real>)
    ensures v.Some? <==> c.Number?
    ensures c.Number? ==> v == Some(c.value)
  {
    match c
    case Number(v) => Some(v)
    case _ => None
  }

  /** Both coordinate columns coerced; every other column unchanged. */
  function Coerce(r: RawRow): Row {
    Record(r.pincode, r.officename, r.delivery,
           ToNumeric(r.latitude), ToNumeric(r.longitude), r.district, r.statename)
  }

  /** `dropna(subset=['latitude', 'longitude'])` on one row. */
  function DropMissing(r: Row): (o: Option<Office>)
    ensures o.Some? <==> r.latitude.Some? && r.longitude.Some?
    ensures o.Some? ==> Position(o.value) == Coord(r.latitude.value, r.longitude.value)
    ensures o.Some? ==> o.value.pincode == r.pincode && o.value.officename == r.officename
  {
    if r.latitude.Some? && r.longitude.Some? then
      Some(Record(r.pincode, r.officename, r.delivery,
                  r.latitude.value, r.longitude.value, r.district, r.statename))
    else None
  }

  /** The global range check on latitude and longitude. */
  predicate InGlobalBounds(o: Office) {
    -90.0 <= o.latitude <= 90.0 && -180.0 <= o.longitude <= 180.0
  }

  /** The India range check; `between` includes both ends. */
  predicate InIndiaBounds(o: Office) {
    6.0 <= o.latitude <= 37.0 && 68.0 <= o.longitude <= 97.0
  }

  /** `df['officename'].str.strip()` on one row. */
  function StripName(o: Office): Office {
    o.(officename := Strip(o.officename))
  }

  predicate Trimmed(s: string) {
    s == [] || (!IsSpace(s[0]) && !IsSpace(s[|s| - 1]))
  }

  /** What every row of the cleaned dataset satisfies. */
  predicate IsCleanOffice(o: Office) {
    && o.delivery == "Delivery"
    && InGlobalBounds(o)
    && InIndiaBounds(o)
    && Trimmed(o.officename)
  }

  /** The whole of `load_data` after reading the file, one table step after another. */
  function LoadData(raw: seq<RawRow>): (df: seq<Office>)
    ensures |df| <= |raw|
  {
    var delivered := Filter(raw, IsDelivery);
    var coerced := MapSeq(delivered, Coerce);
    var present := FilterMap(coerced, DropMissing);
    var global := Filter(present, InGlobalBounds);
    var india := Filter(global, InIndiaBounds);
    MapSeq(india, StripName)
  }

  /** A raw row survives cleaning exactly when it satisfies this. */
  predicate Survives(r: RawRow) {
    && r.delivery == "Delivery"
    && r.latitude.Number? && r.longitude.Number?
    && 6.0 <= r.latitude.value <= 37.0
    && 68.0 <= r.longitude.value <= 97.0
  }

  /** The cleaned form of a surviving row: only the office name changes. */
  function Cleaned(r: RawRow): Office
    requires Survives(r)
  {
    Record(r.pincode, Strip(r.officename), r.delivery,
           r.latitude.value, r.longitude.value, r.district, r.statename)
  }

  /** All cleaning steps applied to one row. */
  function CleanRow(r: RawRow): (o: Option<Office>)
    ensures o == if Survives(r) then Some(Cleaned(r)) else None
  {
    if !IsDelivery(r) then None
    else match DropMissing(Coerce(r))
      case None => None
      case Some(o) =>
        if InGlobalBounds(o) && InIndiaBounds(o) then Some(StripName(o)) else None
  }

  lemma LoadDataAppend(a: seq<RawRow>, b: seq<RawRow>)
    ensures LoadData(a + b) == LoadData(a) + LoadData(b)
  {
    FilterAppend(a, b, IsDelivery);
    var da, db := Filter(a, IsDelivery), Filter(b, IsDelivery);
    MapSeqAppend(da, db, Coerce);
    var ca, cb := MapSeq(da, Coerce), MapSeq(db, Coerce);
    FilterMapAppend(ca, cb, DropMissing);
    var pa, pb := FilterMap(ca, DropMissing), FilterMap(cb, DropMissing);
    FilterAppend(pa, pb, InGlobalBounds);
    var ga, gb := Filter(pa, InGlobalBounds), Filter(pb, InGlobalBounds);
    FilterAppend(ga, gb, InIndiaBounds);
    var ia, ib := Filter(ga, InIndiaBounds), Filter(gb, InIndiaBounds);
    MapSeqAppend(ia, ib, StripName);
  }

  /** The step-by-step pipeline is the same as cleaning each row on its own. */
  lemma {:induction false} LoadDataRowwise(raw: seq<RawRow>)
    ensures LoadData(raw) == FilterMap(raw, CleanRow)
  {
    if raw != [] {
      assert raw == [raw[0]] + raw[1..];
      LoadDataAppend([raw[0]], raw[1..]);
      LoadDataRowwise(raw[1..]);
    }
  }

  /**
   * The cleaned dataset is an order-preserving selection of the raw rows:
   * `idx` lists, in increasing order, exactly the positions of the rows that
   * survive, and each cleaned row is its raw row with the name trimmed.
   */
  lemma LoadDataSubsequence(raw: seq<RawRow>) returns (idx: seq<nat>)
    ensures |idx| == |LoadData(raw)|
    ensures forall k, l :: 0 <= k < l < |idx| ==> idx[k] < idx[l]
    ensures forall k :: 0 <= k < |idx| ==>
              idx[k] < |raw| && Survives(raw[idx[k]]) && LoadData(raw)[k] == Cleaned(raw[idx[k]])
    ensures forall i :: 0 <= i < |raw| && Survives(raw[i]) ==> i in idx
  {
    LoadDataRowwise(raw);
    FilterMapSelects(raw, CleanRow);
    idx := Kept(raw, CleanRow);
  }

  /** An office is in the cleaned dataset exactly when some raw row cleans to it. */
  lemma LoadDataMembers(raw: seq<RawRow>, o: Office)
    ensures o in LoadData(raw) <==> exists r :: r in raw && Survives(r) && o == Cleaned(r)
  {
    var idx := LoadDataSubsequence(raw);
    var df := LoadData(raw);
    if o in df {
      var k :| 0 <= k < |df| && df[k] == o;
      var r := raw[idx[k]];
      assert r in raw && Survives(r) && o == Cleaned(r);
    }
    if r :| r in raw && Survives(r) && o == Cleaned(r) {
      var i :| 0 <= i < |raw| && raw[i] == r;
      assert i in idx;
      var k :| 0 <= k < |idx| && idx[k] == i;
      assert df[k] == Cleaned(raw[i]);
      assert df[k] in df;
    }
  }

  /**
   * The dataset invariant: every cleaned office is a delivery office with
   * coordinates inside the India bounds (hence inside the global ones) and a
   * name without surrounding whitespace.
   */
  lemma CleanedInvariant(raw: seq<RawRow>)
    ensures forall o :: o in LoadData(raw) ==> IsCleanOffice(o)
  {
    var idx := LoadDataSubsequence(raw);
    forall o | o in LoadData(raw) ensures IsCleanOffice(o) {
      var k :| 0 <= k < |LoadData(raw)| && LoadData(raw)[k] == o;
      assert o == Cleaned(raw[idx[k]]);
    }
  }

  /** After the India bounds, the global bounds check removes nothing. */
  lemma {:induction false} GlobalBoundsRedundant(rows: seq<Office>)
    ensures Filter(Filter(rows, InGlobalBounds), InIndiaBounds) == Filter(rows, InIndiaBounds)
  {
    if rows != [] {
      var r, rest := rows[0], rows[1..];
      GlobalBoundsRedundant(rest);
      var g := Filter(rest, InGlobalBounds);
      if InGlobalBounds(r) {
        assert Filter(rows, InGlobalBounds) == [r] + g;
        assert ([r] + g)[1..] == g;
      } else {
        assert Filter(rows, InGlobalBounds) == g;
        assert Filter(rows, InIndiaBounds) == Filter(rest, InIndiaBounds);
      }
    }
  }
}
