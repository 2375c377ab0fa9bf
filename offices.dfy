/** The post-office rows and the coordinates they are compared by. */
module Offices {
  import opened Wrappers

  /**
   * A latitude or longitude cell as the CSV reader hands it over: a number,
   * a text that is not a number, or nothing at all.
   */
  datatype Cell = Number(value: real) | Text(text: string) | Blank

  /**
   * One row of the post-office table. `L` is the type of the two coordinate
   * columns, which the cleaning narrows from raw cells to present numbers.
   * `pincode` is the pincode as `astype(str)` renders it.
   */
  datatype Record<L> = Record(
    pincode: string,
    officename: string,
    delivery: string,
    latitude: L,
    longitude: L,
    district: string,
    statename: string)

  /** A row as read from the file. */
  type RawRow = Record<Cell>

  /** A row after `pd.to_numeric(..., errors='coerce')`: a missing value is `None`. */
  type Row = Record<Option<real>>

  /** A row of the cleaned dataset: both coordinates present. */
  type Office = Record<real>

  /** A `(latitude, longitude)` pair. */
  datatype Coord = Coord(lat: real, lon: real)

  function Position(o: Office): Coord {
    Coord(o.latitude, o.longitude)
  }
}
