/** The pandas DataFrame as both scripts use it: a sequence of rows, a row a map from column to cell. */
module Frames {

  /** A DataFrame row: column name to cell text. A column absent from the map is a missing (NaN) cell. */
  type Row = map<string, string>
}
