/** The input unit of a table and the small value types shared by every stage. */
module Cells {

  /** A cell id: the position of the cell in row-major input order. */
  type Id = nat

  /** An empty (`None`) or filled grid position, and in general an optional value. */
  datatype Option<T> = None | Some(value: T)

  /** `Cell(colspan, rowspan, contents)`: a rectangle of `colspan` x `rowspan` grid
      positions holding the text `contents`. `contents` is the sequence of elements that
      Python's `len` counts (the bytes of a Python 2 `str`), one `char` each; how wide they
      display is not modelled. */
  datatype Cell = Cell(colspan: nat, rowspan: nat, contents: string)

  /** A table as the caller writes it: rows of cells in placement order. */
  type Table = seq<seq<Cell>>

}
