/** One value of the history table. Reading the CSV history gives NaN for an
    empty field; everything else is kept as its text (numbers included). */
module Cells {

  datatype Cell = Missing | Text(s: string)
}
