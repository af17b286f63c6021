/** Terminal: what the drawing code sends to standard output, recorded as
    a trace of commands instead of being written to a real terminal. */
module Terminal {
  import opened Points

  /** One queued crossterm command or one `print!`. */
  datatype Write =
    | ClearAll                // `Clear(ClearType::All)`
    | MoveTo(col: u16, row: u16)
    | Print(text: string)

  /** Standard output together with the size the terminal reports. The size
      is what `crossterm::terminal::size()` returns, fixed for the session. */
  class Screen {
    const cols: u16
    const rows: u16
    var out: seq<Write>

    constructor (cols: u16, rows: u16)
      ensures this.cols == cols && this.rows == rows && out == []
    {
      this.cols := cols;
      this.rows := rows;
      out := [];
    }
  }
}
