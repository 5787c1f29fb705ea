/** What several modules share. */
module Prelude {

  datatype Option<+T> = None | Some(value: T)

  /** A text without its last newline; the end anchor of a regular expression also matches before one. */
  function Chomp(s: string): string {
    if s != "" && s[|s| - 1] == '\n' then s[..|s| - 1] else s
  }
}
