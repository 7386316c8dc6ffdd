/** String helpers shared by the completion and rename modules. */
module Strings {
  /**
   * `&text[1..]` on a command or entry-kind token: the text without its
   * leading escape (`\`) or marker (`@`). Such tokens are never empty; on an
   * empty text the source would panic, and the model keeps it empty.
   */
  function DropEscape(s: string): (r: string)
    ensures |s| > 0 ==> s == [s[0]] + r
    ensures |s| == 0 ==> r == []
  {
    if |s| == 0 then [] else s[1..]
  }
}
