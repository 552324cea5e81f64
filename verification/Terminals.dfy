/** The three virtual terminals and where their screens are kept. */
module Terminals {

  const TERMINALS := 3

  type TerminalId = t: nat | t < TERMINALS

  /** The page of a terminal's screen, counted from page B8: B8 itself for the terminal shown,
      the terminal's own page for the others. */
  function ScreenOf(shown: nat, t: nat): nat { if t == shown then 0 else t + 1 }
}
