/**
  `get_spacer`: the indentation prefix printed in front of a child tag,
  chosen by the current nesting level.
 */
module Spacer {
  import opened Wrappers

  /** `n` blanks. */
  function Spaces(n: nat): (s: string)
    ensures |s| == n && forall i :: 0 <= i < n ==> s[i] == ' '
  {
    if n == 0 then "" else " " + Spaces(n - 1)
  }

  /** The general rule behind the table: `3 + 4 * level` blanks, then the marker `|__`. */
  function Indent(level: nat): string {
    Spaces(3 + 4 * level) + "|__"
  }

  /**
    The if/elif chain over the global level. Only levels 0 to 7 assign the
    local `spacer`; for any other level the final `return spacer` raises
    UnboundLocalError, modelled as `None`.
   */
  function GetSpacer(level: int): (r: Option<string>)
    ensures r.Some? <==> 0 <= level <= 7
  {
    if level == 0 then Some("   |__")
    else if level == 1 then Some("       |__")
    else if level == 2 then Some("           |__")
    else if level == 3 then Some("               |__")
    else if level == 4 then Some("                   |__")
    else if level == 5 then Some("                       |__")
    else if level == 6 then Some("                           |__")
    else if level == 7 then Some("                               |__")
    else None
  }

  /** Every entry of the table follows the general rule. */
  lemma SpacerIsIndent(level: int)
    requires 0 <= level <= 7
    ensures GetSpacer(level) == Some(Indent(level))
  {
    if level == 0 { IndentTable0(); }
    else if level == 1 { IndentTable1(); }
    else if level == 2 { IndentTable2(); }
    else if level == 3 { IndentTable3(); }
    else if level == 4 { IndentTable4(); }
    else if level == 5 { IndentTable5(); }
    else if level == 6 { IndentTable6(); }
    else { IndentTable7(); }
  }

  // The eight rows of the table, one literal each.

  lemma IndentTable0()
    ensures Indent(0) == "   |__"
  {
  }

  lemma IndentTable1()
    ensures Indent(1) == "       |__"
  {
  }

  lemma IndentTable2()
    ensures Indent(2) == "           |__"
  {
  }

  lemma IndentTable3()
    ensures Indent(3) == "               |__"
  {
  }

  lemma IndentTable4()
    ensures Indent(4) == "                   |__"
  {
  }

  lemma IndentTable5()
    ensures Indent(5) == "                       |__"
  {
  }

  lemma IndentTable6()
    ensures Indent(6) == "                           |__"
  {
  }

  lemma IndentTable7()
    ensures Indent(7) == "                               |__"
  {
  }

  /** Four more blanks in front is one level deeper, at any depth. */
  lemma IndentStep(level: nat)
    ensures Indent(level + 1) == "    " + Indent(level)
  {
  }

  /** Inside the table each level adds exactly four blanks to the previous prefix. */
  lemma SpacerGrowsByFour(level: int)
    requires 0 <= level < 7
    ensures GetSpacer(level + 1).Some? && GetSpacer(level).Some?
    ensures GetSpacer(level + 1).value == "    " + GetSpacer(level).value
    ensures |GetSpacer(level + 1).value| == |GetSpacer(level).value| + 4
  {
    SpacerIsIndent(level);
    SpacerIsIndent(level + 1);
    IndentStep(level);
  }
}
