/**
  `map_sub_elements`: the depth-first printer. It prints the root tag when the
  global level is 0, collapses same-tag children through `dup_killer`, prints
  one indented line per distinct tag and descends, one level deeper, into
  every kept child that has children of its own.

  `Walk`, `Entries` and `Turn` say what a call prints; `TreePrinter` is the
  imperative procedure over the global level and the output stream, proved
  to print exactly that.
 */
module Printer {
  import opened Wrappers
  import opened XmlTree
  import opened Spacer
  import opened Dedup

  /** One printed line: the root tag, or a child tag at a nesting level. */
  datatype Line = RootLine(tag: string) | EntryLine(level: nat, tag: string)

  /**
    What a call prints, and, when UnboundLocalError escapes from it, the
    value the global level held when `get_spacer` raised it.
   */
  datatype Trace = Trace(lines: seq<Line>, raisedAt: Option<int>)

  /** The characters of a line: `"\n" + tag` for the root, prefix then tag for a child. */
  function Text(l: Line): string {
    match l
    case RootLine(t) => "\n" + t
    case EntryLine(d, t) => Indent(d) + t
  }

  /** A child line at a level of the table is that level's prefix followed by the tag. */
  lemma EntryText(level: nat, tag: string)
    requires level <= 7
    ensures Text(EntryLine(level, tag)) == GetSpacer(level).value + tag
  {
    SpacerIsIndent(level);
  }

  /** The strings printed for a sequence of lines, one per line. */
  function Render(lines: seq<Line>): (out: seq<string>)
    ensures |out| == |lines|
  {
    seq(|lines|, i requires 0 <= i < |lines| => Text(lines[i]))
  }

  /** Printing two runs of lines one after the other. */
  lemma RenderAppend(a: seq<Line>, b: seq<Line>)
    ensures Render(a + b) == Render(a) + Render(b)
  {
    assert forall i :: 0 <= i < |a + b| ==> Render(a + b)[i] == (Render(a) + Render(b))[i];
  }

  /** Printing more lines after what has been printed already. */
  lemma PrintedLines(out: seq<string>, before: seq<Line>, after: seq<Line>)
    ensures out + Render(before) + Render(after) == out + Render(before + after)
  {
    RenderAppend(before, after);
  }

  /** The root line, printed only by a call that starts at level 0. */
  function Head(e: Node, level: int): seq<Line> {
    if level == 0 then [RootLine(e.tag)] else []
  }

  /** `keys` are keys of `m`, each mapped to a child of `parent` carrying that tag. */
  predicate Children(parent: Node, m: map<string, Node>, keys: seq<string>) {
    forall k :: k in keys ==> k in m && m[k] in parent.children && m[k].tag == k
  }

  /** Every key of the collapsed dictionary names one of the node's own children. */
  lemma KeysAreChildren(e: Node)
    ensures Children(e, DupKiller(e.children), TagOrder(e.children))
  {
    DupKillerKeys(e.children);
    TagOrderKeys(e.children);
  }

  /** The output of `map_sub_elements(e)` called with the global level at `level`. */
  function Walk(e: Node, level: int): (t: Trace)
    ensures t.raisedAt.Some? ==> t.raisedAt.value == if 0 <= level <= 7 then 8 else level
    ensures !(0 <= level <= 7) ==> t == Trace(Head(e, level), Some(level))
    decreases e, 2, 0
  {
    var head := Head(e, level);
    if 0 <= level <= 7 then
      var keys := TagOrder(e.children);
      KeysAreChildren(e);
      var body := Entries(e, DupKiller(e.children), keys, |keys|, level);
      Trace(head + body.lines, body.raisedAt)
    else
      Trace(head, Some(level))
  }

  /**
    The output of the loop at lines 198-203 over the first `n` dictionary
    keys of `keys`, one turn per key. Iteration stops at the first exception.
   */
  function Entries(parent: Node, m: map<string, Node>, keys: seq<string>, n: nat, level: int): (t: Trace)
    requires 0 <= level <= 7 && n <= |keys|
    requires Children(parent, m, keys)
    ensures t.raisedAt.Some? ==> t.raisedAt.value == 8
    decreases parent, 1, n
  {
    if n == 0 then Trace([], None)
    else
      var before := Entries(parent, m, keys, n - 1, level);
      if before.raisedAt.Some? then before
      else
        var turn := Turn(m[keys[n - 1]], level);
        Trace(before.lines + turn.lines, turn.raisedAt)
  }

  /**
    One turn of that loop for the kept child `rep`: its line, then, when it
    has children, the output of the recursive call one level deeper.
   */
  function Turn(rep: Node, level: int): (t: Trace)
    requires 0 <= level <= 7
    ensures t.raisedAt.Some? ==> t.raisedAt.value == 8
    decreases rep, 3, 0
  {
    var line := EntryLine(level, rep.tag);
    if |rep.children| > 0 then
      var sub := Walk(rep, level + 1);
      Trace([line] + sub.lines, sub.raisedAt)
    else
      Trace([line], None)
  }

  /** A childless kept child prints its own line and nothing else. */
  lemma PrintedLeaf(out: seq<string>, spacer: string, rep: Node, level: int)
    requires 0 <= level <= 7 && spacer == Indent(level) && |rep.children| == 0
    ensures out + [spacer + rep.tag] == out + Render(Turn(rep, level).lines)
    ensures Turn(rep, level).raisedAt == None
  {
    var line := EntryLine(level, rep.tag);
    assert Turn(rep, level) == Trace([line], None);
    assert [line][..0] == [];
  }

  /**
    A kept child with children prints its own line, then what the recursive
    call one level deeper prints, and raises exactly when that call does.
   */
  lemma PrintedNested(out: seq<string>, spacer: string, rep: Node, level: int)
    requires 0 <= level <= 7 && spacer == Indent(level) && |rep.children| > 0
    ensures out + [spacer + rep.tag] + Render(Walk(rep, level + 1).lines) == out + Render(Turn(rep, level).lines)
    ensures Turn(rep, level).raisedAt == Walk(rep, level + 1).raisedAt
  {
    var line := EntryLine(level, rep.tag);
    var w := Walk(rep, level + 1);
    assert Turn(rep, level) == Trace([line] + w.lines, w.raisedAt);
    assert [line][..0] == [];
    assert Render([line]) == [spacer + rep.tag];
    RenderAppend([line], w.lines);
  }

  /** A call at a level inside the table prints its head, then the loop over the dictionary. */
  lemma WalkInTable(e: Node, level: int)
    requires 0 <= level <= 7
    ensures Children(e, DupKiller(e.children), TagOrder(e.children))
    ensures var keys := TagOrder(e.children);
            var body := Entries(e, DupKiller(e.children), keys, |keys|, level);
            Walk(e, level) == Trace(Head(e, level) + body.lines, body.raisedAt)
  {
    KeysAreChildren(e);
  }

  /** One more turn of the loop, when the earlier turns raised nothing. */
  lemma EntriesStep(parent: Node, m: map<string, Node>, keys: seq<string>, n: nat, level: int)
    requires 0 <= level <= 7 && n < |keys| && Children(parent, m, keys)
    requires Entries(parent, m, keys, n, level).raisedAt.None?
    ensures keys[n] in m
    ensures var turn := Turn(m[keys[n]], level);
            Entries(parent, m, keys, n + 1, level) ==
              Trace(Entries(parent, m, keys, n, level).lines + turn.lines, turn.raisedAt)
  {
  }

  /** Once an exception has escaped, the remaining keys print nothing. */
  lemma {:induction false} EntriesStopAtRaise(parent: Node, m: map<string, Node>, keys: seq<string>, n: nat, level: int, j: nat)
    requires 0 <= level <= 7 && j <= n <= |keys| && Children(parent, m, keys)
    requires Entries(parent, m, keys, j, level).raisedAt.Some?
    ensures Entries(parent, m, keys, n, level) == Entries(parent, m, keys, j, level)
    decreases n
  {
    if j < n {
      EntriesStopAtRaise(parent, m, keys, n - 1, level, j);
    }
  }

  /** The program's state: the global `LEVEL` and what has been printed so far. */
  class TreePrinter {
    var level: int
    var output: seq<string>

    /** The module-level initialisation `LEVEL = 0`, before anything is printed. */
    constructor ()
      ensures level == 0 && output == []
    {
      level := 0;
      output := [];
    }

    /**
      `map_sub_elements(e)`. `raised` is true when UnboundLocalError escapes;
      the decrement after the failing recursive call is then skipped, so the
      level is left where `get_spacer` raised.
     */
    method MapSubElements(e: Node) returns (raised: bool)
      modifies this
      ensures output == old(output) + Render(Walk(e, old(level)).lines)
      ensures raised == Walk(e, old(level)).raisedAt.Some?
      ensures level == if raised then Walk(e, old(level)).raisedAt.value else old(level)
      decreases e, 2
    {
      ghost var out0, level0 := output, level;
      if level == 0 {
        output := output + ["\n" + e.tag];
      }
      ghost var head := out0 + Render(Head(e, level0));
      assert Render(Head(e, level0)) == if level0 == 0 then ["\n" + e.tag] else [];
      assert output == head;
      var dupKiller, keys := CollapseByTag(e.children);
      var spacer := GetSpacer(level);
      if spacer.None? {
        return true;
      }
      SpacerIsIndent(level0);
      KeysAreChildren(e);
      raised := PrintEntries(e, dupKiller, keys, spacer.value);
      WalkInTable(e, level0);
      PrintedLines(out0, Head(e, level0), Entries(e, dupKiller, keys, |keys|, level0).lines);
    }

    /**
      The loop at lines 198-203: one turn per dictionary key, in the
      dictionary's order, all at the same level, until an exception escapes.
     */
    method PrintEntries(e: Node, dupKiller: map<string, Node>, keys: seq<string>, spacer: string)
      returns (raised: bool)
      requires 0 <= level <= 7 && spacer == Indent(level) && Children(e, dupKiller, keys)
      modifies this
      ensures output == old(output) + Render(Entries(e, dupKiller, keys, |keys|, old(level)).lines)
      ensures raised == Entries(e, dupKiller, keys, |keys|, old(level)).raisedAt.Some?
      ensures level == if raised then 8 else old(level)
      decreases e, 1
    {
      ghost var out0, level0 := output, level;
      raised := false;
      var i := 0;
      while i < |keys|
        invariant 0 <= i <= |keys| && level == level0 && !raised
        invariant Entries(e, dupKiller, keys, i, level0).raisedAt == None
        invariant output == out0 + Render(Entries(e, dupKiller, keys, i, level0).lines)
      {
        EntriesStep(e, dupKiller, keys, i, level0);
        ghost var before := Entries(e, dupKiller, keys, i, level0).lines;
        var sub := dupKiller[keys[i]];
        raised := PrintEntry(spacer, sub);
        PrintedLines(out0, before, Turn(sub, level0).lines);
        assert output == out0 + Render(Entries(e, dupKiller, keys, i + 1, level0).lines);
        if raised {
          EntriesStopAtRaise(e, dupKiller, keys, |keys|, level0, i + 1);
          return;
        }
        i := i + 1;
      }
    }

    /**
      The body of the loop at lines 198-203 for the kept child `sub`: print
      its line, and when it has children increment the level, recurse and
      decrement the level again.
     */
    method PrintEntry(spacer: string, sub: Node) returns (raised: bool)
      requires 0 <= level <= 7 && spacer == Indent(level)
      modifies this
      ensures output == old(output) + Render(Turn(sub, old(level)).lines)
      ensures raised == Turn(sub, old(level)).raisedAt.Some?
      ensures level == if raised then 8 else old(level)
      decreases sub, 3
    {
      ghost var out0, level0 := output, level;
      output := output + [spacer + sub.tag];
      raised := false;
      if |sub.children| > 0 {
        level := level + 1;
        raised := MapSubElements(sub);
        PrintedNested(out0, spacer, sub, level0);
        if raised {
          return;
        }
        level := level - 1;
      } else {
        PrintedLeaf(out0, spacer, sub, level0);
      }
    }
  }
}
