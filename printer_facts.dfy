/**
  What `map_sub_elements` prints, stated over the whole tree: where the root
  line can appear, how deep each line is, which tags a level shows, and
  exactly when the depth limit of `get_spacer` makes the walk raise.
 */
module PrinterFacts {
  import opened Wrappers
  import opened XmlTree
  import opened Spacer
  import opened Dedup
  import opened Printer

  /** Every line is a child line at level `d` or deeper. */
  predicate AtOrBelow(lines: seq<Line>, d: int) {
    forall i :: 0 <= i < |lines| ==> lines[i].EntryLine? && lines[i].level >= d
  }

  lemma AtOrBelowAppend(a: seq<Line>, b: seq<Line>, d: int)
    requires AtOrBelow(a, d) && AtOrBelow(b, d)
    ensures AtOrBelow(a + b, d)
  {
  }

  /** A call that starts below the root prints child lines only, none shallower than its start level. */
  lemma {:induction false} WalkAtOrBelow(e: Node, d: int)
    requires d >= 1
    ensures AtOrBelow(Walk(e, d).lines, d)
    decreases e, 2, 0
  {
    if d <= 7 {
      var keys := TagOrder(e.children);
      KeysAreChildren(e);
      EntriesAtOrBelow(e, DupKiller(e.children), keys, |keys|, d);
      WalkInTable(e, d);
    }
  }

  lemma {:induction false} EntriesAtOrBelow(parent: Node, m: map<string, Node>, keys: seq<string>, n: nat, d: int)
    requires 0 <= d <= 7 && n <= |keys| && Children(parent, m, keys)
    ensures AtOrBelow(Entries(parent, m, keys, n, d).lines, d)
    decreases parent, 1, n
  {
    if n > 0 {
      EntriesAtOrBelow(parent, m, keys, n - 1, d);
      if Entries(parent, m, keys, n - 1, d).raisedAt.None? {
        var rep := m[keys[n - 1]];
        TurnAtOrBelow(rep, d);
        AtOrBelowAppend(Entries(parent, m, keys, n - 1, d).lines, Turn(rep, d).lines, d);
      }
    }
  }

  lemma {:induction false} TurnAtOrBelow(rep: Node, d: int)
    requires 0 <= d <= 7
    ensures AtOrBelow(Turn(rep, d).lines, d)
    decreases rep, 3, 0
  {
    if |rep.children| > 0 {
      WalkAtOrBelow(rep, d + 1);
      AtOrBelowAppend([EntryLine(d, rep.tag)], Walk(rep, d + 1).lines, d);
    }
  }

  /**
    The root line `"\n" + tag` is printed only by the outermost call (level
    0), and only as its first line; every other line is a child line.
   */
  lemma RootLineOnlyAtZero(e: Node, d: int)
    ensures d == 0 ==> |Walk(e, d).lines| > 0 && Walk(e, d).lines[0] == RootLine(e.tag)
    ensures forall i :: 0 <= i < |Walk(e, d).lines| ==> (Walk(e, d).lines[i].RootLine? <==> d == 0 && i == 0)
  {
    if d == 0 {
      var keys := TagOrder(e.children);
      KeysAreChildren(e);
      EntriesAtOrBelow(e, DupKiller(e.children), keys, |keys|, 0);
      WalkInTable(e, 0);
    } else if d >= 1 {
      WalkAtOrBelow(e, d);
    }
  }

  /** Every child line is at a level of the `get_spacer` table. */
  predicate InTable(lines: seq<Line>) {
    forall i :: 0 <= i < |lines| && lines[i].EntryLine? ==> lines[i].level <= 7
  }

  lemma InTableAppend(a: seq<Line>, b: seq<Line>)
    requires InTable(a) && InTable(b)
    ensures InTable(a + b)
  {
  }

  /** No call prints a child line deeper than level 7: there the spacer lookup raises instead. */
  lemma {:induction false} WalkInTableLines(e: Node, d: int)
    ensures InTable(Walk(e, d).lines)
    decreases e, 2, 0
  {
    if 0 <= d <= 7 {
      var keys := TagOrder(e.children);
      KeysAreChildren(e);
      EntriesInTableLines(e, DupKiller(e.children), keys, |keys|, d);
      WalkInTable(e, d);
      InTableAppend(Head(e, d), Entries(e, DupKiller(e.children), keys, |keys|, d).lines);
    }
  }

  lemma {:induction false} EntriesInTableLines(parent: Node, m: map<string, Node>, keys: seq<string>, n: nat, d: int)
    requires 0 <= d <= 7 && n <= |keys| && Children(parent, m, keys)
    ensures InTable(Entries(parent, m, keys, n, d).lines)
    decreases parent, 1, n
  {
    if n > 0 {
      EntriesInTableLines(parent, m, keys, n - 1, d);
      if Entries(parent, m, keys, n - 1, d).raisedAt.None? {
        var rep := m[keys[n - 1]];
        TurnInTableLines(rep, d);
        InTableAppend(Entries(parent, m, keys, n - 1, d).lines, Turn(rep, d).lines);
      }
    }
  }

  lemma {:induction false} TurnInTableLines(rep: Node, d: int)
    requires 0 <= d <= 7
    ensures InTable(Turn(rep, d).lines)
    decreases rep, 3, 0
  {
    if |rep.children| > 0 {
      WalkInTableLines(rep, d + 1);
      InTableAppend([EntryLine(d, rep.tag)], Walk(rep, d + 1).lines);
    }
  }

  /**
    Every child line a call prints is the `get_spacer` prefix of that line's
    level followed by the child's tag.
   */
  lemma PrintedWithSpacer(e: Node, d: int)
    ensures var lines := Walk(e, d).lines;
            forall i :: 0 <= i < |lines| && lines[i].EntryLine? ==>
              GetSpacer(lines[i].level).Some? &&
              Render(lines)[i] == GetSpacer(lines[i].level).value + lines[i].tag
  {
    var lines := Walk(e, d).lines;
    WalkInTableLines(e, d);
    forall i | 0 <= i < |lines| && lines[i].EntryLine?
      ensures GetSpacer(lines[i].level).Some?
      ensures Render(lines)[i] == GetSpacer(lines[i].level).value + lines[i].tag
    {
      EntryText(lines[i].level, lines[i].tag);
    }
  }

  /** The tags of the lines printed at exactly level `d`, in printing order. */
  function TagsAt(lines: seq<Line>, d: int): seq<string> {
    if lines == [] then []
    else
      var last := lines[|lines| - 1];
      TagsAt(lines[..|lines| - 1], d) + (if last.EntryLine? && last.level == d then [last.tag] else [])
  }

  lemma {:induction false} TagsAtAppend(a: seq<Line>, b: seq<Line>, d: int)
    ensures TagsAt(a + b, d) == TagsAt(a, d) + TagsAt(b, d)
    decreases |b|
  {
    if b == [] {
      assert a + b == a;
    } else {
      assert (a + b)[..|a + b| - 1] == a + b[..|b| - 1];
      TagsAtAppend(a, b[..|b| - 1], d);
    }
  }

  lemma {:induction false} TagsAtDeeper(lines: seq<Line>, d: int)
    requires AtOrBelow(lines, d + 1)
    ensures TagsAt(lines, d) == []
    decreases |lines|
  {
    if lines != [] {
      TagsAtDeeper(lines[..|lines| - 1], d);
    }
  }

  /** A turn shows exactly one tag at its own level: the kept child's. */
  lemma TurnTagsAt(rep: Node, d: int)
    requires 0 <= d <= 7
    ensures TagsAt(Turn(rep, d).lines, d) == [rep.tag]
  {
    var line := EntryLine(d, rep.tag);
    assert TagsAt([line], d) == [rep.tag] by {
      assert [line][..0] == [];
    }
    if |rep.children| > 0 {
      WalkAtOrBelow(rep, d + 1);
      TagsAtDeeper(Walk(rep, d + 1).lines, d);
      TagsAtAppend([line], Walk(rep, d + 1).lines, d);
    }
  }

  /**
    The first `n` turns show, at their own level, the first `n` keys when
    none raised, and a prefix of them in any case.
   */
  lemma {:induction false} EntriesTagsAt(parent: Node, m: map<string, Node>, keys: seq<string>, n: nat, d: int)
    requires 0 <= d <= 7 && n <= |keys| && Children(parent, m, keys)
    ensures Entries(parent, m, keys, n, d).raisedAt.None? ==> TagsAt(Entries(parent, m, keys, n, d).lines, d) == keys[..n]
    ensures TagsAt(Entries(parent, m, keys, n, d).lines, d) <= keys[..n]
    decreases n
  {
    if n > 0 {
      var before := Entries(parent, m, keys, n - 1, d);
      var now := Entries(parent, m, keys, n, d);
      var pre, k := keys[..n - 1], keys[n - 1];
      assert keys[..n] == pre + [k];
      EntriesTagsAt(parent, m, keys, n - 1, d);
      if before.raisedAt.Some? {
        assert now == before;
        assert TagsAt(now.lines, d) <= pre;
      } else {
        var turn := Turn(m[k], d);
        assert now == Trace(before.lines + turn.lines, turn.raisedAt);
        TurnTagsAt(m[k], d);
        TagsAtAppend(before.lines, turn.lines, d);
        assert TagsAt(now.lines, d) == pre + [k];
      }
    }
  }

  /**
    A call at a level inside the table shows, at that level, one line per
    distinct child tag in dictionary order when nothing raises, and a
    prefix of that order when something does.
   */
  lemma WalkTagsAt(e: Node, d: int)
    requires 0 <= d <= 7
    ensures Walk(e, d).raisedAt.None? ==> TagsAt(Walk(e, d).lines, d) == TagOrder(e.children)
    ensures TagsAt(Walk(e, d).lines, d) <= TagOrder(e.children)
  {
    var keys := TagOrder(e.children);
    var m := DupKiller(e.children);
    KeysAreChildren(e);
    WalkInTable(e, d);
    EntriesTagsAt(e, m, keys, |keys|, d);
    assert keys[..|keys|] == keys;
    var head := Head(e, d);
    assert TagsAt(head, d) == [] by {
      if d == 0 {
        assert head[..0] == [];
      }
    }
    TagsAtAppend(head, Entries(e, m, keys, |keys|, d).lines, d);
  }

  /**
    Without an exception, the lines at a call's own level name every
    distinct child tag exactly once: as many lines as distinct tags, none
    missing and none repeated.
   */
  lemma OneLinePerDistinctTag(e: Node, d: int)
    requires 0 <= d <= 7 && Walk(e, d).raisedAt.None?
    ensures var shown := TagsAt(Walk(e, d).lines, d);
            |shown| == |Tags(e.children)| &&
            (forall t :: t in shown <==> t in Tags(e.children)) &&
            (forall i, j :: 0 <= i < j < |shown| ==> shown[i] != shown[j])
  {
    WalkTagsAt(e, d);
    TagOrderKeys(e.children);
    TagOrderDistinct(e.children);
  }

  /**
    Siblings with pairwise distinct tags: without an exception, the lines at
    the call's own level name every child, in document order.
   */
  lemma DistinctTagsAllShown(e: Node, d: int)
    requires 0 <= d <= 7 && Walk(e, d).raisedAt.None?
    requires forall i, j :: 0 <= i < j < |e.children| ==> e.children[i].tag != e.children[j].tag
    ensures TagsAt(Walk(e, d).lines, d) == TagList(e.children)
  {
    WalkTagsAt(e, d);
    DistinctTagsKeepOrder(e.children);
  }

  /**
    How many levels of lines the walk below `e` needs, counting only the
    children that survive the collapse: 0 for a leaf, otherwise one more
    than the deepest kept child.
   */
  function KeptHeight(e: Node): nat
    decreases e, 1
  {
    if |e.children| == 0 then 0
    else
      var keys := TagOrder(e.children);
      KeysAreChildren(e);
      1 + MaxKeptHeight(e, DupKiller(e.children), keys, |keys|)
  }

  /** The largest `KeptHeight` among the first `n` kept children. */
  function MaxKeptHeight(parent: Node, m: map<string, Node>, keys: seq<string>, n: nat): nat
    requires n <= |keys| && Children(parent, m, keys)
    decreases parent, 0, n
  {
    if n == 0 then 0
    else
      var h := KeptHeight(m[keys[n - 1]]);
      var rest := MaxKeptHeight(parent, m, keys, n - 1);
      if h > rest then h else rest
  }

  /**
    A call started at a level inside the table raises exactly when the
    collapsed tree below it would need a line at level 8 or deeper, that is
    when its start level plus the kept height reaches 9.
   */
  lemma {:induction false} WalkRaisesWhenTooDeep(e: Node, d: int)
    requires 0 <= d <= 7
    ensures Walk(e, d).raisedAt.Some? <==> d + KeptHeight(e) >= 9
    decreases e, 2, 0
  {
    var keys := TagOrder(e.children);
    var m := DupKiller(e.children);
    KeysAreChildren(e);
    WalkInTable(e, d);
    EntriesRaiseWhenTooDeep(e, m, keys, |keys|, d);
    if |e.children| == 0 {
      assert keys == [];
    }
  }

  lemma {:induction false} EntriesRaiseWhenTooDeep(parent: Node, m: map<string, Node>, keys: seq<string>, n: nat, d: int)
    requires 0 <= d <= 7 && n <= |keys| && Children(parent, m, keys)
    ensures Entries(parent, m, keys, n, d).raisedAt.Some? <==> d + 1 + MaxKeptHeight(parent, m, keys, n) >= 9
    decreases parent, 1, n
  {
    if n > 0 {
      EntriesRaiseWhenTooDeep(parent, m, keys, n - 1, d);
      TurnRaisesWhenTooDeep(m[keys[n - 1]], d);
    }
  }

  lemma {:induction false} TurnRaisesWhenTooDeep(rep: Node, d: int)
    requires 0 <= d <= 7
    ensures Turn(rep, d).raisedAt.Some? <==> d + 1 + KeptHeight(rep) >= 9
    decreases rep, 3, 0
  {
    if |rep.children| > 0 && d < 7 {
      WalkRaisesWhenTooDeep(rep, d + 1);
    }
  }

  /** A leaf prints its own line and is never descended into. */
  lemma LeafTurn(rep: Node, d: int)
    requires 0 <= d <= 7 && |rep.children| == 0
    ensures Turn(rep, d) == Trace([EntryLine(d, rep.tag)], None)
  {
  }

  /** One line at level `d` for each of the first `n` keys. */
  function KeyLines(keys: seq<string>, n: nat, d: nat): seq<Line>
    requires n <= |keys|
  {
    seq(n, i requires 0 <= i < n => EntryLine(d, keys[i]))
  }

  /** When every kept child is a leaf, the loop prints one line per key and never recurses. */
  lemma {:induction false} EntriesOfLeaves(parent: Node, m: map<string, Node>, keys: seq<string>, n: nat, d: int)
    requires 0 <= d <= 7 && n <= |keys| && Children(parent, m, keys)
    requires forall k :: k in keys ==> m[k].children == []
    ensures Entries(parent, m, keys, n, d) == Trace(KeyLines(keys, n, d), None)
  {
    if n > 0 {
      EntriesOfLeaves(parent, m, keys, n - 1, d);
      assert m[keys[n - 1]].children == [];
      assert KeyLines(keys, n, d) == KeyLines(keys, n - 1, d) + [EntryLine(d, keys[n - 1])];
    }
  }

  /**
    A node whose kept children are all leaves prints its root line (at level
    0), then exactly one line per distinct child tag in dictionary order,
    and raises nothing.
   */
  lemma LeavesOnlyWalk(e: Node, d: int)
    requires 0 <= d <= 7
    requires forall k :: k in DupKiller(e.children) ==> DupKiller(e.children)[k].children == []
    ensures var keys := TagOrder(e.children);
            Walk(e, d) == Trace(Head(e, d) + KeyLines(keys, |keys|, d), None)
  {
    var keys := TagOrder(e.children);
    WalkInTable(e, d);
    EntriesOfLeaves(e, DupKiller(e.children), keys, |keys|, d);
  }

  /** A node whose two children are leaves with different tags: both are printed, in order. */
  lemma TwoLeavesWalk(e: Node, d: int)
    requires 1 <= d <= 7 && |e.children| == 2
    requires e.children[0].children == [] && e.children[1].children == []
    requires e.children[0].tag != e.children[1].tag
    ensures Walk(e, d) == Trace([EntryLine(d, e.children[0].tag), EntryLine(d, e.children[1].tag)], None)
  {
    var a, b := e.children[0], e.children[1];
    assert e.children == [a, b];
    assert [a, b][..1] == [a];
    assert [a][..0] == [];
    assert DupKiller([a]) == DupKiller([])[a.tag := a];
    assert TagOrder([a]) == [a.tag];
    var keys := TagOrder(e.children);
    var m := DupKiller(e.children);
    assert keys == [a.tag, b.tag];
    assert m == map[a.tag := a, b.tag := b];
    KeysAreChildren(e);
    LeafTurn(a, d);
    LeafTurn(b, d);
    assert Entries(e, m, keys, 1, d) == Trace([EntryLine(d, a.tag)], None);
  }

  /**
    The catalog example, for any tags: a root whose children are tagged `a`,
    `a`, `b`, where only the second `a` has children, two leaves tagged `x`
    and `y`. The first `a` is dropped, the second is shown and descended
    into, and nothing raises.
   */
  lemma CatalogOutline(root: Node, a1: Node, a2: Node, b: Node, x: Node, y: Node)
    requires root.children == [a1, a2, b] && a1.tag == a2.tag != b.tag
    requires a1.children == [] && b.children == [] && x.children == [] && y.children == []
    requires a2.children == [x, y] && x.tag != y.tag
    ensures Walk(root, 0) == Trace([RootLine(root.tag), EntryLine(0, a2.tag), EntryLine(1, x.tag),
                                    EntryLine(1, y.tag), EntryLine(0, b.tag)], None)
  {
    RepeatedTagKeepsSecond(a1, a2, b);
    WalkInTable(root, 0);
    var keys, m := TagOrder(root.children), DupKiller(root.children);
    TwoLeavesWalk(a2, 1);
    LeafTurn(b, 0);
    EntriesStep(root, m, keys, 0, 0);
    EntriesStep(root, m, keys, 1, 0);
  }

  /** What the catalog example prints with its own tags. */
  lemma CatalogText(lines: seq<Line>)
    requires lines == [RootLine("catalog"), EntryLine(0, "book"), EntryLine(1, "title"),
                       EntryLine(1, "author"), EntryLine(0, "magazine")]
    ensures Render(lines) == ["\ncatalog", "   |__book", "       |__title", "       |__author", "   |__magazine"]
  {
    var out := Render(lines);
    IndentTable0();
    IndentTable1();
    assert out[0] == "\ncatalog";
    assert out[1] == "   |__book";
    assert out[2] == "       |__title";
    assert out[3] == "       |__author";
    assert out[4] == "   |__magazine";
  }

  /** The catalog example end to end: what `map_sub_elements` prints for it, and that it does not raise. */
  lemma CatalogPrinted(root: Node, book1: Node, book2: Node, magazine: Node, title: Node, author: Node)
    requires root == Node("catalog", [book1, book2, magazine])
    requires book1 == Node("book", []) && magazine == Node("magazine", [])
    requires title == Node("title", []) && author == Node("author", [])
    requires book2 == Node("book", [title, author])
    ensures Walk(root, 0).raisedAt == None
    ensures Render(Walk(root, 0).lines) ==
              ["\ncatalog", "   |__book", "       |__title", "       |__author", "   |__magazine"]
  {
    CatalogOutline(root, book1, book2, magazine, title, author);
    CatalogText(Walk(root, 0).lines);
  }
}
