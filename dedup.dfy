/**
  `dup_killer`: the dictionary `map_sub_elements` fills from a node's
  children, keyed by tag, so that a later child with a tag already seen
  overwrites the earlier one.
 */
module Dedup {
  import opened XmlTree

  /** The dictionary after inserting every child in order, last write wins. */
  function DupKiller(cs: seq<Node>): map<string, Node> {
    if cs == [] then map[]
    else
      var last := cs[|cs| - 1];
      DupKiller(cs[..|cs| - 1])[last.tag := last]
  }

  /** The dictionary has one key per distinct tag, each mapped to a child carrying that tag. */
  lemma {:induction false} DupKillerKeys(cs: seq<Node>)
    ensures DupKiller(cs).Keys == Tags(cs)
    ensures forall t :: t in DupKiller(cs) ==> DupKiller(cs)[t] in cs && DupKiller(cs)[t].tag == t
  {
    if cs != [] {
      var pre := cs[..|cs| - 1];
      DupKillerKeys(pre);
      TagsSnoc(cs);
      forall t | t in DupKiller(cs) ensures DupKiller(cs)[t] in cs {
        if t != cs[|cs| - 1].tag {
          assert DupKiller(pre)[t] in pre;
        }
      }
    }
  }

  /**
    The order in which the model iterates the dictionary: each distinct tag
    once, in the order it was first inserted.
   */
  function TagOrder(cs: seq<Node>): seq<string> {
    if cs == [] then []
    else
      var pre := TagOrder(cs[..|cs| - 1]);
      var t := cs[|cs| - 1].tag;
      if t in pre then pre else pre + [t]
  }

  /** The iteration order lists exactly the distinct tags. */
  lemma {:induction false} TagOrderKeys(cs: seq<Node>)
    ensures forall t :: t in TagOrder(cs) <==> t in Tags(cs)
    ensures |TagOrder(cs)| == |Tags(cs)|
  {
    if cs != [] {
      var pre := cs[..|cs| - 1];
      var t := cs[|cs| - 1].tag;
      TagOrderKeys(pre);
      TagsSnoc(cs);
      if t in TagOrder(pre) {
        assert Tags(cs) == Tags(pre);
      } else {
        assert Tags(cs) == Tags(pre) + {t};
      }
    }
  }

  /** Each tag occurs once in the iteration order. */
  lemma {:induction false} TagOrderDistinct(cs: seq<Node>)
    ensures forall i, j :: 0 <= i < j < |TagOrder(cs)| ==> TagOrder(cs)[i] != TagOrder(cs)[j]
  {
    if cs != [] {
      TagOrderDistinct(cs[..|cs| - 1]);
    }
  }

  /** The loop at lines 195-196, with the dictionary's key order kept beside it. */
  method CollapseByTag(cs: seq<Node>) returns (dupKiller: map<string, Node>, keys: seq<string>)
    ensures dupKiller == DupKiller(cs)
    ensures keys == TagOrder(cs)
  {
    dupKiller, keys := map[], [];
    for i := 0 to |cs|
      invariant dupKiller == DupKiller(cs[..i])
      invariant keys == TagOrder(cs[..i])
    {
      var sub := cs[i];
      assert cs[..i + 1][..i] == cs[..i];
      DupKillerKeys(cs[..i]);
      TagOrderKeys(cs[..i]);
      if sub.tag !in dupKiller {
        keys := keys + [sub.tag];
      }
      dupKiller := dupKiller[sub.tag := sub];
    }
    assert cs[..|cs|] == cs;
  }

  /** Each tag maps to the last child carrying it: no later sibling has that tag. */
  lemma {:induction false} DupKillerKeepsLast(cs: seq<Node>, i: int)
    requires 0 <= i < |cs|
    requires forall j :: i < j < |cs| ==> cs[j].tag != cs[i].tag
    ensures cs[i].tag in DupKiller(cs) && DupKiller(cs)[cs[i].tag] == cs[i]
  {
    if i < |cs| - 1 {
      var pre := cs[..|cs| - 1];
      assert pre[i] == cs[i];
      DupKillerKeepsLast(pre, i);
    }
  }

  /** The tags of the siblings, in document order, repeats included. */
  function TagList(cs: seq<Node>): (ts: seq<string>)
    ensures |ts| == |cs| && forall i :: 0 <= i < |cs| ==> ts[i] == cs[i].tag
  {
    if cs == [] then [] else TagList(cs[..|cs| - 1]) + [cs[|cs| - 1].tag]
  }

  /** Siblings with pairwise distinct tags: every tag is printed once, in document order. */
  lemma {:induction false} DistinctTagsKeepOrder(cs: seq<Node>)
    requires forall i, j :: 0 <= i < j < |cs| ==> cs[i].tag != cs[j].tag
    ensures TagOrder(cs) == TagList(cs)
  {
    if cs != [] {
      var pre := cs[..|cs| - 1];
      DistinctTagsKeepOrder(pre);
      assert cs[|cs| - 1].tag !in Tags(pre);
    }
  }

  /** Siblings with pairwise distinct tags: each tag stands for its own child, none is lost. */
  lemma DistinctTagsKeepChildren(cs: seq<Node>)
    requires forall i, j :: 0 <= i < j < |cs| ==> cs[i].tag != cs[j].tag
    ensures forall i :: 0 <= i < |cs| ==> cs[i].tag in DupKiller(cs) && DupKiller(cs)[cs[i].tag] == cs[i]
  {
    forall i | 0 <= i < |cs| ensures cs[i].tag in DupKiller(cs) && DupKiller(cs)[cs[i].tag] == cs[i] {
      DupKillerKeepsLast(cs, i);
    }
  }

  /** Children tagged a, b, a: one entry per tag, and `a` is the third child. */
  lemma RepeatedTagKeepsThird(a1: Node, b: Node, a2: Node)
    requires a1.tag == a2.tag != b.tag
    ensures TagOrder([a1, b, a2]) == [a1.tag, b.tag]
    ensures DupKiller([a1, b, a2]) == map[a2.tag := a2, b.tag := b]
  {
    var cs := [a1, b, a2];
    assert cs[..2] == [a1, b];
    assert [a1, b][..1] == [a1];
    assert [a1][..0] == [];
    assert DupKiller([a1][..0]) == map[];
    var m1 := DupKiller([a1]);
    assert m1 == map[a1.tag := a1];
    var m2 := DupKiller([a1, b]);
    assert m2 == m1[b.tag := b];
    assert DupKiller(cs) == m2[a2.tag := a2];
    assert TagOrder([a1][..0]) == [];
    assert TagOrder([a1]) == [a1.tag];
    assert TagOrder([a1, b]) == [a1.tag, b.tag];
  }

  /**
    The dictionary built from children tagged `a`, `a`, `b`: one entry per
    tag in first-seen order, `a` standing for the second child.
   */
  lemma RepeatedTagKeepsSecond(a1: Node, a2: Node, b: Node)
    requires a1.tag == a2.tag != b.tag
    ensures TagOrder([a1, a2, b]) == [a1.tag, b.tag]
    ensures DupKiller([a1, a2, b]) == map[a1.tag := a2, b.tag := b]
  {
    var cs := [a1, a2, b];
    assert cs[..2] == [a1, a2] && [a1, a2][..1] == [a1] && [a1][..0] == [];
    assert TagOrder([a1]) == [a1.tag] && DupKiller([a1]) == map[a1.tag := a1];
    assert TagOrder([a1, a2]) == [a1.tag] && DupKiller([a1, a2]) == map[a1.tag := a2];
  }
}
