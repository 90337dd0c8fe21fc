/**
  The element tree the printer walks. Only the two things the printer reads
  from an lxml element are kept: its tag and its ordered children
  (`len(element)` is the number of children, `for sub in element` visits
  them in document order).
 */
module XmlTree {
  datatype Node = Node(tag: string, children: seq<Node>)

  /** The set of tags carried by a sequence of sibling elements. */
  function Tags(cs: seq<Node>): set<string> {
    set i | 0 <= i < |cs| :: cs[i].tag
  }

  /** Tags of all but the last sibling, plus the last sibling's tag. */
  lemma TagsSnoc(cs: seq<Node>)
    requires |cs| > 0
    ensures Tags(cs) == Tags(cs[..|cs| - 1]) + {cs[|cs| - 1].tag}
  {
    var pre := cs[..|cs| - 1];
    forall t | t in Tags(cs) ensures t in Tags(pre) + {cs[|cs| - 1].tag} {
      var i :| 0 <= i < |cs| && cs[i].tag == t;
      if i < |cs| - 1 { assert pre[i] == cs[i]; }
    }
    forall t | t in Tags(pre) ensures t in Tags(cs) {
      var i :| 0 <= i < |pre| && pre[i].tag == t;
      assert cs[i] == pre[i];
    }
  }
}
