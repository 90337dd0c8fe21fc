# Deduplicating XML tree printer

A model of the tree printer in `Ex7_4/xml_parser.py`. It has two parts:

- `get_spacer` picks an indentation prefix from the global nesting level `LEVEL`.
- `map_sub_elements` walks an element tree depth-first. At level 0 it prints the root tag on a line of its own (`"\n" + tag`). It collapses a node's children into the dictionary `dup_killer`, keyed by tag, so that a later child with a tag already seen replaces the earlier one. It prints one line per dictionary entry: the spacer followed by the tag. It descends one level deeper into every kept child that has children of its own, incrementing `LEVEL` before the recursive call and decrementing it afterwards.

The table in `get_spacer` covers levels 0 to 7 only. At any other level no branch assigns `spacer`, so `return spacer` raises `UnboundLocalError`. The exception escapes from every enclosing call and skips every pending `LEVEL -= 1`.

Modules:

- `XmlTree` (`xml_tree.dfy`): the element tree. It keeps only what the printer reads: a tag and the ordered children.
- `Spacer` (`spacer.dfy`): `GetSpacer` is the literal table, with `None` standing for the unbound local. `Indent` is the general rule the table follows: `3 + 4 * level` blanks, then `|__`.
- `Dedup` (`dedup.dfy`): `DupKiller` is the dictionary, with last write winning. `TagOrder` is the order in which the model iterates it: each distinct tag once, in first-seen order. `CollapseByTag` is the filling loop, proved to build both.
- `Printer` (`printer.dfy`):
  - The functions `Walk`, `Entries` and `Turn` say what a call prints, as a `Trace`: the printed lines, plus the level at which an exception was raised, if any.
  - The class `TreePrinter` holds the global `level` and the output stream `output`. Its methods `MapSubElements`, `PrintEntries` and `PrintEntry` are the procedure itself. They are proved to append exactly the rendering of that trace. They leave `level` unchanged when nothing is raised, and at the raising level when something is.
- `PrinterFacts` (`printer_facts.dfy`): properties of the whole walk. They cover:
  - where the root line can appear, and how deep lines go;
  - that every child line is its level's spacer followed by the tag;
  - that a level shows each distinct child tag exactly once;
  - exactly when the depth limit makes the walk raise;
  - the catalog example end to end.

## Model

| member | source | states |
|---|---|---|
| Spacer.GetSpacer | Ex7_4/xml_parser.py:205-222 | a prefix is produced exactly for levels 0 to 7; for any other level the lookup fails (the unbound local) |
| Spacer.SpacerIsIndent | Ex7_4/xml_parser.py:206-221 | for each level 0..7 the prefix is `3 + 4 * level` blanks followed by `\|__` |
| Spacer.IndentTable0 | Ex7_4/xml_parser.py:206-207 | the rule at level 0 gives the literal of the level-0 branch |
| Spacer.IndentTable1 | Ex7_4/xml_parser.py:208-209 | the rule at level 1 gives the literal of the level-1 branch |
| Spacer.IndentTable2 | Ex7_4/xml_parser.py:210-211 | the rule at level 2 gives the literal of the level-2 branch |
| Spacer.IndentTable3 | Ex7_4/xml_parser.py:212-213 | the rule at level 3 gives the literal of the level-3 branch |
| Spacer.IndentTable4 | Ex7_4/xml_parser.py:214-215 | the rule at level 4 gives the literal of the level-4 branch |
| Spacer.IndentTable5 | Ex7_4/xml_parser.py:216-217 | the rule at level 5 gives the literal of the level-5 branch |
| Spacer.IndentTable6 | Ex7_4/xml_parser.py:218-219 | the rule at level 6 gives the literal of the level-6 branch |
| Spacer.IndentTable7 | Ex7_4/xml_parser.py:220-221 | the rule at level 7 gives the literal of the level-7 branch |
| Spacer.IndentStep | Ex7_4/xml_parser.py:206-221 | the rule's prefix one level deeper is four blanks followed by the prefix at this level, at every level |
| Spacer.SpacerGrowsByFour | Ex7_4/xml_parser.py:206-221 | within the table, each level's prefix is four blanks followed by the previous level's prefix, so it is exactly 4 characters longer |
| Dedup.DupKiller | Ex7_4/xml_parser.py:192-196 | the dictionary `dup_killer` after the filling loop: each child in document order is stored under its tag, so a later child replaces an earlier one with the same tag; its properties are stated by `DupKillerKeys` and `DupKillerKeepsLast` |
| Dedup.DupKillerKeys | Ex7_4/xml_parser.py:192-196 | the dictionary's keys are exactly the distinct child tags, and each key maps to a child that carries that tag |
| Dedup.DupKillerKeepsLast | Ex7_4/xml_parser.py:195-196 | a child with no later sibling of the same tag is the value stored under its tag (last write wins) |
| Dedup.TagOrder | Ex7_4/xml_parser.py:198 | the order in which `for sub_element in dup_killer` visits the keys, fixed as first-seen insertion order; its properties are stated by `TagOrderKeys` and `TagOrderDistinct` |
| Dedup.TagOrderKeys | Ex7_4/xml_parser.py:198 | the iteration order lists exactly the dictionary's keys, as many as there are distinct tags |
| Dedup.TagOrderDistinct | Ex7_4/xml_parser.py:198 | the iteration visits each key once |
| Dedup.CollapseByTag | Ex7_4/xml_parser.py:192-196 | the filling loop builds the last-write-wins dictionary and its first-seen key order |
| Dedup.DistinctTagsKeepOrder | Ex7_4/xml_parser.py:195-198 | when sibling tags are pairwise distinct, the keys are visited in document order, one per child |
| Dedup.DistinctTagsKeepChildren | Ex7_4/xml_parser.py:195-196 | when sibling tags are pairwise distinct, every child is kept under its own tag: none is lost |
| Dedup.RepeatedTagKeepsThird | Ex7_4/xml_parser.py:195-198 | for children tagged a, b, a there are two keys, a then b, and a stands for the third child |
| Dedup.RepeatedTagKeepsSecond | Ex7_4/xml_parser.py:195-198 | for children tagged a, a, b there are two keys, a then b, and a stands for the second child |
| Printer.Text | Ex7_4/xml_parser.py:194-199 | the characters of a printed line: `"\n"` then the tag for the root (line 194), the level's prefix then the tag for a child (line 199); tied to `get_spacer` by `EntryText` |
| Printer.Head | Ex7_4/xml_parser.py:193-194 | the root line, printed only by a call that starts at level 0; stated over the whole walk by `RootLineOnlyAtZero` |
| Printer.EntryText | Ex7_4/xml_parser.py:197-199 | a child line at a table level is printed as that level's `get_spacer` prefix followed by the tag |
| Printer.KeysAreChildren | Ex7_4/xml_parser.py:195-199 | every key visited by the printing loop names one of the node's own children, carrying that tag |
| Printer.Walk | Ex7_4/xml_parser.py:188-203 | an exception escaping a call is raised at level 8 when the call starts inside the table; a call that starts outside it prints nothing and raises at its start level |
| Printer.Entries | Ex7_4/xml_parser.py:198-203 | an exception escaping the printing loop is always raised at level 8 |
| Printer.Turn | Ex7_4/xml_parser.py:199-203 | an exception escaping one turn of the loop is always raised at level 8 |
| Printer.EntriesStopAtRaise | Ex7_4/xml_parser.py:198-203 | once an exception has escaped, the remaining keys print nothing |
| Printer.TreePrinter.constructor | Ex7_4/xml_parser.py:17 | the program starts at level 0 with nothing printed |
| Printer.TreePrinter.MapSubElements | Ex7_4/xml_parser.py:188-203 | `map_sub_elements` appends exactly the rendering of `Walk` at the starting level; it raises exactly when `Walk` does; it leaves the level as it found it when nothing is raised, and at the raising level when something is |
| Printer.TreePrinter.PrintEntries | Ex7_4/xml_parser.py:198-203 | the loop appends exactly the rendering of `Entries` over all keys; the level is unchanged, or 8 after an exception |
| Printer.TreePrinter.PrintEntry | Ex7_4/xml_parser.py:199-203 | one turn prints the child's spacer line and, for a child with children, recurses with the level raised by one and restored afterwards; it appends exactly the rendering of `Turn` |
| PrinterFacts.WalkAtOrBelow | Ex7_4/xml_parser.py:193-203 | a call started below the root prints only child lines, none shallower than its start level |
| PrinterFacts.EntriesAtOrBelow | Ex7_4/xml_parser.py:198-203 | the loop at level d prints only child lines at level d or deeper |
| PrinterFacts.TurnAtOrBelow | Ex7_4/xml_parser.py:199-203 | one turn at level d prints only child lines at level d or deeper |
| PrinterFacts.RootLineOnlyAtZero | Ex7_4/xml_parser.py:193-194 | the root line is printed only by a call at level 0, only as its first line, and it carries the root's tag |
| PrinterFacts.WalkInTableLines | Ex7_4/xml_parser.py:197-222 | no call prints a child line deeper than level 7 |
| PrinterFacts.EntriesInTableLines | Ex7_4/xml_parser.py:198-203 | the loop prints no child line deeper than level 7 |
| PrinterFacts.TurnInTableLines | Ex7_4/xml_parser.py:199-203 | one turn prints no child line deeper than level 7 |
| PrinterFacts.PrintedWithSpacer | Ex7_4/xml_parser.py:197-199 | every child line a call prints is the `get_spacer` prefix of its level followed by the child's tag |
| PrinterFacts.TurnTagsAt | Ex7_4/xml_parser.py:199-203 | one turn shows exactly one tag at its own level, the kept child's, whatever its recursive call prints |
| PrinterFacts.EntriesTagsAt | Ex7_4/xml_parser.py:198-199 | the lines at the loop's own level name the visited keys in order: all of them without an exception, a prefix of them with one |
| PrinterFacts.WalkTagsAt | Ex7_4/xml_parser.py:192-199 | the lines at a call's own level name the dictionary's keys in iteration order, or a prefix of them when an exception escapes |
| PrinterFacts.OneLinePerDistinctTag | Ex7_4/xml_parser.py:192-199 | without an exception, the lines at a call's own level number exactly the distinct child tags, name each of them, and repeat none |
| PrinterFacts.DistinctTagsAllShown | Ex7_4/xml_parser.py:195-199 | when sibling tags are pairwise distinct and nothing raises, the lines at a call's own level name every child in document order: none is lost |
| PrinterFacts.WalkRaisesWhenTooDeep | Ex7_4/xml_parser.py:197-222 | a call started at level d in 0..7 raises exactly when d plus the height of the collapsed tree below it reaches 9 |
| PrinterFacts.EntriesRaiseWhenTooDeep | Ex7_4/xml_parser.py:198-222 | the loop raises exactly when a kept child's collapsed subtree would need a line at level 8 |
| PrinterFacts.TurnRaisesWhenTooDeep | Ex7_4/xml_parser.py:199-222 | one turn raises exactly when the kept child's collapsed subtree would need a line at level 8 |
| PrinterFacts.EntriesOfLeaves | Ex7_4/xml_parser.py:198-203 | when every visited key stands for a leaf, the loop prints exactly one line per key, in order, and raises nothing |
| PrinterFacts.LeavesOnlyWalk | Ex7_4/xml_parser.py:193-203 | a call inside the table whose kept children are all leaves prints its root line (at level 0), then exactly one line per distinct child tag in dictionary order, never recurses and raises nothing |
| PrinterFacts.TwoLeavesWalk | Ex7_4/xml_parser.py:195-203 | a node below the root with two leaf children of different tags prints both, in order, and raises nothing |
| PrinterFacts.CatalogOutline | Ex7_4/xml_parser.py:188-203 | for a root with children tagged a, a, b, where the second a has two leaves x and y, the walk from level 0 prints: the root; a at level 0; x and y at level 1; b at level 0; and it raises nothing |
| PrinterFacts.CatalogText | Ex7_4/xml_parser.py:193-199 | with the tags catalog, book, title, author and magazine, those lines print as `"\ncatalog"`, `"   \|__book"`, `"       \|__title"`, `"       \|__author"`, `"   \|__magazine"` |
| PrinterFacts.CatalogPrinted | Ex7_4/xml_parser.py:188-203 | for the catalog tree (catalog with book, book, magazine; the second book with title and author), `map_sub_elements` at level 0 raises nothing and prints exactly `"\ncatalog"`, `"   \|__book"`, `"       \|__title"`, `"       \|__author"`, `"   \|__magazine"` |

## Left out

- `main` (`Ex7_4/xml_parser.py:19-182`) is not part of this model. It does file I/O and calls into lxml: parsing, serialising, editing, attributes and xpath.
- The unused `argparse` import (line 14) and the `__main__` guard (lines 234-235) are not modelled.
- Dictionary iteration order is fixed as first-seen insertion order (`TagOrder`). Python 2 does not promise this order. Every statement about the exact output or the key order holds for that choice only. That includes the output ensures of `MapSubElements`, `PrintEntries` and `PrintEntry`, and the lemmas `WalkTagsAt`, `EntriesTagsAt`, `DistinctTagsKeepOrder`, `DistinctTagsAllShown`, `LeavesOnlyWalk`, `TwoLeavesWalk`, `RepeatedTagKeepsThird`, `RepeatedTagKeepsSecond` and the catalog lemmas. The key set and the stored values (`DupKillerKeys`, `DupKillerKeepsLast`), and the count and coverage of `OneLinePerDistinctTag`, do not depend on it.
- Standard output is modelled as the sequence of printed strings `TreePrinter.output`. Each `print` appends one element, without the trailing newline.
- The printed root line is `"\n" + tag`, as the code writes it, so the output starts with an empty line.
- The exception is modelled as a `raised` result and the `raisedAt` level of a `Trace`. The error text and the traceback are not modelled.
- `LEVEL` is a plain field of a single `TreePrinter`. Concurrent or reentrant use of the global is not modelled.
- Cycles are not modelled. `Node` is a finite datatype, and the code has no guard against them.
- An element's attributes, text, tail and namespace are not modelled, because the printer reads only `tag`, `len(element)` and the iteration over children.
- Tags are modelled as Dafny strings, and every tag prints. Two cases where the Python 2 program stops or prints something else are not modelled. A non-ASCII tag comes back from lxml as `unicode`, and formatting it into the byte string at lines 194 and 199 raises `UnicodeEncodeError`. A comment or processing-instruction child carries a function object as its `.tag`, not a tag name.
