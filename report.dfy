/**
 * `export_markdown`: the story as a list of Markdown lines, joined by newlines. A
 * preamble with the title and description, then one section per node, the start node
 * first.
 */
module Report {
  import opened Wrappers
  import opened Entities
  import opened Text
  import opened Sequences

  /** The order in which nodes are exported: the start node first when it is a key, the rest in stored order. */
  function ExportOrder(s: StoryData): (r: seq<string>)
    requires WellFormed(s)
    ensures NoDups(r) && |r| == |s.order|
    ensures forall k :: k in r <==> k in s.nodes
    ensures s.start.Some? && s.start.value in s.nodes ==> r[0] == s.start.value && r[1..] == RemoveAll(s.order, s.start.value)
    ensures s.start.Some? && s.start.value in s.nodes ==> IsSubsequence(r[1..], s.order)
    ensures !(s.start.Some? && s.start.value in s.nodes) ==> r == s.order
  {
    if s.start.Some? && s.start.value in s.order then
      var k := s.start.value;
      var rest := RemoveAll(s.order, k);
      NoDupsCons(k, rest);
      assert |rest| < |s.order| by { RemovePresentShrinks(s.order, k); }
      assert |rest| + 1 >= |s.order| by { RemoveDistinctLength(s.order, k); }
      [k] + rest
    else
      s.order
  }

  /** Removing a present element shortens a list. */
  lemma {:induction false} RemovePresentShrinks(xs: seq<string>, x: string)
    requires x in xs
    ensures |RemoveAll(xs, x)| < |xs|
  {
    if xs[0] != x {
      RemovePresentShrinks(xs[1..], x);
    }
  }

  /** Removing an element from a list without duplicates drops at most one entry. */
  lemma {:induction false} RemoveDistinctLength(xs: seq<string>, x: string)
    requires NoDups(xs)
    ensures |RemoveAll(xs, x)| + 1 >= |xs|
  {
    if xs != [] {
      assert NoDups(xs[1..]) by {
        forall a, b | 0 <= a < b < |xs[1..]| ensures xs[1..][a] != xs[1..][b] {
          assert xs[a + 1] != xs[b + 1];
        }
      }
      if xs[0] == x {
        assert x !in xs[1..] by {
          forall j | 0 <= j < |xs[1..]| ensures xs[1..][j] != x {
            assert xs[j + 1] != xs[0];
          }
        }
      } else {
        RemoveDistinctLength(xs[1..], x);
      }
    }
  }

  /** `# title`, a blank line, and the description followed by a blank line when there is one. */
  function Preamble(s: StoryData): (r: seq<string>)
    ensures |r| == if s.description == "" then 2 else 4
    ensures r[0] == "# " + s.title && r[1] == ""
    ensures s.description != "" ==> r[2] == s.description && r[3] == ""
  {
    ["# " + s.title, ""] + (if s.description != "" then [s.description, ""] else [])
  }

  /** `## title (id[:8])`. */
  function Heading(nid: string, n: Node): (r: string)
    ensures "## " + n.title + " (" <= r
    ensures r == "## " + n.title + " (" + Prefix(nid, 8) + ")"
    ensures |nid| <= 8 ==> r == "## " + n.title + " (" + nid + ")"
  {
    "## " + n.title + " (" + Prefix(nid, 8) + ")"
  }

  /** The italic line of non-empty NPC, location and emotion, present when any of them is. */
  function MetaLines(n: Node): (r: seq<string>)
    ensures |r| == if n.npc == "" && n.location == "" && n.emotion == "" then 0 else 1
    ensures r != [] ==> r[0] == "*" + Join(NonEmpty([n.npc, n.location, n.emotion]), " \U{2022} ") + "*"
  {
    if n.npc != "" || n.location != "" || n.emotion != "" then
      ["*" + Join(NonEmpty([n.npc, n.location, n.emotion]), " \U{2022} ") + "*"]
    else []
  }

  /** `Tags: ...`, present when the node has tags. */
  function TagLines(n: Node): (r: seq<string>)
    ensures |r| == if n.tags == [] then 0 else 1
    ensures r != [] ==> r[0] == "Tags: " + Join(n.tags, ", ")
  {
    if n.tags != [] then ["Tags: " + Join(n.tags, ", ")] else []
  }

  /** The GM-notes line and the blank line before it. */
  function GmLines(n: Node, detailed: bool): (r: seq<string>)
    ensures r != [] <==> detailed && n.gmNotes != ""
    ensures r != [] ==> r == ["", "> **GM Notes:** " + n.gmNotes]
  {
    if detailed && n.gmNotes != "" then ["", "> **GM Notes:** " + n.gmNotes] else []
  }

  /** The bullet for one choice: text, the gate in brackets, the target's id prefix, the tags. */
  function ChoiceLine(c: Choice): (r: string)
    ensures "- " + c.text <= r
    ensures "- " + c.text + (if c.gate != "" then " [" + c.gate + "]" else "")
      + " \U{2192} `" + Prefix(c.targetId, 8) + "`" <= r
  {
    var gate := if c.gate != "" then " [" + c.gate + "]" else "";
    var tag := if c.tags != [] then " (tags: " + Join(c.tags, ", ") + ")" else "";
    var r := "- " + c.text + gate + " \U{2192} `" + Prefix(c.targetId, 8) + "`" + tag;
    assert r == "- " + c.text + (gate + " \U{2192} `" + Prefix(c.targetId, 8) + "`" + tag);
    r
  }

  /**
   * A choice's bullet shows the gate in brackets right after the text when it has one,
   * and a choice with neither gate nor tags is just its text and its target's id prefix.
   */
  lemma ChoiceLineDecorations(c: Choice)
    ensures c.gate != "" ==> "- " + c.text + " [" + c.gate + "]" <= ChoiceLine(c)
    ensures c.gate == "" ==> "- " + c.text + " \U{2192} `" <= ChoiceLine(c)
    ensures c.gate == "" && c.tags == [] ==> ChoiceLine(c) == "- " + c.text + " \U{2192} `" + Prefix(c.targetId, 8) + "`"
  {
    var p, arrow := "- " + c.text, " \U{2192} `" + Prefix(c.targetId, 8) + "`";
    if c.gate != "" {
      assert p + " [" + c.gate + "]" <= p + " [" + c.gate + "]" + arrow;
    } else {
      assert p + " \U{2192} `" <= p + arrow;
      assert c.tags == [] ==> ChoiceLine(c) == p + "" + arrow + "";
    }
  }

  /**
   * A choice's bullet ends at the target's id prefix in backticks when the choice has no
   * tags, and with ` (tags: ...)` listing them when it has some.
   */
  lemma ChoiceLineEnding(c: Choice)
    ensures c.tags == [] ==> ChoiceLine(c)[|ChoiceLine(c)| - 1] == '`'
    ensures c.tags == [] && c.gate != "" ==>
      ChoiceLine(c) == "- " + c.text + " [" + c.gate + "]" + " \U{2192} `" + Prefix(c.targetId, 8) + "`"
    ensures c.tags != [] ==> var suffix := " (tags: " + Join(c.tags, ", ") + ")";
      |suffix| <= |ChoiceLine(c)| && ChoiceLine(c)[|ChoiceLine(c)| - |suffix|..] == suffix
  {
    var gate := if c.gate != "" then " [" + c.gate + "]" else "";
    var tag := if c.tags != [] then " (tags: " + Join(c.tags, ", ") + ")" else "";
    var head := "- " + c.text + gate + " \U{2192} `" + Prefix(c.targetId, 8) + "`";
    assert ChoiceLine(c) == head + tag;
    assert (head + tag)[|head + tag| - |tag|..] == tag;
    if c.tags == [] {
      assert head + tag == head;
    }
  }

  /** One bullet per choice, in order. */
  function ChoiceLines(cs: seq<Choice>): (r: seq<string>)
    ensures |r| == |cs|
    ensures forall i :: 0 <= i < |cs| ==> r[i] == ChoiceLine(cs[i])
  {
    if cs == [] then [] else [ChoiceLine(cs[0])] + ChoiceLines(cs[1..])
  }

  /** The choices block: a blank line, `**Choices**` and the bullets, present when there are choices. */
  function ChoiceBlock(cs: seq<Choice>): (r: seq<string>)
    ensures cs == [] ==> r == []
    ensures cs != [] ==> |r| == |cs| + 2 && r[..2] == ["", "**Choices**"] && r[2..] == ChoiceLines(cs)
  {
    if cs != [] then ["", "**Choices**"] + ChoiceLines(cs) else []
  }

  /** The section for node `n` stored under `nid`. */
  function Section(nid: string, n: Node, detailed: bool): (r: seq<string>)
    ensures |r| >= 4 + |MetaLines(n)| + |TagLines(n)| && r[0] == Heading(nid, n) && r[|r| - 1] == ""
    ensures r[1 + |MetaLines(n)| + |TagLines(n)|] == "" && r[2 + |MetaLines(n)| + |TagLines(n)|] == n.text
  {
    var top := [Heading(nid, n)] + MetaLines(n) + TagLines(n) + ["", n.text];
    assert top[|top| - 2..] == ["", n.text];
    top + GmLines(n, detailed) + ChoiceBlock(n.choices) + [""]
  }

  /** A section opens with its heading, has one bullet per choice, and ends with a blank line. */
  lemma SectionShape(nid: string, n: Node, detailed: bool)
    ensures var r := Section(nid, n, detailed);
      r[0] == Heading(nid, n) && r[|r| - 1] == ""
      && |r| == 4 + |MetaLines(n)| + |TagLines(n)| + (if detailed && n.gmNotes != "" then 2 else 0)
                + (if n.choices == [] then 0 else |n.choices| + 2)
      && (forall i :: 0 <= i < |n.choices| ==> ChoiceLine(n.choices[i]) in r)
  {
    var r := Section(nid, n, detailed);
    var pre := [Heading(nid, n)] + MetaLines(n) + TagLines(n) + ["", n.text] + GmLines(n, detailed);
    assert r == pre + ChoiceBlock(n.choices) + [""];
    forall i | 0 <= i < |n.choices| ensures ChoiceLine(n.choices[i]) in r {
      assert r[|pre| + 2 + i] == ChoiceBlock(n.choices)[2 + i];
    }
  }

  /**
   * The lines of a section in order: the heading, the meta and tags lines, a blank line,
   * the node's text, the GM-notes lines, the choices block and a closing blank line.
   */
  lemma SectionLayout(nid: string, n: Node, detailed: bool)
    ensures var r := Section(nid, n, detailed);
      var m, g := |MetaLines(n)| + |TagLines(n)|, |GmLines(n, detailed)|;
      |r| == 4 + m + g + |ChoiceBlock(n.choices)|
      && r[1..1 + m] == MetaLines(n) + TagLines(n)
      && r[3 + m..3 + m + g] == GmLines(n, detailed)
      && r[3 + m + g..|r| - 1] == ChoiceBlock(n.choices)
  {
    var m, t := MetaLines(n), TagLines(n);
    ThreeSlices([Heading(nid, n)], m + t, ["", n.text], GmLines(n, detailed), ChoiceBlock(n.choices), [""]);
    assert [Heading(nid, n)] + m + t == [Heading(nid, n)] + (m + t);
  }

  /** The section of the node stored under a key of `s`. */
  function SectionFor(s: StoryData, detailed: bool): (f: string --> seq<string>)
    ensures forall k :: k in s.nodes ==> f.requires(k) && f(k) == Section(k, s.nodes[k], detailed)
  {
    k requires k in s.nodes => Section(k, s.nodes[k], detailed)
  }

  /** The blocks of the report in order: the preamble, then one section per key of the export order (`ReportPartsAt`). */
  function ReportParts(s: StoryData, detailed: bool): (r: seq<seq<string>>)
    requires WellFormed(s)
    ensures |r| == |ExportOrder(s)| + 1 && r[0] == Preamble(s)
  {
    [Preamble(s)] + Map(SectionFor(s, detailed), ExportOrder(s))
  }

  /** Block `i + 1` of the report is the section of key `i` of the export order. */
  lemma ReportPartsAt(s: StoryData, detailed: bool, i: nat)
    requires WellFormed(s) && i < |ExportOrder(s)|
    ensures ReportParts(s, detailed)[i + 1] == Section(ExportOrder(s)[i], s.nodes[ExportOrder(s)[i]], detailed)
  {
    MapAt(SectionFor(s, detailed), ExportOrder(s), i);
  }

  /** Every line `export_markdown` produces, in order: the blocks end to end, the preamble first. */
  function ExportLines(s: StoryData, detailed: bool): (r: seq<string>)
    requires WellFormed(s)
    ensures |r| >= 2 && Preamble(s) <= r
    ensures |r| == TotalLength(ReportParts(s, detailed))
  {
    var parts := ReportParts(s, detailed);
    ConcatPartAt(parts, 0, Preamble(s));
    assert parts[..0] == [];
    Concat(parts)
  }

  /**
   * `export_markdown`: the lines joined by newlines, one newline fewer than lines
   * (`ExportMarkdownLine` places each line in the text).
   */
  function ExportMarkdown(s: StoryData, detailed: bool): (r: string)
    requires WellFormed(s)
    ensures "# " + s.title + "\n" <= r
    ensures var lines := ExportLines(s, detailed);
      |r| == TotalLength(lines) + |lines| - 1
  {
    JoinLength(ExportLines(s, detailed), "\n");
    Join(ExportLines(s, detailed), "\n")
  }

  /**
   * Line `i` of the report sits in the text after the lines before it and one newline per
   * line before it, and a newline follows it unless it is the last.
   */
  lemma ExportMarkdownLine(s: StoryData, detailed: bool, lines: seq<string>, md: string, i: nat)
    requires WellFormed(s) && lines == ExportLines(s, detailed) && md == ExportMarkdown(s, detailed)
    requires i < |lines|
    ensures PartAt(md, TotalLength(lines[..i]) + i, lines[i])
    ensures i + 1 < |lines| ==> PartAt(md, TotalLength(lines[..i]) + i + |lines[i]|, "\n")
  {
    JoinLinesAt(lines, md, i);
  }

  /**
   * The section of key `i` of the export order sits in the report's lines right after the
   * preamble and the sections before it, and opens with that node's heading.
   */
  lemma SectionInReport(s: StoryData, detailed: bool, i: nat)
    requires WellFormed(s) && i < |ExportOrder(s)|
    ensures PartAt(ExportLines(s, detailed), TotalLength(ReportParts(s, detailed)[..i + 1]),
      Section(ExportOrder(s)[i], s.nodes[ExportOrder(s)[i]], detailed))
    ensures ExportLines(s, detailed)[TotalLength(ReportParts(s, detailed)[..i + 1])]
      == Heading(ExportOrder(s)[i], s.nodes[ExportOrder(s)[i]])
  {
    var ks := ExportOrder(s);
    ReportPartsAt(s, detailed, i);
    ConcatPartAt(ReportParts(s, detailed), i + 1, Section(ks[i], s.nodes[ks[i]], detailed));
  }

  /**
   * The report has exactly one section per node: the export order lists every node once,
   * and each node's section, opening with its heading, sits in the report's lines in that
   * order, the sections filling the report after the preamble.
   */
  lemma OneSectionPerNode(s: StoryData, detailed: bool)
    requires WellFormed(s)
    ensures |ExportOrder(s)| == |s.nodes| && forall k :: k in s.nodes ==> multiset(ExportOrder(s))[k] == 1
    ensures |ExportLines(s, detailed)| == TotalLength(ReportParts(s, detailed))
    ensures forall i :: 0 <= i < |ExportOrder(s)| ==>
      PartAt(ExportLines(s, detailed), TotalLength(ReportParts(s, detailed)[..i + 1]),
        Section(ExportOrder(s)[i], s.nodes[ExportOrder(s)[i]], detailed))
      && ExportLines(s, detailed)[TotalLength(ReportParts(s, detailed)[..i + 1])]
        == Heading(ExportOrder(s)[i], s.nodes[ExportOrder(s)[i]])
  {
    var ks := ExportOrder(s);
    OrderCountsNodes(s);
    forall k | k in s.nodes ensures multiset(ks)[k] == 1 {
      DistinctOnce(ks, k);
    }
    forall i | 0 <= i < |ks|
      ensures PartAt(ExportLines(s, detailed), TotalLength(ReportParts(s, detailed)[..i + 1]),
          Section(ks[i], s.nodes[ks[i]], detailed))
        && ExportLines(s, detailed)[TotalLength(ReportParts(s, detailed)[..i + 1])] == Heading(ks[i], s.nodes[ks[i]])
    {
      SectionInReport(s, detailed, i);
    }
  }

  /** A list without duplicates holds each of its elements exactly once. */
  lemma {:induction false} DistinctOnce(xs: seq<string>, x: string)
    requires NoDups(xs) && x in xs
    ensures multiset(xs)[x] == 1
  {
    assert xs == [xs[0]] + xs[1..];
    assert NoDups(xs[1..]) by {
      forall a, b | 0 <= a < b < |xs[1..]| ensures xs[1..][a] != xs[1..][b] {
        assert xs[a + 1] != xs[b + 1];
      }
    }
    assert xs[0] !in xs[1..] by {
      forall j | 0 <= j < |xs[1..]| ensures xs[1..][j] != xs[0] {
        assert xs[j + 1] != xs[0];
      }
    }
    if xs[0] == x {
      assert multiset(xs[1..])[x] == 0;
    } else {
      DistinctOnce(xs[1..], x);
    }
  }

  /** The key order of a well-formed story counts its nodes. */
  lemma OrderCountsNodes(s: StoryData)
    requires WellFormed(s)
    ensures |s.nodes| == |s.order|
  {
    assert (set k | k in s.order) == s.nodes.Keys;
    DistinctCount(s.order);
  }

  /** A list without duplicates has as many elements as its set. */
  lemma {:induction false} DistinctCount(xs: seq<string>)
    requires NoDups(xs)
    ensures |set k | k in xs| == |xs|
  {
    if xs != [] {
      assert NoDups(xs[1..]) by {
        forall a, b | 0 <= a < b < |xs[1..]| ensures xs[1..][a] != xs[1..][b] {
          assert xs[a + 1] != xs[b + 1];
        }
      }
      DistinctCount(xs[1..]);
      assert (set k | k in xs) == (set k | k in xs[1..]) + {xs[0]};
      assert xs[0] !in (set k | k in xs[1..]) by {
        forall j | 0 <= j < |xs[1..]| ensures xs[1..][j] != xs[0] {
          assert xs[j + 1] != xs[0];
        }
      }
    }
  }

  /** When the start node is a key, its heading is the first line after the preamble. */
  lemma {:induction false} StartFirst(s: StoryData, detailed: bool)
    requires WellFormed(s) && s.start.Some? && s.start.value in s.nodes
    ensures |Preamble(s)| < |ExportLines(s, detailed)|
    ensures ExportLines(s, detailed)[|Preamble(s)|] == Heading(s.start.value, s.nodes[s.start.value])
  {
    var k, parts := s.start.value, ReportParts(s, detailed);
    assert ExportOrder(s)[0] == k;
    ReportPartsAt(s, detailed, 0);
    ConcatPartAt(parts, 1, Section(k, s.nodes[k], detailed));
    TotalLengthFirst(parts);
  }

  /** `s` with every node's GM notes blanked. */
  function WithoutGmNotes(s: StoryData): (r: StoryData)
    ensures r.nodes.Keys == s.nodes.Keys && r.order == s.order && r.start == s.start
    ensures r.title == s.title && r.description == s.description
    ensures forall k :: k in s.nodes ==> r.nodes[k] == s.nodes[k].(gmNotes := "")
  {
    s.(nodes := map k | k in s.nodes :: s.nodes[k].(gmNotes := ""))
  }

  /**
   * GM notes reach the report only when `detailed` is set: a plain report ignores them,
   * and a detailed report of a story without notes is the plain one.
   */
  lemma {:induction false} GmNotesOnlyWhenDetailed(s: StoryData, detailed: bool)
    requires WellFormed(s)
    ensures WellFormed(WithoutGmNotes(s))
    ensures ExportLines(s, false) == ExportLines(WithoutGmNotes(s), detailed)
  {
    var t := WithoutGmNotes(s);
    assert ExportOrder(t) == ExportOrder(s);
    SectionsWithoutGm(s, detailed, ExportOrder(s));
    SamePreamble(s, t);
  }

  /** The plain sections of the keys `ks` are their sections, detailed or not, in the story with the notes blanked. */
  lemma SectionsWithoutGm(s: StoryData, detailed: bool, ks: seq<string>)
    requires forall k :: k in ks ==> k in s.nodes
    ensures Map(SectionFor(s, false), ks) == Map(SectionFor(WithoutGmNotes(s), detailed), ks)
  {
    forall k | k in ks ensures SectionFor(s, false)(k) == SectionFor(WithoutGmNotes(s), detailed)(k) {
      SectionWithoutGm(k, s.nodes[k], detailed);
    }
    MapAgree(SectionFor(s, false), SectionFor(WithoutGmNotes(s), detailed), ks);
  }

  /** Stories with the same title and description have the same preamble. */
  lemma SamePreamble(s: StoryData, t: StoryData)
    requires s.title == t.title && s.description == t.description
    ensures Preamble(s) == Preamble(t)
  {
  }

  /** A plain section does not show the GM notes. */
  lemma SectionWithoutGm(nid: string, n: Node, detailed: bool)
    ensures Section(nid, n, false) == Section(nid, n.(gmNotes := ""), detailed)
  {
  }
}
