/**
 * Two projections the visualizer draws from: the label of a node (`node_to_label`) and
 * the edges of the graph, where a choice whose target is not a node draws nothing.
 */
module View {
  import opened Entities
  import Text

  /** The longest text a label shows untouched. */
  const MaxLabelText: nat := 160
  /** How much of a longer text is kept before the ellipsis. */
  const KeptLabelText: nat := 157

  /** The text with every newline turned into a space. */
  function Flatten(t: string): (r: string)
    ensures |r| == |t|
    ensures forall i :: 0 <= i < |r| ==> r[i] != '\n'
    ensures forall i :: 0 <= i < |r| ==> r[i] == (if t[i] == '\n' then ' ' else t[i])
  {
    seq(|t|, i requires 0 <= i < |t| => if t[i] == '\n' then ' ' else t[i])
  }

  /** A text over 160 characters cut to its first 157 and an ellipsis. */
  function Truncate(t: string): (r: string)
    ensures |r| <= MaxLabelText
    ensures |t| <= MaxLabelText ==> r == t
    ensures |t| > MaxLabelText ==>
      |r| == KeptLabelText + 1 && r[..KeptLabelText] == t[..KeptLabelText] && r[KeptLabelText] == '…'
  {
    if |t| > MaxLabelText then t[..KeptLabelText] + "…" else t
  }

  /** The text line of a node's label. */
  function LabelText(n: Node): (r: string)
    ensures |r| <= MaxLabelText && |r| <= |n.text|
    ensures |n.text| <= MaxLabelText ==> r == Flatten(n.text)
  {
    Truncate(Flatten(n.text))
  }

  /** The text line is one line, at most 160 characters, and the node's text itself when that fits. */
  lemma LabelTextShape(n: Node)
    ensures |LabelText(n)| <= MaxLabelText
    ensures forall i :: 0 <= i < |LabelText(n)| ==> LabelText(n)[i] != '\n'
    ensures |n.text| <= MaxLabelText && (forall i :: 0 <= i < |n.text| ==> n.text[i] != '\n') ==> LabelText(n) == n.text
  {
    var f := Flatten(n.text);
    if |n.text| <= MaxLabelText && (forall i :: 0 <= i < |n.text| ==> n.text[i] != '\n') {
      assert f == n.text;
    }
    if |f| > MaxLabelText {
      var r := Truncate(f);
      forall i | 0 <= i < |r| ensures r[i] != '\n' {
        if i < KeptLabelText {
          assert r[i] == f[..KeptLabelText][i];
        }
      }
    }
  }

  /** Shortening a label's text line again changes nothing. */
  lemma LabelTextIdempotent(n: Node)
    ensures Truncate(Flatten(LabelText(n))) == LabelText(n)
  {
    LabelTextShape(n);
    assert Flatten(LabelText(n)) == LabelText(n);
  }

  /**
   * `NPC: npc`, `@ location`, `[emotion]` for the present ones, in that order, with one
   * space between neighbours and none at either end.
   */
  function MetaLine(n: Node): (r: string)
    ensures n.npc == "" && n.location == "" && n.emotion == "" ==> r == ""
    ensures n.npc != "" ==> "NPC: " + n.npc <= r
    ensures n.npc == "" && n.location != "" ==> "@ " + n.location <= r
    ensures n.npc == "" && n.location == "" && n.emotion != "" ==> r == "[" + n.emotion + "]"
    ensures r == (if n.npc != "" then "NPC: " + n.npc else "")
      + (if n.npc != "" && n.location != "" then " " else "")
      + (if n.location != "" then "@ " + n.location else "")
      + (if (n.npc != "" || n.location != "") && n.emotion != "" then " " else "")
      + (if n.emotion != "" then "[" + n.emotion + "]" else "")
  {
    var a := if n.npc != "" then ["NPC: " + n.npc] else [];
    var b := a + (if n.location != "" then ["@ " + n.location] else []);
    var parts := b + (if n.emotion != "" then ["[" + n.emotion + "]"] else []);
    Text.JoinMaybe(a, n.location != "", "@ " + n.location, " ");
    Text.JoinMaybe(b, n.emotion != "", "[" + n.emotion + "]", " ");
    Text.Join(parts, " ")
  }

  /** `node_to_label`: title, text line and meta line, then the GM notes when asked for and present. */
  function NodeLabel(n: Node, showGm: bool): (r: string)
    ensures var title := if n.title != "" then n.title else UntitledNode;
      title + "\n" + LabelText(n) + "\n" + MetaLine(n) <= r
    ensures !(showGm && n.gmNotes != "") ==>
      r == (if n.title != "" then n.title else UntitledNode) + "\n" + LabelText(n) + "\n" + MetaLine(n)
    ensures showGm && n.gmNotes != "" ==>
      r[|(if n.title != "" then n.title else UntitledNode) + "\n" + LabelText(n) + "\n" + MetaLine(n)|..]
        == "\nGM: " + n.gmNotes
  {
    var title := if n.title != "" then n.title else UntitledNode;
    var gm := if showGm && n.gmNotes != "" then "\nGM: " + n.gmNotes else "";
    title + "\n" + LabelText(n) + "\n" + MetaLine(n) + gm
  }

  /** An edge of the drawn graph: source, target and the label drawn on it. */
  datatype Edge = Edge(source: string, target: string, caption: string)

  /** The label of the edge for choice `c`: its text, and its gate in brackets when it has one. */
  function EdgeLabel(c: Choice): (r: string)
    ensures c.text <= r
    ensures c.gate == "" ==> r == c.text
    ensures c.gate != "" ==> r[|c.text|..] == " [" + c.gate + "]"
  {
    c.text + (if c.gate != "" then " [" + c.gate + "]" else "")
  }

  /** The edge choice `c` of node `nid` would draw. */
  function EdgeOf(nid: string, c: Choice): Edge {
    Edge(nid, c.targetId, EdgeLabel(c))
  }

  /** The edges of node `nid`'s choices `cs`, in order, without those whose target is not a node. */
  function NodeEdges(s: StoryData, nid: string, cs: seq<Choice>): (r: seq<Edge>)
    ensures |r| <= |cs|
    ensures forall e :: e in r ==> e.source == nid && e.target in s.nodes
    ensures forall e :: e in r ==> exists c :: c in cs && e == EdgeOf(nid, c)
    ensures forall c :: c in cs && c.targetId in s.nodes ==> EdgeOf(nid, c) in r
  {
    if cs == [] then []
    else
      var rest := NodeEdges(s, nid, cs[1..]);
      if cs[0].targetId in s.nodes then [EdgeOf(nid, cs[0])] + rest else rest
  }

  /** The edges of the nodes `ks`, node by node. */
  function EdgesOf(s: StoryData, ks: seq<string>): (r: seq<Edge>)
    requires forall k :: k in ks ==> k in s.nodes
    ensures forall e :: e in r ==> e.source in ks && e.target in s.nodes
    ensures forall e :: e in r ==> exists c :: c in s.nodes[e.source].choices && e == EdgeOf(e.source, c)
    ensures forall k, c :: k in ks && c in s.nodes[k].choices && c.targetId in s.nodes ==> EdgeOf(k, c) in r
  {
    if ks == [] then []
    else
      var here := NodeEdges(s, ks[0], s.nodes[ks[0]].choices);
      var rest := EdgesOf(s, ks[1..]);
      assert forall k :: k in ks ==> k == ks[0] || k in ks[1..];
      here + rest
  }

  /** The edges the visualizer draws, node by node in key order. */
  function Edges(s: StoryData): (r: seq<Edge>)
    requires WellFormed(s)
    ensures forall e :: e in r ==> e.source in s.nodes && e.target in s.nodes
    ensures forall k, c :: k in s.nodes && c in s.nodes[k].choices && c.targetId in s.nodes ==> EdgeOf(k, c) in r
  {
    EdgesOf(s, s.order)
  }

  /**
   * An edge is drawn exactly for each choice whose target is a node: every drawn edge
   * comes from a choice of its source and ends at a node, and every such choice draws one.
   */
  lemma EdgesExact(s: StoryData, e: Edge)
    requires WellFormed(s)
    ensures e in Edges(s) <==>
      e.source in s.nodes && e.target in s.nodes && exists c :: c in s.nodes[e.source].choices && e == EdgeOf(e.source, c)
  {
  }
}
