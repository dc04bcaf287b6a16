/**
 * The graph mutation service as functions on story values: each function gives the
 * story an in-place mutation of `Stories.Story` leaves behind.
 */
module Graph {
  import opened Wrappers
  import opened Text
  import opened Entities
  import opened Sequences

  /** The keyword arguments of `add_node`; a `tags` of `None` is the empty list here. */
  datatype Draft = Draft(
    title: string, text: string, npc: string, location: string,
    emotion: string, tags: seq<string>, gmNotes: string)

  // ---------------------------------------------------------------------------
  // Creating a node
  // ---------------------------------------------------------------------------

  /** `[t.strip() for t in tags if t.strip()]`: the stripped, non-blank tags in their order. */
  function CleanTags(tags: seq<string>): (r: seq<string>)
    ensures forall t :: t in r ==> t != "" && Trimmed(t)
    ensures forall t :: t in r ==> exists u :: u in tags && t == Strip(u)
    ensures forall u :: u in tags && !AllSpace(u) ==> Strip(u) in r
    ensures IsSubsequence(r, StripEach(tags))
    ensures forall t :: t != "" ==> multiset(r)[t] == multiset(StripEach(tags))[t]
    ensures |r| <= |tags|
  {
    var stripped := StripEach(tags);
    var r := NonEmpty(stripped);
    assert forall t :: t in r ==> exists u :: u in tags && t == Strip(u) by {
      forall t | t in r ensures exists u :: u in tags && t == Strip(u) {
        var i :| 0 <= i < |stripped| && stripped[i] == t;
        assert tags[i] in tags;
      }
    }
    assert forall u :: u in tags && !AllSpace(u) ==> Strip(u) in r by {
      forall u | u in tags && !AllSpace(u) ensures Strip(u) in r {
        var i :| 0 <= i < |tags| && tags[i] == u;
        assert stripped[i] == Strip(u);
      }
    }
    r
  }

  /** `title.strip() or "(untitled)"`: never blank. */
  function NodeTitle(title: string): (r: string)
    ensures r != "" && Trimmed(r)
    ensures AllSpace(title) ==> r == UntitledNode
    ensures !AllSpace(title) ==> r == Strip(title)
  {
    var t := Strip(title);
    UntitledTrimmed();
    if t == "" then UntitledNode else t
  }

  /** The node `add_node` builds under `id`: every string field stripped, no choices. */
  function NewNode(id: string, d: Draft): (n: Node)
    ensures n.id == id && n.choices == []
    ensures n.title != "" && Trimmed(n.title)
    ensures Trimmed(n.text) && Trimmed(n.npc) && Trimmed(n.location)
    ensures Trimmed(n.emotion) && Trimmed(n.gmNotes)
    ensures forall t :: t in n.tags ==> t != "" && Trimmed(t)
    ensures n.title == NodeTitle(d.title) && n.tags == CleanTags(d.tags)
    ensures n.text == Strip(d.text) && n.npc == Strip(d.npc) && n.location == Strip(d.location)
    ensures n.emotion == Strip(d.emotion) && n.gmNotes == Strip(d.gmNotes)
  {
    Node(id, NodeTitle(d.title), Strip(d.text), Strip(d.npc), Strip(d.location),
         Strip(d.emotion), CleanTags(d.tags), Strip(d.gmNotes), [])
  }

  /** `if not story.start_node_id: story.start_node_id = nid`. */
  function StartAfterAdd(start: Option<string>, id: string): (r: Option<string>)
    ensures Unset(start) ==> r == Some(id)
    ensures !Unset(start) ==> r == start
    ensures !Unset(r) || id == ""
  {
    if Unset(start) then Some(id) else start
  }

  /**
   * `add_node`: one new node under the fresh id, appended to the key order; it becomes
   * the start node only when the story had none.
   */
  function AddNode(s: StoryData, id: string, d: Draft): (r: StoryData)
    requires WellFormed(s) && id !in s.nodes
    ensures r.order == s.order + [id]
    ensures r.nodes == s.nodes[id := NewNode(id, d)]
    ensures Unset(s.start) ==> r.start == Some(id)
    ensures !Unset(s.start) ==> r.start == s.start
    ensures r.title == s.title && r.description == s.description
  {
    StoryData(s.title, s.description, s.nodes[id := NewNode(id, d)], s.order + [id],
              StartAfterAdd(s.start, id))
  }

  /** `add_node` keeps the key order a duplicate-free list of the keys, and keeps the start invariant. */
  lemma AddNodeInvariants(s: StoryData, id: string, d: Draft)
    requires WellFormed(s) && id !in s.nodes
    ensures WellFormed(AddNode(s, id, d))
    ensures |AddNode(s, id, d).nodes| == |s.nodes| + 1
    ensures StartValid(s) ==> StartValid(AddNode(s, id, d))
  {
    NoDupsSnoc(s.order, id);
  }

  // ---------------------------------------------------------------------------
  // Deleting a node
  // ---------------------------------------------------------------------------

  /** No choice of `cs` leads to `id`. */
  predicate NoChoiceTo(cs: seq<Choice>, id: string) {
    forall c :: c in cs ==> c.targetId != id
  }

  /** `[c for c in cs if c.target_id != id]`. */
  function DropChoicesTo(cs: seq<Choice>, id: string): (r: seq<Choice>)
    ensures |r| <= |cs|
    ensures |r| == |cs| ==> r == cs
  {
    if cs == [] then []
    else if cs[0].targetId == id then DropChoicesTo(cs[1..], id)
    else [cs[0]] + DropChoicesTo(cs[1..], id)
  }

  /** The filter of `delete_node` keeps exactly the choices that do not lead to `id`. */
  lemma {:induction false} DropChoicesToSpec(cs: seq<Choice>, id: string)
    ensures var r := DropChoicesTo(cs, id);
      NoChoiceTo(r, id)
      && (forall c :: c in r <==> c in cs && c.targetId != id)
      && (NoChoiceTo(cs, id) ==> r == cs)
  {
    if cs != [] {
      DropChoicesToSpec(cs[1..], id);
      assert cs == [cs[0]] + cs[1..];
    }
  }

  /**
   * Every choice that does not lead to `id` survives the filter as often as it occurred,
   * in its original relative order.
   */
  lemma {:induction false} DropChoicesToKeeps(cs: seq<Choice>, id: string)
    ensures var r := DropChoicesTo(cs, id);
      (forall c: Choice :: c.targetId != id ==> multiset(r)[c] == multiset(cs)[c])
      && IsSubsequence(r, cs)
  {
    if cs != [] {
      DropChoicesToKeeps(cs[1..], id);
      DropChoicesToSpec(cs[1..], id);
      var rest := DropChoicesTo(cs[1..], id);
      assert cs == [cs[0]] + cs[1..];
      if cs[0].targetId == id {
        assert rest != [] ==> rest[0] != cs[0];
      } else {
        assert ([cs[0]] + rest)[1..] == rest;
      }
    }
  }

  /** `n` with its choices leading to `id` dropped. */
  function Unlinked(n: Node, id: string): (r: Node)
    ensures r.(choices := n.choices) == n
    ensures r.choices == DropChoicesTo(n.choices, id)
  {
    n.(choices := DropChoicesTo(n.choices, id))
  }

  /**
   * `delete_node`: drops every choice that leads to `id`, removes the node, and moves a
   * start node that was `id` to the first remaining key (or to none). An absent id
   * leaves the story as it was.
   */
  function DeleteNode(s: StoryData, id: string): (r: StoryData)
    requires WellFormed(s)
    ensures id !in s.nodes ==> r == s
    ensures r.order == RemoveAll(s.order, id)
    ensures r.title == s.title && r.description == s.description
    ensures s.start != Some(id) ==> r.start == s.start
    ensures id in s.nodes && s.start == Some(id) ==> r.start == (if r.order == [] then None else Some(r.order[0]))
    ensures id in s.nodes ==> r.nodes.Keys == s.nodes.Keys - {id}
    ensures id in s.nodes ==> forall k :: k in r.nodes ==> r.nodes[k] == Unlinked(s.nodes[k], id)
  {
    if id !in s.nodes then s
    else
      var order := RemoveAll(s.order, id);
      StoryData(s.title, s.description,
                map k | k in s.nodes && k != id :: Unlinked(s.nodes[k], id),
                order, StartAfterDelete(s.start, id, order))
  }

  /** `if story.start_node_id == node_id: story.start_node_id = next(iter(story.nodes.keys()), None)`. */
  function StartAfterDelete(start: Option<string>, id: string, order: seq<string>): (r: Option<string>)
    ensures start != Some(id) ==> r == start
    ensures start == Some(id) && order == [] ==> r == None
    ensures start == Some(id) && order != [] ==> r == Some(order[0])
    ensures start == Some(id) && r.Some? ==> r.value in order
  {
    if start == Some(id) then (if order == [] then None else Some(order[0])) else start
  }

  /**
   * After deleting a node that exists, its id is gone and no choice leads to it. (For an
   * absent id nothing changes, so choices already dangling to it stay.)
   */
  lemma DeleteNodeRemovesReferences(s: StoryData, id: string)
    requires WellFormed(s) && id in s.nodes
    ensures var r := DeleteNode(s, id);
      id !in r.nodes && r.nodes.Keys == s.nodes.Keys - {id}
      && (forall k :: k in r.nodes ==> NoChoiceTo(r.nodes[k].choices, id))
  {
    forall k | k in s.nodes && k != id {
      DropChoicesToSpec(s.nodes[k].choices, id);
    }
  }

  /**
   * Every node that survives `delete_node` keeps all its fields but its choices, and its
   * choices are the old ones without those leading to `id`: each other choice as often
   * as before, in its original relative order.
   */
  lemma DeleteNodeKeepsOthers(s: StoryData, id: string, k: string)
    requires WellFormed(s) && k in s.nodes && k != id
    ensures var r := DeleteNode(s, id);
      k in r.nodes
      && r.nodes[k].(choices := s.nodes[k].choices) == s.nodes[k]
      && (id in s.nodes ==> NoChoiceTo(r.nodes[k].choices, id))
      && IsSubsequence(r.nodes[k].choices, s.nodes[k].choices)
      && (forall c: Choice :: c.targetId != id ==> multiset(r.nodes[k].choices)[c] == multiset(s.nodes[k].choices)[c])
  {
    DropChoicesToSpec(s.nodes[k].choices, id);
    DropChoicesToKeeps(s.nodes[k].choices, id);
    SubsequenceRefl(s.nodes[k].choices);
  }

  /** `delete_node` keeps the key order a duplicate-free list of the keys, and keeps the start invariant. */
  lemma DeleteNodeInvariants(s: StoryData, id: string)
    requires WellFormed(s)
    ensures WellFormed(DeleteNode(s, id))
    ensures StartValid(s) ==> StartValid(DeleteNode(s, id))
  {
    var r := DeleteNode(s, id);
    if id in s.nodes && r.order != [] {
      assert r.order[0] in r.order;
    }
  }

  /**
   * The start after `delete_node`: a start other than `id` is kept; a deleted start moves
   * to the first key in insertion order that is not `id`, or to `None` when no key is left.
   */
  lemma DeleteNodeStart(s: StoryData, id: string)
    requires WellFormed(s)
    ensures s.start != Some(id) ==> DeleteNode(s, id).start == s.start
    ensures id in s.nodes && s.start == Some(id) && (forall i :: 0 <= i < |s.order| ==> s.order[i] == id) ==>
      DeleteNode(s, id).start == None
    ensures forall j :: (id in s.nodes && s.start == Some(id) && 0 <= j < |s.order| && s.order[j] != id
                         && (forall i :: 0 <= i < j ==> s.order[i] == id)) ==>
      DeleteNode(s, id).start == Some(s.order[j])
  {
    if id in s.nodes && s.start == Some(id) {
      var r := DeleteNode(s, id);
      forall j | 0 <= j < |s.order| && s.order[j] != id && (forall i :: 0 <= i < j ==> s.order[i] == id)
        ensures r.start == Some(s.order[j])
      {
        RemoveAllFirst(s.order, id, j);
      }
    }
  }

  /** Deleting a node twice is the same as deleting it once. */
  lemma DeleteIdempotent(s: StoryData, id: string)
    requires WellFormed(s)
    ensures DeleteNode(DeleteNode(s, id), id) == DeleteNode(s, id)
  {
  }

  /** Deleting `b` where the only edge into `b` is `a`'s unique choice leaves `a` with no choices. */
  lemma DeleteTarget(s: StoryData, a: string, b: string)
    requires WellFormed(s) && a in s.nodes && b in s.nodes && a != b
    requires |s.nodes[a].choices| == 1 && s.nodes[a].choices[0].targetId == b
    ensures a in DeleteNode(s, b).nodes && DeleteNode(s, b).nodes[a].choices == []
    ensures s.start == Some(a) ==> DeleteNode(s, b).start == Some(a)
  {
    var cs := s.nodes[a].choices;
    assert cs[1..] == [];
    assert DropChoicesTo(cs, b) == DropChoicesTo(cs[1..], b) == [];
  }

  // ---------------------------------------------------------------------------
  // Duplicating a node, choosing the start
  // ---------------------------------------------------------------------------

  /** The node `duplicate_node` builds: `n` under a new id with " (copy)" after the title. */
  function CopyOf(n: Node, newId: string): (c: Node)
    ensures c.id == newId && c.title == n.title + " (copy)"
    ensures c.(id := n.id, title := n.title) == n
  {
    n.(id := newId, title := n.title + " (copy)")
  }

  /**
   * `duplicate_node`: one new node under the fresh id, a copy of `src` whose choices
   * lead where the original's do; the original and the start node are unchanged.
   * A missing `src` is `NotFound` (a `KeyError` in Python).
   */
  function DuplicateNode(s: StoryData, src: string, newId: string): (r: Result<StoryData>)
    requires WellFormed(s) && newId !in s.nodes
    ensures src !in s.nodes <==> r == Err(NotFound(src))
    ensures r.Ok? ==> WellFormed(r.value)
    ensures r.Ok? ==> r.value.order == s.order + [newId]
    ensures r.Ok? ==> r.value.nodes == s.nodes[newId := CopyOf(s.nodes[src], newId)]
    ensures r.Ok? ==> r.value.start == s.start
    ensures r.Ok? ==> r.value.title == s.title && r.value.description == s.description
    ensures r.Ok? ==> |r.value.nodes| == |s.nodes| + 1
    ensures r.Ok? && StartValid(s) ==> StartValid(r.value)
  {
    if src !in s.nodes then Err(NotFound(src))
    else
      NoDupsSnoc(s.order, newId);
      Ok(s.(nodes := s.nodes[newId := CopyOf(s.nodes[src], newId)], order := s.order + [newId]))
  }

  /** The duplicate keeps the number of choices and every choice's target, text, tags and gate. */
  lemma DuplicateCopiesChoices(s: StoryData, src: string, newId: string, i: nat)
    requires WellFormed(s) && newId !in s.nodes && src in s.nodes
    requires i < |s.nodes[src].choices|
    ensures DuplicateNode(s, src, newId).Ok?
    ensures var copy := DuplicateNode(s, src, newId).value.nodes[newId];
      copy.id == newId && newId != src
      && |copy.choices| == |s.nodes[src].choices|
      && copy.choices[i] == s.nodes[src].choices[i]
  {
  }

  /** `add_node` and `duplicate_node` store each node under its own `id`. */
  lemma KeysMatchIdsKept(s: StoryData, id: string, d: Draft, src: string)
    requires WellFormed(s) && id !in s.nodes && KeysMatchIds(s)
    ensures KeysMatchIds(AddNode(s, id, d))
    ensures DuplicateNode(s, src, id).Ok? ==> KeysMatchIds(DuplicateNode(s, src, id).value)
  {
  }

  /** Make-start: the selected node becomes the start node, with no check. */
  function MakeStart(s: StoryData, id: string): (r: StoryData)
    ensures r.start == Some(id)
    ensures r.nodes == s.nodes && r.order == s.order
    ensures r.title == s.title && r.description == s.description
    ensures id in s.nodes ==> StartValid(r)
    ensures WellFormed(s) ==> WellFormed(r)
  {
    s.(start := Some(id))
  }

  /**
   * The repair at the top of the playback view: a start node that is not a key is
   * replaced with the first key. An empty story is left alone.
   */
  function RepairStart(s: StoryData): (r: StoryData)
    requires WellFormed(s)
    ensures r.nodes == s.nodes && r.order == s.order
    ensures r.title == s.title && r.description == s.description
    ensures s.nodes != map[] ==> r.start.Some? && r.start.value in r.nodes
    ensures s.start.Some? && s.start.value in s.nodes ==> r == s
    ensures s.nodes != map[] && !(s.start.Some? && s.start.value in s.nodes) ==> r.start == Some(s.order[0])
    ensures r.nodes == map[] ==> r == s
  {
    if s.nodes == map[] then s
    else if s.start.Some? && s.start.value in s.nodes then s
    else
      assert s.order != [] by {
        var k :| k in s.nodes;
        assert k in s.order;
      }
      s.(start := Some(s.order[0]))
  }

  // ---------------------------------------------------------------------------
  // Editing a node's choice list
  // ---------------------------------------------------------------------------

  /** `s` with the node under `k` replaced. */
  function WithNode(s: StoryData, k: string, n: Node): (r: StoryData)
    requires k in s.nodes
    ensures r.nodes.Keys == s.nodes.Keys && r.order == s.order && r.start == s.start
    ensures WellFormed(s) ==> WellFormed(r)
    ensures StartValid(s) ==> StartValid(r)
  {
    s.(nodes := s.nodes[k := n])
  }

  /** `cs` with the elements at `i` and `j` exchanged. */
  function Swap(cs: seq<Choice>, i: nat, j: nat): (r: seq<Choice>)
    requires i < |cs| && j < |cs|
    ensures |r| == |cs| && r[i] == cs[j] && r[j] == cs[i]
    ensures forall k :: 0 <= k < |cs| && k != i && k != j ==> r[k] == cs[k]
  {
    cs[i := cs[j]][j := cs[i]]
  }

  /** Exchanging two elements keeps the same choices, each as often. */
  lemma SwapPermutes(cs: seq<Choice>, i: nat, j: nat)
    requires i < |cs| && j < |cs|
    ensures multiset(Swap(cs, i, j)) == multiset(cs)
  {
  }

  /**
   * The editor's Remove button, `node.choices.pop(i)`: the choice at `i` leaves the list,
   * the others keep their order. A missing node or an index past the end fails.
   */
  function RemoveChoice(s: StoryData, id: string, i: nat): (r: Result<StoryData>)
    ensures id !in s.nodes ==> r == Err(NotFound(id))
    ensures id in s.nodes && i >= |s.nodes[id].choices| ==> r == Err(IndexOutOfRange(i))
    ensures r.Ok? ==> id in s.nodes && i < |s.nodes[id].choices|
    ensures r.Ok? ==> var cs := s.nodes[id].choices;
      r.value == s.(nodes := s.nodes[id := s.nodes[id].(choices := cs[..i] + cs[i + 1..])])
      && multiset(r.value.nodes[id].choices) + multiset{cs[i]} == multiset(cs)
    ensures r.Ok? && WellFormed(s) ==> WellFormed(r.value)
    ensures r.Ok? && StartValid(s) ==> StartValid(r.value)
  {
    if id !in s.nodes then Err(NotFound(id))
    else
      var cs := s.nodes[id].choices;
      if i >= |cs| then Err(IndexOutOfRange(i))
      else
        assert cs == cs[..i] + [cs[i]] + cs[i + 1..];
        Ok(WithNode(s, id, s.nodes[id].(choices := cs[..i] + cs[i + 1..])))
  }

  /**
   * The editor's "Move up" button: a no-op for the first choice, otherwise the choice at
   * `i` changes places with the one before it. Python reads `choices[i]` before the
   * swap, so an index past the end fails.
   */
  function MoveChoiceUp(s: StoryData, id: string, i: nat): (r: Result<StoryData>)
    ensures id !in s.nodes ==> r == Err(NotFound(id))
    ensures id in s.nodes && i == 0 ==> r == Ok(s)
    ensures id in s.nodes && 0 < i && i >= |s.nodes[id].choices| ==> r == Err(IndexOutOfRange(i))
    ensures id in s.nodes && 0 < i < |s.nodes[id].choices| ==>
      r == Ok(s.(nodes := s.nodes[id := s.nodes[id].(choices := Swap(s.nodes[id].choices, i - 1, i))]))
    ensures r.Ok? && WellFormed(s) ==> WellFormed(r.value)
  {
    if id !in s.nodes then Err(NotFound(id))
    else if i == 0 then Ok(s)
    else if i >= |s.nodes[id].choices| then Err(IndexOutOfRange(i))
    else Ok(WithNode(s, id, s.nodes[id].(choices := Swap(s.nodes[id].choices, i - 1, i))))
  }

  /**
   * The editor's "Move down" button: the choice at `i` changes places with the one after
   * it; for the last choice, or any index past it, nothing happens.
   */
  function MoveChoiceDown(s: StoryData, id: string, i: nat): (r: Result<StoryData>)
    ensures id !in s.nodes ==> r == Err(NotFound(id))
    ensures id in s.nodes && i + 1 >= |s.nodes[id].choices| ==> r == Ok(s)
    ensures id in s.nodes && i + 1 < |s.nodes[id].choices| ==>
      r == Ok(s.(nodes := s.nodes[id := s.nodes[id].(choices := Swap(s.nodes[id].choices, i, i + 1))]))
    ensures r.Ok? && WellFormed(s) ==> WellFormed(r.value)
  {
    if id !in s.nodes then Err(NotFound(id))
    else if i + 1 >= |s.nodes[id].choices| then Ok(s)
    else Ok(WithNode(s, id, s.nodes[id].(choices := Swap(s.nodes[id].choices, i, i + 1))))
  }

  /** Moving a choice up and then back down restores the story. */
  lemma UpThenDown(s: StoryData, id: string, i: nat)
    requires id in s.nodes && 0 < i < |s.nodes[id].choices|
    ensures MoveChoiceUp(s, id, i).Ok?
    ensures MoveChoiceDown(MoveChoiceUp(s, id, i).value, id, i - 1) == Ok(s)
  {
    var n := s.nodes[id];
    var s1 := MoveChoiceUp(s, id, i).value;
    assert s1.nodes == s.nodes[id := n.(choices := Swap(n.choices, i - 1, i))];
    var s2 := MoveChoiceDown(s1, id, i - 1).value;
    assert s2.nodes == s1.nodes[id := n.(choices := Swap(Swap(n.choices, i - 1, i), i - 1, i))];
    SwapTwice(n.choices, i - 1, i);
    assert s2.nodes == s.nodes;
  }

  /** Exchanging the same two elements twice gives the list back. */
  lemma SwapTwice(cs: seq<Choice>, i: nat, j: nat)
    requires i < |cs| && j < |cs|
    ensures Swap(Swap(cs, i, j), i, j) == cs
  {
    var r := Swap(Swap(cs, i, j), i, j);
    assert forall k :: 0 <= k < |cs| ==> r[k] == cs[k];
  }
}
