/**
 * The live story object: the Python `Story` dataclass, whose dict of nodes and start
 * node the mutation operations change in place. Each method is proved to leave the
 * story the corresponding function of `Graph` describes.
 */
module Stories {
  import opened Wrappers
  import opened Entities
  import Graph

  class Story {
    var title: string
    var description: string
    var nodes: map<string, Node>
    /** The insertion order of `nodes`' keys. */
    var order: seq<string>
    var start: Option<string>

    /** The story's current value. */
    function Data(): StoryData
      reads this
    {
      StoryData(title, description, nodes, order, start)
    }

    /** The object invariant: `order` lists each key of `nodes` once. */
    predicate Valid()
      reads this
    {
      WellFormed(Data())
    }

    /** `Story()`. */
    constructor ()
      ensures Valid() && Data() == EmptyStory()
    {
      title, description, nodes, order, start := DefaultStoryTitle, "", map[], [], None;
    }

    /** A story object holding a decoded value (the import path). */
    constructor FromData(d: StoryData)
      requires WellFormed(d)
      ensures Valid() && Data() == d
    {
      title, description, nodes, order, start := d.title, d.description, d.nodes, d.order, d.start;
    }

    /** Sets the project title and description, as the sidebar fields do. */
    method SetHeader(newTitle: string, newDescription: string)
      requires Valid()
      modifies this
      ensures Valid()
      ensures Data() == old(Data()).(title := newTitle, description := newDescription)
    {
      title, description := newTitle, newDescription;
    }

    /** Stores `n` under the existing key `k`, as an edit of `story.nodes[k]` in place does. */
    method ReplaceNode(k: string, n: Node)
      requires Valid() && k in nodes
      modifies this
      ensures Valid()
      ensures Data() == Graph.WithNode(old(Data()), k, n)
    {
      nodes := nodes[k := n];
    }

    /** `add_node` with `id` standing for the fresh `uuid4` the source draws. */
    method AddNode(id: string, d: Graph.Draft) returns (nid: string)
      requires Valid() && id !in nodes
      modifies this
      ensures Valid() && nid == id
      ensures Data() == Graph.AddNode(old(Data()), id, d)
    {
      Graph.AddNodeInvariants(Data(), id, d);
      nodes := nodes[id := Graph.NewNode(id, d)];
      order := order + [id];
      if Unset(start) {
        start := Some(id);
      }
      nid := id;
    }

    /** `delete_node`: first the inbound choices go, then the node, then the start is repaired. */
    method DeleteNode(id: string)
      requires Valid()
      modifies this
      ensures Valid()
      ensures Data() == Graph.DeleteNode(old(Data()), id)
    {
      Graph.DeleteNodeInvariants(Data(), id);
      if id in nodes {
        DropChoicesInto(id);
        UnlinkedAll(old(nodes), nodes, id);
        var rest := RemoveAll(order, id);
        nodes := nodes - {id};
        start := Graph.StartAfterDelete(start, id, rest);
        order := rest;
      }
    }

    /** The loop of `delete_node` over every node, dropping the choices that lead to `id`. */
    method DropChoicesInto(id: string)
      requires Valid()
      modifies this
      ensures order == old(order) && start == old(start)
      ensures title == old(title) && description == old(description)
      ensures nodes.Keys == old(nodes).Keys
      ensures forall k :: k in nodes ==> nodes[k] == Graph.Unlinked(old(nodes)[k], id)
    {
      var i := 0;
      while i < |order|
        invariant 0 <= i <= |order|
        invariant order == old(order) && start == old(start)
        invariant title == old(title) && description == old(description)
        invariant nodes.Keys == old(nodes).Keys
        invariant forall k :: k in nodes ==>
                    nodes[k] == if k in order[..i] then Graph.Unlinked(old(nodes)[k], id) else old(nodes)[k]
      {
        var k := order[i];
        assert order[..i + 1] == order[..i] + [k];
        nodes := nodes[k := nodes[k].(choices := Graph.DropChoicesTo(nodes[k].choices, id))];
        i := i + 1;
      }
      assert order[..i] == order;
    }

    /** The map the deletion loop leaves, less the deleted key, is the one `Graph.DeleteNode` describes. */
    static lemma UnlinkedAll(before: map<string, Node>, after: map<string, Node>, id: string)
      requires after.Keys == before.Keys
      requires forall k :: k in after ==> after[k] == Graph.Unlinked(before[k], id)
      ensures after - {id} == map k | k in before && k != id :: Graph.Unlinked(before[k], id)
    {
    }

    /** `duplicate_node` with `newId` standing for the fresh `uuid4`; a missing source fails. */
    method DuplicateNode(src: string, newId: string) returns (r: Result<string>)
      requires Valid() && newId !in nodes
      modifies this
      ensures Valid()
      ensures match Graph.DuplicateNode(old(Data()), src, newId)
                case Ok(d) => r == Ok(newId) && Data() == d
                case Err(e) => r == Err(e) && Data() == old(Data())
    {
      if src !in nodes {
        return Err(NotFound(src));
      }
      NoDupsSnoc(order, newId);
      var n := nodes[src];
      nodes := nodes[newId := Graph.CopyOf(n, newId)];
      order := order + [newId];
      r := Ok(newId);
    }

    /** The editor's "Make Start" button. */
    method MakeStart(id: string)
      requires Valid()
      modifies this
      ensures Valid()
      ensures Data() == Graph.MakeStart(old(Data()), id)
    {
      start := Some(id);
    }

    /** The editor's Remove button for choice `i` of node `id`. */
    method RemoveChoice(id: string, i: nat) returns (e: Option<Error>)
      requires Valid()
      modifies this
      ensures Valid()
      ensures match Graph.RemoveChoice(old(Data()), id, i)
                case Ok(d) => e == None && Data() == d
                case Err(x) => e == Some(x) && Data() == old(Data())
    {
      if id !in nodes {
        return Some(NotFound(id));
      }
      var cs := nodes[id].choices;
      if i >= |cs| {
        return Some(IndexOutOfRange(i));
      }
      nodes := nodes[id := nodes[id].(choices := cs[..i] + cs[i + 1..])];
      e := None;
    }

    /** The editor's "Move up" button for choice `i` of node `id`. */
    method MoveChoiceUp(id: string, i: nat) returns (e: Option<Error>)
      requires Valid()
      modifies this
      ensures Valid()
      ensures match Graph.MoveChoiceUp(old(Data()), id, i)
                case Ok(d) => e == None && Data() == d
                case Err(x) => e == Some(x) && Data() == old(Data())
    {
      if id !in nodes {
        return Some(NotFound(id));
      }
      var cs := nodes[id].choices;
      if i > 0 {
        if i >= |cs| {
          return Some(IndexOutOfRange(i));
        }
        cs := cs[i - 1 := cs[i]][i := cs[i - 1]];
        nodes := nodes[id := nodes[id].(choices := cs)];
      }
      e := None;
    }

    /** The editor's "Move down" button for choice `i` of node `id`. */
    method MoveChoiceDown(id: string, i: nat) returns (e: Option<Error>)
      requires Valid()
      modifies this
      ensures Valid()
      ensures match Graph.MoveChoiceDown(old(Data()), id, i)
                case Ok(d) => e == None && Data() == d
                case Err(x) => e == Some(x) && Data() == old(Data())
    {
      if id !in nodes {
        return Some(NotFound(id));
      }
      var cs := nodes[id].choices;
      if i + 1 < |cs| {
        cs := cs[i + 1 := cs[i]][i := cs[i + 1]];
        assert cs == Graph.Swap(old(nodes)[id].choices, i, i + 1);
        nodes := nodes[id := nodes[id].(choices := cs)];
      }
      e := None;
    }

    /**
     * The start-node repair the playback view performs before offering a starting node;
     * returns the node it preselects, or `None` for an empty story.
     */
    method RepairStart() returns (preselected: Option<string>)
      requires Valid()
      modifies this
      ensures Valid()
      ensures Data() == Graph.RepairStart(old(Data()))
      ensures preselected == if nodes == map[] then None else start
      ensures preselected.Some? ==> preselected.value in nodes
    {
      if nodes == map[] {
        return None;
      }
      if !(start.Some? && start.value in nodes) {
        assert order != [] by {
          var k :| k in nodes;
          assert k in order;
        }
        start := Some(order[0]);
      }
      preselected := start;
    }
  }
}
