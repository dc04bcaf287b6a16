/** The story graph's records: choices (edges), nodes (beats) and the story itself. */
module Entities {
  import opened Wrappers
  import Text
  import opened Sequences

  /** A labelled, optionally gated edge from its owning node to the node `targetId` names. */
  datatype Choice = Choice(text: string, targetId: string, tags: seq<string>, gate: string)

  /** A beat of the story; `choices` is in presentation order. */
  datatype Node = Node(
    id: string, title: string, text: string,
    npc: string, location: string, emotion: string,
    tags: seq<string>, gmNotes: string, choices: seq<Choice>)

  /**
   * The value of a story. `nodes` is the Python dict's content and `order` its key
   * insertion order, which decides the start-node repair, export order and playback order.
   */
  datatype StoryData = StoryData(
    title: string, description: string,
    nodes: map<string, Node>, order: seq<string>,
    start: Option<string>)

  /** The defaults `Story()` starts from. */
  const DefaultStoryTitle: string := "Untitled Story"
  /** The title that replaces a blank or missing node title. */
  const UntitledNode: string := "(untitled)"

  /** The placeholder title has no surrounding whitespace. */
  lemma UntitledTrimmed()
    ensures Text.Trimmed(UntitledNode)
  {
    assert UntitledNode[0] == '(' && UntitledNode[|UntitledNode| - 1] == ')';
  }

  /** `Story()`: no nodes and no start node. */
  function EmptyStory(): (r: StoryData)
    ensures WellFormed(r) && StartValid(r) && r.order == []
    ensures r.title == DefaultStoryTitle && r.description == "" && r.nodes == map[] && r.start == None
  {
    StoryData(DefaultStoryTitle, "", map[], [], None)
  }

  /** No element of `xs` occurs twice. */
  predicate NoDups<T(==)>(xs: seq<T>) {
    forall i, j :: 0 <= i < j < |xs| ==> xs[i] != xs[j]
  }

  /** A dict with insertion order: the order lists every key exactly once. */
  predicate WellFormed(s: StoryData) {
    NoDups(s.order)
    && (forall k :: k in s.order ==> k in s.nodes)
    && (forall k :: k in s.nodes ==> k in s.order)
  }

  /**
   * The start-node invariant: an empty story has no start, and a non-empty story's
   * start is one of its nodes.
   */
  predicate StartValid(s: StoryData) {
    if |s.nodes| == 0 then s.start == None else s.start.Some? && s.start.value in s.nodes
  }

  /** Python's `not story.start_node_id`: no start, or the empty string. */
  predicate Unset(start: Option<string>) {
    start == None || start == Some("")
  }

  /** Every dict key equals the `id` of the node stored under it. */
  predicate KeysMatchIds(s: StoryData) {
    forall k :: k in s.nodes ==> s.nodes[k].id == k
  }

  /**
   * `xs` with every occurrence of `x` removed: each other element as often as in `xs`,
   * in its order.
   */
  function RemoveAll(xs: seq<string>, x: string): (r: seq<string>)
    ensures forall y :: y in r <==> y in xs && y != x
    ensures forall y :: y != x ==> multiset(r)[y] == multiset(xs)[y]
    ensures IsSubsequence(r, xs)
    ensures NoDups(xs) ==> NoDups(r)
    ensures x !in xs ==> r == xs
    ensures |r| <= |xs|
  {
    if xs == [] then []
    else
      var rest := RemoveAll(xs[1..], x);
      assert xs == [xs[0]] + xs[1..];
      assert NoDups(xs) ==> NoDups(xs[1..]) && xs[0] !in xs[1..];
      if xs[0] == x then
        SubsequenceSkip(rest, xs);
        rest
      else
        SubsequenceKeep(rest, xs);
        assert NoDups(xs) ==> NoDups([xs[0]] + rest) by {
          if NoDups(xs) { NoDupsCons(xs[0], rest); }
        }
        [xs[0]] + rest
  }

  /**
   * The first element of `xs` that is not `x`, at index `j`, is the first element left
   * after removing `x`.
   */
  lemma {:induction false} RemoveAllFirst(xs: seq<string>, x: string, j: nat)
    requires j < |xs| && xs[j] != x
    requires forall i :: 0 <= i < j ==> xs[i] == x
    ensures RemoveAll(xs, x) != [] && RemoveAll(xs, x)[0] == xs[j]
  {
    if j > 0 {
      assert xs[0] == x;
      assert forall i :: 0 <= i < j - 1 ==> xs[1..][i] == xs[i + 1];
      RemoveAllFirst(xs[1..], x, j - 1);
    }
  }

  /** Putting a new element in front keeps a sequence free of duplicates. */
  lemma NoDupsCons<T>(a: T, xs: seq<T>)
    requires NoDups(xs) && a !in xs
    ensures NoDups([a] + xs)
  {
    forall i, j | 0 <= i < j < |[a] + xs|
      ensures ([a] + xs)[i] != ([a] + xs)[j]
    {
      assert ([a] + xs)[j] == xs[j - 1];
      if i > 0 { assert ([a] + xs)[i] == xs[i - 1]; }
    }
  }

  /** Appending a new element keeps a sequence free of duplicates. */
  lemma NoDupsSnoc<T>(xs: seq<T>, a: T)
    requires NoDups(xs) && a !in xs
    ensures NoDups(xs + [a])
  {
    forall i, j | 0 <= i < j < |xs + [a]|
      ensures (xs + [a])[i] != (xs + [a])[j]
    {
      assert (xs + [a])[i] == xs[i];
      if j < |xs| { assert (xs + [a])[j] == xs[j]; }
    }
  }
}
