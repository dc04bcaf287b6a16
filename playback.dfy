/**
 * The playback view's state machine: the node being played and the list of nodes
 * visited on the way there. Restart, Step Back, the validity reset done on every
 * render, and following a choice.
 */
module Playback {
  import opened Wrappers
  import opened Entities

  /** `playback_node_id` and `playback_history`. */
  datatype PlayState = PlayState(current: Option<string>, history: seq<string>)

  /** The state before any playback: no node, an empty history. */
  const Initial: PlayState := PlayState(None, [])

  /** The history is never empty and ends at the node being played. */
  predicate Consistent(p: PlayState) {
    |p.history| > 0 && p.current == Some(p.history[|p.history| - 1])
  }

  /** Restart: play `start` with a history of just `start`. */
  function Restarted(start: string): (r: PlayState)
    ensures Consistent(r) && |r.history| == 1
    ensures r.current == Some(start) && r.history[0] == start
  {
    PlayState(Some(start), [start])
  }

  /** Step Back: drop the last visited node when there is an earlier one, and play that one; otherwise nothing. */
  function SteppedBack(p: PlayState): (r: PlayState)
    ensures |p.history| <= 1 ==> r == p
    ensures |p.history| > 1 ==> |r.history| == |p.history| - 1 && r.history == p.history[..|r.history|]
    ensures |p.history| > 1 ==> Consistent(r)
  {
    if |p.history| > 1 then
      var h := p.history[..|p.history| - 1];
      PlayState(Some(h[|h| - 1]), h)
    else p
  }

  /** The reset on every render: a missing or deleted current node restarts at `start`. */
  function Revalidated(s: StoryData, p: PlayState, start: string): (r: PlayState)
    ensures p.current.Some? && p.current.value in s.nodes ==> r == p
    ensures !(p.current.Some? && p.current.value in s.nodes) ==> r == Restarted(start)
    ensures start in s.nodes ==> r.current.Some? && r.current.value in s.nodes
  {
    if p.current.Some? && p.current.value in s.nodes then p else Restarted(start)
  }

  /** Following choice `i` of the current node: its target is played next and appended to the history. */
  function Chosen(s: StoryData, p: PlayState, i: nat): (r: PlayState)
    requires p.current.Some? && p.current.value in s.nodes
    requires i < |s.nodes[p.current.value].choices|
    ensures Consistent(r) && |r.history| == |p.history| + 1
    ensures r.history[..|p.history|] == p.history
    ensures r.current == Some(s.nodes[p.current.value].choices[i].targetId)
  {
    var target := s.nodes[p.current.value].choices[i].targetId;
    var r := PlayState(Some(target), p.history + [target]);
    assert r.history[..|p.history|] == p.history;
    r
  }

  /** Every transition keeps the history non-empty and ending at the current node. */
  lemma TransitionsKeepConsistent(s: StoryData, p: PlayState, start: string, i: nat)
    requires Consistent(p)
    ensures Consistent(SteppedBack(p))
    ensures Consistent(Revalidated(s, p, start))
    ensures p.current.value in s.nodes && i < |s.nodes[p.current.value].choices| ==> Consistent(Chosen(s, p, i))
  {
  }

  /** Stepping back right after following a choice returns to where playback was. */
  lemma ChooseThenStepBack(s: StoryData, p: PlayState, i: nat)
    requires Consistent(p) && p.current.value in s.nodes
    requires i < |s.nodes[p.current.value].choices|
    ensures SteppedBack(Chosen(s, p, i)) == p
  {
    var r := Chosen(s, p, i);
    assert r.history[..|r.history| - 1] == p.history;
  }

  /** Stepping back at the first node of the history changes nothing, however often. */
  lemma StepBackAtRoot(p: PlayState)
    requires |p.history| <= 1
    ensures SteppedBack(SteppedBack(p)) == SteppedBack(p) == p
  {
  }

  /** `n` presses of Step Back. */
  function StepBacks(p: PlayState, n: nat): PlayState {
    if n == 0 then p else SteppedBack(StepBacks(p, n - 1))
  }

  /**
   * `n` presses of Step Back from a consistent state keep the first `|history| - n`
   * visited nodes, never fewer than one, and play the last of them.
   */
  lemma {:induction false} StepBacksTruncate(p: PlayState, n: nat)
    requires Consistent(p)
    ensures var k := if n < |p.history| then |p.history| - n else 1;
      StepBacks(p, n).history == p.history[..k] && Consistent(StepBacks(p, n))
  {
    if n == 0 {
      assert p.history[..|p.history|] == p.history;
    } else {
      StepBacksTruncate(p, n - 1);
      var q := StepBacks(p, n - 1);
      var k := if n - 1 < |p.history| then |p.history| - (n - 1) else 1;
      assert q.history == p.history[..k];
      if |q.history| > 1 {
        assert SteppedBack(q).history == p.history[..k][..k - 1];
        assert p.history[..k][..k - 1] == p.history[..k - 1];
      }
    }
  }

  /** The playback state of the view, as the two session entries it keeps. */
  class Player {
    var current: Option<string>
    var history: seq<string>

    /** The state as a value. */
    function State(): PlayState
      reads this
    {
      PlayState(current, history)
    }

    /** The initial session entries. */
    constructor ()
      ensures State() == Initial
    {
      current := None;
      history := [];
    }

    /** The Restart button. */
    method Restart(start: string)
      modifies this
      ensures State() == Restarted(start)
    {
      current := Some(start);
      history := [start];
    }

    /** The Step Back button: `hist.pop()` when more than one node was visited. */
    method StepBack()
      modifies this
      ensures State() == SteppedBack(old(State()))
    {
      if |history| > 1 {
        history := history[..|history| - 1];
        current := Some(history[|history| - 1]);
      }
    }

    /** The check before showing the current node. */
    method Reset(s: StoryData, start: string)
      modifies this
      ensures State() == Revalidated(s, old(State()), start)
    {
      if !(current.Some? && current.value in s.nodes) {
        current := Some(start);
        history := [start];
      }
    }

    /** A choice button of the current node. */
    method Choose(s: StoryData, i: nat)
      requires current.Some? && current.value in s.nodes
      requires i < |s.nodes[current.value].choices|
      modifies this
      ensures State() == Chosen(s, old(State()), i)
    {
      var target := s.nodes[current.value].choices[i].targetId;
      current := Some(target);
      history := history + [target];
    }
  }
}
