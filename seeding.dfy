/**
 * `load_seed`: title-linked batch ingestion. A first pass adds one node per seed entry
 * and records which id each raw title got; a second pass wires each entry's choices
 * by target title, skipping targets no entry is titled with.
 */
module Seeding {
  import opened Wrappers
  import opened Entities
  import opened Sequences
  import Graph
  import Stories

  /** A choice of a seed entry; an absent key stands for its default (`""`, `[]`). */
  datatype SeedChoice = SeedChoice(text: string, target: string, tags: seq<string>, gate: string)

  /**
   * A seed entry. Only the title may be absent in a way that matters (`entry["title"]`
   * raises on it); the other keys stand for their defaults when absent.
   */
  datatype SeedEntry = SeedEntry(
    title: Option<string>, text: string, npc: string, location: string, emotion: string,
    tags: seq<string>, gmNotes: string, choices: seq<SeedChoice>)

  /** The seed document: `title`, `description` and the `nodes` list of entries. */
  datatype Seed = Seed(title: Option<string>, description: Option<string>, entries: seq<SeedEntry>)

  const DefaultSeedTitle: string := "Seed Story"
  const DefaultEntryTitle: string := "Untitled"

  /** The keyword arguments the first pass gives `add_node` for entry `e`. */
  function DraftOf(e: SeedEntry): (d: Graph.Draft)
    ensures e.title.Some? ==> d.title == e.title.value
    ensures e.title.None? ==> d.title == DefaultEntryTitle
  {
    Graph.Draft(e.title.GetOr(DefaultEntryTitle), e.text, e.npc, e.location, e.emotion, e.tags, e.gmNotes)
  }

  /** The ids the caller supplies in place of `uuid4`: one per entry, distinct, non-empty, unused. */
  predicate FreshIds(s: StoryData, es: seq<SeedEntry>, ids: seq<string>) {
    |ids| == |es| && NoDups(ids) && forall j :: 0 <= j < |ids| ==> ids[j] != "" && ids[j] !in s.nodes
  }

  // ---------------------------------------------------------------------------
  // First pass: create the nodes, record the title map
  // ---------------------------------------------------------------------------

  /** The story after the first pass has added the nodes of the first `i` entries. */
  function Created(s: StoryData, es: seq<SeedEntry>, ids: seq<string>, i: nat): (r: StoryData)
    requires WellFormed(s) && FreshIds(s, es, ids) && i <= |es|
    ensures WellFormed(r) && r.order == s.order + ids[..i]
    decreases i
  {
    if i == 0 then
      assert ids[..0] == [];
      s
    else
      var p := Created(s, es, ids, i - 1);
      CreateStep(s, es, ids, i, p);
      Graph.AddNode(p, ids[i - 1], DraftOf(es[i - 1]))
  }

  /** Adding the node of entry `i - 1` after the first `i - 1`: its id is fresh, and the order grows by it. */
  lemma CreateStep(s: StoryData, es: seq<SeedEntry>, ids: seq<string>, i: nat, p: StoryData)
    requires WellFormed(s) && FreshIds(s, es, ids) && 0 < i <= |es|
    requires WellFormed(p) && p.order == s.order + ids[..i - 1]
    ensures ids[i - 1] !in p.nodes
    ensures WellFormed(Graph.AddNode(p, ids[i - 1], DraftOf(es[i - 1])))
    ensures Graph.AddNode(p, ids[i - 1], DraftOf(es[i - 1])).order == s.order + ids[..i]
  {
    var id := ids[i - 1];
    assert id !in s.order;
    assert id !in ids[..i - 1] by {
      forall j | 0 <= j < i - 1 ensures ids[j] != id {}
    }
    assert ids[..i] == ids[..i - 1] + [id];
    Graph.AddNodeInvariants(p, id, DraftOf(es[i - 1]));
  }

  /** The first pass leaves the story's old nodes alone. */
  lemma {:induction false} CreatedKeepsOld(s: StoryData, es: seq<SeedEntry>, ids: seq<string>, i: nat, k: string)
    requires WellFormed(s) && FreshIds(s, es, ids) && i <= |es| && k in s.nodes
    ensures k in Created(s, es, ids, i).nodes && Created(s, es, ids, i).nodes[k] == s.nodes[k]
  {
    if i > 0 {
      CreatedKeepsOld(s, es, ids, i - 1, k);
      CreateStep(s, es, ids, i, Created(s, es, ids, i - 1));
      assert k != ids[i - 1];
    }
  }

  /** The first pass leaves the story's title and description alone. */
  lemma {:induction false} CreatedHeader(s: StoryData, es: seq<SeedEntry>, ids: seq<string>, i: nat)
    requires WellFormed(s) && FreshIds(s, es, ids) && i <= |es|
    ensures Created(s, es, ids, i).title == s.title && Created(s, es, ids, i).description == s.description
  {
    if i > 0 {
      CreatedHeader(s, es, ids, i - 1);
      CreateStep(s, es, ids, i, Created(s, es, ids, i - 1));
    }
  }

  /** The node of entry `j` is the one `add_node` builds from it, and later steps leave it alone. */
  lemma {:induction false} CreatedEntry(s: StoryData, es: seq<SeedEntry>, ids: seq<string>, i: nat, j: nat)
    requires WellFormed(s) && FreshIds(s, es, ids) && j < i <= |es|
    ensures ids[j] in Created(s, es, ids, i).nodes
    ensures Created(s, es, ids, i).nodes[ids[j]] == Graph.NewNode(ids[j], DraftOf(es[j]))
  {
    CreateStep(s, es, ids, i, Created(s, es, ids, i - 1));
    if j < i - 1 {
      CreatedEntry(s, es, ids, i - 1, j);
      assert ids[j] != ids[i - 1];
    }
  }

  /** The first `i` entries all have a title. */
  predicate HasTitles(es: seq<SeedEntry>, i: nat)
    requires i <= |es|
  {
    forall j :: 0 <= j < i ==> es[j].title.Some?
  }

  /** `id_map` after the first `i` entries: each raw title mapped to the id of its node, a later entry winning. */
  function IdMap(es: seq<SeedEntry>, ids: seq<string>, i: nat): (r: map<string, string>)
    requires |ids| == |es| && i <= |es| && HasTitles(es, i)
    ensures forall j :: 0 <= j < i ==> es[j].title.value in r
    ensures forall t :: t in r ==> r[t] in ids[..i]
  {
    if i == 0 then map[]
    else
      var m := IdMap(es, ids, i - 1);
      assert ids[..i] == ids[..i - 1] + [ids[i - 1]];
      m[es[i - 1].title.value := ids[i - 1]]
  }

  /** When titles collide, the last entry with the title owns it in `id_map`. */
  lemma {:induction false} IdMapLaterWins(es: seq<SeedEntry>, ids: seq<string>, i: nat, k: nat)
    requires |ids| == |es| && i <= |es| && HasTitles(es, i) && k < i
    requires forall j :: k < j < i ==> es[j].title != es[k].title
    ensures IdMap(es, ids, i)[es[k].title.value] == ids[k]
  {
    if k < i - 1 {
      IdMapLaterWins(es, ids, i - 1, k);
    }
  }

  /** The first entry without a title, where the first pass stops with a `KeyError`. */
  function FirstUntitled(es: seq<SeedEntry>): (r: Option<nat>)
    ensures r.None? <==> HasTitles(es, |es|)
    ensures r.Some? ==> r.value < |es| && es[r.value].title.None? && HasTitles(es, r.value)
  {
    if es == [] then None
    else if es[0].title.None? then Some(0)
    else
      match FirstUntitled(es[1..])
      case None => None
      case Some(k) => Some(k + 1)
  }

  // ---------------------------------------------------------------------------
  // Second pass: wire the choices by target title
  // ---------------------------------------------------------------------------

  /** `Choice(...)` for a seed choice whose target title is in `id_map`; none for a missing or unmatched target. */
  function ResolveOne(c: SeedChoice, m: map<string, string>): (r: Option<Choice>)
    ensures r.Some? <==> c.target in m && m[c.target] != ""
    ensures r.Some? ==> r.value == Choice(c.text, m[c.target], c.tags, c.gate)
  {
    var tgt := if c.target in m then m[c.target] else "";
    if tgt == "" then None else Some(Choice(c.text, tgt, c.tags, c.gate))
  }

  /** The choices the second pass appends for the seed choices `cs`, in order. */
  function Resolve(cs: seq<SeedChoice>, m: map<string, string>): (r: seq<Choice>)
    ensures |r| <= |cs|
    ensures forall c :: c in r ==> c.targetId in m.Values && c.targetId != ""
  {
    if cs == [] then []
    else
      var last := ResolveOne(cs[|cs| - 1], m);
      Resolve(cs[..|cs| - 1], m) + (if last.Some? then [last.value] else [])
  }

  /** Choices whose target titles all match are all appended, each to the matching node. */
  lemma {:induction false} ResolveAllMatched(cs: seq<SeedChoice>, m: map<string, string>)
    requires forall j :: 0 <= j < |cs| ==> cs[j].target in m && m[cs[j].target] != ""
    ensures |Resolve(cs, m)| == |cs|
    ensures forall j :: 0 <= j < |cs| ==> Resolve(cs, m)[j] == Choice(cs[j].text, m[cs[j].target], cs[j].tags, cs[j].gate)
  {
    if cs != [] {
      var init := cs[..|cs| - 1];
      ResolveAllMatched(init, m);
      var r := Resolve(cs, m);
      assert r == Resolve(init, m) + [ResolveOne(cs[|cs| - 1], m).value];
      forall j | 0 <= j < |cs| ensures r[j] == Choice(cs[j].text, m[cs[j].target], cs[j].tags, cs[j].gate) {
        if j < |init| {
          assert r[j] == Resolve(init, m)[j] && init[j] == cs[j];
        }
      }
    }
  }

  /** The node that `id_map.get(title)` names for entry `e`, or `""` for none. */
  function Source(e: SeedEntry, m: map<string, string>): (r: string)
    ensures e.title.Some? && e.title.value in m ==> r == m[e.title.value]
    ensures e.title.Some? && e.title.value !in m ==> r == ""
    ensures e.title.None? ==> r == (if "" in m then m[""] else "")
  {
    var t := e.title.GetOr("");
    if t in m then m[t] else ""
  }

  /** `s` with `cs` appended to the choices of node `src`. */
  function AppendChoices(s: StoryData, src: string, cs: seq<Choice>): (r: StoryData)
    requires src in s.nodes
    ensures r.nodes.Keys == s.nodes.Keys && r.order == s.order
    ensures r.nodes[src] == s.nodes[src].(choices := s.nodes[src].choices + cs)
  {
    s.(nodes := s.nodes[src := s.nodes[src].(choices := s.nodes[src].choices + cs)])
  }

  /** Appending choices to one node changes nothing but that node's choices. */
  lemma AppendChoicesFrame(s: StoryData, src: string, cs: seq<Choice>)
    requires src in s.nodes
    ensures var r := AppendChoices(s, src, cs);
      r.nodes.Keys == s.nodes.Keys && r.order == s.order && r.start == s.start
      && r.title == s.title && r.description == s.description
      && r.nodes[src].choices == s.nodes[src].choices + cs
      && (forall k :: k in r.nodes ==> r.nodes[k].(choices := s.nodes[k].choices) == s.nodes[k])
      && (forall k :: k in r.nodes && k != src ==> r.nodes[k] == s.nodes[k])
  {
  }

  /** Appending the choices `a`, then `b`, appends `a + b`; appending none changes nothing. */
  lemma AppendChoicesTwice(s: StoryData, src: string, a: seq<Choice>, b: seq<Choice>)
    requires src in s.nodes
    ensures AppendChoices(s, src, []) == s
    ensures AppendChoices(AppendChoices(s, src, a), src, b) == AppendChoices(s, src, a + b)
  {
    assert s.nodes[src].choices + [] == s.nodes[src].choices;
    assert s.nodes[src := s.nodes[src]] == s.nodes;
    assert s.nodes[src].choices + a + b == s.nodes[src].choices + (a + b);
  }

  /** What each entry's wiring appends to node `k`, entry by entry. */
  function WiredParts(es: seq<SeedEntry>, m: map<string, string>, k: string): (r: seq<seq<Choice>>)
    ensures |r| == |es| && forall a :: 0 <= a < |es| ==> r[a] == EntryWired(es[a], m, k)
  {
    seq(|es|, a requires 0 <= a < |es| => EntryWired(es[a], m, k))
  }

  /** The choices the second pass appends to node `k` for the first `i` entries, in entry order. */
  function WiredTo(es: seq<SeedEntry>, m: map<string, string>, k: string, i: nat): seq<Choice>
    requires i <= |es|
  {
    if i == 0 then [] else WiredTo(es, m, k, i - 1) + EntryWired(es[i - 1], m, k)
  }

  /** The wiring of the first `i` entries is their parts joined in entry order. */
  lemma {:induction false} WiredToConcat(es: seq<SeedEntry>, m: map<string, string>, k: string, i: nat)
    requires i <= |es|
    ensures WiredTo(es, m, k, i) == Concat(WiredParts(es, m, k)[..i])
  {
    var parts := WiredParts(es, m, k);
    if i == 0 {
      assert parts[..0] == [];
    } else {
      WiredToConcat(es, m, k, i - 1);
      ConcatSnoc(parts, i);
    }
  }

  /** The choices the second pass appends to node `k` for entry `e`: its resolved choices when `k` is its source. */
  function EntryWired(e: SeedEntry, m: map<string, string>, k: string): seq<Choice> {
    if k != "" && Source(e, m) == k then Resolve(e.choices, m) else []
  }

  /** The story after the second pass has wired the first `i` entries. */
  function Wire(s: StoryData, es: seq<SeedEntry>, m: map<string, string>, i: nat): (r: StoryData)
    requires forall t :: t in m ==> m[t] in s.nodes
    requires i <= |es|
    ensures r.nodes.Keys == s.nodes.Keys && r.order == s.order && r.start == s.start
    ensures r.title == s.title && r.description == s.description
  {
    if i == 0 then s
    else
      var p := Wire(s, es, m, i - 1);
      var src := Source(es[i - 1], m);
      if src == "" then p
      else
        AppendChoicesFrame(p, src, Resolve(es[i - 1].choices, m));
        AppendChoices(p, src, Resolve(es[i - 1].choices, m))
  }

  /** One step of the second pass: entry `i - 1` appends to node `k` exactly the choices it wires to `k`. */
  lemma WireEntryStep(s: StoryData, es: seq<SeedEntry>, m: map<string, string>, i: nat, k: string)
    requires forall t :: t in m ==> m[t] in s.nodes
    requires 0 < i <= |es| && k in s.nodes
    ensures Wire(s, es, m, i).nodes[k].choices == Wire(s, es, m, i - 1).nodes[k].choices + EntryWired(es[i - 1], m, k)
  {
    var p := Wire(s, es, m, i - 1);
    var src := Source(es[i - 1], m);
    if src == "" {
      assert EntryWired(es[i - 1], m, k) == [];
      assert p.nodes[k].choices + [] == p.nodes[k].choices;
    } else {
      AppendChoicesAt(p, src, Resolve(es[i - 1].choices, m), k);
    }
  }

  /** Appending to node `src` adds to the choices of `k` exactly when `k` is `src`. */
  lemma AppendChoicesAt(s: StoryData, src: string, cs: seq<Choice>, k: string)
    requires src in s.nodes && k in s.nodes
    ensures AppendChoices(s, src, cs).nodes[k].choices == s.nodes[k].choices + (if k == src then cs else [])
  {
    if k != src {
      assert s.nodes[k].choices + [] == s.nodes[k].choices;
    }
  }

  /** After the second pass, node `k` holds its old choices followed by exactly those wired to it, in entry order. */
  lemma {:induction false} WireChoices(s: StoryData, es: seq<SeedEntry>, m: map<string, string>, i: nat, k: string)
    requires forall t :: t in m ==> m[t] in s.nodes
    requires i <= |es| && k in s.nodes
    ensures Wire(s, es, m, i).nodes[k].choices == s.nodes[k].choices + WiredTo(es, m, k, i)
  {
    if i == 0 {
      assert s.nodes[k].choices + [] == s.nodes[k].choices;
    } else {
      WireChoices(s, es, m, i - 1, k);
      WireEntryStep(s, es, m, i, k);
      var w := WiredTo(es, m, k, i - 1);
      var e := EntryWired(es[i - 1], m, k);
      AppendAssoc(s.nodes[k].choices, w, e);
    }
  }

  /** The second pass only adds choices: every other field of every node is kept. */
  lemma {:induction false} WireOnlyChoices(s: StoryData, es: seq<SeedEntry>, m: map<string, string>, i: nat, k: string)
    requires forall t :: t in m ==> m[t] in s.nodes
    requires i <= |es| && k in s.nodes
    ensures Wire(s, es, m, i).nodes[k].(choices := s.nodes[k].choices) == s.nodes[k]
  {
    if i > 0 {
      WireOnlyChoices(s, es, m, i - 1, k);
      var p := Wire(s, es, m, i - 1);
      var src := Source(es[i - 1], m);
      if src != "" {
        AppendChoicesFrame(p, src, Resolve(es[i - 1].choices, m));
      }
    }
  }

  /** The second pass leaves a node alone unless `id_map` names it. */
  lemma {:induction false} WireKeeps(s: StoryData, es: seq<SeedEntry>, m: map<string, string>, i: nat, k: string)
    requires forall t :: t in m ==> m[t] in s.nodes
    requires i <= |es| && k in s.nodes && k !in m.Values
    ensures Wire(s, es, m, i).nodes[k] == s.nodes[k]
  {
    if i > 0 {
      WireKeeps(s, es, m, i - 1, k);
      var p := Wire(s, es, m, i - 1);
      var src := Source(es[i - 1], m);
      if src != "" {
        assert src in m.Values;
        AppendChoicesFrame(p, src, Resolve(es[i - 1].choices, m));
      }
    }
  }

  /** Every choice the second pass adds leads to a node `id_map` names. */
  lemma {:induction false} WireTargets(s: StoryData, es: seq<SeedEntry>, m: map<string, string>, i: nat, k: string, c: Choice)
    requires forall t :: t in m ==> m[t] in s.nodes
    requires i <= |es| && k in s.nodes && c in Wire(s, es, m, i).nodes[k].choices
    ensures c in s.nodes[k].choices || (c.targetId in m.Values && c.targetId != "")
  {
    if i > 0 {
      var p := Wire(s, es, m, i - 1);
      var src := Source(es[i - 1], m);
      if src != "" {
        var cs := Resolve(es[i - 1].choices, m);
        AppendChoicesFrame(p, src, cs);
        if k == src && c !in p.nodes[k].choices {
          assert c in cs;
        } else {
          WireTargets(s, es, m, i - 1, k, c);
        }
      } else {
        WireTargets(s, es, m, i - 1, k, c);
      }
    }
  }

  // ---------------------------------------------------------------------------
  // The whole ingestion
  // ---------------------------------------------------------------------------

  /** What `load_seed` leaves: the story, and the error that stopped it, if any. */
  datatype Loaded = Loaded(story: StoryData, error: Option<Error>)

  /**
   * `load_seed(story, seed)` with `ids` standing for the fresh `uuid4`s. An entry without a
   * title stops the first pass right after its node was added, with `MissingTitle` (a
   * `KeyError` in Python): the nodes added so far stay, nothing is wired and the title
   * and description keep their old values.
   */
  function LoadSeed(s: StoryData, seed: Seed, ids: seq<string>): (r: Loaded)
    requires WellFormed(s) && FreshIds(s, seed.entries, ids)
    ensures WellFormed(r.story)
  {
    var failed := FirstUntitled(seed.entries);
    if failed.Some? then Loaded(Created(s, seed.entries, ids, failed.value + 1), Some(MissingTitle(failed.value)))
    else Loaded(BothPasses(s, seed, ids), None)
  }

  /** Both passes over a seed whose entries all have titles, then the title and description from the seed. */
  function BothPasses(s: StoryData, seed: Seed, ids: seq<string>): (r: StoryData)
    requires WellFormed(s) && FreshIds(s, seed.entries, ids) && HasTitles(seed.entries, |seed.entries|)
    ensures WellFormed(r) && r.order == s.order + ids
    ensures r.title == seed.title.GetOr(DefaultSeedTitle) && r.description == seed.description.GetOr("")
  {
    var es := seed.entries;
    assert ids[..|es|] == ids;
    var created := Created(s, es, ids, |es|);
    IdMapValues(s, es, ids);
    var wired := Wire(created, es, IdMap(es, ids, |es|), |es|);
    wired.(title := seed.title.GetOr(DefaultSeedTitle), description := seed.description.GetOr(""))
  }

  /** The values of the final `id_map` are ids of created nodes. */
  lemma IdMapValues(s: StoryData, es: seq<SeedEntry>, ids: seq<string>)
    requires WellFormed(s) && FreshIds(s, es, ids) && HasTitles(es, |es|)
    ensures forall t :: t in IdMap(es, ids, |es|) ==> IdMap(es, ids, |es|)[t] in Created(s, es, ids, |es|).nodes
    ensures forall v :: v in IdMap(es, ids, |es|).Values ==> v in ids && v !in s.nodes
  {
    assert ids[..|es|] == ids;
  }

  /** Node `n` is what `add_node` builds for entry `e` under `id`, with choices possibly added. */
  predicate BuiltFrom(n: Node, id: string, e: SeedEntry) {
    n.(choices := []) == Graph.NewNode(id, DraftOf(e))
  }

  /** Both passes leave an old node alone: `id_map` only names created nodes. */
  lemma BothPassesKeepsOld(s: StoryData, seed: Seed, ids: seq<string>, k: string)
    requires WellFormed(s) && FreshIds(s, seed.entries, ids) && HasTitles(seed.entries, |seed.entries|)
    requires k in s.nodes
    ensures k in BothPasses(s, seed, ids).nodes && BothPasses(s, seed, ids).nodes[k] == s.nodes[k]
  {
    var es := seed.entries;
    IdMapValues(s, es, ids);
    CreatedKeepsOld(s, es, ids, |es|, k);
    assert k !in IdMap(es, ids, |es|).Values;
    WireKeeps(Created(s, es, ids, |es|), es, IdMap(es, ids, |es|), |es|, k);
  }

  /** After both passes, the node of entry `j` is the one `add_node` built, with only choices added. */
  lemma BothPassesEntry(s: StoryData, seed: Seed, ids: seq<string>, j: nat)
    requires WellFormed(s) && FreshIds(s, seed.entries, ids) && HasTitles(seed.entries, |seed.entries|)
    requires j < |ids|
    ensures ids[j] in BothPasses(s, seed, ids).nodes
    ensures BuiltFrom(BothPasses(s, seed, ids).nodes[ids[j]], ids[j], seed.entries[j])
  {
    var es := seed.entries;
    IdMapValues(s, es, ids);
    CreatedEntry(s, es, ids, |es|, j);
    WireOnlyChoices(Created(s, es, ids, |es|), es, IdMap(es, ids, |es|), |es|, ids[j]);
  }

  /** After both passes, every choice of an entry's node leads to a node created for an entry. */
  lemma BothPassesTargets(s: StoryData, seed: Seed, ids: seq<string>, j: nat, c: Choice)
    requires WellFormed(s) && FreshIds(s, seed.entries, ids) && HasTitles(seed.entries, |seed.entries|)
    requires j < |ids| && ids[j] in BothPasses(s, seed, ids).nodes
    requires c in BothPasses(s, seed, ids).nodes[ids[j]].choices
    ensures c.targetId in ids && c.targetId in BothPasses(s, seed, ids).nodes
  {
    var es := seed.entries;
    IdMapValues(s, es, ids);
    CreatedEntry(s, es, ids, |es|, j);
    WireTargets(Created(s, es, ids, |es|), es, IdMap(es, ids, |es|), |es|, ids[j], c);
  }

  /** A successful load appends one key per entry, in entry order, and sets the title and description. */
  lemma LoadSeedAddsEntries(s: StoryData, seed: Seed, ids: seq<string>)
    requires WellFormed(s) && FreshIds(s, seed.entries, ids) && HasTitles(seed.entries, |seed.entries|)
    ensures var r := LoadSeed(s, seed, ids);
      r.error == None && r.story.order == s.order + ids
      && r.story.title == seed.title.GetOr(DefaultSeedTitle)
      && r.story.description == seed.description.GetOr("")
  {
    assert LoadSeed(s, seed, ids) == Loaded(BothPasses(s, seed, ids), None);
  }

  /** After a successful load, the node of entry `j` is the one `add_node` built from it, with choices added. */
  lemma LoadSeedEntryNode(s: StoryData, seed: Seed, ids: seq<string>, j: nat)
    requires WellFormed(s) && FreshIds(s, seed.entries, ids) && HasTitles(seed.entries, |seed.entries|)
    requires j < |ids|
    ensures var r := LoadSeed(s, seed, ids);
      ids[j] in r.story.nodes && BuiltFrom(r.story.nodes[ids[j]], ids[j], seed.entries[j])
  {
    assert LoadSeed(s, seed, ids) == Loaded(BothPasses(s, seed, ids), None);
    BothPassesEntry(s, seed, ids, j);
  }

  /** A successful load leaves the story's old nodes alone. */
  lemma LoadSeedKeepsOld(s: StoryData, seed: Seed, ids: seq<string>)
    requires WellFormed(s) && FreshIds(s, seed.entries, ids) && HasTitles(seed.entries, |seed.entries|)
    ensures var r := LoadSeed(s, seed, ids);
      forall k :: k in s.nodes ==> k in r.story.nodes && r.story.nodes[k] == s.nodes[k]
  {
    var r := BothPasses(s, seed, ids);
    assert LoadSeed(s, seed, ids) == Loaded(r, None);
    forall k | k in s.nodes ensures k in r.nodes && r.nodes[k] == s.nodes[k] {
      BothPassesKeepsOld(s, seed, ids, k);
    }
  }

  /** Every choice the load appends leads to a node it created: unmatched targets are skipped. */
  lemma LoadSeedTargetsExist(s: StoryData, seed: Seed, ids: seq<string>)
    requires WellFormed(s) && FreshIds(s, seed.entries, ids) && HasTitles(seed.entries, |seed.entries|)
    ensures var r := LoadSeed(s, seed, ids);
      forall j, c :: 0 <= j < |ids| && ids[j] in r.story.nodes && c in r.story.nodes[ids[j]].choices ==>
        c.targetId in ids && c.targetId in r.story.nodes
  {
    var r := BothPasses(s, seed, ids);
    assert LoadSeed(s, seed, ids) == Loaded(r, None);
    forall j, c | 0 <= j < |ids| && ids[j] in r.nodes && c in r.nodes[ids[j]].choices
      ensures c.targetId in ids && c.targetId in r.nodes
    {
      BothPassesTargets(s, seed, ids, j, c);
    }
  }

  /** No two entries carry the same title. */
  predicate DistinctTitles(es: seq<SeedEntry>) {
    forall a, b :: 0 <= a < b < |es| ==> es[a].title != es[b].title
  }

  /** With distinct titles, `id_map` sends each entry's title to that entry's own id. */
  lemma IdMapOwn(es: seq<SeedEntry>, ids: seq<string>, j: nat)
    requires |ids| == |es| && HasTitles(es, |es|) && DistinctTitles(es) && j < |es|
    ensures es[j].title.value in IdMap(es, ids, |es|)
    ensures Source(es[j], IdMap(es, ids, |es|)) == ids[j]
  {
    IdMapLaterWins(es, ids, |es|, j);
  }

  /** Titled entries with distinct titles, and distinct non-empty ids, one per entry. */
  predicate DistinctBatch(es: seq<SeedEntry>, ids: seq<string>) {
    |ids| == |es| && NoDups(ids) && HasTitles(es, |es|) && DistinctTitles(es)
    && forall a :: 0 <= a < |ids| ==> ids[a] != ""
  }

  /** In a distinct batch, entry `a` wires nothing to the node of another entry `j`. */
  lemma EntryWiredElsewhere(es: seq<SeedEntry>, ids: seq<string>, j: nat, a: nat)
    requires DistinctBatch(es, ids) && j < |es| && a < |es| && a != j
    ensures EntryWired(es[a], IdMap(es, ids, |es|), ids[j]) == []
  {
    IdMapOwn(es, ids, a);
    assert ids[a] != ids[j];
  }

  /** In a distinct batch, entry `j` wires to its own node all the choices resolved from it. */
  lemma EntryWiredOwn(es: seq<SeedEntry>, ids: seq<string>, j: nat)
    requires DistinctBatch(es, ids) && j < |es|
    ensures EntryWired(es[j], IdMap(es, ids, |es|), ids[j]) == Resolve(es[j].choices, IdMap(es, ids, |es|))
  {
    IdMapOwn(es, ids, j);
  }

  /** When only entry `j` wires anything to node `k`, the second pass wires to `k` exactly what entry `j` does. */
  lemma WiredToOnly(es: seq<SeedEntry>, m: map<string, string>, k: string, j: nat)
    requires j < |es| && forall a :: 0 <= a < |es| && a != j ==> EntryWired(es[a], m, k) == []
    ensures WiredTo(es, m, k, |es|) == EntryWired(es[j], m, k)
  {
    var parts := WiredParts(es, m, k);
    WiredToConcat(es, m, k, |es|);
    assert parts[..|es|] == parts;
    ConcatOne(parts, j);
  }

  /** In a distinct batch, the second pass wires to entry `j`'s node exactly the choices resolved from entry `j`. */
  lemma WiredToOwn(es: seq<SeedEntry>, ids: seq<string>, j: nat)
    requires DistinctBatch(es, ids) && j < |es|
    ensures WiredTo(es, IdMap(es, ids, |es|), ids[j], |es|) == Resolve(es[j].choices, IdMap(es, ids, |es|))
  {
    var m := IdMap(es, ids, |es|);
    forall a | 0 <= a < |es| && a != j ensures EntryWired(es[a], m, ids[j]) == [] {
      EntryWiredElsewhere(es, ids, j, a);
    }
    EntryWiredOwn(es, ids, j);
    WiredToOnly(es, m, ids[j], j);
  }

  /**
   * In a distinct batch, the second pass gives entry `j`'s node, which had no choices,
   * exactly the choices resolved from entry `j`, and changes nothing else about it.
   */
  lemma WireEntryNode(c: StoryData, es: seq<SeedEntry>, ids: seq<string>, j: nat)
    requires DistinctBatch(es, ids) && j < |es|
    requires forall t :: t in IdMap(es, ids, |es|) ==> IdMap(es, ids, |es|)[t] in c.nodes
    requires ids[j] in c.nodes && c.nodes[ids[j]].choices == []
    ensures Wire(c, es, IdMap(es, ids, |es|), |es|).nodes[ids[j]]
      == c.nodes[ids[j]].(choices := Resolve(es[j].choices, IdMap(es, ids, |es|)))
  {
    var m := IdMap(es, ids, |es|);
    WireChoices(c, es, m, |es|, ids[j]);
    WiredToOwn(es, ids, j);
    WireOnlyChoices(c, es, m, |es|, ids[j]);
    assert [] + Resolve(es[j].choices, m) == Resolve(es[j].choices, m);
  }

  /**
   * With distinct titles, a successful load gives entry `j`'s node exactly the choices
   * resolved from that entry, in its order, on top of the node `add_node` built.
   */
  lemma LoadSeedWired(s: StoryData, seed: Seed, ids: seq<string>, j: nat)
    requires WellFormed(s) && FreshIds(s, seed.entries, ids) && HasTitles(seed.entries, |seed.entries|)
    requires DistinctTitles(seed.entries) && j < |ids|
    ensures var r := LoadSeed(s, seed, ids).story;
      ids[j] in r.nodes
      && r.nodes[ids[j]] == Graph.NewNode(ids[j], DraftOf(seed.entries[j])).(
           choices := Resolve(seed.entries[j].choices, IdMap(seed.entries, ids, |seed.entries|)))
  {
    var es := seed.entries;
    assert LoadSeed(s, seed, ids) == Loaded(BothPasses(s, seed, ids), None);
    IdMapValues(s, es, ids);
    CreatedEntry(s, es, ids, |es|, j);
    assert DistinctBatch(es, ids);
    WireEntryNode(Created(s, es, ids, |es|), es, ids, j);
  }

  /**
   * Two entries titled `a` and `b`, the first with one choice whose target is `b`: the
   * load wires exactly that one choice, from the first node to the second.
   */
  lemma TwoEntryLoad(s: StoryData, ids: seq<string>, a: string, b: string, c: SeedChoice)
    requires a != b && c.target == b
    requires WellFormed(s)
    requires FreshIds(s, [SeedEntry(Some(a), "", "", "", "", [], "", [c]), SeedEntry(Some(b), "", "", "", "", [], "", [])], ids)
    ensures var seed := Seed(None, None, [SeedEntry(Some(a), "", "", "", "", [], "", [c]), SeedEntry(Some(b), "", "", "", "", [], "", [])]);
      var r := LoadSeed(s, seed, ids).story;
      ids[0] in r.nodes && ids[1] in r.nodes
      && r.nodes[ids[0]].choices == [Choice(c.text, ids[1], c.tags, c.gate)]
      && r.nodes[ids[1]].choices == []
  {
    var es := [SeedEntry(Some(a), "", "", "", "", [], "", [c]), SeedEntry(Some(b), "", "", "", "", [], "", [])];
    var seed := Seed(None, None, es);
    assert HasTitles(es, |es|);
    var m := IdMap(es, ids, |es|);
    LoadSeedWired(s, seed, ids, 0);
    LoadSeedWired(s, seed, ids, 1);
    IdMapOwn(es, ids, 1);
    assert Resolve([c], m) == Resolve([], m) + [ResolveOne(c, m).value];
  }

  /** A failed load stops at the first untitled entry, keeping the nodes added up to and including it. */
  lemma LoadSeedStopsAtUntitled(s: StoryData, seed: Seed, ids: seq<string>)
    requires WellFormed(s) && FreshIds(s, seed.entries, ids) && !HasTitles(seed.entries, |seed.entries|)
    ensures var r := LoadSeed(s, seed, ids);
      var k := FirstUntitled(seed.entries).value;
      r.error == Some(MissingTitle(k)) && seed.entries[k].title.None?
      && r.story.order == s.order + ids[..k + 1]
      && r.story.title == s.title && r.story.description == s.description
  {
    var k := FirstUntitled(seed.entries).value;
    assert LoadSeed(s, seed, ids) == Loaded(Created(s, seed.entries, ids, k + 1), Some(MissingTitle(k)));
    CreatedHeader(s, seed.entries, ids, k + 1);
  }

  /** A load keeps the start node valid. */
  lemma {:induction false} CreatedStartValid(s: StoryData, es: seq<SeedEntry>, ids: seq<string>, i: nat)
    requires WellFormed(s) && FreshIds(s, es, ids) && i <= |es| && StartValid(s)
    ensures StartValid(Created(s, es, ids, i))
  {
    if i > 0 {
      CreatedStartValid(s, es, ids, i - 1);
      var p := Created(s, es, ids, i - 1);
      Graph.AddNodeInvariants(p, ids[i - 1], DraftOf(es[i - 1]));
    }
  }

  /** `load_seed` keeps the start-node invariant. */
  lemma LoadSeedStartValid(s: StoryData, seed: Seed, ids: seq<string>)
    requires WellFormed(s) && FreshIds(s, seed.entries, ids) && StartValid(s)
    ensures StartValid(LoadSeed(s, seed, ids).story)
  {
    var es := seed.entries;
    match FirstUntitled(es)
    case Some(k) =>
      CreatedStartValid(s, es, ids, k + 1);
    case None =>
      CreatedStartValid(s, es, ids, |es|);
      IdMapValues(s, es, ids);
  }

  // ---------------------------------------------------------------------------
  // The two passes over a live story
  // ---------------------------------------------------------------------------

  /** `load_seed` on a story object: the first pass calls `add_node`, the second appends to each node's choices. */
  method Load(story: Stories.Story, seed: Seed, ids: seq<string>) returns (err: Option<Error>)
    requires story.Valid() && FreshIds(story.Data(), seed.entries, ids)
    modifies story
    ensures story.Valid()
    ensures LoadSeed(old(story.Data()), seed, ids) == Loaded(story.Data(), err)
  {
    ghost var s0 := story.Data();
    var idMap, failed := AddEntries(story, seed.entries, ids);
    if failed.Some? {
      LoadSeedFailed(s0, seed, ids);
      err := Some(MissingTitle(failed.value));
    } else {
      WireAndName(story, seed, s0, ids, idMap);
      err := None;
    }
  }

  /** What `load_seed` does once every entry has its node: the second pass, then the title and description. */
  method WireAndName(story: Stories.Story, seed: Seed, ghost s0: StoryData, ids: seq<string>, idMap: map<string, string>)
    requires WellFormed(s0) && FreshIds(s0, seed.entries, ids) && HasTitles(seed.entries, |seed.entries|)
    requires story.Valid() && story.Data() == Created(s0, seed.entries, ids, |seed.entries|)
    requires idMap == IdMap(seed.entries, ids, |seed.entries|)
    modifies story
    ensures story.Valid()
    ensures LoadSeed(s0, seed, ids) == Loaded(story.Data(), None)
  {
    IdMapValues(s0, seed.entries, ids);
    WireEntries(story, seed.entries, idMap);
    ghost var wired := story.Data();
    story.SetHeader(seed.title.GetOr(DefaultSeedTitle), seed.description.GetOr(""));
    LoadSeedSucceeded(s0, seed, ids, wired, story.Data());
  }

  /** How a load that stops at an untitled entry ends, as `Load` reaches it. */
  lemma LoadSeedFailed(s: StoryData, seed: Seed, ids: seq<string>)
    requires WellFormed(s) && FreshIds(s, seed.entries, ids) && FirstUntitled(seed.entries).Some?
    ensures var k := FirstUntitled(seed.entries).value;
      LoadSeed(s, seed, ids) == Loaded(Created(s, seed.entries, ids, k + 1), Some(MissingTitle(k)))
  {
  }

  /** How a load of titled entries ends, as `Load` reaches it: the wired story with the seed's title and description. */
  lemma LoadSeedSucceeded(s: StoryData, seed: Seed, ids: seq<string>, wired: StoryData, r: StoryData)
    requires WellFormed(s) && FreshIds(s, seed.entries, ids) && HasTitles(seed.entries, |seed.entries|)
    requires forall t :: t in IdMap(seed.entries, ids, |seed.entries|) ==>
      IdMap(seed.entries, ids, |seed.entries|)[t] in Created(s, seed.entries, ids, |seed.entries|).nodes
    requires wired == Wire(Created(s, seed.entries, ids, |seed.entries|), seed.entries, IdMap(seed.entries, ids, |seed.entries|), |seed.entries|)
    requires r == wired.(title := seed.title.GetOr(DefaultSeedTitle), description := seed.description.GetOr(""))
    ensures LoadSeed(s, seed, ids) == Loaded(r, None)
  {
  }

  /** The first pass: one `add_node` per entry, recording each title's id, stopping at an untitled entry. */
  method AddEntries(story: Stories.Story, es: seq<SeedEntry>, ids: seq<string>)
    returns (idMap: map<string, string>, failed: Option<nat>)
    requires story.Valid() && FreshIds(story.Data(), es, ids)
    modifies story
    ensures story.Valid() && failed == FirstUntitled(es)
    ensures failed.Some? ==> story.Data() == Created(old(story.Data()), es, ids, failed.value + 1)
    ensures failed.None? ==> story.Data() == Created(old(story.Data()), es, ids, |es|)
    ensures failed.None? ==> idMap == IdMap(es, ids, |es|)
  {
    ghost var s0 := story.Data();
    idMap := map[];
    var i := 0;
    while i < |es|
      invariant 0 <= i <= |es| && HasTitles(es, i)
      invariant story.Valid() && story.Data() == Created(s0, es, ids, i)
      invariant idMap == IdMap(es, ids, i)
    {
      var e := es[i];
      CreateStep(s0, es, ids, i + 1, story.Data());
      var nid := story.AddNode(ids[i], DraftOf(e));
      if e.title.None? {
        FirstUntitledAt(es, i);
        return idMap, Some(i);
      }
      TitledStep(es, ids, i);
      idMap := idMap[e.title.value := nid];
      i := i + 1;
    }
    failed := None;
  }

  /** A titled entry after titled ones extends the titled prefix and maps its title to its id. */
  lemma TitledStep(es: seq<SeedEntry>, ids: seq<string>, i: nat)
    requires |ids| == |es| && i < |es| && HasTitles(es, i) && es[i].title.Some?
    ensures HasTitles(es, i + 1)
    ensures IdMap(es, ids, i + 1) == IdMap(es, ids, i)[es[i].title.value := ids[i]]
  {
    assert HasTitles(es, i + 1) by {
      forall j | 0 <= j < i + 1 ensures es[j].title.Some? {
        if j < i {
          assert HasTitles(es, i);
        }
      }
    }
  }

  /** The second pass: each entry's resolved choices go onto the node `id_map` names for its title. */
  method WireEntries(story: Stories.Story, es: seq<SeedEntry>, idMap: map<string, string>)
    requires story.Valid() && forall t :: t in idMap ==> idMap[t] in story.nodes
    modifies story
    ensures story.Valid() && story.Data() == Wire(old(story.Data()), es, idMap, |es|)
  {
    ghost var created := story.Data();
    var i := 0;
    while i < |es|
      invariant 0 <= i <= |es|
      invariant story.Valid() && story.Data() == Wire(created, es, idMap, i)
    {
      ghost var before := story.Data();
      var src := Source(es[i], idMap);
      assert Wire(created, es, idMap, i + 1)
        == if src == "" then before else AppendChoices(before, src, Resolve(es[i].choices, idMap));
      if src != "" {
        assert src in created.nodes;
        AppendResolved(story, src, es[i].choices, idMap);
      }
      i := i + 1;
    }
  }

  /** Appends to node `src` a choice for each seed choice whose target title is in `id_map`, in order. */
  method AppendResolved(story: Stories.Story, src: string, cs: seq<SeedChoice>, idMap: map<string, string>)
    requires story.Valid() && src in story.nodes
    modifies story
    ensures story.Valid() && story.Data() == AppendChoices(old(story.Data()), src, Resolve(cs, idMap))
  {
    ghost var base := story.Data();
    AppendChoicesTwice(base, src, [], []);
    assert cs[..0] == [];
    var j := 0;
    while j < |cs|
      invariant 0 <= j <= |cs|
      invariant story.Valid() && src in story.nodes
      invariant story.Data() == AppendChoices(base, src, Resolve(cs[..j], idMap))
    {
      ghost var done := Resolve(cs[..j], idMap);
      var r := ResolveOne(cs[j], idMap);
      ResolvePrefix(cs, idMap, j);
      if r.Some? {
        ghost var before := story.Data();
        story.ReplaceNode(src, story.nodes[src].(choices := story.nodes[src].choices + [r.value]));
        assert story.Data() == AppendChoices(before, src, [r.value]);
        AppendChoicesTwice(base, src, done, [r.value]);
      } else {
        assert done + [] == done;
      }
      j := j + 1;
    }
    AppendChoicesFrame(base, src, Resolve(cs, idMap));
    assert cs[..j] == cs;
  }

  /** Resolving one more seed choice appends its choice, when it has one, to those before. */
  lemma ResolvePrefix(cs: seq<SeedChoice>, m: map<string, string>, j: nat)
    requires j < |cs|
    ensures var r := ResolveOne(cs[j], m);
      Resolve(cs[..j + 1], m) == Resolve(cs[..j], m) + (if r.Some? then [r.value] else [])
  {
    assert cs[..j + 1][..j] == cs[..j];
  }

  /** An untitled entry after titled ones is the first untitled entry. */
  lemma {:induction false} FirstUntitledAt(es: seq<SeedEntry>, i: nat)
    requires i < |es| && HasTitles(es, i) && es[i].title.None?
    ensures FirstUntitled(es) == Some(i)
  {
    if i > 0 {
      assert HasTitles(es[1..], i - 1) by {
        forall j | 0 <= j < i - 1 ensures es[1..][j].title.Some? {
          assert es[j + 1].title.Some?;
        }
      }
      assert es[1..][i - 1] == es[i];
      FirstUntitledAt(es[1..], i - 1);
    }
  }
}
