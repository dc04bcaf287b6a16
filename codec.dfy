/**
 * `story_to_json` and `story_from_json` over JSON value trees: encoding a story builds
 * the document `json.dumps` would print, decoding reads back the dicts and lists
 * `json.loads` returns.
 */
module Codec {
  import opened Wrappers
  import opened Entities

  /** The JSON values a story document uses. */
  datatype Json = JNull | JString(str: string) | JArray(items: seq<Json>) | JObject(members: seq<Member>)

  /** One `"key": value` pair of an object, in document order. */
  datatype Member = Member(key: string, value: Json)

  // ---------------------------------------------------------------------------
  // Reading objects as Python dicts
  // ---------------------------------------------------------------------------

  /** The keys of `ms`, in document order. */
  function Keys(ms: seq<Member>): (r: seq<string>)
    ensures |r| == |ms| && forall i :: 0 <= i < |ms| ==> r[i] == ms[i].key
  {
    seq(|ms|, i requires 0 <= i < |ms| => ms[i].key)
  }

  /** `d.get(key)` on the dict `json.loads` builds from `ms`: the last member with the key wins. */
  function Get(ms: seq<Member>, key: string): (r: Option<Json>)
    ensures r.None? <==> key !in Keys(ms)
  {
    if ms == [] then None
    else
      var later := Get(ms[1..], key);
      assert Keys(ms) == [ms[0].key] + Keys(ms[1..]);
      if later.Some? then later
      else if ms[0].key == key then Some(ms[0].value)
      else None
  }

  /** When no key repeats, the member at `i` is what `Get` finds under its key. */
  lemma {:induction false} GetAt(ms: seq<Member>, i: nat)
    requires NoDups(Keys(ms)) && i < |ms|
    ensures Get(ms, ms[i].key) == Some(ms[i].value)
  {
    assert Keys(ms) == [ms[0].key] + Keys(ms[1..]);
    assert NoDups(Keys(ms[1..])) by {
      forall a, b | 0 <= a < b < |ms[1..]| ensures Keys(ms[1..])[a] != Keys(ms[1..])[b] {
        assert Keys(ms)[a + 1] != Keys(ms)[b + 1];
      }
    }
    if i == 0 {
      forall j | 0 <= j < |ms[1..]| ensures Keys(ms[1..])[j] != ms[0].key {
        assert Keys(ms)[j + 1] != Keys(ms)[0];
      }
    } else {
      GetAt(ms[1..], i - 1);
    }
  }

  /** The keys of the dict `json.loads` builds from `ms`: each once, in order of first appearance. */
  function DictKeys(ms: seq<Member>): (r: seq<string>)
    ensures NoDups(r)
    ensures forall k :: k in r <==> k in Keys(ms)
    ensures NoDups(Keys(ms)) ==> r == Keys(ms)
  {
    if ms == [] then []
    else
      var rest := DictKeys(ms[1..]);
      assert Keys(ms) == [ms[0].key] + Keys(ms[1..]);
      NoDupsCons(ms[0].key, RemoveAll(rest, ms[0].key));
      [ms[0].key] + RemoveAll(rest, ms[0].key)
  }

  // ---------------------------------------------------------------------------
  // Encoding
  // ---------------------------------------------------------------------------

  /** A list of strings as a JSON array. */
  function StringItems(xs: seq<string>): (r: seq<Json>)
    ensures |r| == |xs|
  {
    if xs == [] then [] else [JString(xs[0])] + StringItems(xs[1..])
  }

  /** `_encode` of a `Choice`. */
  function EncodeChoice(c: Choice): (r: Json)
    ensures r.JObject? && Keys(r.members) == ["text", "target_id", "tags", "gate"]
  {
    JObject([
      Member("text", JString(c.text)),
      Member("target_id", JString(c.targetId)),
      Member("tags", JArray(StringItems(c.tags))),
      Member("gate", JString(c.gate))])
  }

  /** `[_encode(c) for c in obj.choices]`. */
  function EncodeChoices(cs: seq<Choice>): (r: seq<Json>)
    ensures |r| == |cs|
  {
    if cs == [] then [] else [EncodeChoice(cs[0])] + EncodeChoices(cs[1..])
  }

  /** `_encode` of a `Node`. */
  function EncodeNode(n: Node): (r: Json)
    ensures r.JObject?
    ensures Keys(r.members) == ["id", "title", "text", "npc", "location", "emotion", "tags", "gm_notes", "choices"]
  {
    JObject([
      Member("id", JString(n.id)),
      Member("title", JString(n.title)),
      Member("text", JString(n.text)),
      Member("npc", JString(n.npc)),
      Member("location", JString(n.location)),
      Member("emotion", JString(n.emotion)),
      Member("tags", JArray(StringItems(n.tags))),
      Member("gm_notes", JString(n.gmNotes)),
      Member("choices", JArray(EncodeChoices(n.choices)))])
  }

  /** `{k: _encode(v) for k, v in obj.nodes.items()}`, the keys taken in the order `ks`. */
  function EncodeNodes(nodes: map<string, Node>, ks: seq<string>): (r: seq<Member>)
    requires forall k :: k in ks ==> k in nodes
    ensures Keys(r) == ks
  {
    if ks == [] then []
    else
      var r := [Member(ks[0], EncodeNode(nodes[ks[0]]))] + EncodeNodes(nodes, ks[1..]);
      assert Keys(r) == [ks[0]] + Keys(EncodeNodes(nodes, ks[1..]));
      r
  }

  /** `None` is JSON `null`. */
  function EncodeStart(start: Option<string>): (r: Json)
    ensures r == JNull <==> start == None
    ensures ReadStart([Member("start_node_id", r)]) == Ok(start)
  {
    match start
    case None => JNull
    case Some(k) => JString(k)
  }

  /** `story_to_json` before `json.dumps`: the story as one JSON object. */
  function Encode(s: StoryData): (r: Json)
    requires WellFormed(s)
    ensures r.JObject? && Keys(r.members) == ["title", "description", "start_node_id", "nodes"]
    ensures r.members[3].value == JObject(EncodeNodes(s.nodes, s.order))
  {
    JObject([
      Member("title", JString(s.title)),
      Member("description", JString(s.description)),
      Member("start_node_id", EncodeStart(s.start)),
      Member("nodes", JObject(EncodeNodes(s.nodes, s.order)))])
  }

  // ---------------------------------------------------------------------------
  // Decoding
  // ---------------------------------------------------------------------------

  /** `d.get(field, default)` read as a string. */
  function ReadString(ms: seq<Member>, field: string, default: string): (r: Result<string>)
    ensures Get(ms, field) == None ==> r == Ok(default)
    ensures Get(ms, field).Some? && Get(ms, field).value.JString? ==> r == Ok(Get(ms, field).value.str)
    ensures Get(ms, field).Some? && !Get(ms, field).value.JString? ==> r == Err(TypeMismatch(field))
  {
    match Get(ms, field)
    case None => Ok(default)
    case Some(JString(x)) => Ok(x)
    case Some(_) => Err(TypeMismatch(field))
  }

  /** The items of a JSON array, each a string. */
  function ReadStringItems(items: seq<Json>, field: string): (r: Result<seq<string>>)
    ensures r.Ok? ==> |r.value| == |items|
  {
    if items == [] then Ok([])
    else
      match items[0]
      case JString(x) =>
        var rest :- ReadStringItems(items[1..], field);
        Ok([x] + rest)
      case _ => Err(TypeMismatch(field))
  }

  /** `d.get(field, [])` read as a list of strings. */
  function ReadStrings(ms: seq<Member>, field: string): (r: Result<seq<string>>)
    ensures Get(ms, field) == None ==> r == Ok([])
    ensures forall items :: Get(ms, field) == Some(JArray(items)) ==> r == ReadStringItems(items, field)
    ensures Get(ms, field).Some? && !Get(ms, field).value.JArray? ==> r == Err(TypeMismatch(field))
  {
    match Get(ms, field)
    case None => Ok([])
    case Some(JArray(items)) => ReadStringItems(items, field)
    case Some(_) => Err(TypeMismatch(field))
  }

  /** The keyword parameters of `Choice`. */
  const ChoiceFields: set<string> := {"text", "target_id", "tags", "gate"}

  /**
   * `Choice(**c)` for the choice payload `c` of node `nid`: `c` must be an object whose
   * keys are parameters of `Choice`, and `text` and `target_id`, which have no
   * default, must be present.
   */
  function DecodeChoice(nid: string, c: Json): (r: Result<Choice>)
    ensures r.Ok? ==> c.JObject? && "text" in Keys(c.members) && "target_id" in Keys(c.members)
    ensures c.JObject? && (exists i :: 0 <= i < |c.members| && c.members[i].key !in ChoiceFields) ==>
              r == Err(BadChoice(nid))
  {
    match c
    case JObject(ms) =>
      if exists i :: 0 <= i < |ms| && ms[i].key !in ChoiceFields then Err(BadChoice(nid))
      else if "text" !in Keys(ms) || "target_id" !in Keys(ms) then Err(BadChoice(nid))
      else
        var text :- ReadString(ms, "text", "");
        var target :- ReadString(ms, "target_id", "");
        var tags :- ReadStrings(ms, "tags");
        var gate :- ReadString(ms, "gate", "");
        Ok(Choice(text, target, tags, gate))
    case _ => Err(BadChoice(nid))
  }

  /** `[Choice(**c) for c in ...]`: the first payload `Choice` rejects fails the whole list. */
  function DecodeChoiceItems(nid: string, items: seq<Json>): (r: Result<seq<Choice>>)
    ensures r.Ok? ==> |r.value| == |items|
  {
    if items == [] then Ok([])
    else
      var c :- DecodeChoice(nid, items[0]);
      var rest :- DecodeChoiceItems(nid, items[1..]);
      Ok([c] + rest)
  }

  /** The `Node(...)` that `story_from_json` builds for the payload `nd` stored under `nid`. */
  function DecodeNode(nid: string, nd: Json): (r: Result<Node>)
    ensures nd.JObject? && "id" !in Keys(nd.members) ==> r == Err(MissingId(nid))
    ensures !nd.JObject? ==> r == Err(NotAnObject(nid))
  {
    match nd
    case JObject(ms) =>
      (match Get(ms, "id")
      case None => Err(MissingId(nid))
      case Some(JString(id)) =>
        var title :- ReadString(ms, "title", UntitledNode);
        var text :- ReadString(ms, "text", "");
        var npc :- ReadString(ms, "npc", "");
        var location :- ReadString(ms, "location", "");
        var emotion :- ReadString(ms, "emotion", "");
        var tags :- ReadStrings(ms, "tags");
        var gmNotes :- ReadString(ms, "gm_notes", "");
        var choices :- ReadChoices(nid, ms);
        Ok(Node(id, title, text, npc, location, emotion, tags, gmNotes, choices))
      case Some(_) => Err(TypeMismatch("id")))
    case _ => Err(NotAnObject(nid))
  }

  /**
   * `[Choice(**c) for c in nd.get("choices", [])]`. The comprehension iterates whatever
   * value is stored: an empty object or string gives no choices; the items of a
   * non-empty one are strings, which `Choice(**c)` rejects; `null` is not iterable.
   */
  function ReadChoices(nid: string, ms: seq<Member>): (r: Result<seq<Choice>>)
    ensures Get(ms, "choices") == None ==> r == Ok([])
    ensures Get(ms, "choices") == Some(JObject([])) || Get(ms, "choices") == Some(JString("")) ==> r == Ok([])
    ensures Get(ms, "choices") == Some(JNull) ==> r == Err(TypeMismatch("choices"))
    ensures forall items :: Get(ms, "choices") == Some(JArray(items)) ==> r == DecodeChoiceItems(nid, items)
    ensures r.Ok? && Get(ms, "choices").Some? && Get(ms, "choices").value.JArray? ==>
      |r.value| == |Get(ms, "choices").value.items|
    ensures Get(ms, "choices").Some? && Get(ms, "choices").value.JObject? && Get(ms, "choices").value.members != [] ==>
      r == Err(BadChoice(nid))
    ensures Get(ms, "choices").Some? && Get(ms, "choices").value.JString? && Get(ms, "choices").value.str != "" ==>
      r == Err(BadChoice(nid))
  {
    match Get(ms, "choices")
    case None => Ok([])
    case Some(JArray(items)) => DecodeChoiceItems(nid, items)
    case Some(JObject(cms)) => if cms == [] then Ok([]) else Err(BadChoice(nid))
    case Some(JString(x)) => if x == "" then Ok([]) else Err(BadChoice(nid))
    case Some(JNull) => Err(TypeMismatch("choices"))
  }

  /** The loop of `story_from_json` over the nodes dict, visiting the keys `ks` in order. */
  function DecodeNodes(nm: seq<Member>, ks: seq<string>): (r: Result<map<string, Node>>)
    requires forall k :: k in ks ==> k in Keys(nm)
    ensures r.Ok? ==> forall k :: k in r.value <==> k in ks
  {
    if ks == [] then Ok(map[])
    else
      var node :- DecodeNode(ks[0], Get(nm, ks[0]).value);
      var rest :- DecodeNodes(nm, ks[1..]);
      Ok(rest[ks[0] := node])
  }

  /** `data.get("start_node_id")`: absent or `null` is `None`. */
  function ReadStart(ms: seq<Member>): (r: Result<Option<string>>)
    ensures Get(ms, "start_node_id") == None || Get(ms, "start_node_id") == Some(JNull) ==> r == Ok(None)
    ensures forall k :: Get(ms, "start_node_id") == Some(JString(k)) ==> r == Ok(Some(k))
    ensures r.Err? <==> Get(ms, "start_node_id").Some? && (Get(ms, "start_node_id").value.JArray? || Get(ms, "start_node_id").value.JObject?)
    ensures r.Err? ==> r == Err(TypeMismatch("start_node_id"))
  {
    match Get(ms, "start_node_id")
    case None => Ok(None)
    case Some(JNull) => Ok(None)
    case Some(JString(k)) => Ok(Some(k))
    case Some(_) => Err(TypeMismatch("start_node_id"))
  }

  /**
   * `story_from_json` after `json.loads`: the nodes in the dict's key order, each missing
   * field replaced by its default.
   */
  function Decode(j: Json): (r: Result<StoryData>)
    ensures r.Ok? ==> WellFormed(r.value)
    ensures !j.JObject? ==> r == Err(NotAnObject(""))
  {
    match j
    case JObject(ms) =>
      var nm :- match Get(ms, "nodes")
                case None => Ok([])
                case Some(JObject(nm)) => Ok(nm)
                case Some(_) => Err(NotAnObject("nodes"));
      var order := DictKeys(nm);
      var nodes :- DecodeNodes(nm, order);
      var title :- ReadString(ms, "title", DefaultStoryTitle);
      var description :- ReadString(ms, "description", "");
      var start :- ReadStart(ms);
      Ok(StoryData(title, description, nodes, order, start))
    case _ => Err(NotAnObject(""))
  }

  // ---------------------------------------------------------------------------
  // The round trip
  // ---------------------------------------------------------------------------

  /** A list of strings reads back as itself. */
  lemma {:induction false} StringsRoundTrip(xs: seq<string>, field: string)
    ensures ReadStringItems(StringItems(xs), field) == Ok(xs)
  {
    if xs != [] {
      StringsRoundTrip(xs[1..], field);
      var items := StringItems(xs);
      assert items[0] == JString(xs[0]) && items[1..] == StringItems(xs[1..]);
      ReadStringItemsCons(items, field, xs[0], xs[1..]);
      assert xs == [xs[0]] + xs[1..];
    }
  }

  /** A string item in front of items that read back adds its string in front. */
  lemma ReadStringItemsCons(items: seq<Json>, field: string, x: string, rest: seq<string>)
    requires items != [] && items[0] == JString(x) && ReadStringItems(items[1..], field) == Ok(rest)
    ensures ReadStringItems(items, field) == Ok([x] + rest)
  {
  }

  /** An encoded choice is a payload `Choice(**c)` accepts, and it rebuilds the choice. */
  lemma ChoiceRoundTrip(nid: string, c: Choice)
    ensures DecodeChoice(nid, EncodeChoice(c)) == Ok(c)
  {
    var ms := EncodeChoice(c).members;
    ChoiceFieldsRead(c);
    assert forall i :: 0 <= i < |ms| ==> ms[i].key in ChoiceFields;
    assert Keys(ms)[0] == "text" && Keys(ms)[1] == "target_id";
    DecodeChoiceFields(nid, ms, c);
  }

  /** The four keys of an encoded choice are distinct. */
  lemma ChoiceKeysDistinct(c: Choice)
    ensures NoDups(Keys(EncodeChoice(c).members))
  {
    assert Keys(EncodeChoice(c).members) == ["text", "target_id", "tags", "gate"];
  }

  /** The four members of an encoded choice read back as the choice's fields. */
  lemma ChoiceFieldsRead(c: Choice)
    ensures ReadString(EncodeChoice(c).members, "text", "") == Ok(c.text)
    ensures ReadString(EncodeChoice(c).members, "target_id", "") == Ok(c.targetId)
    ensures ReadStrings(EncodeChoice(c).members, "tags") == Ok(c.tags)
    ensures ReadString(EncodeChoice(c).members, "gate", "") == Ok(c.gate)
  {
    var ms := EncodeChoice(c).members;
    ChoiceKeysDistinct(c);
    GetAt(ms, 0);
    GetAt(ms, 1);
    GetAt(ms, 2);
    GetAt(ms, 3);
    StringsRoundTrip(c.tags, "tags");
  }

  /** `Choice(**c)` on an object with only `Choice`'s keys, whose fields read as those of `c`, gives `c`. */
  lemma DecodeChoiceFields(nid: string, ms: seq<Member>, c: Choice)
    requires forall i :: 0 <= i < |ms| ==> ms[i].key in ChoiceFields
    requires "text" in Keys(ms) && "target_id" in Keys(ms)
    requires ReadString(ms, "text", "") == Ok(c.text)
    requires ReadString(ms, "target_id", "") == Ok(c.targetId)
    requires ReadStrings(ms, "tags") == Ok(c.tags)
    requires ReadString(ms, "gate", "") == Ok(c.gate)
    ensures DecodeChoice(nid, JObject(ms)) == Ok(c)
  {
  }

  /** A list of encoded choices reads back as the list. */
  lemma {:induction false} ChoicesRoundTrip(nid: string, cs: seq<Choice>)
    ensures DecodeChoiceItems(nid, EncodeChoices(cs)) == Ok(cs)
  {
    if cs != [] {
      ChoiceRoundTrip(nid, cs[0]);
      ChoicesRoundTrip(nid, cs[1..]);
      assert EncodeChoices(cs)[1..] == EncodeChoices(cs[1..]);
      assert cs == [cs[0]] + cs[1..];
    }
  }

  /** The nine keys of an encoded node are distinct. */
  lemma NodeKeysDistinct(n: Node)
    ensures NoDups(Keys(EncodeNode(n).members))
  {
    var ks := Keys(EncodeNode(n).members);
    assert ks == ["id", "title", "text", "npc", "location", "emotion", "tags", "gm_notes", "choices"];
  }

  /** An encoded node reads back as the node, whatever key it is stored under. */
  lemma NodeRoundTrip(nid: string, n: Node)
    ensures DecodeNode(nid, EncodeNode(n)) == Ok(n)
  {
    var ms := EncodeNode(n).members;
    NodeNamesRead(n);
    NodeDetailsRead(n);
    NodeListsRead(nid, n);
    ChoicesRoundTrip(nid, n.choices);
    DecodeNodeFields(nid, ms, n);
  }

  /** The identifying fields of an encoded node read back as the node's. */
  lemma NodeNamesRead(n: Node)
    ensures Get(EncodeNode(n).members, "id") == Some(JString(n.id))
    ensures ReadString(EncodeNode(n).members, "title", UntitledNode) == Ok(n.title)
    ensures ReadString(EncodeNode(n).members, "text", "") == Ok(n.text)
  {
    var ms := EncodeNode(n).members;
    NodeKeysDistinct(n);
    GetAt(ms, 0);
    GetAt(ms, 1);
    GetAt(ms, 2);
  }

  /** The descriptive string fields of an encoded node read back as the node's. */
  lemma NodeDetailsRead(n: Node)
    ensures ReadString(EncodeNode(n).members, "npc", "") == Ok(n.npc)
    ensures ReadString(EncodeNode(n).members, "location", "") == Ok(n.location)
    ensures ReadString(EncodeNode(n).members, "emotion", "") == Ok(n.emotion)
    ensures ReadString(EncodeNode(n).members, "gm_notes", "") == Ok(n.gmNotes)
  {
    var ms := EncodeNode(n).members;
    NodeKeysDistinct(n);
    GetAt(ms, 3);
    GetAt(ms, 4);
    GetAt(ms, 5);
    GetAt(ms, 7);
  }

  /** The list fields of an encoded node read back as the node's. */
  lemma NodeListsRead(nid: string, n: Node)
    ensures ReadStrings(EncodeNode(n).members, "tags") == Ok(n.tags)
    ensures Get(EncodeNode(n).members, "choices") == Some(JArray(EncodeChoices(n.choices)))
    ensures ReadChoices(nid, EncodeNode(n).members) == DecodeChoiceItems(nid, EncodeChoices(n.choices))
  {
    var ms := EncodeNode(n).members;
    NodeKeysDistinct(n);
    GetAt(ms, 6);
    GetAt(ms, 8);
    StringsRoundTrip(n.tags, "tags");
  }

  /** `DecodeNode` on an object whose fields read as those of `n` gives `n`. */
  lemma DecodeNodeFields(nid: string, ms: seq<Member>, n: Node)
    requires Get(ms, "id") == Some(JString(n.id))
    requires ReadString(ms, "title", UntitledNode) == Ok(n.title)
    requires ReadString(ms, "text", "") == Ok(n.text)
    requires ReadString(ms, "npc", "") == Ok(n.npc)
    requires ReadString(ms, "location", "") == Ok(n.location)
    requires ReadString(ms, "emotion", "") == Ok(n.emotion)
    requires ReadStrings(ms, "tags") == Ok(n.tags)
    requires ReadString(ms, "gm_notes", "") == Ok(n.gmNotes)
    requires ReadChoices(nid, ms) == Ok(n.choices)
    ensures DecodeNode(nid, JObject(ms)) == Ok(n)
  {
  }

  /** In the encoded nodes dict, each key finds the encoding of its node. */
  lemma {:induction false} GetEncodedNode(nodes: map<string, Node>, ks: seq<string>, k: string)
    requires forall x :: x in ks ==> x in nodes
    requires k in ks
    ensures Get(EncodeNodes(nodes, ks), k) == Some(EncodeNode(nodes[k]))
  {
    var ms := EncodeNodes(nodes, ks);
    assert ms[1..] == EncodeNodes(nodes, ks[1..]);
    if k in ks[1..] {
      GetEncodedNode(nodes, ks[1..], k);
    } else {
      assert k == ks[0];
    }
  }

  /** Every key of the encoded nodes dict finds the encoding of its node. */
  lemma EncodedNodesFound(nodes: map<string, Node>, ks: seq<string>)
    requires forall x :: x in ks ==> x in nodes
    ensures forall k :: k in ks ==> Get(EncodeNodes(nodes, ks), k) == Some(EncodeNode(nodes[k]))
  {
    forall k | k in ks ensures Get(EncodeNodes(nodes, ks), k) == Some(EncodeNode(nodes[k])) {
      GetEncodedNode(nodes, ks, k);
    }
  }

  /** Decoding a dict whose keys find their nodes' encodings rebuilds those nodes. */
  lemma {:induction false} NodesRoundTrip(nodes: map<string, Node>, nm: seq<Member>, ks: seq<string>)
    requires forall k :: k in ks ==> k in nodes && Get(nm, k) == Some(EncodeNode(nodes[k]))
    ensures forall k :: k in ks ==> k in Keys(nm)
    ensures DecodeNodes(nm, ks) == Ok(map k | k in ks :: nodes[k])
  {
    if ks != [] {
      var k := ks[0];
      NodeRoundTrip(k, nodes[k]);
      NodesRoundTrip(nodes, nm, ks[1..]);
      var rest := map x | x in ks[1..] :: nodes[x];
      DecodeNodesCons(nm, ks, nodes[k], rest);
      MapOfCons(nodes, ks);
    }
  }

  /** A decoded first node in front of the decoded rest is the decoded dict. */
  lemma DecodeNodesCons(nm: seq<Member>, ks: seq<string>, node: Node, rest: map<string, Node>)
    requires forall k :: k in ks ==> k in Keys(nm)
    requires ks != [] && DecodeNode(ks[0], Get(nm, ks[0]).value) == Ok(node)
    requires DecodeNodes(nm, ks[1..]) == Ok(rest)
    ensures DecodeNodes(nm, ks) == Ok(rest[ks[0] := node])
  {
  }

  /** The nodes of `ks` are those of its tail plus its head. */
  lemma MapOfCons(nodes: map<string, Node>, ks: seq<string>)
    requires ks != [] && forall k :: k in ks ==> k in nodes
    ensures (map x | x in ks[1..] :: nodes[x])[ks[0] := nodes[ks[0]]] == map x | x in ks :: nodes[x]
  {
    assert forall x :: x in ks <==> x == ks[0] || x in ks[1..];
  }

  /**
   * `story_from_json(story_to_json(s)) == s`: decoding an encoded story gives it back,
   * nodes, key order and start node included.
   */
  lemma RoundTrip(s: StoryData)
    requires WellFormed(s)
    ensures Decode(Encode(s)) == Ok(s)
  {
    StoryHeaderRead(s);
    StoryNodesRead(s);
    DecodeFields(Encode(s).members, EncodeNodes(s.nodes, s.order), s);
  }

  /** The encoded nodes dict lists the story's order and decodes to its nodes. */
  lemma StoryNodesRead(s: StoryData)
    requires WellFormed(s)
    ensures DictKeys(EncodeNodes(s.nodes, s.order)) == s.order
    ensures DecodeNodes(EncodeNodes(s.nodes, s.order), s.order) == Ok(s.nodes)
  {
    EncodedNodesFound(s.nodes, s.order);
    NodesRoundTrip(s.nodes, EncodeNodes(s.nodes, s.order), s.order);
    NodesOfOrder(s);
  }

  /** The nodes listed by the key order are all the nodes. */
  lemma NodesOfOrder(s: StoryData)
    requires WellFormed(s)
    ensures (map k | k in s.order :: s.nodes[k]) == s.nodes
  {
  }

  /** The four top-level keys of an encoded story are distinct. */
  lemma StoryKeysDistinct(s: StoryData)
    requires WellFormed(s)
    ensures NoDups(Keys(Encode(s).members))
  {
    assert Keys(Encode(s).members) == ["title", "description", "start_node_id", "nodes"];
  }

  /** The four top-level members of an encoded story read back as its parts. */
  lemma StoryHeaderRead(s: StoryData)
    requires WellFormed(s)
    ensures Get(Encode(s).members, "nodes") == Some(JObject(EncodeNodes(s.nodes, s.order)))
    ensures ReadString(Encode(s).members, "title", DefaultStoryTitle) == Ok(s.title)
    ensures ReadString(Encode(s).members, "description", "") == Ok(s.description)
    ensures ReadStart(Encode(s).members) == Ok(s.start)
  {
    var ms := Encode(s).members;
    StoryKeysDistinct(s);
    GetAt(ms, 0);
    GetAt(ms, 1);
    GetAt(ms, 2);
    GetAt(ms, 3);
  }

  /** `Decode` on an object whose members read as the parts of `s` gives `s`. */
  lemma DecodeFields(ms: seq<Member>, nm: seq<Member>, s: StoryData)
    requires Get(ms, "nodes") == Some(JObject(nm))
    requires DictKeys(nm) == s.order
    requires DecodeNodes(nm, s.order) == Ok(s.nodes)
    requires ReadString(ms, "title", DefaultStoryTitle) == Ok(s.title)
    requires ReadString(ms, "description", "") == Ok(s.description)
    requires ReadStart(ms) == Ok(s.start)
    ensures Decode(JObject(ms)) == Ok(s)
  {
  }

  /** Encoding is stable under a decode in between. */
  lemma EncodeStable(s: StoryData)
    requires WellFormed(s)
    ensures Decode(Encode(s)).Ok? && Encode(Decode(Encode(s)).value) == Encode(s)
  {
    RoundTrip(s);
  }

  /** A node payload holding only its id gets every documented default. */
  lemma NodeDefaults(nid: string, id: string)
    ensures DecodeNode(nid, JObject([Member("id", JString(id))]))
         == Ok(Node(id, UntitledNode, "", "", "", "", [], "", []))
  {
  }

  /** An empty object decodes to `Story()`'s defaults. */
  lemma StoryDefaults()
    ensures Decode(JObject([])) == Ok(EmptyStory())
  {
  }

  /** A node payload with a title but no `"id"` fails the decode (a `KeyError` in Python). */
  lemma NodeWithoutIdFails()
    ensures Decode(JObject([Member("nodes", JObject([Member("x", JObject([Member("title", JString("T"))]))]))]))
         == Err(MissingId("x"))
  {
    var nm := [Member("x", JObject([Member("title", JString("T"))]))];
    assert DictKeys(nm) == ["x"];
  }

  /** A choice payload with a key `Choice` has no parameter for fails the decode. */
  lemma ChoiceWithUnknownKeyFails(nid: string)
    ensures DecodeChoice(nid, JObject([Member("text", JString("Go")), Member("target_id", JString("b")),
                                       Member("target", JString("B"))])) == Err(BadChoice(nid))
  {
    var ms := [Member("text", JString("Go")), Member("target_id", JString("b")), Member("target", JString("B"))];
    assert ms[2].key !in ChoiceFields;
  }
}
