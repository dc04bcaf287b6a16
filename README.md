# BranchWeaver story-graph engine in Dafny

BranchWeaver is a Streamlit tool for writing branching dialogue for tabletop campaigns. A
story is a dict of nodes, and each node carries text, NPC, location, emotion, tags, GM
notes and a list of choices that lead to other nodes. The story also has a start node.
This project models the engine under the user interface and proves properties of it:

- the entity model (`Choice`, `Node`, `Story`);
- the graph mutations `add_node`, `delete_node` and `duplicate_node`, plus the editor's
  make-start, remove-choice and move-choice buttons;
- the JSON codec `story_to_json` / `story_from_json`, over a JSON value tree;
- the Markdown report `export_markdown`;
- the two-pass seed import `load_seed`;
- the playback state machine of the Playback tab;
- two projections used by the visualizer: the node label (`node_to_label`) and the edge
  filter.

Modules, one file each:

- `wrappers.dfy` (`Wrappers`): `Option`, `Result` and the error kinds the source raises.
- `sequences.dfy` (`Sequences`): `IsSubsequence`, the order-keeping relation the filters
  are stated with, and `Concat`, `TotalLength` and `PartAt`, with which the report states
  where each block and line sits.
- `text.dfy` (`Text`): Python's `str.strip`, slicing, `join` and filtering of empty
  strings.
- `entities.dfy` (`Entities`): the records.
  - `StoryData` is a story as a value. It holds `nodes: map<string, Node>` and `order`,
    the insertion order of the dict's keys.
  - `WellFormed` says that `order` lists every key exactly once.
  - `StartValid` says the start node is a key, or `None` when the story is empty.
- `graph.dfy` (`Graph`): each mutation as a function on `StoryData`, with the lemmas about
  it.
- `stories.dfy` (`Stories`): the class `Story`, whose fields the mutations change in
  place. Each method is proved to leave exactly the state the matching `Graph` function
  describes.
  - `DeleteNode` loops over the nodes and drops the choices into the deleted node.
- `codec.dfy` (`Codec`): encoding and decoding, and the round trip.
- `report.dfy` (`Report`): the report as a list of blocks (preamble and one section per
  node), the blocks end to end as lines, and the lines joined by newlines.
- `seeding.dfy` (`Seeding`): `load_seed` in two forms.
  - The spec functions `Created`, `Wire` and `LoadSeed`.
  - `Load` and its loops over a `Story` object, proved to reach `LoadSeed`.
- `playback.dfy` (`Playback`): the transitions as functions on `PlayState`, and the class
  `Player`, which holds `current` and `history`.
- `view.dfy` (`View`): label truncation and the edge filter.

Fresh node ids come from `uuid4` in the source. Here they are parameters, and the caller
promises they are unused.

## Behaviour kept from the code

- Decoding a node payload without `"id"` fails with `MissingId`, as `nd["id"]` raises.
  It does not fill in a default.
- A choice payload with a key `Choice` has no parameter for fails the whole decode with
  `BadChoice`. So does one missing `text` or `target_id`. Such a choice is not skipped.
- `load_seed` skips a choice whose target title names no entry. It does not add an
  unwired choice.
- A seed entry without a title stops `load_seed` with `MissingTitle`. This happens right
  after that entry's node was added. The nodes added so far stay, and the title and
  description are not set.
- Make-start sets the start node without checking the id.

## Model

| member | source | states |
|---|---|---|
| Entities.EmptyStory | branchweaver_app.py:58-63 | `Story()` has title "Untitled Story", no nodes and no start; it is well-formed and satisfies the start invariant |
| Entities.RemoveAll | branchweaver_app.py:177 | removing a key keeps every other key, as often as before and in its relative order (a subsequence), keeps them distinct, and changes nothing when the key is absent |
| Entities.RemoveAllFirst | branchweaver_app.py:177-180 | the first element that is not the removed key is the first element left after removing it |
| Text.Strip | branchweaver_app.py:156-162 | `str.strip()` gives a string with no whitespace at either end; the result is empty exactly when the input is all whitespace |
| Text.StripSlice | branchweaver_app.py:156-162 | `strip` removes only whitespace at the two ends: the result is `s[i..j]` with an all-whitespace head and tail |
| Text.StripIdempotent | branchweaver_app.py:156-162 | stripping twice is stripping once |
| Text.TrimmedIsFixed | branchweaver_app.py:156-162 | a string with no whitespace at its ends is left unchanged by `strip` |
| Text.Prefix | branchweaver_app.py:271 | `s[:n]` is a prefix of `s` of length `min(n, len(s))` |
| Text.NonEmpty | branchweaver_app.py:273 | `[x for x in xs if x]` keeps exactly the non-empty members, each as often as in `xs`, in their order |
| Text.StripEach | branchweaver_app.py:161 | `[t.strip() for t in tags]`: one stripped string per input, position by position |
| Text.Join | branchweaver_app.py:128 | `sep.join(parts)`: empty for no parts, the part itself for one; with two or more it opens with the first part and a separator |
| Text.JoinLength | branchweaver_app.py:128 | a join is as long as all its parts together plus one separator fewer than there are parts |
| Text.JoinAppend | branchweaver_app.py:128 | joining two non-empty lists puts exactly one separator between their joins |
| Text.JoinSnoc | branchweaver_app.py:128 | joining one more part appends a separator and that part |
| Text.JoinMaybe | branchweaver_app.py:121-128 | appending a part only when it is present adds the separator only when a part precedes it |
| Text.JoinBefore | branchweaver_app.py:128 | the join is the parts before part `i` with their separators, whose length is theirs plus `i` separators, followed by the join from part `i` on |
| Text.PlacedAfter | branchweaver_app.py:128 | the opening pieces of `q` sit right after `p` in `p + q` |
| Text.JoinAt | branchweaver_app.py:128 | part `i` sits in the join after the parts before it and `i` separators, and a separator follows it unless it is last |
| Text.JoinLinesAt | branchweaver_app.py:290 | in newline-joined lines, line `i` starts after the lines before it and `i` newlines, and a newline follows every line but the last |
| Graph.CleanTags | branchweaver_app.py:161 | every kept tag is non-empty, trimmed and the stripped form of an input tag; every non-blank tag survives stripped; the kept tags are the non-blank stripped tags in their order and multiplicity |
| Graph.NodeTitle | branchweaver_app.py:156 | the title is the stripped title, or "(untitled)" when that is blank; either way it is non-empty and trimmed |
| Graph.NewNode | branchweaver_app.py:154-164 | the new node has the fresh id and no choices; its title is the stripped title or "(untitled)", each other string is the stripped draft field, and its tags are the cleaned draft tags |
| Graph.StartAfterAdd | branchweaver_app.py:166-167 | an unset or empty start becomes the new id; any other start is kept |
| Graph.AddNode | branchweaver_app.py:152-168 | exactly one key is appended, holding the new node; the start becomes the new id only when it was unset or empty; nothing else changes |
| Graph.AddNodeInvariants | branchweaver_app.py:165-167 | `add_node` keeps the story well-formed and the start invariant, and adds one node |
| Graph.KeysMatchIdsKept | branchweaver_app.py:152-198 | `add_node` and `duplicate_node` keep every node stored under its own `id` |
| Graph.DropChoicesToSpec | branchweaver_app.py:174-175 | the filter keeps exactly the choices not leading to the deleted id, and none that do |
| Graph.DropChoicesTo | branchweaver_app.py:175 | the filter never lengthens a choice list, and a list it does not shorten is returned as it was |
| Graph.DropChoicesToKeeps | branchweaver_app.py:174-175 | every other choice survives as often as it occurred, in its original relative order |
| Graph.Unlinked | branchweaver_app.py:175 | a node after the filter differs from the old one only in its choices, which are the old ones without those leading to the id |
| Graph.DeleteNode | branchweaver_app.py:171-180 | an absent id leaves the story unchanged; otherwise the key leaves the order, the title is kept, a start other than the id is kept and a deleted start moves to the first key left, or to `None` |
| Graph.StartAfterDelete | branchweaver_app.py:179-180 | a start other than the deleted id is kept; a deleted start becomes the first key left, or `None` when none is |
| Graph.DeleteNodeStart | branchweaver_app.py:171-180 | deleting the start moves it to the first key in insertion order that is not the deleted id, or to `None` when no other key exists; any other start is kept |
| Graph.DeleteNodeRemovesReferences | branchweaver_app.py:171-178 | after deleting a node, its id is not a key and no remaining choice leads to it |
| Graph.DeleteNodeKeepsOthers | branchweaver_app.py:174-177 | a surviving node keeps every field but its choices; no choice leads to the deleted id; every other choice stays as often as before, in its original relative order |
| Graph.DeleteNodeInvariants | branchweaver_app.py:171-180 | deletion keeps the story well-formed and keeps the start invariant |
| Graph.DeleteIdempotent | branchweaver_app.py:171-172 | deleting twice is deleting once |
| Graph.DeleteTarget | branchweaver_app.py:174-180 | deleting the only target of a node's only choice leaves that node with no choices; another start is kept |
| Graph.CopyOf | branchweaver_app.py:186-196 | the copy has the new id and the title plus " (copy)"; every other field is the original's |
| Graph.DuplicateNode | branchweaver_app.py:183-198 | a missing source is `NotFound`; otherwise one new key is appended with the copy; the original and the start are unchanged |
| Graph.DuplicateCopiesChoices | branchweaver_app.py:195 | the copy has as many choices as the original, each the same text, target, tags and gate in the same place |
| Graph.MakeStart | branchweaver_app.py:495 | the start becomes the selected id, with nothing else changed |
| Graph.RepairStart | branchweaver_app.py:656-660 | a start in the story is kept; otherwise a non-empty story's start becomes its first key; an empty story is left alone |
| Graph.Swap | branchweaver_app.py:551 | the two positions exchange their choices and every other position is kept |
| Graph.SwapPermutes | branchweaver_app.py:551 | a swap keeps the same multiset of choices |
| Graph.SwapTwice | branchweaver_app.py:551 | swapping the same pair twice restores the list |
| Graph.RemoveChoice | branchweaver_app.py:547 | `pop(i)` removes exactly the choice at `i`, the rest keep their order; a missing node or an index past the end fails |
| Graph.MoveChoiceUp | branchweaver_app.py:550-552 | a no-op at index 0; otherwise it swaps with the previous choice; an index past the end fails |
| Graph.MoveChoiceDown | branchweaver_app.py:554-556 | swaps with the next choice; a no-op for the last index or beyond |
| Graph.UpThenDown | branchweaver_app.py:550-556 | moving a choice up and then back down restores the story |
| Stories.Story.constructor | branchweaver_app.py:58-63 | a new story object holds `Story()` |
| Stories.Story.FromData | branchweaver_app.py:249-254 | a story object built from a decoded value holds that value |
| Stories.Story.SetHeader | branchweaver_app.py:393-394 | sets the title and description and nothing else |
| Stories.Story.ReplaceNode | branchweaver_app.py:384 | storing a node under an existing key changes only that entry |
| Stories.Story.AddNode | branchweaver_app.py:152-168 | the object ends in `Graph.AddNode` of its old state, with the fresh id returned |
| Stories.Story.DeleteNode | branchweaver_app.py:171-180 | the object ends in `Graph.DeleteNode` of its old state |
| Stories.Story.DropChoicesInto | branchweaver_app.py:174-175 | the loop reassigns each node's choices to the filtered list and changes nothing else |
| Stories.Story.UnlinkedAll | branchweaver_app.py:174-177 | the map the loop leaves, less the deleted key, is the one `Graph.DeleteNode` describes |
| Stories.Story.DuplicateNode | branchweaver_app.py:183-198 | the object ends in `Graph.DuplicateNode`'s story, or is unchanged with the error |
| Stories.Story.MakeStart | branchweaver_app.py:495 | the object ends in `Graph.MakeStart` of its old state |
| Stories.Story.RemoveChoice | branchweaver_app.py:547 | the object ends in `Graph.RemoveChoice`'s story, or is unchanged with the error |
| Stories.Story.MoveChoiceUp | branchweaver_app.py:550-552 | the object ends in `Graph.MoveChoiceUp`'s story, or is unchanged with the error |
| Stories.Story.MoveChoiceDown | branchweaver_app.py:554-556 | the object ends in `Graph.MoveChoiceDown`'s story |
| Stories.Story.RepairStart | branchweaver_app.py:656-660 | the object ends in `Graph.RepairStart`; it returns the node preselected, which is a key, or `None` for an empty story |
| Codec.Keys | branchweaver_app.py:237 | the keys of an object's members, in document order |
| Codec.Get | branchweaver_app.py:239-253 | `d.get(key)` finds nothing exactly when the key is absent |
| Codec.GetAt | branchweaver_app.py:239-253 | when no key repeats, the member at each position is what its key finds |
| Codec.DictKeys | branchweaver_app.py:237 | a dict's key order lists each key once, and is the member order when no key repeats |
| Codec.StringItems | branchweaver_app.py:218 | a list of strings encodes as an array of the same length |
| Codec.EncodeChoice | branchweaver_app.py:222-228 | a choice encodes as an object with the keys `text`, `target_id`, `tags`, `gate`, in that order |
| Codec.EncodeChoices | branchweaver_app.py:220 | one encoded choice per choice |
| Codec.EncodeNode | branchweaver_app.py:210-221 | a node encodes as an object with its nine keys, `id` to `choices`, in the order written |
| Codec.EncodeNodes | branchweaver_app.py:208 | the nodes dict has the story's keys in its key order |
| Codec.EncodeStart | branchweaver_app.py:207 | a missing start encodes as `null`, and reads back as the start it encodes |
| Codec.Encode | branchweaver_app.py:201-209 | a story encodes as an object with `title`, `description`, `start_node_id` and `nodes`, the last holding the nodes in key order |
| Codec.ReadString | branchweaver_app.py:239-244 | `d.get(field, default)`: the default when absent, the string when it is one, `TypeMismatch` otherwise |
| Codec.ReadStrings | branchweaver_app.py:245 | `d.get(field, [])` as a list of strings: the empty list when absent, the items read one by one when it is an array, `TypeMismatch` otherwise |
| Codec.ReadChoices | branchweaver_app.py:247 | absent, an empty object or an empty string gives no choices; an array decodes item by item; a non-empty object or string fails with `BadChoice`; `null` fails |
| Codec.ReadStart | branchweaver_app.py:253 | absent or `null` is no start, a string is that start, and an array or object fails with `TypeMismatch` |
| Codec.ReadStringItems | branchweaver_app.py:245 | a list read back has one string per item |
| Codec.DecodeChoice | branchweaver_app.py:247 | `Choice(**c)` fails unless `c` is an object with `text` and `target_id`; any unknown key fails it |
| Codec.DecodeChoiceItems | branchweaver_app.py:247 | a decoded list has one choice per payload |
| Codec.DecodeNode | branchweaver_app.py:238-248 | a payload that is not an object, or has no `"id"`, fails |
| Codec.DecodeNodes | branchweaver_app.py:237-248 | the decoded nodes are keyed by exactly the dict's keys |
| Codec.Decode | branchweaver_app.py:234-254 | a decoded story is well-formed; a document that is not an object fails |
| Codec.StringsRoundTrip | branchweaver_app.py:218 | a list of strings reads back as itself |
| Codec.ReadStringItemsCons | branchweaver_app.py:245 | a string item in front adds its string in front of the list read back |
| Codec.ChoiceKeysDistinct | branchweaver_app.py:223-228 | the four keys of an encoded choice are distinct |
| Codec.ChoiceFieldsRead | branchweaver_app.py:223-228 | each field of an encoded choice reads back as the choice's |
| Codec.DecodeChoiceFields | branchweaver_app.py:247 | `Choice(**c)` on an object with only known keys whose fields read as a choice's gives that choice |
| Codec.ChoiceRoundTrip | branchweaver_app.py:223-228 | an encoded choice decodes to itself |
| Codec.ChoicesRoundTrip | branchweaver_app.py:220 | an encoded choice list decodes to itself |
| Codec.NodeKeysDistinct | branchweaver_app.py:211-221 | the nine keys of an encoded node are distinct |
| Codec.NodeNamesRead | branchweaver_app.py:239-241 | the id, title and text of an encoded node read back as the node's |
| Codec.NodeDetailsRead | branchweaver_app.py:242-246 | the NPC, location, emotion and GM notes read back as the node's |
| Codec.NodeListsRead | branchweaver_app.py:245-247 | the tags and choices of an encoded node read back as the node's encodings |
| Codec.DecodeNodeFields | branchweaver_app.py:238-248 | a node payload whose fields read as a node's decodes to that node |
| Codec.NodeRoundTrip | branchweaver_app.py:211-221 | an encoded node decodes to itself, whatever key it is stored under |
| Codec.GetEncodedNode | branchweaver_app.py:208 | in the encoded nodes dict, each key finds its node's encoding |
| Codec.EncodedNodesFound | branchweaver_app.py:208 | the encoded nodes dict has the story's keys once each, in order |
| Codec.NodesRoundTrip | branchweaver_app.py:237-248 | decoding the encoded nodes dict gives back the nodes of the keys read |
| Codec.DecodeNodesCons | branchweaver_app.py:237-248 | a decoded first node and the decoded rest make the decoded dict |
| Codec.MapOfCons | branchweaver_app.py:237 | the nodes of a key list are those of its tail plus its head |
| Codec.StoryNodesRead | branchweaver_app.py:237-248 | the encoded nodes dict gives back the story's key order and nodes |
| Codec.NodesOfOrder | branchweaver_app.py:237 | the nodes listed by the key order are all the nodes |
| Codec.StoryKeysDistinct | branchweaver_app.py:204-209 | the four top-level keys of an encoded story are distinct |
| Codec.StoryHeaderRead | branchweaver_app.py:249-253 | the title, description, start and nodes dict read back as the story's |
| Codec.DecodeFields | branchweaver_app.py:234-254 | a document whose members read as a story's parts decodes to that story |
| Codec.RoundTrip | branchweaver_app.py:201-254 | `story_from_json(story_to_json(s)) == s` for every well-formed story, including key order and start |
| Codec.EncodeStable | branchweaver_app.py:201-254 | encoding after a decode of an encoding gives the same document |
| Codec.NodeDefaults | branchweaver_app.py:238-248 | a node payload with only an id gets "(untitled)", empty strings and empty lists |
| Codec.StoryDefaults | branchweaver_app.py:249-254 | an empty document gives "Untitled Story", no description, no nodes and no start |
| Codec.NodeWithoutIdFails | branchweaver_app.py:239 | a node without `"id"` fails the decode |
| Codec.ChoiceWithUnknownKeyFails | branchweaver_app.py:247 | a choice with a key `Choice` lacks fails the decode |
| Report.ExportOrder | branchweaver_app.py:263-267 | the start comes first when it is a key, followed by the other keys as a subsequence of the stored order; otherwise the stored order; each key once |
| Report.RemovePresentShrinks | branchweaver_app.py:266 | removing a present key shortens the order |
| Report.RemoveDistinctLength | branchweaver_app.py:266 | removing from a duplicate-free order drops at most one entry |
| Report.Preamble | branchweaver_app.py:258-261 | two lines `# title` and blank, then, only when there is a description, the description itself and a blank line (four lines) |
| Report.Heading | branchweaver_app.py:271 | a node's heading is `## ` + title + ` (` + the first eight characters of its id + `)`, the whole id when it is that short |
| Report.MetaLines | branchweaver_app.py:272-274 | the italic line is present exactly when the NPC, location or emotion is non-empty, and is `*` + the non-empty ones joined by ` • ` + `*` |
| Report.TagLines | branchweaver_app.py:275-276 | the tags line is present exactly when the node has tags, and is `Tags: ` + the tags joined by `, ` |
| Report.GmLines | branchweaver_app.py:279-281 | the GM-notes lines are present exactly when `detailed` is set and the notes are non-empty |
| Report.ChoiceLine | branchweaver_app.py:286-288 | a choice's bullet opens with `- `, its text, ` [gate]` when gated, the arrow and the target's id prefix in backticks; the tags, if any, come after |
| Report.ChoiceLineDecorations | branchweaver_app.py:286-288 | the gate follows the text in brackets only when present; a choice without gate and tags is just its text, arrow and the target's id prefix |
| Report.ChoiceLineEnding | branchweaver_app.py:286-288 | without tags the bullet ends at the target's id prefix in backticks, and a gated one is text, gate, arrow and prefix; with tags it ends with ` (tags: ...)` listing them |
| Report.ChoiceLines | branchweaver_app.py:285-288 | one bullet per choice, in order |
| Report.ChoiceBlock | branchweaver_app.py:282-288 | the choices block is present only when there are choices: a blank line, `**Choices**`, then the bullets |
| Report.Section | branchweaver_app.py:269-289 | a section opens with the node's heading and ends with a blank line; after the meta and tags lines come a blank line and then the node's text |
| Report.SectionLayout | branchweaver_app.py:269-289 | the section's lines in order: heading, meta and tags lines, blank, text, GM-notes lines, choices block, blank; each block in its own slice |
| Report.SectionShape | branchweaver_app.py:269-289 | a section starts with its heading and ends with a blank line; its length is fixed by which optional lines occur; every choice's bullet is in it |
| Report.ReportParts | branchweaver_app.py:258-289 | the report has one block more than there are keys, and its first block is the preamble |
| Report.ReportPartsAt | branchweaver_app.py:269-289 | block `i + 1` of the report is the section of the `i`-th key of the export order |
| Report.ExportLines | branchweaver_app.py:257-289 | the report's lines open with the preamble, and there are as many as in the preamble and all sections together |
| Report.ExportMarkdown | branchweaver_app.py:257-290 | the report text opens with `# ` and the title on a line of its own, and is as long as its lines plus one newline between each two |
| Report.ExportMarkdownLine | branchweaver_app.py:290 | each line of the report sits in the text after the lines before it and their newlines, and a newline follows every line but the last |
| Report.SectionInReport | branchweaver_app.py:269-289 | the section of the `i`-th key sits in the report's lines right after the preamble and the sections before it, and its first line is that node's heading |
| Report.OneSectionPerNode | branchweaver_app.py:263-289 | the export order lists each node exactly once, the report's lines are the preamble and the sections end to end, and each node's section, opening with its heading, sits in its own slice in that order |
| Report.DistinctOnce | branchweaver_app.py:263 | a list without duplicates holds each of its elements exactly once |
| Report.OrderCountsNodes | branchweaver_app.py:263 | the key order has one entry per node |
| Report.DistinctCount | branchweaver_app.py:263 | a duplicate-free list has as many elements as its set |
| Report.StartFirst | branchweaver_app.py:265-267 | when the start is a key, its heading is the first line after the preamble |
| Report.WithoutGmNotes | branchweaver_app.py:279-281 | blanking the GM notes keeps the keys, order and start |
| Report.GmNotesOnlyWhenDetailed | branchweaver_app.py:279-281 | a plain report ignores GM notes: it equals the report, detailed or not, of the story with the notes blanked |
| Report.SectionsWithoutGm | branchweaver_app.py:279-281 | for any keys, the plain sections equal the sections, detailed or not, of the story with the notes blanked |
| Report.SectionWithoutGm | branchweaver_app.py:279-281 | a plain section does not depend on the GM notes |
| Seeding.DraftOf | branchweaver_app.py:359-368 | an entry's `add_node` arguments use its title, or "Untitled" when it has none |
| Seeding.Created | branchweaver_app.py:358-368 | after the first `i` entries, the story is well-formed and its order has grown by their ids |
| Seeding.CreateStep | branchweaver_app.py:359-368 | each entry's id is fresh when its node is added, and the order grows by it |
| Seeding.CreatedKeepsOld | branchweaver_app.py:358-368 | the first pass leaves the existing nodes alone |
| Seeding.CreatedHeader | branchweaver_app.py:358-368 | the first pass leaves the title and description alone |
| Seeding.CreatedEntry | branchweaver_app.py:359-368 | the node of entry `j` is the one `add_node` builds from it |
| Seeding.IdMap | branchweaver_app.py:369 | every title seen is mapped to the id of one of the nodes created so far |
| Seeding.IdMapLaterWins | branchweaver_app.py:369 | when titles collide, the later entry's id wins |
| Seeding.FirstUntitled | branchweaver_app.py:369 | finds the first entry whose `entry["title"]` raises, and finds nothing exactly when every entry has a title |
| Seeding.TitledStep | branchweaver_app.py:369 | a titled entry extends the title map by its title and id |
| Seeding.FirstUntitledAt | branchweaver_app.py:369 | an untitled entry after titled ones is the first untitled entry |
| Seeding.ResolveOne | branchweaver_app.py:376-391 | a seed choice yields a choice exactly when its target title is mapped to a non-empty id, and then it leads to that id |
| Seeding.Resolve | branchweaver_app.py:376-391 | every choice appended leads to an id in the title map; unmatched targets are skipped |
| Seeding.ResolveAllMatched | branchweaver_app.py:376-391 | when every target title matches, every choice is appended in order with its text, mapped target, tags and gate |
| Seeding.ResolvePrefix | branchweaver_app.py:376-391 | resolving one more seed choice appends its choice, if it has one |
| Seeding.Source | branchweaver_app.py:372-374 | the source node is the id the title map gives the entry's title, or `""` (skipped) when the title is not mapped |
| Seeding.AppendChoices | branchweaver_app.py:384 | the named node's choices grow by the given list at the end; keys and order are kept |
| Seeding.AppendChoicesFrame | branchweaver_app.py:384 | appending to one node's choices changes nothing else |
| Seeding.AppendChoicesTwice | branchweaver_app.py:384 | appending `a` and then `b` is appending `a + b`; appending nothing changes nothing |
| Seeding.Wire | branchweaver_app.py:371-391 | the second pass keeps the keys, order, start, title and description |
| Seeding.WireOnlyChoices | branchweaver_app.py:371-391 | the second pass changes only choice lists |
| Seeding.WiredToConcat | branchweaver_app.py:371-391 | the choices wired by the first entries are their parts joined in entry order |
| Seeding.WireEntryStep | branchweaver_app.py:371-391 | one entry of the second pass appends to a node exactly the resolved choices it wires there: all of them to its source node, none elsewhere |
| Seeding.AppendChoicesAt | branchweaver_app.py:384 | appending to one node grows the choices of that node only |
| Seeding.WireChoices | branchweaver_app.py:371-391 | after the second pass, each node holds its old choices followed by exactly the resolved choices of the entries whose title maps to it, in entry order |
| Seeding.WireKeeps | branchweaver_app.py:372-374 | a node the title map does not name is left alone |
| Seeding.WireTargets | branchweaver_app.py:376-391 | every choice the second pass adds leads to an id in the title map |
| Seeding.LoadSeed | branchweaver_app.py:353-394 | the loaded story is well-formed |
| Seeding.BothPasses | branchweaver_app.py:353-394 | with every entry titled, the order grows by the entries' ids in order, and the title and description come from the seed or its defaults |
| Seeding.IdMapValues | branchweaver_app.py:369 | the title map names only nodes created by the first pass |
| Seeding.BothPassesKeepsOld | branchweaver_app.py:353-394 | both passes leave an old node alone |
| Seeding.BothPassesEntry | branchweaver_app.py:353-394 | an entry's node is the one `add_node` built, with only choices added |
| Seeding.BothPassesTargets | branchweaver_app.py:376-391 | every choice of an entry's node leads to a created node |
| Seeding.LoadSeedAddsEntries | branchweaver_app.py:353-394 | a successful load adds one key per entry in order, and sets the seed's title and description |
| Seeding.LoadSeedEntryNode | branchweaver_app.py:359-368 | after a load, entry `j`'s node is built from entry `j` |
| Seeding.LoadSeedKeepsOld | branchweaver_app.py:353-394 | a load leaves the story's old nodes alone |
| Seeding.LoadSeedTargetsExist | branchweaver_app.py:376-391 | every choice the load appends leads to a key of the story |
| Seeding.IdMapOwn | branchweaver_app.py:369-372 | with distinct titles, each entry's title maps to that entry's own id |
| Seeding.EntryWiredElsewhere | branchweaver_app.py:371-391 | with distinct titles and ids, an entry wires nothing to another entry's node |
| Seeding.EntryWiredOwn | branchweaver_app.py:371-391 | with distinct titles and ids, an entry wires all its resolved choices to its own node |
| Seeding.WiredToOnly | branchweaver_app.py:371-391 | when only one entry wires anything to a node, the second pass wires to it exactly that entry's choices |
| Seeding.WiredToOwn | branchweaver_app.py:371-391 | with distinct titles and ids, the second pass wires to each entry's node exactly the choices resolved from that entry |
| Seeding.WireEntryNode | branchweaver_app.py:371-391 | with distinct titles and ids, the second pass gives a fresh node exactly its entry's resolved choices and changes nothing else about it |
| Seeding.LoadSeedWired | branchweaver_app.py:353-394 | with distinct titles, a successful load gives entry `j`'s node exactly the `add_node` node with the choices resolved from entry `j`, in order |
| Seeding.TwoEntryLoad | branchweaver_app.py:353-394 | two entries where the first's one choice targets the second's title: exactly one choice is wired, from the first node to the second, and the second gets none |
| Seeding.LoadSeedStopsAtUntitled | branchweaver_app.py:369 | an untitled entry stops the load with `MissingTitle`, keeping the nodes up to it and the old title |
| Seeding.CreatedStartValid | branchweaver_app.py:166-167 | the first pass keeps the start invariant |
| Seeding.LoadSeedStartValid | branchweaver_app.py:353-394 | `load_seed` keeps the start invariant |
| Seeding.LoadSeedFailed | branchweaver_app.py:369 | a load with an untitled entry ends with the nodes created up to it and `MissingTitle` for it |
| Seeding.LoadSeedSucceeded | branchweaver_app.py:353-394 | the state after both passes and the header is the one `LoadSeed` describes |
| Seeding.Load | branchweaver_app.py:353-394 | the story object ends in `LoadSeed`'s story, and the error returned is its error |
| Seeding.WireAndName | branchweaver_app.py:371-394 | the second pass and the header reach `LoadSeed`'s story |
| Seeding.AddEntries | branchweaver_app.py:358-369 | the first loop builds `Created` and `IdMap`, or stops at the first untitled entry |
| Seeding.WireEntries | branchweaver_app.py:371-391 | the second loop builds `Wire` |
| Seeding.AppendResolved | branchweaver_app.py:375-391 | the inner loop appends the resolved choices of one entry to its node |
| Playback.Restarted | branchweaver_app.py:669-671 | Restart plays `start` with history `[start]` |
| Playback.SteppedBack | branchweaver_app.py:673-678 | Step Back drops the last entry only when there are two or more, and then plays the new last one; otherwise it is a no-op |
| Playback.Revalidated | branchweaver_app.py:682-685 | a current node that is a key is kept; otherwise playback restarts at `start` |
| Playback.Chosen | branchweaver_app.py:713-715 | Choose(i) plays `choices[i].target_id` and appends it to the history |
| Playback.TransitionsKeepConsistent | branchweaver_app.py:669-715 | every transition keeps the history non-empty and ending at the current node |
| Playback.ChooseThenStepBack | branchweaver_app.py:673-678 | stepping back right after a choice returns to the state before it |
| Playback.StepBackAtRoot | branchweaver_app.py:675 | Step Back at the first visited node changes nothing, however often |
| Playback.StepBacksTruncate | branchweaver_app.py:673-678 | `n` Step Backs keep the first `max(len - n, 1)` visited nodes |
| Playback.Player.constructor | branchweaver_app.py:89-90 | playback starts with no node and an empty history |
| Playback.Player.Restart | branchweaver_app.py:669-671 | the player ends in `Restarted(start)` |
| Playback.Player.StepBack | branchweaver_app.py:673-678 | the player ends in `SteppedBack` of its old state |
| Playback.Player.Reset | branchweaver_app.py:682-685 | the player ends in `Revalidated` of its old state |
| Playback.Player.Choose | branchweaver_app.py:713-715 | the player ends in `Chosen` of its old state |
| View.Flatten | branchweaver_app.py:130 | each newline becomes a space, and nothing else changes |
| View.Truncate | branchweaver_app.py:131-132 | the text is kept when it has at most 160 characters; otherwise it becomes its first 157 characters and an ellipsis |
| View.LabelText | branchweaver_app.py:130-132 | the text line is at most 160 characters and no longer than the text, and is the flattened text when that fits |
| View.LabelTextShape | branchweaver_app.py:130-132 | a label's text line is one line of at most 160 characters, and is the text itself when that fits |
| View.LabelTextIdempotent | branchweaver_app.py:130-132 | shortening a text line again changes nothing |
| View.NodeLabel | branchweaver_app.py:118-134 | a label is title or "(untitled)", text line and meta line, one per line; only when GM notes are asked for and present, a fourth line `GM: ` + notes follows and nothing else |
| View.MetaLine | branchweaver_app.py:121-128 | `NPC: npc`, `@ location`, `[emotion]` for exactly the present ones, in that order, one space between neighbours and none at either end |
| View.EdgeLabel | branchweaver_app.py:621-622 | an edge label is the choice text, followed by ` [gate]` only when the gate is non-empty |
| View.NodeEdges | branchweaver_app.py:618-623 | a node's edges all start at it and end at a key; each comes from one of its choices, and every choice with an existing target draws one |
| View.EdgesOf | branchweaver_app.py:615-623 | the drawn edges come from choices of their source node and end at keys; every choice whose target exists draws one |
| View.Edges | branchweaver_app.py:615-623 | every drawn edge joins two keys, and every choice whose target is a key draws its edge |
| View.EdgesExact | branchweaver_app.py:615-623 | an edge is drawn exactly when some choice of a node leads to an existing node |

## Left out

- The Streamlit user interface and its session state: widgets, tabs, reruns and
  `ensure_state`, including the "recently edited" view. Only the logic above is
  extracted from them.
- Graphviz rendering, node colours and shapes, and the DOT download. `color_for_value`
  depends on Python's per-process salted `hash`.
- `uuid4`. Fresh ids are parameters, and the model requires them to be unused.
- Reading and writing the autosave file, with its bare `except` clauses.
- `json.dumps` and `json.loads` at the text level. The codec works on JSON value trees.
  Numbers and booleans are not in the value type. A value of the wrong kind where a
  string or the `tags` list is read becomes `TypeMismatch`, where Python would store it
  untyped. `choices` is iterated instead, and the model follows that: an empty object or
  empty string gives no choices, a non-empty one fails with `BadChoice`, and `null`
  fails with `TypeMismatch`.
- The editor's add-choice and target-selection forms. They are widget-index bookkeeping,
  and one of them looks up an 8-character id prefix among full keys.
- The NPC and scene generators and the world-state summaries: fixed tables and displays.
- View.EdgesOf: the visualizer's search filter `q` (a case-insensitive substring match
  on title and text) is not modelled. The edges cover every node.
- Playback.Chosen: requires a valid choice index and a current node that is a key,
  because the view only draws buttons for the current node's existing choices.
- Playback.Player.Choose: `st.experimental_rerun` and the history caption are not
  modelled.
- Nodes and choices are values, so the model does not capture aliasing between
  Python objects. The source never shares a node or choice between two places:
  `duplicate_node` copies them.
- `Text.IsSpace` lists Python's whitespace characters by code point. Other Unicode
  behaviour of `strip` (such as `str.isspace` on characters outside that list) is not
  modelled.
