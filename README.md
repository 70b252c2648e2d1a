# archagents core, modelled in Dafny

archagents turns a natural-language architecture goal into a Draw.io diagram. A language
model writes a JSON *plan*: lanes, groups, nodes, edges and a legend flag. The agent repairs and
normalises the plan. Then a deterministic compiler lays it out as an `mxGraphModel` document,
a validator criticises that document, and a renderer draws it as SVG. A second back end,
`ArchitectureDiagramBuilder`, replays the plan against a live Draw.io editor through
create/delete calls.

This project models those deterministic parts and proves what they promise:

- `compiler.dfy` (module `PlanToDrawio`) covers `plan_to_drawio.py`:
  - the lane palette and the luminance test;
  - node styles;
  - lane bands and the lane-by-lane node grid, with its group-then-id sort;
  - canvas size;
  - lane, group, node, edge, label and legend cells, in emission order;
  - a cell is a value with a parsed style map (`Document.Cell`).
- `validate.py` is modelled in `validate.dfy` (module `Validate`):
  - the style parser, bounding boxes and the strict-overlap test;
  - the node/text/edge classification;
  - the structural, overlap, contrast and goal-keyword checks;
  - the report whose `ok` means "no issues";
  - `validate_xml` is modelled as written, so its goal check reads node values only; the corrected check, where text labels count too, is kept beside it as `ValidationCorrected`.
- `render.dfy` (module `Render`) covers `render.py`:
  - the style parser and colour normalisation;
  - cell collection, the frame and its coordinate shift, the z-order sort;
  - edges drawn beneath vertices;
  - the per-shape primitives, label truncation and the special outputs.
- `agent.dfy` (module `Agent`) covers the text handling in `agent.py`:
  - code-fence stripping and ampersand escaping;
  - the draw.io sniff test and the reviewer-verdict predicate;
  - the staged, fault-tolerant `parse_plan_json`.
- `normalize.dfy` (module `Normalize`) covers `normalize_plan`:
  - default lanes;
  - id-keyed group and node dictionaries;
  - contextual groups and nodes chosen by goal keywords;
  - the lane-correction table and the IAS sign-on edge.
- `builder.dfy` (module `Builder`) covers `ArchitectureDiagramBuilder.build_from_plan` and
  `clear_diagram`. It models them as classes whose methods change state:
  - the editor connection is a `DrawioClient` object that logs every call and gets its
    answer from an oracle function;
  - the builder keeps its `cellIds` map;
  - the methods are proved equal to functional run models (`Build`, `Clear`), and the lemmas
    are proved about those run models.
- `pipeline.dfy` (module `Pipeline`) relates the components:
  - every compiled document fails validation, because the compiler's `endArrow=blockThin` is
    not among the arrows the validator accepts, and because a compiled document without edges
    reports "No edges found";
  - the Application lane's teal fill `#1a9898` is dark for the compiler (luminance below 0.5)
    and for the renderer, but light for the validator (not below 0.45). The white font the
    compiler gives it is therefore reported as light-on-light.

The supporting modules are:

- `Wrappers`: Option and Result;
- `Text`: string utilities with Python `str.strip`/`split`/`find` behaviour; whitespace is Python's full `str.isspace` set, while case mapping covers ASCII letters only;
- `Dicts`: an insertion-ordered dictionary as a sequence of pairs;
- `Sorting`: a stable insertion sort, standing in for Python's stable `sorted`;
- `Colors`: hex digits and an integer-scaled luminance;
- `Plans`: the plan entities;
- `Document`: parsed draw.io cells and style strings.

Each loop in the source is a Dafny `method` with invariants. Its `ensures` ties the result to
a specification function, and the lemmas are about that function.

## Model

| member | source | states |
|---|---|---|
| Plans.LanesOrDefault | plan_to_drawio.py:188 | the lane list is never empty and is the plan's own list whenever that is non-empty |
| PlanToDrawio.UnknownLaneIsExternal | plan_to_drawio.py:84-86 | a lane outside the palette gets exactly the External colour scheme |
| PlanToDrawio.IsDarkNeedsHexColor | plan_to_drawio.py:89-95 | a value that is not `#` plus six hex digits, once a missing `#` is added, is never dark |
| PlanToDrawio.IsDarkByLuminance | plan_to_drawio.py:96-100 | on a hex colour, dark holds exactly when 0.2126r+0.7152g+0.0722b is below 0.5 |
| PlanToDrawio.IsDarkIgnoresHash | plan_to_drawio.py:91-93 | a colour without `#` is judged as the same colour with `#` |
| PlanToDrawio.IsDarkAcceptsTrailingNewline | plan_to_drawio.py:94 | because `$` also matches before a final newline, `"#000000\n"` counts as dark |
| PlanToDrawio.PaletteDarkFills | plan_to_drawio.py:34-64 | the Experience, Application, Data and Platform fills are dark |
| PlanToDrawio.PaletteLightFills | plan_to_drawio.py:46-71 | the Integration and External fills are light |
| PlanToDrawio.ExternalNodesAreGrey | plan_to_drawio.py:110-117 | a node typed or scoped external gets the grey External fill and stroke, whatever its lane |
| PlanToDrawio.LaneNodeColors | plan_to_drawio.py:105-108 | any other node takes fill and stroke from its lane's scheme |
| PlanToDrawio.NodeShapes | plan_to_drawio.py:119-125 | data nodes are cylinders, security nodes hexagons, and all others rounded rectangles without a shape key |
| PlanToDrawio.NodeContrast | plan_to_drawio.py:127 | the font is white exactly when the fill is dark |
| PlanToDrawio.LanePositions | plan_to_drawio.py:132-139 | the loop builds the lane-position map `LaneY` |
| PlanToDrawio.LaneYAtLastOccurrence | plan_to_drawio.py:135-138 | a repeated lane name keeps the y of its last occurrence, 80+150i |
| PlanToDrawio.LaneYDomain | plan_to_drawio.py:136-137 | the map has a key exactly for each listed lane |
| PlanToDrawio.LaneYDistinct | plan_to_drawio.py:132-139 | with distinct names, lane i starts at y = 80+150i |
| PlanToDrawio.BucketsByLane | plan_to_drawio.py:147-150 | each lane's bucket holds exactly that lane's nodes in plan order, and empty lanes have no bucket |
| PlanToDrawio.BucketByLane | plan_to_drawio.py:147-150 | the setdefault loop builds those buckets |
| PlanToDrawio.BucketsPartition | plan_to_drawio.py:147-150 | the buckets together are a permutation of the plan's nodes |
| PlanToDrawio.PairLessIsStrictTotalOrder | plan_to_drawio.py:157 | Python's ordering on (group, id) string pairs is a strict total order, so the sort key is well defined |
| PlanToDrawio.LayoutNodesInLanes | plan_to_drawio.py:142-164 | the layout loop computes `Layout`: positions, or the KeyError of a node without id |
| PlanToDrawio.PlaceRow | plan_to_drawio.py:159-162 | placing one sorted lane succeeds iff every node has an id, and extends the position map by that row |
| PlanToDrawio.PlacementsPermutePlan | plan_to_drawio.py:148-162 | every plan node is placed exactly once |
| PlanToDrawio.LayoutFailsIffMissingId | plan_to_drawio.py:161 | layout fails exactly when some node has no id |
| PlanToDrawio.LayoutGrid | plan_to_drawio.py:153-162 | the k-th node of a lane in (group or "zzz", id) order sits at (220+200k, lane y + 35) |
| PlanToDrawio.LanePlacement | plan_to_drawio.py:153-162 | that node has a placement record at that point |
| PlanToDrawio.PlacedUniqueIds | plan_to_drawio.py:148-162 | unique plan ids stay unique after bucketing and sorting |
| PlanToDrawio.SameLaneDisjoint | plan_to_drawio.py:159-162 | two nodes of one lane are 200 apart, so their 160-wide boxes do not touch |
| PlanToDrawio.DistinctLanesDisjoint | plan_to_drawio.py:132-139 | nodes of two distinct listed lanes are separated vertically by more than the 60-unit height |
| PlanToDrawio.UnlistedLaneCollides | plan_to_drawio.py:154 | a node of an unlisted lane sits at y = 155, only 40 below the first lane's row at 115, in the same column |
| PlanToDrawio.CalculateDiagramSize | plan_to_drawio.py:167-175 | the max-scan loop computes `DiagramSize` |
| PlanToDrawio.MaxX | plan_to_drawio.py:172 | the result bounds every x and is attained by some node |
| PlanToDrawio.CanvasCoversNodes | plan_to_drawio.py:169-175 | no positions gives 1000x600; otherwise the width is at least 1200 and leaves 40 units right of every node, and the height is 120 + 150 per lane |
| PlanToDrawio.LaneBandsFit | plan_to_drawio.py:173 | every listed lane's 130-unit band ends inside the canvas height |
| PlanToDrawio.LaneCells | plan_to_drawio.py:217-231 | two cells per lane |
| PlanToDrawio.EmitLaneCells | plan_to_drawio.py:217-231 | the lane loop emits `LaneCells` |
| PlanToDrawio.LaneBandPlacement | plan_to_drawio.py:217-231 | lane i's band is an empty vertex with the lane's bg colour at (40, y-10), lane_width by 130, followed by its name label |
| PlanToDrawio.EmitGroupCells | plan_to_drawio.py:239-272 | the group loop emits `EmitGroups` and its seen-set |
| PlanToDrawio.TruthyGroupIdsMembers | plan_to_drawio.py:240-243 | a group id is seen iff some group carries it and it is non-empty |
| PlanToDrawio.GroupCellsUnique | plan_to_drawio.py:239-272 | one `g_`-prefixed cell per distinct non-empty group id, with no duplicate ids |
| PlanToDrawio.GroupContainsMember | plan_to_drawio.py:250-263 | a positioned member of the group's lane lies inside its box, with 30 units to spare left and right |
| PlanToDrawio.EmitNodeCells | plan_to_drawio.py:280-300 | the node loop emits `EmitNodes` and `seen_nodes` |
| PlanToDrawio.PositionedIdsMembers | plan_to_drawio.py:281-284 | a node id is emitted iff some node carries it, it is non-empty and it was positioned |
| PlanToDrawio.NodeCellsUnique | plan_to_drawio.py:280-300 | one `n_`-prefixed cell per emitted id, with no duplicates |
| PlanToDrawio.EmitEdgeCells | plan_to_drawio.py:305-340 | the edge loop emits `EmitEdges` and `seen_edges` |
| PlanToDrawio.EdgeCellsOneConnector | plan_to_drawio.py:323-340 | each kept edge yields exactly one connector cell, plus an optional label |
| PlanToDrawio.EdgeCellsPerPair | plan_to_drawio.py:305-320 | the number of connectors is the number of distinct non-empty (from, to) pairs |
| PlanToDrawio.EdgeEmitted | plan_to_drawio.py:312-325 | the first occurrence of a pair is emitted, with endpoints `n_id` for emitted nodes and the raw id otherwise |
| PlanToDrawio.EdgeIdCollision | plan_to_drawio.py:325 | distinct pairs ("a_b","c") and ("a","b_c") get the same cell id `e_a_b_c` |
| PlanToDrawio.LabelPlacement | plan_to_drawio.py:330-339 | the label box is centred horizontally between the node centres, with its centre 35 above their midpoint |
| PlanToDrawio.LegendCells | plan_to_drawio.py:345-364 | with the legend on (the default) there is one title plus two cells for each of the first four lanes; otherwise there are none |
| PlanToDrawio.EmitLegendCells | plan_to_drawio.py:353-364 | the legend loop emits `LegendCells` |
| PlanToDrawio.PlanToMxGraph | plan_to_drawio.py:178-370 | the whole compiler computes `Compile` |
| PlanToDrawio.AssembleStartsWithRoots | plan_to_drawio.py:196-199 | the assembled document starts with cell 0 and cell 1 parented to 0 |
| PlanToDrawio.CompileStartsWithRoots | plan_to_drawio.py:196-199 | so does every compiled document |
| PlanToDrawio.CompileFailsIffMissingId | plan_to_drawio.py:161 | compilation fails exactly when a node lacks an id |
| Validate.ParseStyle | validate.py:8-18 | the split loop computes `StyleParts` of the `;`-pieces |
| Validate.ParsePrintedStyle | validate.py:8-18 | parsing a printed well-formed style gives back its key/value map |
| Validate.OverlapIsCommonInterior | validate.py:29-30 | for proper boxes, overlap holds iff some point lies strictly inside both |
| Validate.OverlapSymmetricTouching | validate.py:29-30 | overlap is symmetric, and boxes that only share an edge do not overlap |
| Validate.ClassifyCells | validate.py:47-57 | the cell loop computes the node, text and edge records |
| Validate.NodesAndTextsPartition | validate.py:50-55 | every vertex with geometry becomes exactly one of node or text |
| Validate.ArrowIssuesNoneIff | validate.py:65-67 | no arrow issue iff every edge's endArrow is block, classic or open |
| Validate.ArrowIssuesAllFlagged | validate.py:65-67 | when no edge has an accepted arrow, each edge gets its own missing-endArrow issue, in order |
| Validate.ArrowIssuesKinds | validate.py:65-67 | the arrow check reports only missing-endArrow issues |
| Validate.EdgeArrowIssues | validate.py:65-67 | the loop computes `ArrowIssues` |
| Validate.StructuralChecks | validate.py:59-67 | the basic checks compute `StructuralIssues` |
| Validate.StructuralEdgeIssues | validate.py:60-63 | "No edges" iff there are no edges, and "No nodes" iff there are no nodes |
| Validate.OverlapChecks | validate.py:69-73 | the nested loop computes `OverlapIssues` |
| Validate.OverlapIssuesNoneIff | validate.py:69-73 | no overlap issue iff the node boxes are pairwise disjoint |
| Validate.OverlapIssuesReportPair | validate.py:70-73 | every overlapping pair i<j is reported by its ids |
| Validate.NodeContrastCases | validate.py:81-96 | dark-on-dark iff the fill is dark (below 0.45) and the font is one of the dark ones or empty; light-on-light iff the fill is not dark and the font is white; never both |
| Validate.NodeContrast | validate.py:77-96 | the per-node body computes `NodeContrastIssues` |
| Validate.ContrastChecks | validate.py:76-96 | the loop computes `ContrastIssues` |
| Validate.ContrastIssuesExactly | validate.py:76-96 | an issue is reported iff some node's own checks report it |
| Validate.IsDark45Stricter | validate.py:83-92 | dark at 0.45 implies a hex colour darker than 0.5 |
| Validate.GoalIssuesForIff | validate.py:98-112 | each missing-keyword issue appears iff its goal word is present and no label mentions its stem |
| Validate.GoalIssuesNeedKeywords | validate.py:99-112 | a goal without any of the four words raises no goal issue |
| Validate.MentionsNodesOrTexts | validate.py:102 | the labels searched are the node values followed by the text values |
| Validate.GoalEventsIff | validate.py:99-103 | corrected: Events is missing iff the goal says "event" and no node or text value mentions it |
| Validate.GoalIssuesAsWrittenIgnoresTexts | validate.py:53 | as written: a text label mentioning Events does not prevent the issue, though the corrected check accepts it |
| Validate.GoalIssuesAsWrittenExample | validate.py:100-103 | as written, a lone text "Events" under the goal "events" still yields the issue |
| Validate.ValidateXml | validate.py:33-114 | the whole validator, as written, computes `Validation` |
| Validate.ValidationVerdict | validate.py:35-38 | `ok` iff there are no issues; unparsable input gives exactly the parse-error issue |
| Validate.MentionsAsWritten | validate.py:98-103 | as written, the text cells contribute only blanks, so a word is mentioned iff some node value mentions it |
| Validate.GoalIssuesAsWrittenNone | validate.py:98-112 | as written, the goal check passes iff every keyword the goal names has its stem in a node value |
| Validate.ContrastIssuesNone | validate.py:76-96 | no contrast issue iff no node's own check reports one |
| Validate.CellIssuesNone | validate.py:40-96 | the goal-independent checks pass iff the root is `mxGraphModel`, nodes and edges exist, every arrow is accepted, no boxes overlap and no node has a contrast issue |
| Validate.ValidationAccepts | validate.py:33-114 | a parsed document is accepted iff those checks pass and node values meet every goal keyword; text labels play no part |
| Validate.GoalIssuesCorrectedNone | validate.py:99-112 | node values that meet every goal keyword satisfy the corrected check too |
| Validate.ValidationCorrectedRelaxes | validate.py:98-114 | the corrected validator accepts whatever the written one accepts, and the two agree on documents without text cells |
| Render.ParseStyle | render.py:63-77 | the split loop computes the renderer's `StyleParts` |
| Render.RenderParsePrinted | render.py:63-77 | parsing a printed well-formed style gives back its map |
| Render.NormalizeColorCases | render.py:80-95 | the result is the default, "none" or a `#` colour; empty gives the default, `#…` passes stripped, six bare hex digits gain `#` |
| Render.NormalizeNamedColor | render.py:89-95 | any other value is looked up as a lower-cased colour name |
| Render.TextColorForBg | render.py:115-117 | the text colour is white or near-black |
| Render.TextColorContrast | render.py:98-117 | it is white iff `_is_dark` holds; a value that is not 7 characters starting with `#` gets near-black |
| Render.HexPairDigits | render.py:103-105 | `int(…, 16)` on two hex digits gives their channel value |
| Render.HexPairSigned | render.py:103-105 | `int(…, 16)` takes one leading sign before a digit |
| Render.HexPairPadded | render.py:103-105 | `int(…, 16)` drops whitespace on either side of a digit |
| Render.IsDarkHexOfDigits | render.py:98-110 | on `#` and six hex digits, `_is_dark` is luminance below 0.5 |
| Render.IsDarkHexSignedChannels | render.py:98-110 | `_is_dark` has no hex-regex guard: `#+f+f+f` is dark though it is not six hex digits |
| Render.VerticesOfKeys | render.py:151-170 | a vertex is kept under id k iff some vertex cell with geometry has id k, the last one winning |
| Render.CollectStep | render.py:151-177 | one cell adds a vertex or appends an edge, and nothing else |
| Render.CollectCells | render.py:148-177 | the loop computes the vertex dictionary and the edge list |
| Render.CanvasFits | render.py:183-199 | the canvas is at least 400x300, and every shifted vertex lies inside it with the 30-unit margin |
| Render.IntLessIsStrictTotalOrder | render.py:232 | the sort key order is a strict total order |
| Render.DrawOrderProperties | render.py:222-232 | the z-sorted vertices are a permutation, ordered by rank, and stable within each rank |
| Render.EdgeLinesDrawn | render.py:235-250 | one line per edge whose two endpoints are vertices, and only lines |
| Render.DrawEdges | render.py:235-250 | the edge loop computes `EdgeLines` |
| Render.HexagonInsideBox | render.py:311-318 | the six hexagon points lie inside the vertex box |
| Render.TruncateBounds | render.py:352 | labels of at most 25 characters are kept, and longer ones become 22 characters plus "..." |
| Render.ShapePrimsKinds | render.py:295-337 | a shape draws one or two rectangles, ellipses or polygons |
| Render.BoxBodyKinds | render.py:283-337 | the body of a non-text vertex is one or two such primitives |
| Render.BoxPartsLabel | render.py:339-357 | a box never draws lines; its one caption, when present, is last and truncated |
| Render.VertexPartsNoLine | render.py:253-357 | drawing a vertex never produces a line |
| Render.DrawVertices | render.py:253-357 | the vertex loop computes `VertexPrims` |
| Render.VertexPrimsFailure | render.py:274 | once drawing some prefix of the vertices fails (a font size that is not a number), the whole drawing fails with that error |
| Render.VertexPrimsNoLines | render.py:253-357 | no vertex primitive is a line |
| Render.DrawioXmlToSvg | render.py:120-360 | the renderer computes `RenderDoc` |
| Render.SpecialOutputs | render.py:133-181 | a parse error gives the error SVG, no vertices give the empty SVG, and another root is an error |
| Render.EdgesBeneathVertices | render.py:234-253 | all lines come before all shapes, one for each connected edge |
| Agent.StripCodeFences | agent.py:164-175 | the result is stripped |
| Agent.UnfencedText | agent.py:166-175 | text not starting with a fence is only stripped |
| Agent.FencedBlock | agent.py:167-175 | a fenced block with any language tag yields its stripped body |
| Agent.FixAmpersandsPrefix | agent.py:178-180 | text before the first `&` is unchanged |
| Agent.FixAmpersandsEscapes | agent.py:178-180 | afterwards every `&` starts an entity reference |
| Agent.FixAmpersandsKeeps | agent.py:178-180 | text whose ampersands already start entity references is unchanged |
| Agent.FixAmpersandsIdempotent | agent.py:178-180 | the fix changes nothing iff all ampersands are entities, and applying it twice equals once |
| Agent.SanitizedEntitiesOnly | agent.py:183-187 | sanitised XML has only entity ampersands |
| Agent.IsDrawioXmlIff | agent.py:328-333 | stripped text starting with `<mxGraphModel` or `<mxfile`, or an XML prolog mentioning either |
| Agent.DrawioRootAccepted | agent.py:328-333 | leading whitespace before `<mxfile` is accepted |
| Agent.VerdictOkPrefix | agent.py:344 | a verdict starting with OK, in any case, is accepted |
| Agent.VerdictNotRejects | agent.py:344 | a verdict containing "not" and not starting with OK is rejected |
| Agent.VerdictNoncompliantAccepted | agent.py:344 | as written: a verdict saying "noncompliant" without "not" is accepted |
| Agent.VerdictAcceptsNoncompliant | agent.py:344 | as written: "noncompliant" is accepted |
| Agent.VerdictCorrectedRejectsNoncompliant | agent.py:344 | corrected: "noncompliant" or "non-compliant" is rejected unless the verdict starts with OK |
| Agent.VerdictCorrectedRefines | agent.py:344 | corrected acceptance implies the original acceptance, and keeps every OK verdict |
| Agent.VerdictCorrectedExample | agent.py:344 | corrected: "noncompliant" is rejected |
| Agent.DropPrefixesStep | agent.py:195-197 | the prefixes are removed one after another, in order |
| Agent.DropLeadIns | agent.py:195-197 | the prefix loop computes `DropPrefixes` |
| Agent.JsonSpanBounds | agent.py:206-211 | a span exists iff some `{` comes before some `}`; it runs from the first `{` to the last `}` |
| Agent.DropTrailingCommasKeeps | agent.py:217-218 | removing trailing commas keeps every character other than commas and whitespace, in order, and never lengthens the text |
| Agent.DropTrailingComma | agent.py:217-218 | a comma, then whitespace, then the closer, becomes just the closer |
| Agent.DropTrailingCommasAbsent | agent.py:217-218 | no new characters are introduced |
| Agent.RepairJsonProperties | agent.py:216-218 | the repaired text has no single quotes, and apart from commas and whitespace it is the quote-swapped text |
| Agent.CandidatesShape | agent.py:205-225 | every candidate after the first is a braced span of the text or of its repaired form |
| Agent.ParseStagesInOrder | agent.py:199-229 | the stages try the candidates in order |
| Agent.FirstLoadedIff | agent.py:199-229 | parsing fails iff no candidate loads; otherwise it returns the first candidate that loads |
| Agent.TryStages | agent.py:199-229 | the stage sequence computes `ParseStages` |
| Agent.ParsePlanJson | agent.py:190-229 | the whole parser computes `PlanJson` |
| Normalize.Index | agent.py:242 | the id-keyed dictionary holds only entries of the list, and one for every non-empty id |
| Normalize.IndexKeys | agent.py:242 | a key is present iff it is a non-empty id carried by some entry |
| Normalize.IndexValues | agent.py:242 | re-indexing a dictionary's values gives the same dictionary |
| Normalize.ContextGroupsKeys | agent.py:244-255 | groups gain BTP always, and OnPrem, SecurityZone or PartnerZone exactly when the goal has their words |
| Normalize.ContextGroupsPrefix | agent.py:244-255 | existing groups are kept in place; only the four standard groups are appended |
| Normalize.ContextGroupsStable | agent.py:244-255 | adding contextual groups twice changes nothing |
| Normalize.NormalGroupIds | agent.py:242-257 | normalised groups have distinct non-empty ids, include BTP and every plan group id |
| Normalize.NormalGroupsOrigin | agent.py:242-257 | every normalised group is from the plan or a standard one |
| Normalize.NormalContextGroups | agent.py:248-255 | OnPrem, SecurityZone and PartnerZone are present iff the plan had them or the goal asks for them |
| Normalize.NormalGroupKey | agent.py:242-257 | a group id is present iff it was in the plan, is BTP, or the goal asks for it |
| Normalize.ContextNodesKeys | agent.py:262-277 | nodes gain EventMesh, APIM or Monitoring exactly when the goal has their words |
| Normalize.ContextNodesPrefix | agent.py:262-277 | existing nodes are kept; only the three standard nodes are appended |
| Normalize.ContextNodesStable | agent.py:262-277 | adding contextual nodes again changes nothing |
| Normalize.NormalNodeIds | agent.py:260-293 | normalised nodes have distinct non-empty ids and include every plan node id |
| Normalize.NormalNodeKey | agent.py:260-293 | a node id is present iff it was in the plan or the goal asks for it |
| Normalize.NormalContextNodes | agent.py:271-277 | EventMesh, APIM and Monitoring are present iff the plan had them or the goal asks for them |
| Normalize.ContextualOrigin | agent.py:260-277 | every node is from the plan or a standard one, and plan nodes keep their order |
| Normalize.LaneCorrectionsWellFormed | agent.py:280-286 | the correction table has distinct ids and non-empty groups |
| Normalize.CorrectionFor | agent.py:288-289 | the correction found is the table's entry for that id, and none means the table has none |
| Normalize.CorrectNodeTwice | agent.py:290-291 | correcting a node twice equals correcting it once |
| Normalize.CorrectedByTable | agent.py:288-291 | a listed node gets the table's lane and keeps a truthy group or takes the table's group; others are unchanged |
| Normalize.NormalCorrections | agent.py:279-293 | the normalised nodes are the contextual nodes corrected by the table |
| Normalize.CorrectedStable | agent.py:288-291 | applying the corrections twice equals once |
| Normalize.ApplyCorrections | agent.py:288-291 | the correction loop computes `Corrected` |
| Normalize.FirstTargetFrom | agent.py:305-309 | the first app or service node other than IAS, or none when there is none |
| Normalize.AddEdgeTo | agent.py:299-302 | `add_edge` appends an edge only when the triple is new and both ends exist, keeping the edge set in step |
| Normalize.LinkIas | agent.py:305-309 | the IAS loop computes `IasLinked` |
| Normalize.IasLinkedFacts | agent.py:305-309 | at most one edge is appended: IAS to the first app/service node, labelled OAuth2/SAML, and only when new |
| Normalize.IasLinkedStable | agent.py:305-309 | linking IAS again adds nothing |
| Normalize.NormalizeEdges | agent.py:295-311 | the plan's edges are kept as a prefix, and exactly the IAS edge may follow |
| Normalize.NormalizeFrame | agent.py:234-239 | the title is kept; lanes default to the five standard ones; legend defaults to true |
| Normalize.NormalizeIdempotent | agent.py:232-314 | normalising a normalised plan changes nothing |
| Normalize.GroupsOf | agent.py:242-257 | the group loop computes `NormalGroups` |
| Normalize.NodesOf | agent.py:260-293 | the node loop computes `NormalNodes` |
| Normalize.NormalizePlan | agent.py:232-314 | the whole function computes `Normalize` |
| Builder.FuzzyLane | mcp_client.py:486-491 | the first lane whose lower-case name contains, or is contained in, the node's lane; none iff no lane matches |
| Builder.BucketFacts | mcp_client.py:481-495 | no bucket iff there are no lanes; an exact name wins, then the first fuzzy match, then the first lane |
| Builder.LaneMembers | mcp_client.py:481-495 | a lane never gets more nodes than the plan has |
| Builder.MembersFacts | mcp_client.py:481-495 | a lane's members are exactly the plan nodes bucketed to it, in plan order |
| Builder.MemberBucket | mcp_client.py:481-495 | a member of a lane was bucketed to that lane |
| Builder.BucketsCover | mcp_client.py:481-495 | with lanes, every node lands in some lane |
| Builder.BucketsDisjoint | mcp_client.py:481-495 | no node lands in two lanes |
| Builder.NoLanesNoMembers | mcp_client.py:484-495 | with no lanes, no node is placed |
| Builder.GridCell | mcp_client.py:515-532 | node k is in column k mod 5 and row k div 5, rows 90 apart |
| Builder.GridInLane | mcp_client.py:520-532 | nodes lie right of the lane header and within the total width; up to ten nodes stay inside the 180-unit lane |
| Builder.GridNoOverlap | mcp_client.py:515-532 | two grid positions of one lane never overlap |
| Builder.LanesStacked | mcp_client.py:441-457 | a header pushes the first lane down by 60, and lane bands follow one another without overlap |
| Builder.LanePlacements | mcp_client.py:498-532 | the k-th member of lane i is placed at the grid point of k |
| Builder.PlacementsCover | mcp_client.py:481-532 | with lanes, every plan node gets a placement |
| Builder.PlacedNodes | mcp_client.py:498-513 | every placement is of a plan node |
| Builder.StyleKey | mcp_client.py:534-537 | a known node type keeps its style; an absent or unknown one falls back to app |
| Builder.LanesRunLog | mcp_client.py:456-475 | the lane loop sends one rectangle call per lane and one event per lane, and changes nothing else |
| Builder.LanesRunEvents | mcp_client.py:472-475 | lane i yields lane_created on success and an error event otherwise |
| Builder.LanesDoneFacts | mcp_client.py:440-478 | header and lane phases log exactly their calls and yield the two phase events around the lane events |
| Builder.NodesRunLog | mcp_client.py:513-550 | one add call per placement, in order, until a node without an id raises |
| Builder.NodesRunRecorded | mcp_client.py:546-550 | a node id gets a cell id iff a successful add recorded it, and keeps the last such reply's id |
| Builder.NodesRunNoStop | mcp_client.py:546-550 | when every reply succeeds and every node has an id, the node loop does not raise |
| Builder.EdgesRunFacts | mcp_client.py:562-592 | the edge loop sends exactly the gated calls and yields only edge_created events |
| Builder.EdgeCallsGate | mcp_client.py:567-584 | an edge call is made iff both ends have truthy cell ids, between those cells, with the edge's label |
| Builder.BuildNoLanes | mcp_client.py:481-495 | without lanes, no node is created and only header and edge calls are made |
| Builder.BuildRecordsEveryNode | mcp_client.py:481-550 | when the editor always succeeds and there are lanes, every plan node gets a cell id |
| Builder.DeleteCallsFacts | mcp_client.py:601-605 | one delete per listed dictionary cell with an id, and only deletes |
| Builder.ClearFacts | mcp_client.py:594-608 | the model is listed first; failure is returned unchanged, and success deletes each listed cell and empties the id map |
| Builder.DrawioClient.Send | mcp_client.py:83-117 | each call is logged and answered by the oracle |
| Builder.ArchitectureDiagramBuilder.constructor | mcp_client.py:398-400 | a builder starts with an empty cell-id map |
| Builder.ArchitectureDiagramBuilder.FuzzyMatch | mcp_client.py:486-491 | the search loop computes `FuzzyLane` |
| Builder.ArchitectureDiagramBuilder.BucketNodes | mcp_client.py:481-495 | the bucketing loop gives each lane exactly its `LaneMembers` |
| Builder.ArchitectureDiagramBuilder.AddToBucket | mcp_client.py:482-495 | one pass appends the node to the bucket `BucketOf` picks and leaves every other bucket and the key set as they were |
| Builder.ArchitectureDiagramBuilder.GridPosition | mcp_client.py:515-532 | the grid arithmetic gives `NodeX`/`NodeY` |
| Builder.ArchitectureDiagramBuilder.CreateLanes | mcp_client.py:453-475 | the lane loop's calls and events are those of `LanesRun` |
| Builder.ArchitectureDiagramBuilder.CreateLaneNodes | mcp_client.py:513-557 | one lane's node loop updates the client log and `cellIds` as `NodesRun` does |
| Builder.ArchitectureDiagramBuilder.CreateGridNode | mcp_client.py:513-557 | the `nodeIdx`-th member of a lane is created at its `LanePlacements` grid point, as one `NodeStep` |
| Builder.ArchitectureDiagramBuilder.CreateNode | mcp_client.py:536-557 | one rectangle is sent; on success the returned id is recorded and a node event emitted, and a node without an id raises, as `NodeStep` says |
| Builder.ArchitectureDiagramBuilder.CreateNodes | mcp_client.py:497-557 | the node phase is `NodesRun` over all placements |
| Builder.ArchitectureDiagramBuilder.CreateEdges | mcp_client.py:559-592 | the edge phase is `EdgesRun` |
| Builder.ArchitectureDiagramBuilder.BuildFromPlan | mcp_client.py:406-592 | the whole build's calls, cell ids, events and raise are those of `Build` |
| Builder.ArchitectureDiagramBuilder.ClearDiagram | mcp_client.py:594-608 | clearing's calls, cell ids and reply are those of `Clear` |
| Pipeline.AssembledEdgesStyled | plan_to_drawio.py:323-325 | every edge cell the compiler emits carries the blockThin edge style |
| Pipeline.StyledCellsFlagged | validate.py:62-67 | on such cells every edge is flagged for its arrow, and some structural issue exists |
| Pipeline.StructuralIssueRejects | validate.py:114 | any structural issue makes the report not ok |
| Pipeline.CompiledDiagramRejected | validate.py:59-67 | every compiled document has all its edges flagged and fails validation |
| Pipeline.ApplicationFillBetween | plan_to_drawio.py:41-43 | `#1a9898` is dark for the compiler and the renderer but not for the validator |
| Pipeline.WhiteIsLightFont | validate.py:95 | `#ffffff` is a light font for the validator |
| Pipeline.ApplicationStyle | plan_to_drawio.py:103-129 | an Application node is teal with a white font and is not a text cell |
| Pipeline.NodeStyleNotText | plan_to_drawio.py:129 | no compiled node style is a text style |
| Pipeline.TealWhiteFlagged | validate.py:81-96 | a teal vertex with a white font is a node flagged light-on-light |
| Pipeline.ApplicationNodeFlagged | validate.py:95-96 | every compiled Application node is flagged light-on-light |
| Pipeline.DarkTestsAgree | render.py:98-112 | on `#rrggbb` the compiler and renderer agree and validator-dark implies both; without the `#` the compiler and the validator add it back and answer as for the full colour, while the renderer never calls it dark |

## Left out

- I/O and transports: the HTTP client of `DrawioMCPClient`, `server.py`, health checks and the LLM calls. The editor is an oracle function `answer` from the call log to a reply. The model's answer is the verdict string `self_check` receives.
- XML parsing and JSON decoding (`ET.fromstring`, `json.loads`) are parameters: a `Parse` value (`Malformed` with a message, or `Parsed` with a document), and a function `loads` returning an optional value. The compiler produces the `Document.Diagram` cell list rather than its XML text, so escaping and `html.escape`/`html.unescape` are not modelled.
- The renderer's `_sanitize_mxgraphmodel` (render.py:33-60) regex de-duplication of attributes is not modelled, and the input is taken as already parsed. Its ampersand repair (render.py:131) is the same substitution as `Agent.FixAmpersands`.
- Validate.BBox: `Document.Geometry` holds each `mxGeometry` attribute already converted to a number (or None when missing or empty). The `float()` calls at validate.py:22-25 raise `ValueError` on non-numeric text such as `x="10px"`, and nothing catches it. That error, and the `inf`/`nan` values `float()` also accepts, are not modelled.
- Validate.ClassifyCells: because geometry arrives converted, classifying a vertex cannot fail. The source's `_bbox` call at validate.py:51 can raise on non-numeric geometry.
- Validate.ValidateXml: always returns a report. The source raises the uncaught `ValueError` of `_bbox` on non-numeric geometry, where the model still reports.
- Render.VertexOf: the `float()` conversions of `x`, `y`, `width` and `height` at render.py:160-163 are taken as already done. Their `ValueError` on non-numeric text is not modelled. Nothing catches it: the only `try` blocks are around the parse (render.py:133-135) and the opacity (render.py:284-289).
- Render.CollectStep: one cell step cannot fail, whereas the source's step raises on non-numeric geometry.
- Render.CollectCells: the collection loop cannot fail, for the same reason.
- Render.DrawioXmlToSvg: the geometry conversion error is not modelled. Only the font-size conversion goes through `toReal` and can end in `BadNumber`.
- Render.DrawioXmlToSvg: an `mxfile` root recurses into the parsed embedded `diagram` document rather than re-parsing its text. SVG output is a list of primitive records, not formatted text, so float formatting (`:.1f`), the header markup and `html.escape` are not captured.
- Render.DrawioXmlToSvg: the opacity `try`/`except` fallback and the `float(font_size)` conversion are supplied through the `toReal` parameter. A failing conversion of the font size is an error result.
- PlanToDrawio.IsDarkByLuminance: luminance is compared in scaled integers (2126r+7152g+722b against 1275000 for 0.5, and 1147500 for 0.45). This is exact, whereas Python's floating point can differ on a colour within rounding of the threshold.
- Render.IsDarkHex: the renderer's `_is_dark` is not guarded by the hex regex. `Render.HexPair` models what `int(…, 16)` accepts: a sign, surrounding whitespace and ASCII hex digits. Python's `int` also accepts non-ASCII decimal digits (such as Arabic-Indic ones); those are not modelled and read as a conversion error. The compiler and the validator do test the regex before converting.
- `Text.Lower` and `Text.Upper` map ASCII letters only; Unicode case mapping is not modelled. `Text.Strip` uses Python's full `str.isspace` set.
- Agent.RefBody: the `\d` of `#\d+;` at agent.py:178 matches any Unicode decimal digit in Python, but the model takes ASCII digits only. A reference such as `&#` followed by Arabic-Indic digits and `;` is kept by the source and escaped by the model.
- Plan entries that are not dictionaries, and field values of other JSON types, are outside the model. Every field is an optional string, and `legend` is an optional boolean. JSON `null` and a missing key are the same `None` in the model. So `"legend": null`, which `.get("legend", True)` keeps as `None` and the source reads as no legend, is treated by the model as absent: it defaults to true and the legend is drawn.
- Builder.NodesRunRecorded: a server result that is a list or scalar is recorded as "no id". The source stores that raw value, which a later truthiness test may accept.
- The builder's generator events are a list built by the run model, so interleaving with the consumer is not modelled. The style strings of `LAYER_STYLES`/`NODE_TYPE_STYLES` are named by node type, not spelled out.
- Normalize.NormalizePlan works on values: `normalize_plan` mutates node dicts that its shallow `plan.copy()` shares with the caller, so that aliasing is not modelled.
- The cell-id counter in `plan_to_mxgraph` (numeric ids for title and lane cells) is kept only as the cell order. The title cell carries its text, not its numeric id.
- `render.py`'s own `_strip_code_fences` (lines 20-30) is identical to `agent.py`'s and is modelled once as `Agent.StripCodeFences`.

## Findings

| source | as written | input that shows it | evidently intended | confidence | as-written member | corrected member |
|---|---|---|---|---|---|---|
| validate.py:53, 102 | text cells are stored without a `value`, so the goal-keyword checks see only node values | goal "events" with a text cell "Events" and no node mentioning events reports "Missing Events label or node" | the comment at validate.py:101 expects a label cell to satisfy the check, so text values should count | high (not executed) | Validate.GoalIssuesAsWrittenIgnoresTexts | Validate.GoalEventsIff |
| agent.py:344 | the verdict is accepted when it contains "compliant" and not "not" | the verdict "noncompliant" (or "Non-compliant: missing IAS") is accepted | a non-compliant verdict should be rejected | medium (not executed) | Agent.VerdictAcceptsNoncompliant | Agent.VerdictCorrectedRejectsNoncompliant |
