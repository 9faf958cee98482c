# CFM analysis engine in Dafny

A model of the analysis engine of a context–feature model (CFM) tool, with proofs about it.

The engine reads three inputs:

- a context tree file;
- a feature tree file;
- an activation mapping that says which contexts activate which features.

From the two trees and the mapping it infers the *connected pairs*: (context node, feature node) combinations that the mapping ties together. For each pair it then generates *mutants* of the model, each with the question a domain expert is asked about it.

The model follows the source's own structure.

- `CFMNode` (nodes.dfy) is a class.
  - Its fields that are never rewritten are `const`.
  - `depth` and `connectedPairs` are `var`.
- `CFMModel` (model.dfy) is a class.
  - It has the source's sets, node lists, dictionaries, pair list, mutant list and question list as fields.
  - Each of its methods does what the source method of the same name does, with the same loops.
- Each method is proved against a functional specification. The specifications are in their own modules:
  - tree lines: `Tree`;
  - the depth pass: `Depth`;
  - the mapping file and `flattenDict`: `Mapping`;
  - connected-pair inference: `Pairs`;
  - the mutation table: `Mutation`.
- Lemmas in those modules prove what the source promises about each part.
- Every abort of the source becomes an `Outcome` value that names the error. An abort is a `sys.exit` after a message, or an uncaught `IndexError`, `ValueError` or `RecursionError`.

Quirks of the code that the model keeps:

- **Tree lines.**
  - The constraint is checked case-insensitively but stored verbatim. Every later rule compares constraints case-sensitively.
  - A row's own node always hangs under the root name (`"Context"` or `"Feature"`).
  - Node lists are only ever appended to, so a name can occur several times.
- **Depth pass.**
  - A child name resolves to the *first* node of that name, across both trees. Unresolved names are skipped.
  - The driver loop uses two independent tests, so a node can be walked from depth 0 and then again from depth 1.
  - There is no cycle guard. The walk carries a `fuel` argument that plays the role of Python's recursion limit; running out is the `RecursionLimit` error.
- **Mapping.**
  - Names are checked against the names of *both* trees.
  - A later line replaces, rather than merges, the entry of a token seen before.
  - `flattenDict` keeps duplicate values.
- **Connected pairs.**
  - Rule 3's parent test holds for every row-defined context.
  - Re-resolution by name pairs *every* node of that name.
  - Records are deduplicated through a set.
- **Mutations.**
  - Each rule overwrites both constraints.
  - The seven guards exclude one another.
  - `MutationsFollowPlan` proves that, in effect, the generator applies one table. In that table, the constraint that a rule overwrites without naming it in its mutation text keeps its old value.

## Model

| member | source | states |
|---|---|---|
| Nodes.CFMNode.constructor | CFMnode.py:2-15 | name, type (`kind`), parent, constraint and children are stored as passed; depth defaults to 0; a node named "Context" starts connected to "Feature", one named "Feature" to "Context", any other to nothing |
| Strings.Split | CFMmodel.py:153 | `str.split` on one character always yields at least one piece |
| Strings.SplitPieces | CFMmodel.py:153-156 | no piece of a split contains the separator, and joining the pieces with it gives the string back |
| Strings.SplitJoin | CFMmodel.py:153-156 | splitting the join of separator-free pieces gives the pieces back, so split and join are inverse |
| Strings.Lower | CFMmodel.py:146 | lower-casing keeps the length of the string |
| Strings.LowerAt | CFMmodel.py:146 | lower-casing maps each character on its own, letters A to Z to a to z |
| Tree.NameSetMembers | CFMmodel.py:55-63 | the name set the tree files build holds exactly the names of the nodes they append |
| Tree.RowErrorChecks | CFMmodel.py:143-150 | a line is accepted exactly when it has at least three columns and a relationship word known up to case; an unknown word is reported as such whenever the constraint column exists |
| Tree.RowNodesShape | CFMmodel.py:152-157 | a valid line appends its parent node under the root with the split children, then one childless node per child under that parent, in order; all carry the side's type and the constraint as written |
| Tree.FileNodesLength | CFMmodel.py:141-157 | an accepted file appends at least one node per line; a rejected one fails on a missing column or an unknown relationship |
| Tree.FileNodesErrStops | CFMmodel.py:141-148 | once a line of a tree file is rejected, the file is rejected with that line's error whatever follows |
| Tree.FileNodesError | CFMmodel.py:141-150 | a tree file is rejected exactly when one of its lines is bad, and then with the error of the first bad line |
| Tree.FileNodesShape | CFMmodel.py:146-157 | every node of an accepted file carries the side's type and one of the four constraint words up to case; only nodes under the root have children; every line's parent is such a node with the line's split children |
| Depth.FirstNamed | CFMmodel.py:116-117 | the generator search finds the first node with the child's name, and finds nothing exactly when no node has that name |
| Depth.Walk | CFMmodel.py:113-119 | a completed `set_node_depth` call leaves one depth per node of the table |
| Depth.WalkKids | CFMmodel.py:115-119 | a completed child loop leaves one depth per node of the table |
| Depth.WalkFrame | CFMmodel.py:113-119 | `set_node_depth` from d changes only the nodes the walk reaches, and gives each a depth from d up to d + fuel - 1 |
| Depth.WalkRanked | CFMmodel.py:113-119 | on a table without cycles whose start ranks below the recursion limit, the walk completes and leaves its start at depth d |
| Depth.WalkChildDepth | CFMmodel.py:115-119 | the first node named after a child gets depth d + 1 unless a later sibling's walk reaches it again |
| Depth.ReachFirstNamed | CFMmodel.py:116-117 | a walk visits only its start and nodes that are the first of their name |
| Depth.PassFrame | CFMmodel.py:159-163 | the driver loop changes only the depths of the nodes its walks visit |
| Depth.PassReachStartOrFirst | CFMmodel.py:159-163 | the driver loop visits only start nodes and nodes that are first of their name |
| Depth.RepeatedNameKeepsDepth | CFMmodel.py:159-163 | a node that is not a start and not the first of its name (a repeated stub) keeps its depth |
| Depth.PassRanked | CFMmodel.py:159-163 | on a table without cycles whose ranks stay below the recursion limit, the driver loop never hits the limit |
| Depth.Pass | CFMmodel.py:159-163 | a completed driver loop leaves one depth per node of the table |
| Depth.RootUnderRootWalkedTwice | CFMmodel.py:159-163 | a node named "Context" whose parent is "Context" is walked from 0 and then from 1, and ends at depth 1 |
| Depth.SelfLoopNeverCompletes | CFMmodel.py:113-119 | with no cycle guard, a node with a child name that resolves back to itself never completes its walk, whatever the recursion limit |
| Depth.SelfLoopKids | CFMmodel.py:115-119 | the child loop of such a node, started at or before the child that resolves back to it, never completes either |
| Mapping.UpdateAllAt | CFMmodel.py:185-186 | after `dict.update`, a listed token maps to the whole list and any other key keeps its entry |
| Mapping.FirstUndefinedPart | CFMmodel.py:82-85 | nothing is reported exactly when every hyphen part is a declared name; a reported part is undeclared |
| Mapping.FirstUndefined | CFMmodel.py:76-85 | nothing is reported exactly when every part of every token is declared; a reported name is an undeclared part of a token |
| Mapping.UpdateAll | CFMmodel.py:185-186 | after `dict.update`, the keys are the old keys plus the listed tokens; a listed token maps to the whole list, any other key keeps its entry |
| Mapping.ApplyRowsErrStops | CFMmodel.py:177-186 | once a mapping line is rejected, the run ends with that line's error |
| Mapping.ApplyRow | CFMmodel.py:180-186 | one mapping line is accepted exactly when it has two sides whose parts are all declared, and then no key is lost from either dictionary |
| Mapping.ApplyRows | CFMmodel.py:177-186 | an accepted file loses no key of the dictionaries it started from |
| Mapping.ApplyRowsOk | CFMmodel.py:180-186 | a mapping file is accepted exactly when every line has two sides whose names are all declared |
| Mapping.LastRowWins | CFMmodel.py:185-186 | after an accepted file, a token maps to the other side of the last line that lists it; a token no line lists keeps its earlier entry |
| Mapping.AddPartsAt | CFMmodel.py:94-97 | the innermost loop appends the value under every hyphen part of the key and changes no other entry |
| Mapping.AddValuesAt | CFMmodel.py:93-97 | the middle loop puts every value of one key under every hyphen part of that key |
| Mapping.FlattenKeysAt | CFMmodel.py:92-97 | after the keys taken so far, s is a key exactly when it is a part of one with values, and v is under s exactly when v is a value of such a key |
| Mapping.FlattenKeysFlattens | CFMmodel.py:87-98 | whatever order the keys are visited in, the result is what `flattenDict` promises; keys with no values produce no entry |
| Pairs.UnionMember | CFMmodel.py:203-206 | a record is added by a loop exactly when one iteration of the loop adds it |
| Pairs.ConnectedPairsMember | CFMmodel.py:199-274 | a record is a connected pair exactly when the loop body emits it for some context, feature, child of the one and child of the other |
| Pairs.ConnectedPairsSound | CFMmodel.py:203-209 | every connected pair is emitted by the loop body for some context, feature and children of the two that are both flattened keys and are related by the mapping in at least one direction |
| Pairs.Rule2Records | CFMmodel.py:223-231 | rule 2 keeps the context parent's name, constraint and children, and names the feature child on the other side |
| Pairs.Rule34Records | CFMmodel.py:235-272 | rules 3 and 4 name, on each side, either the parent or its child |
| Pairs.StepNames | CFMmodel.py:207-272 | one pass of the loop body emits records only for interacting children, and each names, on each side, the parent or that child |
| Pairs.FeatureNamedRecords | CFMmodel.py:224-230 | the loop over the feature list keeps the context node and names the feature child |
| Pairs.ContextNamedRecords | CFMmodel.py:255-262 | the loop over the context list names the context child and keeps the feature node |
| Pairs.BothNamedRecords | CFMmodel.py:237-249 | the nested loops name the context child and the feature child |
| Pairs.StepRecords | CFMmodel.py:211-272 | every record the loop body emits, by any of the four rules, is the record of one context node and one feature node |
| Pairs.ConnectedPairsAreRecords | CFMmodel.py:203-276 | every connected pair carries the name, constraint and children of a real context node and a real feature node |
| Pairs.Rule1Exactly | CFMmodel.py:211-218 | rule 1 emits exactly when neither parent name is a flattened key or a root name, and what it emits is a connected pair |
| Pairs.EveryNamesake | CFMmodel.py:224-231 | re-resolution by name pairs the context with every feature node of that name, stub or full node |
| Mutation.ModifyConstraint | CFMmodel.py:100-108 | the copy has both constraints replaced and every other field equal |
| Mutation.KindsDiffer | CFMmodel.py:304-394 | the four constraint words differ, so the seven guards exclude one another |
| Mutation.FollowAltAlt | CFMmodel.py:303-310 | an Alternative/Alternative pair gets exactly the table's one change: both to Or, answer yes |
| Mutation.FollowAltOr | CFMmodel.py:312-329 | an Alternative/Or pair gets exactly the table's two changes |
| Mutation.FollowOrAlt | CFMmodel.py:331-347 | an Or/Alternative pair gets exactly the table's two changes |
| Mutation.FollowOrOr | CFMmodel.py:349-365 | an Or/Or pair gets exactly the table's two changes: both to Alternative (no), both to Optional (yes) |
| Mutation.FollowAltSingle | CFMmodel.py:367-374 | an Alternative context with an Optional or Mandatory feature gets the context relaxed to Or |
| Mutation.FollowOrSingle | CFMmodel.py:376-391 | an Or context with an Optional or Mandatory feature gets the context tightened to Alternative and relaxed to Optional |
| Mutation.FollowPlanAlternative | CFMmodel.py:303-374 | for a context constraint of Alternative, the mutants and answers appended are those of the table |
| Mutation.FollowPlanOr | CFMmodel.py:312-391 | for a context constraint of Or, the mutants and answers appended are those of the table |
| Mutation.MutationsFollowPlan | CFMmodel.py:303-401 | for every pair, the mutants and answers appended are exactly those of the per-pair table, in order |
| Mutation.MutationsAtMostTwo | CFMmodel.py:303-401 | the guards exclude one another, so one pass of the generator appends at most two mutations |
| Mutation.PlanChanges | CFMmodel.py:303-401 | every entry of the table rewrites at least one of the two constraints; the table has at most two entries, each answered yes or no |
| Mutation.MutantsDiffer | CFMmodel.py:294-401 | every mutant differs from its pair, and only in the two constraints |
| Mutation.AllMutantsFromPairs | CFMmodel.py:294-401 | every generated mutant is a mutant of one of the connected pairs: it differs from that pair, and only in its constraints |
| Model.CollectWithFeature | CFMmodel.py:224-231 | the loop over the features adds the record of the context with every feature node named after the child |
| Model.CollectWithContext | CFMmodel.py:255-262 | the loop over the contexts adds the record of every context node named after the child with the feature |
| Model.CollectBoth | CFMmodel.py:241-249 | the nested loops add the record of every pair of nodes named after the two children |
| Model.ApplyRules | CFMmodel.py:207-274 | the key filter, the interaction test and the four rules add exactly the records of the rule specification |
| Model.CollectChildren | CFMmodel.py:205-274 | the loops over the children of both nodes add what the rules give for every pair of children |
| Model.CollectPairs | CFMmodel.py:199-274 | the four nested loops build exactly the set of connected pairs |
| Model.MutateAll | CFMmodel.py:294-401 | the generator's loop produces the mutations of each pair in turn, mutant beside question |
| Model.ListOf | CFMmodel.py:276 | the list holds every record of the set, each once |
| Model.CFMModel.constructor | CFMmodel.py:16-47 | a new model starts with empty sets, lists and dictionaries |
| Model.CFMModel.AddToSet | CFMmodel.py:55-63 | the name joins its side's set and the set of all names; the other side's set is unchanged |
| Model.CFMModel.AddNode | CFMmodel.py:65-74 | the node is appended to its side's list and to the list of all nodes; the other side's list is unchanged |
| Model.CFMModel.AddStub | CFMmodel.py:155-157 | one child's name is recorded and a new childless node under the line's parent, with its constraint, is appended |
| Model.CFMModel.AddStubs | CFMmodel.py:155-157 | the child loop appends one new stub per child, in order, and records their names |
| Model.CFMModel.BuildRow | CFMmodel.py:152-157 | a valid line appends its parent node under the root, with the split children, then one stub per child |
| Model.CFMModel.ProcessRow | CFMmodel.py:143-157 | a line fails with the error of its first failing check; otherwise it appends exactly 1 + number-of-children new nodes, as the line specification says |
| Model.CFMModel.ProcessRows | CFMmodel.py:141-157 | the line loop appends the nodes of the whole file, or stops with the first bad line's error |
| Model.CFMModel.ReadTree | CFMmodel.py:141-157 | after the line loop the nodes are still distinct objects and the old depths are kept; the new nodes are at depth 0 |
| Model.CFMModel.FindNode | CFMmodel.py:116-117 | the search returns the first node with the name, or none when there is none |
| Model.CFMModel.SetDepth | CFMmodel.py:114 | the assignment changes the depth of that one node and no other, and no other field of any node |
| Model.CFMModel.SetNodeDepth | CFMmodel.py:113-119 | the recursive walk succeeds exactly when the walk specification does, and then leaves exactly its depths; it writes only depths, so every node's other fields, `connectedPairs` included, stay as they were |
| Model.CFMModel.SetUpDepths | CFMmodel.py:159-163 | the driver loop succeeds exactly when the pass specification does, and then leaves exactly its depths; it writes only depths |
| Model.CFMModel.ProcessCFFiles | CFMmodel.py:129-163 | a rejected file fails with its first bad line's error; an accepted one appends its nodes and names, keeps the nodes distinct, then runs the depth pass over all nodes from their old depths (new nodes at 0); of the existing nodes only the depths change |
| Model.CFMModel.CheckMappingDefinitions | CFMmodel.py:76-85 | the check fails exactly when some hyphen part is undeclared, and names the first such part and the side |
| Model.CFMModel.ProcessMappingRow | CFMmodel.py:180-186 | a bad line fails and leaves the dictionaries unchanged; a good line updates both as the line specification says |
| Model.CFMModel.ProcessMappingFile | CFMmodel.py:165-186 | the loop ends with the first bad line's error, or with the dictionaries of the whole file |
| Model.CFMModel.FlattenDict | CFMmodel.py:87-98 | the result is the fold over the keys in the order visited, and it is what `flattenDict` promises |
| Model.CFMModel.FlattenBoth | CFMmodel.py:200-201 | both dictionaries are flattened as `flattenDict` promises |
| Model.CFMModel.ConnectPairs | CFMmodel.py:199-276 | the list of connected pairs holds exactly the records the rules produce for the flattened dictionaries, each once |
| Model.CFMModel.GenerateConnectedPairs | CFMmodel.py:193-276 | the dictionaries are kept; the flattened ones are what `flattenDict` promises; the list holds exactly the connected pairs, without duplicates |
| Model.CFMModel.GenerateMutants | CFMmodel.py:294-401 | the mutants and questions of every pair are appended in lockstep, so the two lists stay the same length |
| Model.CFMModel.LoadTree | CFMmodel.py:28-32 | one tree file fails with its first bad line's error, or gets through (or hits the recursion limit) and appends its nodes; of the existing nodes only the depths change |
| Model.CFMModel.LoadTrees | CFMmodel.py:26-32 | contexts first, then features: the lists and sets hold the nodes and names of the two files |
| Model.CFMModel.GeneratePairsAndMutants | CFMmodel.py:39-48 | the dictionaries are flattened as `flattenDict` promises; the connected pairs of those flattened dictionaries, each listed once, then the mutants and questions of those pairs, from empty lists |
| Model.CFMModel.LoadRest | CFMmodel.py:34-48 | the mapping file fails with its first bad line's error, or fills the dictionaries and leads on to their flattening, the pairs (each listed once) and the mutants |
| Model.CFMModel.Load | CFMmodel.py:7-48 | `__init__` runs the stages in order and the first failing stage decides the error; when both tree files and the mapping file are accepted the run completes or hits the recursion limit; after a complete run the name sets, lists, dictionaries, flattened dictionaries, pairs (each listed once) and mutants are those of the specifications |

## Left out

- File reading, the default file paths and the splitting of lines are not modelled.
  - Tree lines arrive already split on '/'.
  - Mapping lines arrive already split around `-ACTIVATES-` and then on whitespace.
  - `line.strip()` is not modelled.
- The error messages and `sys.exit` become error outcomes; the text printed is not modelled.
- The `mutations.txt` audit log and its `count` are left out: they are file output, and `count` is not the number of mutants.
- `launchRecommendationSystem` is left out: it is interactive input, printing and sleeping.
- `printNode` and `printList` are left out: they are console output.
- `evalSet` is left out: records are a datatype, and the `str`/`eval` round trip is the identity on them.
- graphs.py, analysis.py and launcher.py are not part of this model: they are plotting, timing and the entry script.
- The updates of a node's `connectedPairs` inside `generateConnectedPairs` are commented out in the source, so nothing updates that field after construction.
- `str.lower` is modelled on the ASCII letters only. That is enough to test membership in the four ASCII constraint words.
- Python's recursion limit is the `fuel` argument of the depth pass. The model does not fix its value or count the interpreter's other stack frames.
- Set and dictionary iteration order is not modelled.
  - The contracts of `FlattenDict` and `ListOf` hold for every order.
  - The order of the values `FlattenDict` collects under a key, and the order of the connected-pair list, are left open.
- Model.CFMModel.ProcessRow: the state left behind by a failing line is not stated, because the source ends the process there.
- Model.CFMModel.ProcessRows: the state left behind by a failing line is not stated, because the source ends the process there.
- Model.CFMModel.ProcessCFFiles: the invariant that the nodes are distinct objects is stated only for an accepted file, because a rejected one ends the process.
- Model.CFMModel.ProcessCFFiles: the new nodes' initial connections are stated by `AddStub` and the node constructor, and the depth pass can only write depths, but the contract does not repeat them.
- Model.CFMModel.LoadTree: the depths are not restated; `ProcessCFFiles` states them.
- Model.CFMModel.LoadTrees: the depths are not restated; `ProcessCFFiles` states them.
- Model.CFMModel.Load: the depths are not restated; `ProcessCFFiles` states them.
- Model.CFMModel.Load: when a tree file's depth pass runs out of fuel, the contract names `RecursionLimit` as one of the possible errors rather than saying which stage hit it.
- Depth.SelfLoopNeverCompletes: only a node whose child name resolves to itself is proved never to complete; longer cycles are not, although the walk fails on them in the same way.
