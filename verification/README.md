# AutoCog: a model of its runtime, evaluator and compiler core

AutoCog turns structured prompts into automata that steer a language model. A prompt is a table of fields:
records, lists with a range, and leaves that hold a text, an enumeration value or a choice. The runtime unrolls
the table into a graph of concrete states, narrows it down by what the content already says, and compiles it into an
automaton of text, completion and choice actions. An evaluator plays the automaton against a model, growing a tree of
alternatives; one path of the tree is read back into a nested document, the frame.

The project follows that way in Dafny and proves what the pieces promise each other.

* **State graph** (`Schema`, `AbstractGraph`, `Traversal`, `Concretize`, `LinearGraph`, `CleanUp`, `Language`,
  `Instances`, `StateAutomaton`). Leaves, records and lists are one notion: a field is repeated between `MinReps` and
  `Reps` times, 0 for a leaf, 1 for a record, lo to hi for a list. A record is visited at count 0 and again at count 1.
  Unrolling records exactly the states of the longest run. The clean-up, a rewriting of mutable maps in four steps, is
  the elimination of silent steps: the paths of the final graph are the runs of the raw graph without the list states
  that are left by their exit edge, and these are exactly the instances of the table.
* **Action automaton** (`Documents`, `Ravelling`, `ContentRanges`, `Fta`, `FtaBuilder`, `DecisionWalks`,
  `ListPlaces`, `ContentLength`, `Instantiation`, `AutomatonRuns`, `BranchLabels`, `ContentRuns`, `RecordLists`,
  `StrayContent`). The builder is specified per state, not per call: whatever the order in which states are built, each
  action is what its state and the content demand. From this follow the runs of the automaton, that the label a branch
  offers is that of the state it leads to, and exactly when content fixes the length of a list.
* **Evaluator** (`Sampling`, `BeamSearch`, `Prepared`, `Evaluation`, `KeptCompletions`, `EvaluationTree`, `Evaluator`,
  `NodeTexts`, `TreeWalk`, `PromptRun`). One step of the queue is a function of the state, and the class is proved
  against it. A potential shows that evaluation ends, and invariants say what tree and queue mean: every token is charged
  after all tokens before it, along beams, choices and paths. The last module joins both ends: the automaton of a prompt
  suits the evaluator; it is said exactly when the path it ends with spells an instance, and what that path says at every
  branch and leaf.
* **Frame** (`Frame`). The writer of the frame and the reader of content are two halves of a lens.
* **Compiler** (`Expressions`, `ExpressionLaws`, `DefineEvaluator`, `DefineMeanings`, `InstantiationGraph`). The memoising
  evaluator of defines is compared with a semantics that has no memo and unfolds defines to a depth; laws of the operators
  and one equation per construct fix the values of that semantics. The worklist of instantiations is shown to be closed
  and to hold nothing without need.
* **SHA-256** (`Sha256`, `ShaConstants`, `LazyMasking`, `Sha256Stream`). `Sha256` writes down sections 5 and 6.2 of FIPS
  180-4, with constants that are proved to come from the first primes; the code on 64-bit words with few masks, and its
  streaming, are shown to agree with it.
* **Log queue** (`CircularQueue`, `BlockingQueue`, `ThreadPool`). Each operation holds the lock from its test to its
  change, so an execution of the threads is a sequence of such operations. The thread pool is a state machine over them.

Conventions: a concrete state is a `Tag`, the field and one index per level, without the leading 0 the code keeps for
the root. Code that fills containers in place is a method on a class or array; what it computes is a function with
lemmas of its own. A `hide` at the head of a proof only keeps definitions out of it.

Where comments in the code and the code differ, the model follows the code: `instantiate_rec` calls its memo
memoisation, but it is written only on return and protects from no cycle; that the recursion ends is due to the order
of the states (`FtaBuilder.Builder.InstantiateRec`).

Four properties one would expect hold only under a condition. Each comes with an input for which it fails and with the
exact condition:

* Content fixes the length of a list, and every run spells an instance, unless a run ends in front of a list below its
  lower bound that the content rules out (`DecisionWalks.RunsShort`). The check of content against the ranges does not
  see this where an array stands for a record: it ignores the array
  (libs/autocog/runtime/sta/instantiate.cxx:402-406), but the descent that skips states indexes it (471-481), and a state
  with no successor left ends the automaton (831). `StrayContent.ListMissed` is such an input;
  `DecisionWalks.AllWalksAreInstances` and `ContentRuns.RunsFollowContent` say exactly when it happens.
* A path collected from the finished tree is at an end of the automaton, unless it waits in front of a completion that has
  tokens to find but no beams: such a completion adds no child, so its parent counts as the end of a run
  (`TreeWalk.StarvedRun`, `TreeWalk.CollectedAreComplete`).
* The results a completion keeps are the first of its ranking, unless one within the width falls below the threshold and a
  later one does not: results are ranked by score, but pruned by probability. Without repetition penalty and diversity
  bonus both are the same (`KeptCompletions.KeptNotFirst`, `KeptCompletions.CompletionsKept`,
  `KeptCompletions.CompletionsKeepBest`).
* The thread pool shuts down, unless an overrunning post pushes a terminate message out, or there are workers but a queue
  for no items (`ThreadPool.OverrunHangsShutdown`, `ThreadPool.ZeroCapacityHangs`, `ThreadPool.ShutdownExact`).

## Model

| member | source | states |
|---|---|---|
| AbstractGraph.BuildAbstract | libs/autocog/compiler/stl/compile/generate.cxx:117-163 | one pass with a stack of levels leaves every field with its flow edge to its first child (or to itself for a leaf list) and its exit edge to its next sibling or its parent: the shape the runtime presupposes |
| AbstractGraph.AddField | libs/autocog/compiler/stl/compile/generate.cxx:122-153 | after each field the links that the fields read so far decide are settled and the stack is the path to the latest field |
| AbstractGraph.PopTo | libs/autocog/compiler/stl/compile/generate.cxx:138-146 | a finished level exits to the level below it |
| AbstractGraph.WireUp | libs/autocog/compiler/stl/compile/generate.cxx:155-160 | what is still open at the end exits to its parent |
| Schema.BuildParentMap | libs/autocog/runtime/sta/instantiate.cxx:336-348 | the scan for a field exactly one level up finds the nearest shallower field, and -1 at the top |
| Schema.ScanParent | libs/autocog/runtime/sta/walk.cxx:143-144 | the backward scan of the frame writer finds the same parent |
| Schema.ParentDepth | libs/autocog/runtime/sta/instantiate.cxx:336-348 | on preorder depths the nearest shallower field is exactly one level up, so both searches agree |
| Schema.BuildAncestors | libs/autocog/runtime/sta/instantiate.cxx:350-359 | following the parent map yields the chain from the top-level field down to the field |
| Schema.AncestorDepths | libs/autocog/runtime/sta/instantiate.cxx:350-359 | the chain has one field per level |
| Traversal.TraverseForward | libs/autocog/runtime/sta/instantiate.cxx:85-155 | along the longest run every flow edge leads to the next state and every exit edge strictly further |
| Traversal.TraverseDistinct | libs/autocog/runtime/sta/instantiate.cxx:85-97 | the longest run visits no state twice |
| Traversal.TraverseIndexOk | libs/autocog/runtime/sta/instantiate.cxx:85-155 | every visited index vector has one index per level, each but the last below the number of repetitions of its ancestor, the last at most that of the field |
| Concretize.StateGraph.BuildConcreteRec | libs/autocog/runtime/sta/instantiate.cxx:85-155 | the recursion ends, records the state asked for, changes no recorded state, and every state it adds belongs to the longest run and has exactly its two edges, both to recorded states |
| Concretize.FlowStep | libs/autocog/runtime/sta/instantiate.cxx:108-138 | the branches on range, kind and depth compute the flow edge and its index vector |
| Concretize.ExitStep | libs/autocog/runtime/sta/instantiate.cxx:108-152 | the branches on range, kind and depth compute the exit edge and its index vector |
| Concretize.ClosedHoldsAll | libs/autocog/runtime/sta/instantiate.cxx:128-151 | a set of recorded states that holds the root and is closed under both edges holds the whole longest run |
| LinearGraph.RawIsLinear | libs/autocog/runtime/sta/instantiate.cxx:85-155 | the recorded graph is laid out along one run: it has at most one exit per state besides the step on, and every exit leads forward |
| LinearGraph.EdgeCases | libs/autocog/runtime/sta/instantiate.cxx:108-120 | in terms of the count: flow below the upper bound, exit from the lower bound on, and a tail never exits to the root |
| CleanUp.MergeEdges | libs/autocog/runtime/sta/instantiate.cxx:178-190 | step 1 turns the flow edge, or else the exit edge, into the successor and keeps the exits it must |
| CleanUp.GetSequence | libs/autocog/runtime/sta/instantiate.cxx:161-172 | following first successors yields exactly the layout of the graph and ends |
| CleanUp.ReverseExits | libs/autocog/runtime/sta/instantiate.cxx:194-204 | the reversed exits name, for every sink, the states with an exit to it, each once |
| CleanUp.PruneTails | libs/autocog/runtime/sta/instantiate.cxx:206-256 | after the pass all tails are collected, the exits that led to a tail lead to what follows it, and each kept state before a run of tails is linked over it; the error branch and the root-exit branch are never reached |
| CleanUp.AssignExits | libs/autocog/runtime/sta/instantiate.cxx:258-268 | the kept states get back exactly their open exits, each redirected past the tails |
| CleanUp.TidyAfterStep3 | libs/autocog/runtime/sta/instantiate.cxx:206-268 | steps 2 and 3 together leave every kept state with its successor and its redirected exit |
| CleanUp.ExitClosure | libs/autocog/runtime/sta/instantiate.cxx:279-295 | the worklist computes the transitive closure of the exits as they stood after step 3, although earlier exits have been cleared |
| CleanUp.PropagateAt | libs/autocog/runtime/sta/instantiate.cxx:273-302 | one step of the walk adds the closure behind the successor of the predecessor and clears the exits |
| CleanUp.PropagateAlong | libs/autocog/runtime/sta/instantiate.cxx:270-303 | the walk gives every predecessor the whole closure; clearing on the way loses nothing |
| CleanUp.PostProcess | libs/autocog/runtime/sta/instantiate.cxx:174-310 | the clean-up as a whole erases exactly the list tails and leaves every other state with exactly the states that can follow it |
| Language.PathAcc | libs/autocog/runtime/sta/instantiate.cxx:174-310 | a path of the final graph is what a run of the raw graph emits when the optional list states it passes over are silent |
| Language.CleanUpPreservesRuns | libs/autocog/runtime/sta/instantiate.cxx:85-310 | meaning is preserved: the root paths of the final graph are exactly the runs of the raw graph with the list states left by their exit edge erased |
| Instances.ParseInstance | libs/autocog/runtime/sta/instantiate.cxx:85-310 | every accepted word is the spelling of an instance in which each list has between lo and hi elements |
| Instances.AcceptInstance | libs/autocog/runtime/sta/instantiate.cxx:85-310 | the spelling of every such instance is accepted |
| Instances.PathsAreInstances | libs/autocog/runtime/sta/instantiate.cxx:85-310 | the root paths of the final graph are exactly the spellings of the instances of the field table |
| Instances.AnyCounts | libs/autocog/runtime/sta/instantiate.cxx:108-120 | for any choice of element counts within the ranges, independently at every place, the final graph has a path through an instance with exactly those counts |
| StateAutomaton.ConcretizePrompt | libs/autocog/runtime/sta/instantiate.cxx:316-334 | unrolling and cleaning up yields the one final graph, whose root paths are the instances of the table |
| StateAutomaton.FinalForward | libs/autocog/runtime/sta/instantiate.cxx:174-310 | no successor dangles, every edge leads strictly forward, and only the last state has none; so the walks over the graph and the recursion of the builder end |
| Documents.ReadContent | libs/autocog/runtime/sta/instantiate.cxx:429-456 | the descent along the ancestors, as a function of document, field and indices |
| Documents.ShouldSkip | libs/autocog/runtime/sta/instantiate.cxx:458-484 | the descent that says whether the content ends a list before the state |
| ContentRanges.Check | libs/autocog/runtime/sta/instantiate.cxx:374-409 | the check of one field and what is below it returns the first field whose array is too short |
| ContentRanges.ValidateContentRanges | libs/autocog/runtime/sta/instantiate.cxx:363-427 | the validation names the first field whose array is too short, and passes exactly if every array the walk meets is long enough |
| ContentRanges.ShortFound | libs/autocog/runtime/sta/instantiate.cxx:374-409 | a short array is found exactly when there is one |
| ContentRanges.ShortIsFirst | libs/autocog/runtime/sta/instantiate.cxx:374-409 | the field named is the first whose array is too short, in the order of the fields and, within a list, of the items: everything before it is long enough |
| ContentRanges.ValidatedNeverShort | libs/autocog/runtime/sta/instantiate.cxx:363-427 | content that passes and has no stray container never ends a list below its lower bound |
| Ravelling.RavelChoices | libs/autocog/runtime/sta/instantiate.cxx:573-610 | the alternatives a choice takes from the content: the path is followed name by name, into arrays and through them, and what it leads to is numbered or rendered |
| Ravelling.RavelIs | libs/autocog/runtime/sta/instantiate.cxx:578-596 | what is found is exactly what the path leads to |
| Ravelling.RavelAppend | libs/autocog/runtime/sta/instantiate.cxx:578-596 | what several documents give comes in their order, one after the other |
| Ravelling.RavelOn | libs/autocog/runtime/sta/instantiate.cxx:578-596 | a longer path goes on from what its front leads to |
| Ravelling.RavelName | libs/autocog/runtime/sta/instantiate.cxx:584-594 | one name gives, from one document, the elements of an array member in order, any other member once, through an array the member of each element that has one, in order, and else nothing; with the two lemmas before, this settles how many documents a path gives and in which order |
| Ravelling.AlternativesAre | libs/autocog/runtime/sta/instantiate.cxx:599-608 | there is one alternative per document the path leads to, in that order: its number counted from the first, or its own text |
| Ravelling.NoAlternatives | libs/autocog/runtime/sta/instantiate.cxx:599-608 | there is no result exactly if texts are asked for and the path leads to an array or an object |
| FtaBuilder.Builder.CreateField | libs/autocog/runtime/sta/instantiate.cxx:755-810 | no action for a record; a text for a given scalar; an error for a given list or object, or for alternatives that are none; else a completion or a choice with the parameters of the field |
| FtaBuilder.NoBody | libs/autocog/runtime/sta/instantiate.cxx:755-810 | a leaf has no action exactly if the content holds a list or object for it, or it is a choice of texts without a value and its path leads to a list or object |
| FtaBuilder.Builder.CreateFieldEndl | libs/autocog/runtime/sta/instantiate.cxx:632-656 | the field action, or an empty connector for a record, then the line end, linked once per choice |
| FtaBuilder.Builder.FilterValid | libs/autocog/runtime/sta/instantiate.cxx:823-830 | the successors the content does not end a list before, in order |
| FtaBuilder.Builder.FindFilled | libs/autocog/runtime/sta/instantiate.cxx:874-882 | the first successor the content gives a value for |
| FtaBuilder.Builder.OpenBranch | libs/autocog/runtime/sta/instantiate.cxx:836-910 | the actions a state starts with: a description if the only field that can follow has one and was not described before, then the branch, a fixed label or a choice of labels; which state each label stands for is said by BranchLabels.BranchOffers |
| BranchLabels.BranchOffers | libs/autocog/runtime/sta/instantiate.cxx:836-916 | at every place of a branch, the label offered and the successor taken belong to one state, which is among those the run may choose from; every such state has a place |
| FtaBuilder.Builder.Follow | libs/autocog/runtime/sta/instantiate.cxx:862-868 | following one successor links it to the branch once, builds on and links the line end to the entry of the successor |
| FtaBuilder.Builder.FollowAll | libs/autocog/runtime/sta/instantiate.cxx:910-916 | the branch ends up with one successor per choice, in order |
| FtaBuilder.Builder.InstantiateRec | libs/autocog/runtime/sta/instantiate.cxx:814-922 | the recursion ends by the rank of the state alone; afterwards the state is in the memo, every new action is as its state demands, old actions are untouched and uids stay distinct; it fails only if some state that can be reached holds no scalar |
| FtaBuilder.StepForward | libs/autocog/runtime/sta/instantiate.cxx:823-866 | the states chosen after a state come later in the longest run |
| Instantiation.Instantiate | libs/autocog/runtime/sta/instantiate.cxx:929-994 | it fails on ranges exactly when an array is too short, naming the first; it fails on a value only if the open choices reach a leaf whose value, or one of whose alternatives, is no scalar; else the header and all actions are as the states demand |
| DecisionWalks.AheadBlocked | libs/autocog/runtime/sta/instantiate.cxx:458-484 | from a place the content still reaches, all states that may follow are ruled out exactly if one comes, over lists that may be passed over, to a list below its lower bound that the content has ended |
| DecisionWalks.NoDeadEnd | libs/autocog/runtime/sta/instantiate.cxx:823-831 | a state that is reached has no way on exactly if it is the last one or sits in front of a list that runs short |
| DecisionWalks.CompleteWalksAreInstances | libs/autocog/runtime/sta/instantiate.cxx:814-922 | a complete walk through the choices the content leaves spells an instance of the table exactly if it has not ended in front of a list that runs short |
| DecisionWalks.AllWalksAreInstances | libs/autocog/runtime/sta/instantiate.cxx:814-922 | all complete walks spell instances exactly if no state that can be reached sits in front of a list that runs short |
| DecisionWalks.ConformingWalksAreInstances | libs/autocog/runtime/sta/instantiate.cxx:363-427 | content that passes the check and has no stray container meets that condition, so every complete walk spells an instance |
| ContentLength.ElemAction | libs/autocog/runtime/sta/instantiate.cxx:755-781 | the action of a given element is its text |
| ListPlaces.ListStarts | libs/autocog/runtime/sta/instantiate.cxx:85-155 | the elements of a leaf list below given indices are one block of the longest run; between the state around the list and the block is what comes before the list in there, and nowhere else is anything of it |
| ListPlaces.ExitPosBefore | libs/autocog/runtime/sta/instantiate.cxx:128-151 | no exit from within a stretch of the run passes over its end; from what is before a list, that is its first element |
| ListPlaces.TopLevel | libs/autocog/runtime/sta/instantiate.cxx:85-155 | around a top-level list is the root, so every run enters it; before it are exactly the earlier fields |
| ContentLength.Descends | libs/autocog/runtime/sta/instantiate.cxx:458-484 | where the reading descent finds something, the skipping descent goes the same way |
| ListPlaces.ExitApart | libs/autocog/runtime/sta/instantiate.cxx:128-151 | an exit that leads inside a visit comes from inside it |
| ContentLength.EnterList | libs/autocog/runtime/sta/instantiate.cxx:870-882 | a run that gets from inside what is around a given list to the list or behind it enters it at the first element |
| ContentLength.NotEntered | libs/autocog/runtime/sta/instantiate.cxx:814-922 | a walk that does not enter what is around a list visits nothing of the list |
| ContentLength.NextElem | libs/autocog/runtime/sta/instantiate.cxx:870-895 | after a given element comes the next one |
| ContentLength.WalkRises | libs/autocog/runtime/sta/instantiate.cxx:814-922 | along a walk the ranks rise, so no state is met twice |
| ContentLength.ContentFixesLength | libs/autocog/runtime/sta/instantiate.cxx:458-484 | at any depth: a walk that enters what is around a list that the content gives n scalars there, lo <= n <= hi, and gets to the list or behind it, visits exactly its n elements, in order and with nothing in between |
| ContentLength.NotPassed | libs/autocog/runtime/sta/instantiate.cxx:870-895 | a choice made within a stretch of the run does not pass over the end of the stretch, if the content has that |
| ContentLength.ItemContent | libs/autocog/runtime/sta/instantiate.cxx:429-484 | of a list the content gives n items, leaves or records, exactly the elements from n on are skipped, and reading element k below n finds item k |
| RecordLists.ItemsVisited | libs/autocog/runtime/sta/instantiate.cxx:458-484 | for lists of records as well: a walk that enters what is around a list opens no element beyond the items of the content, and opens each item, unless one up to there is null or the walk ends in front of it |
| RecordLists.ItemsFixLength | libs/autocog/runtime/sta/instantiate.cxx:458-484 | a complete walk that enters what is around a list of n items, none of them null, and does not end in front of a list that runs short, opens exactly the elements below n |
| AutomatonRuns.RunsAreWalks | libs/autocog/runtime/sta/instantiate.cxx:814-994 | the runs of the automaton from the header visit exactly the complete walks through the states |
| AutomatonRuns.BuiltUnblocked | libs/autocog/runtime/sta/instantiate.cxx:51-53 | an automaton that was built has no walk to a leaf whose content is not a scalar, so the error is raised exactly when there is one |
| ContentRuns.EndsBeyond | libs/autocog/runtime/sta/instantiate.cxx:814-922 | a complete walk that enters what is around a leaf list gets to the list or behind it unless it ends in front of a list that runs short |
| ContentRuns.FieldActionsPlay | libs/autocog/runtime/sta/instantiate.cxx:632-656 | the actions a run has for a leaf list are those made for the states of it the run visits, one each, in order |
| ContentRuns.RunGivesList | libs/autocog/runtime/sta/instantiate.cxx:872-895 | a run from the header to its end has exactly one action per element given for a list, in order, each a text carrying that element, exactly if it enters what is around the list and does not end before the list in front of one that runs short |
| ContentRuns.RunsFollowContent | libs/autocog/runtime/sta/instantiate.cxx:872-895 | content fixes the length of a list, at any depth, on all runs that enter what is around it, whatever the model chooses, exactly if no state before the list that is reached in there sits in front of a list that runs short |
| RecordLists.RunRepeats | libs/autocog/runtime/sta/instantiate.cxx:814-994 | so n objects given for a list of records mean n records in every run of the automaton that enters what is around the list and does not end in front of one that runs short |
| ContentRuns.EarlyEnd | libs/autocog/runtime/sta/instantiate.cxx:831 | a run that ends in there before the list has no action for it |
| StrayContent.Accepted | libs/autocog/runtime/sta/instantiate.cxx:402-406 | a table of a record with a list of one leaf, a list tags of one leaf and a last leaf is well-formed, and the content {"r": [], "tags": ["a"]} passes the check: an array given for a record is not looked into |
| StrayContent.RulesOut | libs/autocog/runtime/sta/instantiate.cxx:471-481 | yet the descent for the list inside the record runs into that empty array and rules the list out |
| StrayContent.WalkStops | libs/autocog/runtime/sta/instantiate.cxx:823-831 | the walk enters the record and is at its end there; it spells no instance |
| StrayContent.ListMissed | libs/autocog/runtime/sta/instantiate.cxx:814-922 | every automaton for this input has a run to an end without any action for tags, although the content gives its one element |
| StrayContent.InstantiateStray | libs/autocog/runtime/sta/instantiate.cxx:929-994 | the whole instantiation accepts the input and returns an automaton with such a run |
| PromptRun.SuccessorsKnown | libs/autocog/backend/llama/prepared.cxx:27-34 | in a built automaton every successor names an action, so preparing reports none as unknown |
| PromptRun.LevelDrops | libs/autocog/runtime/sta/instantiate.cxx:814-922 | every step of the automaton goes down a level, so it has no cycle |
| PromptRun.Arities | libs/autocog/backend/llama/evaluation-choice.cxx:25-28 | text actions have at most one successor, completions exactly one, choices one per alternative, given that there are any |
| PromptRun.AutomatonFits | libs/autocog/backend/llama/evaluation.cxx:45-59 | the prepared automaton of a prompt meets everything the evaluator presupposes |
| PromptRun.EvaluatedRun | libs/autocog/runtime/sta/walk.cxx:38-50 | the path an evaluation ends with is the beginning of a run of the automaton, and the whole run exactly if no completion without beams stopped it; then its states spell an instance exactly if it does not end in front of a list that runs short |
| PromptRun.AlongCompletes | libs/autocog/runtime/sta/instantiate.cxx:814-994 | however far a path has come, the automaton goes on from there to an end |
| PromptRun.LabelVisited | libs/autocog/runtime/sta/instantiate.cxx:836-916 | what a path of the tree says at a branch is the label of the state whose field it goes on with |
| PromptRun.FieldSaid | libs/autocog/runtime/sta/instantiate.cxx:755-810 | what a path says at a leaf is the text the content gives, or one of the alternatives, or a completion: not longer than its length, shorter only before the stop text, without the stop text in it, all tokens sampled and of the vocabulary |
| PromptRun.FixtureSaid | libs/autocog/runtime/sta/instantiate.cxx:836-868 | what a path says at the start, for a description, at a line end and for a record is the header, the description of the field, the separator and nothing |
| PromptRun.SearchSettings | libs/autocog/runtime/sta/instantiate.cxx:783-910 | every completion is searched by the settings for text of its field, every choice by those for its category, the enum named next and the branches having their own |
| PromptRun.NodeMatches | libs/autocog/backend/llama/evaluation.cxx:23-26 | the nodes of a path carry the field and indices of their actions |
| PromptRun.FrameHoldsRun | libs/autocog/runtime/sta/walk.cxx:207-232 | reading the frame back, every leaf the path visited, even one that a completion stopped, has the value made of its text and every other address nothing |
| Prepared.IndexUids | libs/autocog/backend/llama/prepared.cxx:16-18 | the uid map: of equal uids the first counts |
| Prepared.Prepare | libs/autocog/backend/llama/prepared.cxx:13-53 | preparing succeeds exactly if every successor and vocabulary is known, and then every successor is resolved, every text tokenized and every mask built; otherwise it reports the first that is not |
| Sampling.ModelExists | libs/autocog/backend/llama/model.cxx:390-403 | what is asked of a model can be had: a sort by insertion gives any model with non-negative probabilities the ranking |
| Sampling.CostsCharge | libs/autocog/backend/llama/model.cxx:337-350 | every token is charged after the context and the tokens before it: one token after the context alone, and of a text in two parts the second after the first |
| Sampling.ChargedLikely | libs/autocog/backend/llama/evaluation-choice.cxx:38-40 | the probability computed from the costs of a text is that of what it costs to say the text token by token, at its number of tokens |
| Sampling.BuildVocabMask | libs/autocog/backend/llama/model.cxx:456-501 | the mask, built by combining arrays in place, is the set the vocabulary expression denotes |
| Sampling.SetAlgebra | libs/autocog/backend/llama/model.cxx:456-501 | what vocabulary expressions denote follows the operations of sets, complements being taken in the vocabulary |
| Sampling.EvalTopkTokens | libs/autocog/backend/llama/model.cxx:356-438 | the chosen tokens are the first of the candidates sorted by cost; there is an error exactly when no token is admitted |
| Sampling.TopKBest | libs/autocog/backend/llama/model.cxx:390-403 | the choice is admitted, distinct, as large as asked for if possible, and no admitted token left out is cheaper |
| BeamSearch.ExpandBeam | libs/autocog/backend/llama/evaluation-completion.cxx:77-110 | one new beam per chosen token, appended to the beams |
| BeamSearch.NextBeamsAre | libs/autocog/backend/llama/evaluation-completion.cxx:77-110 | a round carries on exactly the stopped beams and, for each active one, that beam with each of its best next tokens |
| BeamSearch.ExtendOk | libs/autocog/backend/llama/evaluation-completion.cxx:91-108 | an active beam that takes one more token keeps what is true of beams: its text without the stop sequence cut off is the old text and the token, it is stopped exactly if that text ends with the stop sequence, and then just this is cut off; the token was among the best after all before it, is charged after all before it, and the penalty is updated on all that stands there then |
| BeamSearch.PruneBeams | libs/autocog/backend/llama/evaluation-completion.cxx:112-124 | the loop over the sorted beams keeps all stopped ones and the first of the active ones |
| BeamSearch.PruneKeepsBest | libs/autocog/backend/llama/evaluation-completion.cxx:112-124 | every stopped beam is kept, at most the limit of active ones, one is dropped only when the limit is reached, and none kept has a lower score than one dropped |
| BeamSearch.ActiveSurvives | libs/autocog/backend/llama/evaluation-completion.cxx:139-147 | a round that does not stop every beam leaves one, so the error is never raised |
| BeamSearch.BeamSearchStep | libs/autocog/backend/llama/evaluation-completion.cxx:126-148 | one round; it fails exactly if a beam has to be expanded and no token is admitted |
| BeamSearch.RunSearch | libs/autocog/backend/llama/evaluation-completion.cxx:160-170 | the whole search, with the beams sorted by score; what the beams hold, what they were charged and what the score is made of is said by CompletionOk |
| BeamSearch.StepOk | libs/autocog/backend/llama/evaluation-completion.cxx:77-148 | a round keeps what is true of the beams: active ones hold one token per round and no stop sequence, stopped ones exactly the text before its first occurrence, all tokens are admitted, and each token generated, the stop sequence included, was charged after all tokens before it |
| BeamSearch.BeamLikely | libs/autocog/backend/llama/evaluation-completion.cxx:23-24 | the probability of a beam is that of all it generated, stop sequence included, and its score is that probability and the bonus over the penalty after that text |
| BeamSearch.CompletionOk | libs/autocog/backend/llama/evaluation-completion.cxx:150-170 | every result of a completion honours stop sequence, length and vocabulary, each of its tokens was charged after all before it, and its probability and score are those of what it generated |
| BeamSearch.CompletedSome | libs/autocog/backend/llama/evaluation-completion.cxx:160-178 | a completion has no result exactly if it is to have tokens but no beams |
| EvaluatorClass.EvalSequences | libs/autocog/backend/llama/model.cxx:320-353 | one cost per token, each after the context and the tokens before it, as Sampling.CostsCharge fixes it; the tree keeps it by NodeTexts.EvaluationTells |
| EvaluatorClass.RankChoices | libs/autocog/backend/llama/evaluation-choice.cxx:33-44 | the choices are evaluated one by one after the same context |
| Evaluation.ChoicesKeepBest | libs/autocog/backend/llama/evaluation-choice.cxx:46-58 | every choice becomes one child, as probable as its text is likely after the tokens before it, and pruned exactly from the width on or if it is not the first and below the threshold; the kept ones are a prefix of the ranking by probability, at most width of them, none less probable than a pruned one, and one at least if the width allows any |
| KeptCompletions.CompletionsKept | libs/autocog/backend/llama/evaluation-completion.cxx:163-178 | the results of a completion are ranked by score but pruned by probability, both those of the text generated: the first is kept if the width allows any, none from the width on; the kept ones are the first of the ranking exactly if none within the width that falls below the threshold is followed there by one that does not, so always if the width is at most two or the threshold rules nothing out |
| KeptCompletions.CompletionsKeepBest | libs/autocog/backend/llama/evaluation-completion.cxx:21-24 | without repetition penalty and diversity bonus the score is the probability, so as for choices the kept results are the first of the ranking by probability, at most width of them, none less probable than a pruned one |
| KeptCompletions.KeptNotFirst | libs/autocog/backend/llama/evaluation-completion.cxx:163-178 | for every threshold above zero and width from three on there is a completion with a penalty whose second result is pruned and whose third is kept |
| Evaluation.StepDecreases | libs/autocog/backend/llama/evaluation.cxx:45-59 | termination: the item taken outweighs the at most max(1, width) items on lower levels that it is replaced by, so the potential of the queue decreases |
| Evaluation.PopLater | libs/autocog/backend/llama/evaluation.cxx:49-57 | popping the item after evaluating it, as the code does, is the same as popping it first |
| EvaluatorClass.Evaluator.constructor | libs/autocog/backend/llama/evaluation.cxx:36-43 | a fresh evaluation: nothing started, nothing queued |
| EvaluatorClass.Evaluator.Grow | libs/autocog/backend/llama/evaluation.cxx:12-29 | the new node is the last child of its parent, with totals counted from the root |
| EvaluatorClass.Evaluator.Enqueue | libs/autocog/backend/llama/evaluation.cxx:81-87 | the item put on the queue has the tokens of its path |
| EvaluatorClass.Evaluator.EvaluateText | libs/autocog/backend/llama/evaluation-text.cxx:10-28 | a text adds one child, evaluated only on request; with several successors it fails, but only after the child has grown |
| EvaluatorClass.Evaluator.EvaluateCompletion | libs/autocog/backend/llama/evaluation-completion.cxx:150-180 | a completion adds one child per beam in the order of the scores; those beyond the width or below the threshold are pruned; it fails exactly if tokens are asked for and none is admitted, and then adds nothing |
| EvaluatorClass.Evaluator.EvaluateChoice | libs/autocog/backend/llama/evaluation-choice.cxx:21-60 | a choice adds one child per alternative in the order of the probabilities; those beyond the width or below the threshold are pruned; it fails exactly if there are no alternatives or not one successor for each, and then adds nothing |
| EvaluatorClass.Evaluator.Advance | libs/autocog/backend/llama/evaluation.cxx:45-59 | wherever it stops, the state it is heading for is the same: pausing at any budgets and going on ends in the tree of one uninterrupted run; it stops only with an empty queue or a spent budget, and no item meets an error |
| EvaluationTree.InitialInv | libs/autocog/backend/llama/evaluation.cxx:65-79 | the invariant holds of the root and its first item |
| EvaluationTree.StepInv | libs/autocog/backend/llama/evaluation.cxx:45-59 | every step keeps it: a queued item carries the tokens from the root to its parent node, the child of a choice goes on with the successor of the alternative taken, lengths and costs are path sums, pruned nodes have no children, and every open leaf is queued, at an end of the automaton, or in front of a completion without beams |
| EvaluationTree.FinishInv | libs/autocog/backend/llama/evaluation.cxx:45-59 | it holds when the queue has run empty |
| NodeTexts.ChildYields | libs/autocog/backend/llama/evaluation.cxx:12-29 | evaluating an action adds what it yields after the tokens before it: a text its own, without costs unless it is to be evaluated; a choice one of its alternatives and a completion one of its results, every token charged after all before it |
| NodeTexts.StepTells | libs/autocog/backend/llama/evaluation.cxx:45-59 | every step of the queue keeps that each node carries what its action yields after the tokens of the path above it |
| NodeTexts.EvaluationTells | libs/autocog/backend/llama/evaluation.cxx:45-59 | so in the finished tree the i-th cost of a node made by a choice or an evaluated text is that of its i-th token after the path above it and the tokens before |
| EvaluationTree.TotalsAlong | libs/autocog/backend/llama/evaluation.cxx:18-21 | length and cost of a node are those of the path to it |
| EvaluationTree.ChainUnique | libs/autocog/backend/llama/evaluation.cxx:27-28 | no node has two paths from the root |
| EvaluationTree.ChainExists | libs/autocog/backend/llama/evaluation.cxx:27-28 | every node has one |
| TreeWalk.PathCollector.Collect | libs/autocog/runtime/sta/walk.cxx:38-50 | the recursion that pushes and pops appends the paths to all leaves that were not pruned, and restores its stack |
| TreeWalk.CollectedAreComplete | libs/autocog/runtime/sta/walk.cxx:38-50 | once the queue is empty the collected paths are exactly those from the root to an open leaf; the action of such a leaf has a successor exactly if the leaf waits in front of a completion with tokens to find but no beams, and has none if the automaton has no such completion |
| TreeWalk.StarvedRun | libs/autocog/backend/llama/evaluation-completion.cxx:133-144 | it happens: with a text, a completion without beams and a closing text the path collected as a finished run is the opening text alone |
| TreeWalk.ScoreOfPath | libs/autocog/runtime/sta/walk.cxx:54-58 | the score of a path, read off its last node, is zero without tokens, else the probability of the sum of all costs along the path at the number of all tokens along it |
| TreeWalk.BestPath | libs/autocog/runtime/sta/walk.cxx:200-205 | the first path among those with the highest score |
| TreeWalk.SelectPath | libs/autocog/runtime/sta/walk.cxx:192-205 | of all finished paths the chosen one has the best score, counted from the costs and tokens along the path; it is at its end in the sense of CollectedAreComplete; there is none only if no run is left |
| TreeWalk.SomeRunSurvives | libs/autocog/backend/llama/evaluation-choice.cxx:53-56 | if every width is at least one, some path is collected; its last action has a successor exactly if a completion without beams stopped it |
| Frame.BuildSteps | libs/autocog/runtime/sta/walk.cxx:130-147 | the chain built child first is the way down, one index per level |
| Frame.SetFieldValue | libs/autocog/runtime/sta/walk.cxx:111-174 | writing a value changes the document exactly at the end of the way to the field, growing lists as needed |
| Frame.WriteThenRead | libs/autocog/runtime/sta/walk.cxx:111-174 | the reader of the content finds what the writer of the frame wrote, whatever was there before |
| Frame.WriteBack | libs/autocog/runtime/sta/walk.cxx:111-174 | writing back what stands there changes nothing |
| Frame.WriteOver | libs/autocog/runtime/sta/walk.cxx:111-174 | of two writes to the same place only the last counts |
| Frame.WriteKeeps | libs/autocog/runtime/sta/walk.cxx:149-173 | a write elsewhere leaves what was there |
| Frame.WriteLeavesBlank | libs/autocog/runtime/sta/walk.cxx:149-173 | a write elsewhere creates nothing but padding |
| Frame.WritesCommute | libs/autocog/runtime/sta/walk.cxx:149-173 | writes to different places commute, whatever the document |
| Frame.PartBelow | libs/autocog/runtime/sta/walk.cxx:130-147 | the ways to different leaf addresses part, given distinct sibling names and an index per level |
| Frame.FrameReadsBack | libs/autocog/runtime/sta/walk.cxx:207-232 | after any sequence of writes each address yields the last value written to it, and nothing if none was |
| Frame.WriteOrderIrrelevant | libs/autocog/runtime/sta/walk.cxx:207-232 | the order of writes to different addresses does not matter |
| Frame.TrimNewlines | libs/autocog/runtime/sta/walk.cxx:214-215 | the text is cut at the end only, what is cut off are line ends, and none is left at its end |
| Frame.FrameOf | libs/autocog/runtime/sta/walk.cxx:207-234 | the frame is the result of one write per node that has a field, in order |
| Expressions.ScanPiece | libs/autocog/compiler/stl/evaluate.cxx:127-206 | one piece of a format string: doubled braces, a name between braces, or a character, and the malformed cases |
| ExpressionLaws.IntSums | libs/autocog/compiler/stl/eval-utils.txx:33-34 | on integers subtraction undoes addition, 0 is neutral, one more on the right is one more in the sum, and negation is subtraction from 0 |
| ExpressionLaws.FloatSums | libs/autocog/compiler/stl/eval-utils.txx:47-48 | the same on floats |
| ExpressionLaws.StringSums | libs/autocog/compiler/stl/eval-utils.txx:13-17 | adding strings appends the second to the first |
| ExpressionLaws.IntProducts | libs/autocog/compiler/stl/eval-utils.txx:35 | 1 is neutral, and multiplication distributes over addition |
| ExpressionLaws.FloatProducts | libs/autocog/compiler/stl/eval-utils.txx:49 | the same on floats |
| ExpressionLaws.Quotients | libs/autocog/compiler/stl/eval-utils.txx:36-53 | division fails exactly at 0, its result is a float also on integers, and multiplication undoes it |
| ExpressionLaws.Remainders | libs/autocog/compiler/stl/eval-utils.txx:20-29 | the remainder fails exactly at 0 and has the sign of the dividend; with a multiple of the divisor it makes up the dividend |
| ExpressionLaws.OneRemainder | libs/autocog/compiler/stl/eval-utils.txx:20-29 | there is only one such number |
| ExpressionLaws.Mixed | libs/autocog/compiler/stl/eval-utils.txx:43-49 | an integer beside a float counts as a float |
| ExpressionLaws.Comparisons | libs/autocog/compiler/stl/eval-utils.txx:104-140 | the orders agree with each other and with equality |
| ExpressionLaws.NumberOrder | libs/autocog/compiler/stl/eval-utils.txx:125-133 | a number is less than another exactly if the difference is negative |
| ExpressionLaws.Equality | libs/autocog/compiler/stl/eval-utils.txx:104-121 | equality is that of values of one type, or of numbers as reals, and never holds between other types |
| ExpressionLaws.StringOrder | libs/autocog/compiler/stl/eval-utils.txx:135-140 | strings are ordered by the first difference, or the shorter first if it begins the longer |
| ExpressionLaws.TruthTables | libs/autocog/compiler/stl/evaluate.cxx:49-95 | the truth tables of and, or and not |
| ExpressionLaws.Failures | libs/autocog/compiler/stl/eval-utils.txx:19-93 | for which types each operator has a value |
| ExpressionLaws.FormatSpelled | libs/autocog/compiler/stl/evaluate.cxx:116-210 | a format string is read as the one sequence of pieces it is the writing of, braces doubled and names between braces |
| DefineMeanings.LookupNested | libs/autocog/compiler/stl/evaluate.cxx:257-270 | a name is looked up in its scope, then in the one around it, and no further |
| DefineMeanings.LookupTop | libs/autocog/compiler/stl/evaluate.cxx:257-270 | in a scope within no other it is looked up just there |
| DefineMeanings.LiteralValue | libs/autocog/compiler/stl/evaluate.cxx:212-238 | a literal has its own value and no other; what is meant for vocabularies only has none |
| DefineMeanings.ParenValue | libs/autocog/compiler/stl/evaluate.cxx:232-233 | parentheses change nothing |
| DefineMeanings.NameValue | libs/autocog/compiler/stl/evaluate.cxx:244-315 | a name that is given has the value given, any other that of the initializer of the define or argument it stands for; a vocabulary is no value |
| DefineMeanings.UnaryValue | libs/autocog/compiler/stl/evaluate.cxx:18-47 | a unary expression has the value of its operator on that of its operand, and none otherwise |
| DefineMeanings.BinaryValue | libs/autocog/compiler/stl/evaluate.cxx:49-95 | a binary expression has the value of its operator on those of both operands, and none otherwise |
| DefineMeanings.ConditionalValue | libs/autocog/compiler/stl/evaluate.cxx:97-114 | a conditional has the value of the branch that its condition, a truth value, selects |
| DefineMeanings.FormatValue | libs/autocog/compiler/stl/evaluate.cxx:116-210 | a format string has a value exactly if it is properly written and every name in it has one: characters and rendered values, in order |
| DefineMeanings.Rendered | libs/autocog/compiler/stl/evaluate.cxx:116-210 | how a value is rendered within a format string: a text as it is, truth values by name, numbers by the library |
| DefineEvaluator.SemMono | libs/autocog/compiler/stl/evaluate.cxx:212-315 | in the semantics without a memo, unfolding defines deeper changes no value |
| DefineEvaluator.SelfNeedless | libs/autocog/compiler/stl/evaluate.cxx:297-299 | a name whose initializer cannot do without it has no value at all |
| DefineEvaluator.Memoise | libs/autocog/compiler/stl/evaluate.cxx:297-299 | storing the value of a name keeps every memo entry in agreement with the semantics |
| DefineEvaluator.GiveUp | libs/autocog/compiler/stl/evaluate.cxx:297-313 | the mark a failed evaluation leaves stands for a name that has no value |
| DefineEvaluator.Evaluator.EvaluateUnary | libs/autocog/compiler/stl/evaluate.cxx:18-47 | operand first, then the operator; failures are those of the semantics |
| DefineEvaluator.Evaluator.EvaluateBinary | libs/autocog/compiler/stl/evaluate.cxx:49-95 | both operands are evaluated, the logical operators included; what the operators yield is said by the laws of ExpressionLaws |
| DefineEvaluator.Evaluator.EvaluateConditional | libs/autocog/compiler/stl/evaluate.cxx:97-114 | only the branch the condition selects is evaluated |
| DefineEvaluator.Evaluator.EvaluateFormat | libs/autocog/compiler/stl/evaluate.cxx:116-210 | the names in a format string are looked up as the scan meets them |
| DefineEvaluator.Evaluator.RetrieveValue | libs/autocog/compiler/stl/evaluate.cxx:244-315 | it ends even on cyclic definitions, by the names not yet in the memo and the size of the expression; it returns the value of the name, or fails only if the name has none without the defines under evaluation |
| DefineEvaluator.Evaluator.EvaluateExpression | libs/autocog/compiler/stl/evaluate.cxx:317-323 | evaluation succeeds exactly when the semantics without a memo gives a value, returns that value, and leaves a memo that agrees with it; what that value is, the lemmas of DefineMeanings say construct by construct |
| InstantiationGraph.Builder.Resolve | libs/autocog/compiler/stl/instantiation-graph.cxx:31-99 | it ends on cyclic chains and restores its stack on every return; it resolves exactly the symbols whose chain ends at a declaration, with the arguments fixed on the way, and reports a chain exactly if it never ends |
| InstantiationGraph.ResolvesOnce | libs/autocog/compiler/stl/instantiation-graph.cxx:31-99 | a symbol has one resolution |
| InstantiationGraph.DeclaredOrPython | libs/autocog/compiler/stl/instantiation-graph.cxx:228-254 | no symbol both resolves to a declaration and is a Python symbol, and one on a chain that never ends is neither |
| InstantiationGraph.LoopNeverEnds | libs/autocog/compiler/stl/instantiation-graph.cxx:36-45 | a chain that comes back to a symbol under resolution never ends |
| InstantiationGraph.Builder.IsPythonSymbol | libs/autocog/compiler/stl/instantiation-graph.cxx:228-254 | true exactly for symbols whose chain ends at a Python symbol, also with cyclic chains |
| InstantiationGraph.MissingAre | libs/autocog/compiler/stl/instantiation-graph.cxx:107-163 | an argument is missing exactly if it has no default, is neither in the context of its file nor fixed on the way nor given by the caller, and no earlier argument of its name has a default |
| InstantiationGraph.ChainFixes | libs/autocog/compiler/stl/instantiation-graph.cxx:59-92 | a symbol resolves to the end of its chain, and an argument fixed on the way has the value of the first hop, from the name used, that fixes it; the config of an import is evaluated in its own file, that of an alias in the file it leads to |
| InstantiationGraph.WhatIsGiven | libs/autocog/compiler/stl/instantiation-graph.cxx:101-129 | what the caller gives overrides what is fixed on the way, and this the context of the file |
| InstantiationGraph.ArgumentsAre | libs/autocog/compiler/stl/instantiation-graph.cxx:183-204 | of a context exactly the values of the arguments are kept |
| InstantiationGraph.SharedNode | libs/autocog/compiler/stl/instantiation-graph.cxx:276-285 | two uses of a declaration are one node if their contexts agree on its arguments, whatever else differs; the node has its file and declaration, and the name mangled from its own and the arguments it keeps |
| InstantiationGraph.Builder.Instantiate | libs/autocog/compiler/stl/instantiation-graph.cxx:107-204 | the node of a declaration: its context made from what it is given, its arguments, and the name mangled from these; each argument that is missing is reported by its name, in order, and only these are |
| InstantiationGraph.Builder.Link | libs/autocog/compiler/stl/instantiation-graph.cxx:280-303 | the edge is recorded, the node only if it is new and there is room, else the limit is reported |
| InstantiationGraph.Builder.ProcessReference | libs/autocog/compiler/stl/instantiation-graph.cxx:260-304 | a reference ends in an edge to its node, is external, or is reported |
| InstantiationGraph.Builder.ProcessNode | libs/autocog/compiler/stl/instantiation-graph.cxx:310-388 | afterwards every reference of the node has been followed |
| InstantiationGraph.Builder.FindEntry | libs/autocog/compiler/stl/instantiation-graph.cxx:398-412 | the first file that has the entry point wins, file 0 is tried again at the end |
| InstantiationGraph.Builder.Seed | libs/autocog/compiler/stl/instantiation-graph.cxx:396-429 | every entry point has a node of what it names, or is reported; seeding ignores the limit |
| InstantiationGraph.Builder.Build | libs/autocog/compiler/stl/instantiation-graph.cxx:394-442 | the worklist ends, each name is queued once, nodes number at most the larger of limit and entry points; every reference of every node was followed, every node is needed, every edge is that of a reference and leads to a node unless the limit was hit, and every error has its reason: a missing argument is that of an entry point or of a reference of a node |
| LazyMasking.Temp1Fits | vendors/headers/picosha2.h:118-119 | as integers: no addition of the five words of temp1 overflows the 64-bit word |
| LazyMasking.Temp2Fits | vendors/headers/picosha2.h:120 | nor that of temp2 |
| LazyMasking.ScheduleFits | vendors/headers/picosha2.h:103-106 | nor those of the four words of the schedule |
| LazyMasking.ScheduleAgrees | vendors/headers/picosha2.h:103-106 | one masked step of the schedule is that of section 6.2.2 of FIPS 180-4 |
| LazyMasking.RoundAgrees | vendors/headers/picosha2.h:117-128 | a round that masks only two variables is the round of section 6.2.2 of FIPS 180-4, and its sums d + temp1 and temp1 + temp2 are those of the integers |
| LazyMasking.BuildSchedule | vendors/headers/picosha2.h:95-106 | the array holds the message schedule, every entry below 2 to the 32nd |
| LazyMasking.RunRounds | vendors/headers/picosha2.h:108-128 | the loop computes all 64 rounds, the working variables staying below 2 to the 32nd |
| LazyMasking.AddBack | vendors/headers/picosha2.h:129-139 | adding, which does not overflow, and then masking is addition modulo 2 to the 32nd |
| LazyMasking.Hash256Block | vendors/headers/picosha2.h:92-140 | the compression function of FIPS 180-4, in place |
| Sha256.BlocksAppend | vendors/headers/picosha2.h:194-203 | whole blocks can be hashed apart |
| ShaConstants.FirstPrimes | vendors/headers/picosha2.h:50-61 | the table of section 4.2.2 of FIPS 180-4 is that of the first 64 primes: it holds exactly the primes up to 311, in order |
| ShaConstants.RoundConstants | vendors/headers/picosha2.h:50-61 | each round constant is the first 32 bits of the fractional part of the cube root of its prime |
| ShaConstants.InitialValue | vendors/headers/picosha2.h:63-65 | each word of the initial hash value is the first 32 bits of the fractional part of the square root of its prime |
| Sha256Stream.MoreBytes | vendors/headers/picosha2.h:196-202 | cutting the waiting bytes and the new ones into blocks is the same as hashing all at once |
| Sha256Stream.Hasher.AddToDataLength | vendors/headers/picosha2.h:246-258 | the carry through the four digits is addition modulo 2 to the 64th |
| Sha256Stream.Hasher.Process | vendors/headers/picosha2.h:194-203 | after any chunk the hash value covers the whole blocks of all bytes so far, and the rest waits |
| Sha256Stream.Hasher.WriteDataBitLength | vendors/headers/picosha2.h:259-279 | the eight bytes are 8 times the byte length modulo 2 to the 64th, most significant first |
| Sha256Stream.Hasher.Finish | vendors/headers/picosha2.h:205-233 | one block or two, as the rest demands, complete the padding of section 5.1.1 of FIPS 180-4 |
| Sha256Stream.OneBlock | vendors/headers/picosha2.h:227-232 | a short rest, the mark, zeros and the length make up the last block |
| Sha256Stream.TwoBlocks | vendors/headers/picosha2.h:223-232 | a long rest takes two blocks |
| Sha256Stream.Hasher.GetHashBytes | vendors/headers/picosha2.h:236-243 | the bytes of the hash value, as far as the output has room |
| Sha256Stream.HashAll | vendors/headers/picosha2.h:300-307 | the random-access path computes SHA-256 |
| Sha256Stream.HashInput | vendors/headers/picosha2.h:310-328 | the input-iterator path computes the same, for any buffer size |
| Sha256Stream.HashPieces | vendors/headers/picosha2.h:182-283 | any way of cutting the message into pieces gives the same hash |
| CircularQueue.Queue.Disabled | vendors/headers/spdlog/details/circular_q.h:26 | a queue without slots stays empty |
| CircularQueue.Queue.constructor | vendors/headers/spdlog/details/circular_q.h:28-31 | an empty queue for that many items |
| CircularQueue.Queue.PushBack | vendors/headers/spdlog/details/circular_q.h:46-57 | the newest items that fit remain, in order; one that is dropped is counted |
| CircularQueue.Queue.PopFront | vendors/headers/spdlog/details/circular_q.h:83 | the oldest item goes |
| CircularQueue.Queue.Size | vendors/headers/spdlog/details/circular_q.h:66-72 | the number of items stored |
| CircularQueue.Queue.At | vendors/headers/spdlog/details/circular_q.h:76-79 | the i-th oldest item |
| CircularQueue.Queue.Empty | vendors/headers/spdlog/details/circular_q.h:85 | true exactly if nothing is stored |
| CircularQueue.Queue.Full | vendors/headers/spdlog/details/circular_q.h:87-93 | true exactly if the capacity is used up, never for a disabled queue |
| CircularQueue.RingAppend | vendors/headers/spdlog/details/circular_q.h:48-49 | writing the slot behind the last item appends |
| CircularQueue.RingDrop | vendors/headers/spdlog/details/circular_q.h:83 | moving the head on drops the oldest item |
| BlockingQueue.Mpmc.Enqueue | vendors/headers/spdlog/details/mpmc_blocking_q.h:31-38 | it waits for room and never overruns; items pushed are those dequeued, stored and lost |
| BlockingQueue.Mpmc.EnqueueNowait | vendors/headers/spdlog/details/mpmc_blocking_q.h:41-47 | a full queue loses its oldest item, which is counted |
| BlockingQueue.Mpmc.EnqueueIfHaveRoom | vendors/headers/spdlog/details/mpmc_blocking_q.h:49-64 | a full queue refuses the new item, which is counted |
| BlockingQueue.Mpmc.Dequeue | vendors/headers/spdlog/details/mpmc_blocking_q.h:68-90 | the oldest item; what was dequeued came out in the order it was pushed |
| BlockingQueue.HistoryOver | vendors/headers/spdlog/details/mpmc_blocking_q.h:41-47 | dropping the oldest item keeps the account of all items |
| BlockingQueue.HistoryTake | vendors/headers/spdlog/details/mpmc_blocking_q.h:82-90 | taking the oldest item keeps it too |
| ThreadPool.PushOverIsRing | vendors/headers/spdlog/details/thread_pool-inl.h:83-84 | the overrunning post of the pool is the push of the ring buffer |
| ThreadPool.StepInv | vendors/headers/spdlog/details/thread_pool-inl.h:79-122 | every step of every thread that pushes no terminate message out keeps the account of all messages and stops |
| ThreadPool.JoinedMeansDone | vendors/headers/spdlog/details/thread_pool-inl.h:44-55 | in every run after which the destructor has joined, each worker took exactly one terminate message and every message before one was processed or overrun |
| ThreadPool.ShutdownProgress | vendors/headers/spdlog/details/thread_pool-inl.h:44-55 | until then, if the queue can hold a message, some thread of the pool can go on or the workers can be joined |
| ThreadPool.ShutdownEnds | vendors/headers/spdlog/details/thread_pool-inl.h:91-122 | each such step leaves less to do |
| ThreadPool.OpenDropsNone | vendors/headers/spdlog/details/thread_pool-inl.h:79-89 | before shutdown no post can push a terminate message out |
| ThreadPool.DropDooms | vendors/headers/spdlog/details/thread_pool-inl.h:83-84 | a post that does so leaves fewer terminate messages than workers |
| ThreadPool.NeverJoins | vendors/headers/spdlog/details/thread_pool-inl.h:44-55 | from then on the destructor never joins, whatever the threads do |
| ThreadPool.ZeroCapacityHangs | vendors/headers/spdlog/details/thread_pool-inl.h:15-24 | a pool with workers and a queue for no items, which the constructor accepts, never joins either |
| ThreadPool.CanShutDown | vendors/headers/spdlog/details/thread_pool-inl.h:44-55 | a pool that can hold a message and has pushed out no terminate message comes to join by steps of its own threads alone |
| ThreadPool.ShutdownExact | vendors/headers/spdlog/details/thread_pool-inl.h:44-55 | of every run of a pool that has come to shut down: its threads can bring it to join exactly if the queue can hold a message, or there are no workers, and no step has pushed a terminate message out; and only then can any steps at all |
| ThreadPool.OverrunHangsShutdown | vendors/headers/spdlog/details/thread_pool-inl.h:79-122 | a concrete run in which it happens |

## Left out

- Prompts whose last top-level field is a list: `WellFormed` excludes them, as the code means to (libs/autocog/runtime/sta/instantiate.cxx:229-233). The compiler puts the field `next` at the end of every prompt with flows (libs/autocog/compiler/stl/compile/generate.cxx:520-537).
- Tags and uids as strings: they are structured values here, so two tags that become equal once `@` is replaced by `_` (libs/autocog/runtime/sta/instantiate.cxx:748-751) are outside the model.
- Text assembly: header, labels, descriptions, the text of an index and the resolution of policies are parameters (`Config`); a scalar carries the text it is rendered as.
- Frame.SetFieldValue: documents are values, so the writer rebuilds what the code changes through a cursor; the selection of a content value by the text of a `select` field is a parameter of `Frame.FrameOf`.
- TreeWalk.SelectPath: only the metric "best" exists; the error for other names is not modelled.
- Floating point: probabilities and scores are reals; exponential, logarithm, repetition penalty and diversity bonus are arbitrary functions. A sort is an arbitrary ranking by its key, so nothing depends on the order of equal keys.
- The language model: tokenizer, pattern matcher, costs and sampling restriction are functions of the tokens so far. The random stand-in model, saved contexts and the cache of masks are left out.
- EvaluatorClass.Evaluator.Advance: it takes automata whose actions are all playable (`Playable`), as built ones are by `PromptRun.AutomatonFits`. The errors of single actions are those of `EvaluateText`, `EvaluateCompletion` and `EvaluateChoice`; what becomes of an evaluation after one is not modelled.
- EvaluationTree.StepInv: the root is not evaluated, so for it no alternative is said to have been taken (`Leads`).
- Diagnostics: messages and locations of errors are left out, also those of the compiler's expression errors; an evaluation that fails is `None`.
- DefineEvaluator.Evaluator.EvaluateExpression: integers are unbounded and floats are reals; bitwise operators and the text of numbers are parameters. Resolving vocabularies and its cache (libs/autocog/compiler/stl/evaluate.cxx:325-470) are left out.
- InstantiationGraph.Builder.Instantiate: evaluating configs, the defaults and defines of a declaration on top of what it is given, and the references of a body, and mangling a name are parameters (`World`); exceptions during these are left out.
- Counters of type size_t, and the word type of the hash on platforms where it has 32 bits: counters are unbounded, the word has 64 bits.
- Sha256Stream.Hasher.AddToDataLength: shifts and masks on the 16-bit digits are written as division and remainder. The hexadecimal form of a hash is left out.
- BlockingQueue.Mpmc.Enqueue: a wait that is not over is a call that changes nothing; wake-ups, timeouts and spurious wake-ups of the condition variables are not modelled.
- ThreadPool.ShutdownExact: it says that the workers can come to the join, not that a scheduler brings them there while others go on posting.
- ThreadPool.StepInv: handlers are atomic steps that always return; start and stop callbacks and exceptions thrown by sinks are left out.
- Moving a queue (vendors/headers/spdlog/details/circular_q.h:101-112), and all other parts of spdlog.
- The STL lexer, parser, assembly and the rest of code generation, the JSON and Python codecs, the bindings, the Python layer and the command line.
