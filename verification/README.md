# PupPal Zurich recommendation engine in Dafny

PupPal Zurich recommends dog breeds to a person in two ways: by how similar the
person is to Zurich dog owners of each breed (age, gender and home district), and by
a weighted match of the person's answers against twelve trait ratings per breed, with
an exact-match decision tree as a third path.  This project models the engine behind
those recommendations and proves what each part computes:

- `Graphs` / `WeightedGraphs` (graphs.py): the owner/breed graph as `map<T, set<T>>`
  and the weighted graph as `map<T, map<T, real>>`, with their representation
  invariant (no self-loops, symmetric adjacency, equal weights both ways).
- `Districts` (districts.py): a district with its lazily created closeness cache.
- `UserData` (userdata.py): owner profiles and the similarity `compare`.
- `Demographics` (user_demographics.py): smoothed mean similarity per breed and the
  repeated-maximum top-K extraction.
- `DecisionMatrix` (user_decision_matrix.py): the `DogBreed` record, the twelve-term
  weighted score and the stable descending sort truncated to five.
- `Preference` (user_preference.py): the same ranking with a caller-chosen limit, the
  translation of raw answers into signed weights, and the padded min-max rescaling.
- `DecisionTree` (breeds_decision_tree.py): the trie over answer sequences, its
  lookup, and the pure part of building it from the rows of the trait file.
- `Errors` and `Sums` are shared support: Python exceptions become
  `Result<T> = Ok(value) | Err(error)` with the exception's class as the error, and sums
  over Python sets are a ghost `SetSum` that does not depend on the set's order.

Floating point is modelled as exact `real`; integers are unbounded as in Python.
Mutating methods become functions from the old value to the new one; a method that
raises leaves nothing behind, which matches the source, where every raise happens
before any mutation.

Where the docstrings lead a reader to expect something else, the model follows the code:

- `normalize_preference_recommendations` is documented as normalising into 0.0 to 1.0
  (user_preference.py:84); the code maps the best score to 0.75 and the worst to 0.5, and
  divides by zero when every score is equal.
- `get_demographic_recommendations` is documented as returning scored breeds
  (user_demographics.py:9-11); when `limit` exceeds the number of breeds the code raises
  KeyError (the last round looks up the key `''`) instead of returning fewer results.
- The smoothing constants are +7 over +10, as in user_demographics.py:18; the inline copy
  of the ranker in main.py is not modelled.
- `User` documents genders as 'F', 'M' or 'O' (userdata.py:15-16) and every caller
  upper-cases the input, but `compare` tests the neutral gender as lower-case `'o'`, so a
  neutral owner is not treated as compatible with every gender; `UserData.Compare`, and
  through it the demographic ranker, keeps that rule (see Findings for the corrected
  variant).
- `compare` is documented as scoring from 0.0 to 1.0 (userdata.py:35); it does not clamp
  but asserts, and its assertions are proved to hold whenever the ages differ by at most
  100 and the district cache is in [0, 1].

## Model

| member | source | states |
|---|---|---|
| Graphs.Empty | graphs.py:44-46 | The new graph contains no item and satisfies the representation invariant. |
| Graphs.AddVertex | graphs.py:48-55 | The item becomes a vertex; an item already present leaves every vertex and neighbour set as it was; a new vertex has no neighbours; the representation invariant is preserved. |
| Graphs.AddVertexIdempotent | graphs.py:48-55 | Adding a vertex twice gives the same graph as adding it once. |
| Graphs.Adjacent | graphs.py:81-96 | Adjacency is false, never an error, when either item is not a vertex. |
| Graphs.AddEdge | graphs.py:57-79 | Succeeds exactly when both endpoints are vertices, otherwise ValueError; afterwards both directions are adjacent, the vertex set is the same and no other pair's adjacency changes; the representation invariant is preserved. |
| Graphs.GetNeighbours | graphs.py:98-116 | ValueError exactly for an unknown item; otherwise the result holds exactly the vertices adjacent to the item. |
| Graphs.Contains | graphs.py:123-126 | An item is contained exactly when its neighbours can be asked for without error. |
| Graphs.GetAllNodes | graphs.py:118-121 | The node set is exactly the set of contained items. |
| Graphs.AdjacentSymmetric | graphs.py:16-18 | Under the representation invariant adjacency is symmetric. |
| WeightedGraphs.Skeleton | graphs.py:140-142 | Forgetting the weights gives a graph on the same vertices that satisfies the unweighted invariant whenever the weighted one holds. |
| WeightedGraphs.AddVertex | graphs.py:167-174 | Same vertex change as the unweighted `add_vertex` on the underlying graph; existing weights unchanged; invariant preserved. |
| WeightedGraphs.GetWeight | graphs.py:193-210 | The stored weight for an adjacent pair and 0 for a non-adjacent pair of vertices. |
| WeightedGraphs.AddEdge | graphs.py:176-191 | ValueError exactly for an unknown endpoint; otherwise the weight is `w` in both directions, weights at other vertices are unchanged, the underlying graph changes exactly as `Graph.add_edge` would change it, and the invariant is preserved. |
| WeightedGraphs.LinkSkeleton | graphs.py:185-189 | Storing the weight both ways changes the underlying graph exactly as `Graph.add_edge` does. |
| WeightedGraphs.LinkValid | graphs.py:185-189 | Storing the weight both ways keeps the weighted representation invariant. |
| WeightedGraphs.AddEdgeOverwrites | graphs.py:185-188 | Re-adding an edge keeps only the latest weight. |
| WeightedGraphs.AverageWeight | graphs.py:212-229 | ValueError for an unknown item, ZeroDivisionError for an item without edges, otherwise the sum of the incident weights (in any order) over the degree. |
| WeightedGraphs.AverageOfEqualWeights | graphs.py:217-225 | When every incident edge has weight c the average is c, as in the doctest with two edges of weight 3. |
| Sums.SetSumRemove | graphs.py:227 | Summing a set's values gives the same total whichever element is taken out first, so the set's iteration order does not matter. |
| Districts.Unresolved | districts.py:21-23 | A freshly built district has no distances: it is well formed and every other district is unknown to it. |
| Districts.GetDistance | districts.py:28-39 | 1.0 for the district itself without consulting the cache; for another district the value cached for it, exactly when the cache is set and holds it, RuntimeError otherwise; values of a well-formed cache lie in [0, 1]. |
| Districts.SetDistance | districts.py:41-46 | The district keeps its identity; looking up the given district now yields the stored distance; every other lookup answers as before (also on first use, when the map is created); a value in [0, 1] keeps the cache well formed. |
| UserData.AgeScore | userdata.py:41-43 | The score is at most 1, equals 1 exactly for equal ages, and the source's assertion that it is non-negative holds exactly when the ages differ by at most 100. |
| UserData.GenderScoreAsWritten | userdata.py:44-45 | The gender score as written is 0.5 or 1.0, and 1.0 exactly for equal genders or an owner whose gender is the lower-case "o". |
| UserData.NeutralGenderIgnoredAsWritten | userdata.py:44-45 | For valid genders the as-written score is 1.0 only for equal genders, so an "O" owner compared with an "F" user gets 0.5. |
| UserData.GenderScore | userdata.py:44-45 | The corrected gender score is 0.5 or 1.0, and 1.0 exactly for equal genders or a neutral "O" owner. |
| UserData.NeutralGenderCompatible | userdata.py:44-45 | A neutral owner scores 1.0 against every gender; for any other valid owner the corrected and as-written scores agree. |
| UserData.CompareWith | userdata.py:41-50 | For a gender score of 0.5 or 1.0: ages more than 100 apart fail the age assertion; a missing district distance raises RuntimeError; with a well-formed cache the call succeeds exactly when neither happens; a successful score is 0.4 age + 0.2 gender + 0.4 district, lies in [0, 1], and is 1.0 exactly when all three sub-scores are. |
| UserData.Compare | userdata.py:34-50 | `compare` with the as-written gender rule: the same failures as above, and a successful score in [0, 1] that is 1.0 exactly when ages are equal, the as-written gender score is 1.0 and the district closeness is 1.0. |
| UserData.CompareCorrected | userdata.py:44-50 | `compare` with the corrected gender rule: a score in [0, 1] that is 1.0 exactly when ages are equal, the corrected gender score is 1.0 and the district closeness is 1.0. |
| UserData.CompareCorrectedDiffers | userdata.py:44-48 | For a valid owner the two variants fail alike, and they differ exactly for a neutral owner against another gender, where the corrected score is 0.1 higher. |
| UserData.CompareSameProfile | userdata.py:41-49 | Equal age and gender in the same district give a score of exactly 1.0. |
| Demographics.Similarity | user_demographics.py:18 | An owner's similarity to the input profile is its `compare` score and lies in [0, 1]. |
| Demographics.SmoothedScoreInRange | user_demographics.py:11-18 | The smoothed mean (sum + 7) / (owners + 10) of similarities in [0, 1] lies in [0, 1], as the docstring promises. |
| Demographics.SimilaritySum | user_demographics.py:16-18 | Succeeds exactly when every owner can be compared, with the order-independent sum of the similarities; otherwise yields the exception of some failing `compare`. |
| Demographics.BreedScoreTable | user_demographics.py:13-19 | In breed-set order, each breed paired with its smoothed score; fails exactly when some owner of some breed cannot be compared, with that owner's exception. |
| Demographics.FindMax | user_demographics.py:22-27 | One scan with strict `>` from ("", -1) returns the first entry holding the maximum, or ("", -1) when no score exceeds -1. |
| Demographics.RemoveAt | user_demographics.py:29 | Popping an entry keeps the other entries in their order. |
| Demographics.PartitionStep | user_demographics.py:28-29 | Moving a popped entry to the result keeps every breed in exactly one of result and remaining dictionary, each once, and the remaining dictionary in its order. |
| Demographics.RankedStep | user_demographics.py:24-29 | Appending the first maximum keeps the result non-increasing, never beaten by a remaining breed, and tied breeds in dictionary order. |
| Demographics.LeftOutDominated | user_demographics.py:20-30 | Once the picks dominate what remains, no entry left out of the picks scores above one of them. |
| Demographics.LeftOutTiesLater | user_demographics.py:24-29 | When every remaining entry tied with a pick comes later in the table, so does every entry of the table left out of the picks. |
| Demographics.RankedBreeds | user_demographics.py:13-30 | The top matches of the score table are breeds with their smoothed scores in [0, 1], nothing omitted scores higher, and ties inside the result and across the cut follow breed-set order. |
| Demographics.TopMatches | user_demographics.py:20-30 | With scores above -1 the loop succeeds exactly when `limit` is at most the number of breeds, else KeyError; the result has max(limit, 0) distinct entries of the table, non-increasing, ties in table order, and nothing left out scores above a returned entry; a left-out entry tied with a returned one comes later in the table, so the first maximum wins at the cut. |
| Demographics.GetDemographicRecommendations | user_demographics.py:8-30 | Only breed vertices are ranked; a failing `compare` propagates; with every owner comparable the call fails (KeyError) exactly when `limit` exceeds the number of breeds; each returned breed carries its smoothed score in [0, 1]; results are distinct, non-increasing, ties in breed-set order, no omitted breed scores above a returned one, and an omitted breed tied with a returned one comes later in breed-set order. |
| DecisionMatrix.ScoreIsDotProduct | user_decision_matrix.py:61-72 | The spelled-out twelve-term score equals the dot product of the weight vector and the trait vector. |
| DecisionMatrix.ScoreAll | user_decision_matrix.py:59-73 | Every breed is paired with its name and score, in input order. |
| DecisionMatrix.InsertDesc | user_decision_matrix.py:73-74 | Appending a pair and re-sorting gives a list one longer holding exactly the old entries and the new pair. |
| DecisionMatrix.SortDesc | user_decision_matrix.py:73-74 | The list after the loop of appends and re-sorts holds exactly the scored pairs, each as often as in the input. |
| DecisionMatrix.InsertDescSorted | user_decision_matrix.py:73-74 | Appending a pair and re-sorting a non-increasing list keeps it non-increasing. |
| DecisionMatrix.InsertDescStable | user_decision_matrix.py:73-74 | Appending and re-sorting keeps, for every score, the pairs with that score in arrival order. |
| DecisionMatrix.SortDescSortedStable | user_decision_matrix.py:59-74 | Sorting after every append yields a non-increasing permutation of the scored pairs in which equal scores keep input order. |
| DecisionMatrix.SliceLength | user_decision_matrix.py:75 | Python's `s[:limit]` keeps exactly the items whose index is below `limit`, a negative `limit` counting from the end (so at most n items). |
| DecisionMatrix.TopScores | user_decision_matrix.py:74-75 | The kept entries are input pairs, non-increasing, ties in input order, and no entry left out scores above the last one kept. |
| DecisionMatrix.TopOfSorted | user_decision_matrix.py:73-75 | The first `count` entries of the stable sort are input pairs in non-increasing order, ties in input order, and every entry left out scores at most the last one kept. |
| DecisionMatrix.DecisionMatrix | user_decision_matrix.py:44-75 | min(5, n) pairs, each the name and score of some input breed, non-increasing, ties in input order, and no omitted breed scores above the fifth. |
| DecisionMatrix.ZeroWeightsKeepInputOrder | user_decision_matrix.py:61-75 | With all weights zero every breed scores 0 and the result is the first five breeds in input order. |
| Preference.GetPreferenceRecommendations | user_preference.py:12-47 | The slice length of `limit` (negative limits included) of pairs of input breeds, non-increasing, ties in input order, and no omitted breed scores above the last one returned. |
| Preference.DecisionMatrixIsLimitFive | user_preference.py:31-47 | The preference ranker with limit 5 is exactly the decision matrix. |
| Preference.Direction | user_preference.py:78-79 | The sign is +1 exactly for the answer "positive" and -1 for anything else. |
| Preference.WeightRawPreferenceData | user_preference.py:50-80 | Nine answers pass through unchanged, shedding is negated, barking and stimulation take their importance with sign +1 for "positive" and -1 otherwise. |
| Preference.ScoreShift | user_preference.py:33-44 | Raising a breed's shedding, barking or stimulation rating by k moves its score by k times that trait's weight. |
| Preference.AnswersSteerScore | user_preference.py:67-80 | Under weights built from answers, more shedding lowers a score by the shedding importance per level, and more barking or stimulation raises it by its importance when the answer was "positive" and lowers it otherwise. |
| Preference.MinScore | user_preference.py:87-94 | The smallest score: no entry is lower and some entry has it. |
| Preference.MaxScore | user_preference.py:87-94 | The largest score: no entry is higher and some entry has it. |
| Preference.RescaleClosedForm | user_preference.py:95-99 | The padded range formula equals 0.5 + 0.25 (x - min) / (max - min). |
| Preference.RescaleProperties | user_preference.py:95-100 | Rescaled values lie in [0.5, 0.75], reach 0.5 exactly at the minimum and 0.75 exactly at the maximum, and keep strict order in both directions. |
| Preference.RescaleAllOrder | user_preference.py:97-100 | Rescaling every entry between the smallest and largest score keeps strict order between any two entries, in both directions. |
| Preference.RescaleAllTop | user_preference.py:95-100 | An entry is rescaled to 0.75 exactly when no entry scores above it. |
| Preference.RescaleAllBottom | user_preference.py:95-100 | An entry is rescaled to 0.5 exactly when no entry scores below it. |
| Preference.Rescaled | user_preference.py:95-101 | For scores not all equal: names, order and length kept, each value is 0.5 + 0.25 (x - min) / (max - min), lies in [0.5, 0.75], is 0.75 exactly at a maximum and 0.5 exactly at a minimum, and strict order is kept both ways. |
| Preference.NormalizePreferenceRecommendations | user_preference.py:83-101 | Empty input gives empty output; a non-empty list divides by zero exactly when all scores are equal; otherwise names, order and length are kept, each value is 0.5 + 0.25 (x - min) / (max - min) and so lies in [0.5, 0.75], the best entries get 0.75, the worst 0.5, and one entry scores below another exactly when it did before. |
| DecisionTree.FindFromFirst | breeds_decision_tree.py:34-37 | The scan from a child index finds the first later child with that root, or none exactly when no later child has it. |
| DecisionTree.ContainNum | breeds_decision_tree.py:32-37 | The first child whose root equals the item, and nothing exactly when no child has that root. |
| DecisionTree.InsertSequence | breeds_decision_tree.py:20-30 | The empty sequence changes nothing; the root is unchanged; existing children keep their places and roots; at most one child is appended, only for a first item no child had; the first item is then a child root. |
| DecisionTree.InsertShape | breeds_decision_tree.py:24-30 | Insertion descends into the first child with the first item as root, or into a new last child rooted at it, inserting the rest of the sequence there; every other child is unchanged and the first item is found at that child afterwards. |
| DecisionTree.ContainNumKept | breeds_decision_tree.py:24-37 | A root a node already has is found at the same child after any insertion. |
| DecisionTree.InsertKeepsUniqueRoots | breeds_decision_tree.py:24-30 | If no node has two children with the same root, insertion keeps it that way. |
| DecisionTree.DecisionTreeMethod | breeds_decision_tree.py:39-50 | No choices give the roots of the top-level children; a first choice matching no child gives the empty list. |
| DecisionTree.LeafAnswersNothing | breeds_decision_tree.py:43-50 | A node without children answers every list of choices with the empty list. |
| DecisionTree.LookupAfterInsert | breeds_decision_tree.py:20-50 | After inserting a path followed by a breed, asking with that path returns a list containing the breed. |
| DecisionTree.LookupPreservedByInsert | breeds_decision_tree.py:20-30 | Inserting never removes an answer the tree already gave for any list of choices. |
| DecisionTree.InsertSound | breeds_decision_tree.py:20-30 | Every answer after an insertion was an answer before it or is spelled by the inserted sequence. |
| DecisionTree.InsertIdempotent | breeds_decision_tree.py:24-26 | Inserting the same sequence twice leaves the tree as inserting it once. |
| DecisionTree.RowSequence | breeds_decision_tree.py:70-74 | A row's sequence is its answers followed by its breed name; an empty row raises IndexError. |
| DecisionTree.InsertRowStep | breeds_decision_tree.py:65-75 | Inserting one more row keeps every earlier breed findable by its answers and every answer spelled by some inserted row. |
| DecisionTree.BuildDecisionTree | breeds_decision_tree.py:53-76 | IndexError exactly when some row is empty; otherwise a tree rooted at "" with distinct sibling roots in which every breed is found by its own answers and every answer is spelled by the start of some row. |

## Left out

- File and console I/O: reading the CSV files, the `__main__` blocks, `input`/`print`,
  `dog_breed_data_loader`, `get_user_input` and the file-reading part of
  `build_decision_tree` (which receives the rows after the header instead).
- `run_dog_recommender`: it feeds integer answers into a tree whose roots are strings,
  so every lookup misses; the model's choices are strings.
- ui.py, dog_images_translation.py, dictrict_closeness.py, zurich_map.py, main.py and
  data_loader.py are not part of this model; in particular the district distance
  normaliser and the score curving step are not defined in the modelled files.
  `UserPreferenceDogBreed` of data_loader.py is taken to carry the same twelve fields
  as `DogBreed`.
- Floating-point rounding, `math.inf` and NaN: reals are exact; the infinite starting
  values of the normaliser matter only for an empty list, which returns `[]`.
- Object identity: a district is identified by its id (the source hashes on it and
  loads each district once); users and breeds are compared by value.
- Set and dictionary iteration order: the breed set's order is the parameter `order`
  of `Demographics.GetDemographicRecommendations`; sums over sets are proved
  independent of order.
- Demographics.GetDemographicRecommendations: requires that breeds are linked only to
  owners (the loader builds the graph that way and the source annotates the neighbours
  as users); a breed linked to another breed would make `compare` fail in Python.
- UserData.Compare: the documented precondition that the two users differ is not needed
  and not required.
- WeightedGraphs.AddEdge: the default weight 1 is simply `w = 1`.

## Findings

| source | as written | input that shows it | evidently intended | confidence | as-written member | corrected member |
|---|---|---|---|---|---|---|
| userdata.py:44 | the neutral gender is compared as lower-case `'o'`, but profiles hold "F", "M" or "O" (callers upper-case the input), so the neutral rule never applies | owner gender "O", user gender "F": gender score 0.5 | a neutral owner is compatible with every gender: score 1.0 | medium, not executed | UserData.GenderScoreAsWritten, UserData.NeutralGenderIgnoredAsWritten, UserData.Compare | UserData.GenderScore, UserData.NeutralGenderCompatible, UserData.CompareCorrected, UserData.CompareCorrectedDiffers |

The demographic ranker is built on the as-written `UserData.Compare`, so that it ranks
as the program does; `UserData.CompareCorrectedDiffers` states exactly where the
corrected variant would rank differently.
