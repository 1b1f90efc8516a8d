# Relationship query engine

This project models the in-process query engine of `src/json_to_metta_parser.py`.

The engine loads a file of facts into two tables:
- a relationship graph, relation → person → people;
- an attribute table, attribute type → person → values.

A query names a subject, a relation selector, an attribute type and value, and a depth bound. The engine runs a breadth-first search from the subject along the selected relations. It keeps the people it reaches who hold the requested value, and returns them as `(person, depth)` pairs ordered by depth, then by name.

The model has one module per stage:

- `Text` (`text.dfy`): the character classes and string operations the engine uses. These are `str.strip()`, `str.lower()`, `str.title()`, and the `\s` and `[A-Za-z_]` classes of the fact pattern.
- `Facts` (`facts.dfy`): the fact pattern `DATA_PAT`.
  - A deterministic tokenizer, `MatchFact`, stands in for the regular expression.
  - It is proved to accept exactly the lines laid out as the pattern describes: `(`, optional whitespace, an identifier, whitespace, an identifier, optionally whitespace and a third identifier, optional whitespace, `)`, optional whitespace.
  - Its groups are the identifiers of that layout.
- `Loader` (`loader.dfy`): `_parse_data_file`.
  - `Load` is a fold of one step per line.
  - `ParseLines` is the loop of the source, with the body of the loop as `ReadLine`.
  - `ParseLines` is proved to compute `Load`.
  - Lemmas state which edges and attribute values the fold records.
- `Traversal` (`traversal.dfy`): `_bfs_find`.
  - The specification is by level sets. `Level(1)` holds the subject's direct neighbours along the allowed relations, and `Level(k + 1)` adds the neighbours of `Level(k)`.
  - The intended result `Reach` maps each person to the least level that holds it, up to the bound.
  - `Traverse` is the queue-and-`seen` loop of the source, seeded by `Seed` and expanded by `Expand`. It is proved to compute `Reach`.
  - `FilterByAttribute` is the second loop. `BfsFind` puts both together.
- `Ranking` (`ranking.dfy`): `sorted(found.items(), key=lambda x: (x[1], x[0]))`, with names compared as Python compares `str`.
- `Query` (`query.dfy`): `_normalize_relation_list` and `find_by_json`, from an already decoded query record to the ordered answer.
- `Example` (`example.dfy`): the example query of the `find_by_json` doc comment, over the store loaded from a three-line fact file.
- `Wrappers` (`wrappers.dfy`): `Option` and `Result`.

A missing JSON key is `None` in the query record. Each exception `find_by_json` can raise on a decoded record is a `QueryError` value. The five errors are:
- `KeyError` for `subject`;
- `KeyError` for `target_attribute`;
- `KeyError` for `type`;
- `KeyError` for `value`;
- `ValueError` for `max_depth < 1`.

## Behaviour as the code has it

Four behaviours of the code that a caller may not expect. The model follows the code.

- **The subject is not excluded from the answer.** The search seeds its queue with the subject's neighbours and never marks the subject itself as seen, so a cycle back to the subject records it like anyone else. `Traversal.SubjectOnCycle` states this.
- **`max_depth` below 1 is rejected, not clamped.** It raises `ValueError`, modelled as `Query.DepthBelowOne`. A missing `max_depth` is 1. No upper clamp exists in the core; the clamp to `[1, 5]` lives in a caller, src/text_to_json_parser.py:81, which is not part of this model.
- **A single relation name is not validated.** It becomes the one-element list `[name]`. The search then drops it when the graph has no such relation, so it finds nothing; no error is raised. The same holds for list elements.
- **Seeds are recorded at depth 1 even when `max_depth < 1`.** `_bfs_find` records them no matter what its `max_depth` argument is. `Traversal.Bound` captures this. `find_by_json` never passes such a value.

## Model

| member | source | states |
|---|---|---|
| Text.Strip | src/json_to_metta_parser.py:31 | The result has no whitespace at either end. It sits inside the input with only whitespace before and after it. It is empty only when the input is all whitespace. |
| Text.StripIdempotent | src/json_to_metta_parser.py:31 | Stripping a stripped line changes nothing. |
| Text.StripUnpadded | src/json_to_metta_parser.py:31 | A string with no whitespace at either end is its own strip. |
| Text.Lower | src/json_to_metta_parser.py:57 | Same length; each character is lower-cased. |
| Text.Title | src/json_to_metta_parser.py:135 | `title()` keeps the length. It lower-cases a character that follows a letter and upper-cases every other character. |
| Text.TitleLower | src/json_to_metta_parser.py:135 | Title-casing changes nothing but letter case. |
| Text.TitleIdempotent | src/json_to_metta_parser.py:135 | Title-casing twice is title-casing once. |
| Text.TitleIgnoresCase | src/json_to_metta_parser.py:135 | Title-casing a lower-cased string gives the same result as title-casing the original. |
| Text.TitleKeepsSpace | src/json_to_metta_parser.py:135 | Title-casing leaves every whitespace character unchanged in its position and creates none. |
| Facts.MatchFact | src/json_to_metta_parser.py:8 | A line the pattern matches opens with `(`, and its groups are identifiers, the third optional. `Facts.MatchFactIff` gives the exact set of matched lines. |
| Facts.IdentRun | src/json_to_metta_parser.py:8 | The run of `[A-Za-z_]` characters at the front is maximal. |
| Facts.MatchTailSound | src/json_to_metta_parser.py:8 | What the tail matcher accepts is an optional whitespace-led third identifier, then `\s*\)\s*`. |
| Facts.MatchFactSound | src/json_to_metta_parser.py:8 | Every matched line is a well-formed fact laid out with whitespace runs that the pattern allows. |
| Facts.MatchFactComplete | src/json_to_metta_parser.py:8 | Every layout of a well-formed fact is matched, with exactly its identifiers as groups. |
| Facts.MatchFactIff | src/json_to_metta_parser.py:8 | A line matches with groups `f` if and only if `f` is well formed and the line is a layout of `f`. |
| Facts.LayoutEnds | src/json_to_metta_parser.py:8 | A fact line opens with `(`, and with nothing after the parenthesis it ends with `)`. |
| Facts.MatchFactAlphabet | src/json_to_metta_parser.py:8 | A matched line holds only parentheses, whitespace and identifier characters. |
| Facts.ForeignCharUnmatched | src/json_to_metta_parser.py:8 | A line holding any other character, a digit for one, does not match. |
| Loader.Classify | src/json_to_metta_parser.py:31-37 | A line is blank exactly when it is all whitespace, and a comment exactly when its stripped text starts with `;`. A matched line carries a well-formed fact. |
| Loader.Step | src/json_to_metta_parser.py:38-46 | One line touches at most one of the two tables, removes nothing, and adds no relation beyond the five. |
| Loader.Load | src/json_to_metta_parser.py:16-48 | The graph has exactly the five relations as keys, and no relation name is ever an attribute type. |
| Loader.Add | src/json_to_metta_parser.py:38-43 | `t[k][x].add(v)` makes the recorded triples the old ones plus `(k, x, v)` (no change when it was already present), adds key `k`, and keeps every person entry non-empty. |
| Loader.Init | src/json_to_metta_parser.py:23-24 | The graph starts with exactly the five relations as keys and no edges; the attribute table starts empty. |
| Loader.LoadKinds | src/json_to_metta_parser.py:23-46 | After any lines the graph has exactly the five relations as keys; no person entry is empty. |
| Loader.ReadLine | src/json_to_metta_parser.py:31-46 | One pass of the loop body updates the tables as one `Step` of the fold. |
| Loader.ParseLines | src/json_to_metta_parser.py:16-48 | The loop over the lines builds exactly `Load(lines)`. |
| Loader.LoadStep | src/json_to_metta_parser.py:30-46 | Reading one more line is one more `Step`. |
| Loader.ClassifyMatched | src/json_to_metta_parser.py:31-38 | A line is read as fact `f` if and only if `f` is well formed and the stripped line is a layout of `f`. |
| Loader.IgnoredLine | src/json_to_metta_parser.py:32-46 | Blank lines, `;` comments, unmatched lines and two-identifier facts leave both tables unchanged. |
| Loader.ApplyEdges | src/json_to_metta_parser.py:39-40 | One line adds an edge exactly when it is a three-identifier fact whose predicate is a relation. |
| Loader.ApplyAttributes | src/json_to_metta_parser.py:41-43 | One line adds an attribute value exactly when it is a three-identifier fact whose predicate is not a relation. |
| Loader.LoadEdges | src/json_to_metta_parser.py:39-40 | Edge `r: x -> y` is recorded if and only if `r` is one of the five relations and some line is the fact `(r x y)`. |
| Loader.LoadAttributes | src/json_to_metta_parser.py:41-43 | Value `v` of type `t` is recorded for `x` if and only if `t` is not a relation and some line is the fact `(t x v)`. |
| Loader.LoadOrderIndependent | src/json_to_metta_parser.py:30-46 | Two files with the same set of lines give the same tables, whatever their order or repetitions. |
| Loader.ForeignLineUnmatched | src/json_to_metta_parser.py:31-37 | An unpadded line that opens with `(` and holds a character outside the pattern's alphabet is skipped as unmatched. |
| Loader.NumericValueIgnored | src/json_to_metta_parser.py:34-37 | `(Age Alice 30)` is skipped, because a digit is no identifier character. |
| Loader.LaidOutLineMatched | src/json_to_metta_parser.py:31-38 | A laid-out fact line with nothing after its parenthesis is read as that fact. |
| Loader.FriendLineIsEdge | src/json_to_metta_parser.py:34-40 | `(Friend Alice Bob)` is read as the fact with groups `Friend`, `Alice`, `Bob`. |
| Traversal.LevelMono | src/json_to_metta_parser.py:67-68 | Levels grow with the hop bound. |
| Traversal.LeastLevel | src/json_to_metta_parser.py:68 | The depth given to a person is the least level holding it. |
| Traversal.Bound | src/json_to_metta_parser.py:79-96 | The effective bound is at least 1 and equals `max_depth` whenever `max_depth >= 1`. |
| Traversal.Seed | src/json_to_metta_parser.py:79-81 | The seeded queue holds exactly the subject's neighbours along the allowed relations, each at depth 1. |
| Traversal.Expand | src/json_to_metta_parser.py:98-102 | The entries pushed are exactly the neighbours not already seen at depth `depth + 1` or less, each at `depth + 1`. |
| Traversal.Traverse | src/json_to_metta_parser.py:75-102 | The `seen` map at the end of the loop is exactly `Reach`: everyone within the bound, each with its least hop count, and no one else. |
| Traversal.KnownRelations | src/json_to_metta_parser.py:70 | The allowed list keeps exactly the requested relations that are keys of the graph, and is no longer than the request. |
| Traversal.FilterByAttribute | src/json_to_metta_parser.py:104-112 | The result keeps exactly the seen persons whose set of values for the type holds the value, with their seen depths. A missing type or person counts as the empty set. |
| Traversal.BfsFind | src/json_to_metta_parser.py:65-112 | The result holds exactly the reached persons holding the value, each with its least hop count within the bound. |
| Traversal.NoSeedsNoReach | src/json_to_metta_parser.py:79-85 | A subject with no outgoing allowed edge reaches no one. |
| Traversal.UnknownRelationsFindNothing | src/json_to_metta_parser.py:70-72 | When no requested relation is a key of the graph, the search finds nothing. |
| Traversal.IsolatedSubjectFindsNothing | src/json_to_metta_parser.py:79-85 | When the subject has no outgoing edge along any requested relation, the search finds nothing. |
| Traversal.SearchDepthBounds | src/json_to_metta_parser.py:79-102 | With `max_depth >= 1` every depth found lies in `[1, max_depth]`. |
| Traversal.WalkInLevel | src/json_to_metta_parser.py:67-68 | Every walk of at most `k` allowed hops from the subject ends in `Level(k)`. |
| Traversal.WalkTo | src/json_to_metta_parser.py:67-68 | Everyone in `Level(k)` ends a walk of at most `k` hops. |
| Traversal.ReachIsShortestWalk | src/json_to_metta_parser.py:67-68 | A person is found if and only if some walk of at most `max_depth` hops reaches it. Its depth is the length of a shortest such walk. |
| Traversal.SubjectOnCycle | src/json_to_metta_parser.py:79-92 | A two-way edge brings the subject itself into the result at depth at most 2. |
| Traversal.LevelWiden | src/json_to_metta_parser.py:98-99 | More allowed relations never shrink a level. |
| Traversal.SearchWiden | src/json_to_metta_parser.py:70-99 | Widening the requested relations loses no one and never lengthens a depth. |
| Traversal.AllRelationsWidest | src/json_to_metta_parser.py:70 | Over a loaded graph, asking for all five relations finds everyone any other selection finds, at the same depth or less. |
| Ranking.NameLessIrreflexive | src/json_to_metta_parser.py:145 | No name sorts before itself. |
| Ranking.NameLessTransitive | src/json_to_metta_parser.py:145 | Python's ordering of names is transitive. |
| Ranking.NameLessTotal | src/json_to_metta_parser.py:145 | Of two different names, one sorts first. |
| Ranking.HitLessTransitive | src/json_to_metta_parser.py:145 | The `(depth, name)` key order is transitive. |
| Ranking.HitLessTotal | src/json_to_metta_parser.py:145 | The `(depth, name)` key order is total. |
| Ranking.Insert | src/json_to_metta_parser.py:145 | Inserting into a sorted list keeps it strictly sorted and adds exactly the one element. |
| Ranking.SortHits | src/json_to_metta_parser.py:145 | The list is strictly increasing by `(depth, name)` and has the map's size. It holds exactly the map's entries, with no name twice. |
| Ranking.SortedUnique | src/json_to_metta_parser.py:145 | Two strictly sorted lists with the same elements are equal, so the order of the answer is determined. |
| Query.NormalizeRelationList | src/json_to_metta_parser.py:54-62 | All five relations come back if and only if the selector is null, `"any"` in any letter case, or already the five. Any other name `s` gives `[s]`, and a list is returned unchanged. |
| Query.AnyInCapitals | src/json_to_metta_parser.py:57-58 | `"ANY"` selects all five relations. |
| Query.NormalizeValue | src/json_to_metta_parser.py:135 | The normalised value is the stripped value up to letter case. It has nothing left to strip and is already title-cased, so normalising it again changes nothing. |
| Query.NormalizeValueIgnoresCase | src/json_to_metta_parser.py:135 | Two values that agree after stripping and lower-casing normalise alike. |
| Query.DoctorInLowerCase | src/json_to_metta_parser.py:135 | `"doctor"` normalises to `Doctor`. |
| Query.Prepare | src/json_to_metta_parser.py:132-140 | The record is accepted if and only if subject, target, type and value are present and `max_depth` is missing or at least 1. Each error is raised exactly when the fields checked before it are present and its own is missing, in the order subject, target, type, value, depth. An accepted plan passes on the subject and the type unchanged, the value normalised, `max_depth` or 1 when it is missing, and the normalised selector or all five relations when it is missing. |
| Query.FindByJson | src/json_to_metta_parser.py:115-146 | It fails exactly as `Prepare` does. Otherwise it returns the strictly sorted list of exactly the found persons holding the normalised value, with their depths and no name twice. |
| Query.AnswersUnique | src/json_to_metta_parser.py:142-145 | A query over a store has exactly one answer: running it twice gives the same list. |
| Query.AnswerDepths | src/json_to_metta_parser.py:136-142 | Every depth in an answer lies between 1 and the requested `max_depth`. |
| Example.SamplePlan | src/json_to_metta_parser.py:119-140 | The doc-comment query is accepted and looks up `Doctor` over all five relations. |
| Example.SampleNeighbours | src/json_to_metta_parser.py:79-99 | In the sample store, Alice's only neighbour is Bob and Bob's is Carol. |
| Example.SampleReach | src/json_to_metta_parser.py:75-102 | Bob is one hop from Alice, and Carol is two. |
| Example.SampleSearch | src/json_to_metta_parser.py:65-102 | Any selection holding Friend and Colleague reaches Bob at 1 within one hop, and Bob at 1 and Carol at 2 within two hops. |
| Example.SampleAnswer | src/json_to_metta_parser.py:104-145 | The sample answer is `[("Carol", 2)]` within two hops and empty within one. |
| Example.SampleLoaded | src/json_to_metta_parser.py:16-48 | The sample store is exactly what the loader builds from the three lines `(Friend Alice Bob)`, `(Colleague Bob Carol)` and `(Profession Carol Doctor)`. |
| Example.SampleFind | src/json_to_metta_parser.py:115-146 | Loading the sample file with `ParseLines` and running the sample query returns `[("Carol", 2)]` with `max_depth` 2 and `[]` with `max_depth` 1. |

## Left out

- Reading the data file is left out. The model does not cover `os.path.exists`, `open`, splitting the file into lines, or the import-time load of the global tables (src/json_to_metta_parser.py:13, 26-29, 51). The lines, and the resulting store, are parameters.
- JSON decoding and the string-or-dict duck typing (src/json_to_metta_parser.py:127-130) are left out. The model starts from a decoded record with optional fields.
- JSON values of the wrong type are not modelled, for example a non-string `value`, a non-object `target_attribute`, or a `relation` that is neither null, a string nor a list. `int()` conversion of a non-integer `max_depth` is not modelled either. The depth is an integer and the other fields are strings.
- `list(relation)` over iterables other than lists is not modelled. A selector is null, one string, or a list of strings.
- The `__main__` demonstration block (src/json_to_metta_parser.py:150-180) prints results for a data file that is not shown.
- src/utils.py, app.py, src/text_to_json_parser.py and src/diag_genai.py are not part of this model.
  - They call a MeTTa engine, a web interface and a language-model API.
  - The `[1, 5]` depth clamp lives in src/text_to_json_parser.py, outside the engine.
- Python's iteration order over sets and dicts is not modelled. `Seed`, `Expand`, `FilterByAttribute` and `SortHits` pick elements in an arbitrary order (`:|`). The order of the queue that `Seed` and `Expand` build depends on that choice; only its set of entries is stated. `Traverse`'s `seen` map, `FilterByAttribute`'s map and `SortHits`' list are proved independent of it.
- The deque is a `seq`, and the `defaultdict` tables are immutable maps rebuilt on each update. Each loop updates these values in place of the source's mutable objects.
- Text.Lower: only ASCII letters change case, unlike Python's Unicode `str.lower()`.
- Text.Title: only ASCII letters are cased, unlike Unicode `str.title()`. Whitespace is Python's full Unicode whitespace.
