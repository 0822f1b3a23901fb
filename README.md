# prompt-clipboard store, in Dafny

A model of `DatabaseManager`, the store behind the prompt clipboard. It keeps three tables:

- **prompts**: text snippets with a usage count and timestamps;
- **relations**: weighted links between two prompts, strengthened every time the user selects both together;
- **settings**: string key/value pairs.

On top of these tables the store offers:

- insertion, edit, usage counting and deletion of prompts, where deletion cascades to every relation that touches the prompt;
- a listing ordered by usage;
- a search that matches every word of a query as a substring;
- the reinforcement of relations for a multi-selection;
- a key/value settings table.

Modules, one file each:

- `Text` (`text.dfy`): the string functions the store relies on. These are Python's `str.isspace`, `str.lower` (its ASCII part), `str.strip`, `str.split()`, the substring test and string `<`.
- `Ordering` (`ordering.dfy`): the promise an SQL `ORDER BY` makes, which is a permutation sorted by a total preorder. `Sort` is one such order.
- `Records` (`records.dfy`): the records `Prompt`, `PromptRelation` and `Setting`, the primary-key lookup `session.get(Prompt, id)`, and the two orderings the queries use.
- `RelationGraph` (`relation_graph.dfy`): the relation table as a value. It covers the canonical pair order of `sorted([a, b])` and the lookup-then-create step. It also covers the pairs of positions `i < j` of a selection, their effect on every strength, table well-formedness (canonical ends, one record per pair, positive strength) and the cascade of `delete_prompt`.
- `Search` (`search.dfy`): `search_prompts` as a function `Run`. It normalises the query, scans the prompts in usage order with a cap, and sorts the relations around the matches into `cross_refs` and `related_map`. Its lemmas state what the result holds.
- `Database` (`database.dfy`): the class `DatabaseManager`, whose three fields are the tables. Every public method of the Python class is a method or function of it. The loops of the source are imperative methods, each proved against the specification functions above: the search scan with its early `break`, the dictionary loop, the cascade and the nested pair loops.

The UUID generator and the clock are parameters. `AddPrompt` receives the id the generator produced. The methods that stamp a time receive `now`: `AddPrompt`, `UpdatePrompt`, `AddPromptRelations` and `SetSetting`. `IncrementUsage` and `DeletePrompt` write no timestamp and take no clock.

Behaviour of the code that the model keeps as it is:

- The code has no uniqueness constraint on relations. One record per pair holds only because lookup is followed by creation, and the model proves that this step keeps `WellFormed`.
- Relations are not checked against live prompts, so a search treats a missing prompt at the other end as "nothing to list".
- A selection that repeats an id creates a relation of that id with itself.
- The search scan orders prompts by `usage_count` only. The listing orders by `usage_count`, then `created_at`.

## Model

| member | source | states |
|---|---|---|
| Records.FindPrompt | src/prompt_clipboard/database.py:71-72 | the primary-key lookup finds a row with that id, and it finds none only when no row has that id |
| Records.GetPrompt | src/prompt_clipboard/database.py:71-72 | the row found is in the table and has the key looked up; no row is found only when no row has that key |
| Records.UsageOrderIsTotalPreorder | src/prompt_clipboard/database.py:124 | usage descending, then creation ascending, is a valid `ORDER BY`: total and transitive |
| Records.StrengthOrderIsTotalPreorder | src/prompt_clipboard/database.py:173 | strength descending is a valid `ORDER BY` |
| Ordering.Insert | src/prompt_clipboard/database.py:124 | inserting into a sorted list adds exactly that element and keeps the list sorted |
| Ordering.Sort | src/prompt_clipboard/database.py:124 | an ordered read returns a permutation of the rows, sorted by the ordering |
| Text.LowerChar | src/prompt_clipboard/database.py:129 | lowering maps each letter `A`–`Z` to its own lower-case letter (code point plus 32), leaves every other character alone and never changes whether a character is whitespace |
| Text.Lower | src/prompt_clipboard/database.py:129 | lowering keeps the length and lowers each character in place |
| Text.TrimStart | src/prompt_clipboard/database.py:129 | the result is a suffix of the text; everything dropped is whitespace, and the result does not start with whitespace |
| Text.TrimEnd | src/prompt_clipboard/database.py:129 | the result is a prefix of the text; everything dropped is whitespace, and the result does not end with whitespace |
| Text.Strip | src/prompt_clipboard/database.py:129-131 | the stripped query sits in the query at some position with only whitespace before and after it, has no whitespace at either end, and is empty exactly when the query is all whitespace |
| Text.SliceOfSuffix | src/prompt_clipboard/database.py:129 | what `strip` keeps sits in the text where the leading whitespace ends, only whitespace follows it, and it is empty exactly when the text is all whitespace |
| Text.TokenLen | src/prompt_clipboard/database.py:134 | a word runs to the first whitespace character or the end of the text |
| Text.Words | src/prompt_clipboard/database.py:134 | `split()` yields only non-empty words that contain no whitespace |
| Text.WordsEmpty | src/prompt_clipboard/database.py:134-136 | `split()` yields no word exactly when the text is all whitespace |
| Text.WordsExactly | src/prompt_clipboard/database.py:134 | a string is a word of `split()` exactly when it occurs in the text as a maximal run of non-whitespace characters |
| Text.WordsSound | src/prompt_clipboard/database.py:134 | every word `split()` yields is a maximal non-whitespace run of the text, at a position the lemma names |
| Text.WordsComplete | src/prompt_clipboard/database.py:134 | every maximal non-whitespace run of the text is a word of `split()` |
| Text.WordsStep | src/prompt_clipboard/database.py:134 | `split()` drops a leading whitespace character and takes a leading run of non-whitespace characters whole as a word |
| Text.WordShift | src/prompt_clipboard/database.py:134 | a word of a suffix that starts at a word boundary is a word of the whole text |
| Text.WordUnshift | src/prompt_clipboard/database.py:134 | a word of the text at or after a position is a word of the suffix from that position |
| Text.OccursShift | src/prompt_clipboard/database.py:150 | an occurrence in a suffix is an occurrence in the whole text, shifted by where the suffix starts |
| Text.LexLtAsymmetric | src/prompt_clipboard/database.py:241 | string `<` never holds both ways |
| Text.LexLtTotal | src/prompt_clipboard/database.py:241 | two different strings are ordered one way or the other by `<` |
| RelationGraph.CanonOrdered | src/prompt_clipboard/database.py:241 | `sorted([a, b])` holds the same two ids with the first no greater than the second |
| RelationGraph.CanonSymmetric | src/prompt_clipboard/database.py:241 | `sorted([a, b])` does not depend on the order of `a` and `b` |
| RelationGraph.FindRelation | src/prompt_clipboard/database.py:244-249 | `.first()` gives the first record for the ordered pair; nothing is found only when no record has those ends |
| RelationGraph.DetachCount | src/prompt_clipboard/database.py:94-103 | the cascade removes every relation touching the id and keeps each other relation as often as the table held it |
| RelationGraph.DetachMembers | src/prompt_clipboard/database.py:94-103 | the relations left are exactly the old ones that do not touch the id |
| RelationGraph.DetachWellFormed | src/prompt_clipboard/database.py:94-103 | the cascade keeps the relation table well formed |
| RelationGraph.DetachAppend | src/prompt_clipboard/database.py:102-103 | the cascade can be applied piecewise over a split table |
| RelationGraph.ReinforceStrength | src/prompt_clipboard/database.py:244-260 | one co-selection raises the strength of its own pair by one, whether the record existed or is created, and leaves every other pair's strength alone |
| RelationGraph.BumpStrength | src/prompt_clipboard/database.py:251-254 | bumping the existing record raises the strength of that pair only |
| RelationGraph.AppendStrength | src/prompt_clipboard/database.py:255-260 | creating the missing record gives the pair strength 1 and changes no other pair |
| RelationGraph.FindAppend | src/prompt_clipboard/database.py:244-260 | after a record is appended, a lookup still finds the old match, and otherwise finds the new record when it is for that pair |
| RelationGraph.ReinforceAllStrength | src/prompt_clipboard/database.py:239-260 | a sequence of co-selections raises each pair's strength by the number of times the pair is listed |
| RelationGraph.ReinforceWellFormed | src/prompt_clipboard/database.py:244-260 | lookup-then-create with a canonical pair keeps canonical ends, one record per pair and positive strengths |
| RelationGraph.ReinforceFrame | src/prompt_clipboard/database.py:244-260 | one step keeps the ends of every record, leaves the records of other pairs unchanged, and appends at most one record, for the pair, at strength 1 |
| RelationGraph.ReinforceAllFrame | src/prompt_clipboard/database.py:239-260 | records of unlisted pairs are untouched, and every appended record is for a listed pair |
| RelationGraph.ReinforceAllWellFormed | src/prompt_clipboard/database.py:239-260 | a sequence of steps over canonical pairs keeps the table well formed |
| RelationGraph.ReinforceAllAppend | src/prompt_clipboard/database.py:239-241 | reinforcing along two lists in turn is reinforcing along their concatenation |
| RelationGraph.RowSound | src/prompt_clipboard/database.py:240-241 | the inner loop names only pairs of positions `i < k` |
| RelationGraph.RowComplete | src/prompt_clipboard/database.py:240-241 | the inner loop names the pair of positions `i < k` for every `k` it reaches |
| RelationGraph.PairsSound | src/prompt_clipboard/database.py:239-241 | the nested loops name only pairs of positions `i < k` |
| RelationGraph.PairsComplete | src/prompt_clipboard/database.py:239-241 | the nested loops name every pair of positions `i < k` |
| RelationGraph.SelectionPairsMembers | src/prompt_clipboard/database.py:239-241 | a selection lists exactly the sorted pairs of its positions `i < j`, and each one is in canonical order |
| RelationGraph.ShortSelection | src/prompt_clipboard/database.py:230-231 | fewer than two ids give no pair |
| RelationGraph.ShortSelectionUnchanged | src/prompt_clipboard/database.py:230-231 | fewer than two ids leave the relation table unchanged |
| RelationGraph.CanonOfPositions | src/prompt_clipboard/database.py:241 | with distinct ids, two position pairs give the same sorted pair only when they are the same positions |
| RelationGraph.OccurrencesPositive | src/prompt_clipboard/database.py:239-241 | a pair is counted at least once exactly when it is listed |
| RelationGraph.CountSnoc | src/prompt_clipboard/database.py:239-241 | listing one more pair adds one to its count and nothing to any other count |
| RelationGraph.CountAppend | src/prompt_clipboard/database.py:239-241 | the counts of two lists add up over their concatenation |
| RelationGraph.RowCount | src/prompt_clipboard/database.py:240-241 | with distinct ids, the inner loop names each pair of positions at most once |
| RelationGraph.PairsCount | src/prompt_clipboard/database.py:239-241 | with distinct ids, the nested loops name each pair of positions exactly once |
| RelationGraph.ReinforcedStrength | src/prompt_clipboard/database.py:228-262 | `add_prompt_relations` raises every pair's strength by the number of position pairs naming it; unselected pairs keep their strength |
| RelationGraph.DistinctSelectionStrength | src/prompt_clipboard/database.py:228-262 | with distinct ids, each selected pair's strength rises by exactly one, and a missing relation is created at strength 1 |
| RelationGraph.ReinforcedFrame | src/prompt_clipboard/database.py:228-262 | relations of unselected pairs are untouched, old records keep their ends, and every new record is for a selected pair |
| RelationGraph.ReinforcedWellFormed | src/prompt_clipboard/database.py:228-262 | every record created is in canonical order, and at most one record per pair is kept |
| RelationGraph.ConsWellFormed | src/prompt_clipboard/database.py:94-103 | a canonical record of positive strength for a new pair can head a well-formed table |
| Search.Cap | src/prompt_clipboard/database.py:152-153 | the scan stops after exactly `limit` matches when `limit >= 1`, and after exactly one match otherwise |
| Search.ByUsageFacts | src/prompt_clipboard/database.py:142-144 | the scan visits a permutation of the prompt table, most used first |
| Search.ByUsageMembers | src/prompt_clipboard/database.py:142-144 | the scan visits exactly the prompts of the table |
| Search.FilterCount | src/prompt_clipboard/database.py:147-151 | the filter keeps each matching prompt as often as the scan holds it, and nothing else |
| Search.FilterMembers | src/prompt_clipboard/database.py:147-151 | the filter keeps exactly the scanned prompts that contain every word |
| Search.FilterStep | src/prompt_clipboard/database.py:148-151 | scanning one more prompt appends it exactly when it matches |
| Search.FilterPrefix | src/prompt_clipboard/database.py:147-153 | the matches of a prefix of the scan are a prefix of all the matches |
| Search.FilterSorted | src/prompt_clipboard/database.py:142-151 | filtering a sorted scan keeps it sorted |
| Search.FilterEmpty | src/prompt_clipboard/database.py:147-159 | nothing matches in the scan exactly when no prompt of the table contains every word |
| Search.TouchingCount | src/prompt_clipboard/database.py:167-172 | the relation query returns each relation with an end in the matched ids as often as the table holds it, and nothing else |
| Search.TouchingByStrengthFacts | src/prompt_clipboard/database.py:167-174 | the ordered relation query is a permutation of the touching relations, strongest first |
| Search.TouchingByStrengthMembers | src/prompt_clipboard/database.py:167-174 | the ordered query lists exactly the table's relations with an end in the matched ids |
| Search.TouchingListed | src/prompt_clipboard/database.py:167-174 | every relation of the table touching the matched ids has a position in the ordered query |
| Search.CollectStep | src/prompt_clipboard/database.py:180-217 | reading one more relation appends that relation's entries to every list |
| Search.HasCrossRefsStep | src/prompt_clipboard/database.py:182-190 | reading one more relation opens `cross_refs[m]` exactly when that relation opens it |
| Search.HasCrossRefsComplete | src/prompt_clipboard/database.py:182-190 | once a relation opens a key of `cross_refs`, the key stays |
| Search.CollectProvenance | src/prompt_clipboard/database.py:180-217 | every listed entry is a prompt of the table, linked to its key by a relation read, in the dictionary's way, with that relation's strength |
| Search.CollectDescending | src/prompt_clipboard/database.py:173-217 | relations read strongest first give every list in non-increasing strength |
| Search.CollectAtLeast | src/prompt_clipboard/database.py:173-217 | relations of strength at least `s` give entries of strength at least `s` |
| Search.DescendingAppend | src/prompt_clipboard/database.py:173-217 | appending entries of a strength no greater than any before keeps a list in non-increasing strength |
| Search.CollectComplete | src/prompt_clipboard/database.py:180-217 | each relation read contributes its entries to the list of every key it is classified under |
| Search.EntryOrigin | src/prompt_clipboard/database.py:180-217 | an entry traces back to a relation of the table; in `cross_refs` its prompt is matched and in `related_map` it is not |
| Search.BlankQuery | src/prompt_clipboard/database.py:129-131 | a blank or whitespace-only query returns the empty result |
| Search.MatchesEveryWord | src/prompt_clipboard/database.py:129-150 | a prompt matches exactly when its lower-cased body contains every maximal non-whitespace run of the stripped, lower-cased query |
| Search.SearchTextHasWords | src/prompt_clipboard/database.py:129-136 | a query that is not blank after `strip` always yields a word, so the second emptiness check never fires |
| Search.RunParts | src/prompt_clipboard/database.py:127-219 | the search returns the empty result exactly when nothing matched, and otherwise the triple built from the matches |
| Search.MatchedOfEmpty | src/prompt_clipboard/database.py:129-159 | nothing is matched exactly when the query is blank or no scanned prompt matches |
| Search.NoMatchesExactly | src/prompt_clipboard/database.py:129-159 | the search returns `[]` exactly when the query is blank or no prompt of the table contains every word |
| Search.FirstMatchesSound | src/prompt_clipboard/database.py:147-153 | at most `cap` prompts are returned, each a prompt of the table containing every word |
| Search.FirstMatchesSorted | src/prompt_clipboard/database.py:142-153 | the matches come most used first |
| Search.FirstMatchesMaximal | src/prompt_clipboard/database.py:147-153 | a matching prompt is left out only when the cap was reached, and then it ranks no higher than any prompt returned |
| Search.MatchedPrompts | src/prompt_clipboard/database.py:127-159 | the matched list holds at least one and at most `Cap(limit)` table prompts, each containing every query word, most used first; a matching prompt is left out only when the cap is reached, and then it ranks no higher than any returned |
| Search.CrossRefsFacts | src/prompt_clipboard/database.py:182-197 | every `cross_refs` key is matched; its list runs in non-increasing strength; each entry is a matched prompt linked by a relation of that strength |
| Search.RelatedMapFacts | src/prompt_clipboard/database.py:199-217 | every `related_map` key is matched; its list runs in non-increasing strength; each entry is an unmatched prompt linked by a relation of that strength |
| Search.SearchDictionaries | src/prompt_clipboard/database.py:164-219 | both dictionaries of a search result have matched keys and lists in non-increasing strength; `cross_refs` lists matched prompts, `related_map` unmatched ones, each backed by a relation of the table |
| Search.CrossRefsComplete | src/prompt_clipboard/database.py:182-197 | a relation with both ends matched is listed under both ends in `cross_refs`, wherever the prompt at the other end exists |
| Search.RelatedMapComplete | src/prompt_clipboard/database.py:199-217 | a relation joining a matched id to an existing unmatched prompt lists that prompt, with the relation's strength, under the matched id |
| Search.SearchRelationsComplete | src/prompt_clipboard/database.py:164-219 | every relation touching the matches is listed: under both ends in `cross_refs`, or under its matched end in `related_map` when the other prompt exists |
| Database.GetPromptOfRow | src/prompt_clipboard/database.py:10 | with unique primary keys, a row's own key finds that row |
| Database.InsertLookup | src/prompt_clipboard/database.py:58-60 | inserting under a fresh key keeps keys unique; the new key finds the new row, every other key what it found before |
| Database.InsertLookupAll | src/prompt_clipboard/database.py:58-60 | the same for every key at once |
| Database.ReplaceLookup | src/prompt_clipboard/database.py:71-75 | rewriting a row without changing its key keeps keys unique; that key finds the new row, every other key what it found before |
| Database.ReplaceLookupAll | src/prompt_clipboard/database.py:85-88 | the same for every key at once |
| Database.RemoveLookup | src/prompt_clipboard/database.py:106-109 | removing a row keeps keys unique; its key then finds nothing and every other key finds what it found before |
| Database.RemoveLookupAll | src/prompt_clipboard/database.py:106-109 | the same for every key at once |
| Database.RemoveRows | src/prompt_clipboard/database.py:106-109 | the rows left are the other rows of the table, in order, none with the removed key |
| Database.Upsert | src/prompt_clipboard/database.py:284-293 | after `set_setting` the keys are the old keys plus the one set |
| Database.UpsertThenRead | src/prompt_clipboard/database.py:279-293 | after `set_setting(k, v)`, `get_setting(k, d)` returns `v`, and every other key reads as before |
| Database.ScanMatches | src/prompt_clipboard/database.py:147-153 | the scan loop with its early `break` returns the first `Cap(limit)` matching prompts of the ranked list |
| Database.AddCrossRefs | src/prompt_clipboard/database.py:182-197 | a relation with both ends matched opens both keys and lists each existing end under the other |
| Database.OpenKeys | src/prompt_clipboard/database.py:187-190 | a missing key of `cross_refs` is opened with an empty list, and existing lists are kept |
| Database.ListUnder | src/prompt_clipboard/database.py:192-197 | the other end is appended to the key's list only when its prompt exists |
| Database.AddRelated | src/prompt_clipboard/database.py:199-217 | a relation with one end matched lists the other end's prompt under the matched end, opening the key only if something is appended |
| Database.CrossRefsUntouched | src/prompt_clipboard/database.py:199-217 | a relation without both ends matched leaves `cross_refs` alone |
| Database.RelatedMapUntouched | src/prompt_clipboard/database.py:182-197 | a relation with both ends matched, or neither, leaves `related_map` alone |
| Database.ReadRelation | src/prompt_clipboard/database.py:180-217 | one pass of the dictionary loop applies exactly the relation's contribution to both dictionaries |
| Database.CrossRefsAfterStep | src/prompt_clipboard/database.py:180-217 | each pass keeps `cross_refs` equal to what the relations read so far specify |
| Database.RelatedMapAfterStep | src/prompt_clipboard/database.py:180-217 | each pass keeps `related_map` equal to what the relations read so far specify |
| Database.CrossRefsAfterAll | src/prompt_clipboard/database.py:180-217 | after the last pass `cross_refs` is the specified dictionary |
| Database.RelatedMapAfterAll | src/prompt_clipboard/database.py:180-217 | after the last pass `related_map` is the specified dictionary |
| Database.FillDictionaries | src/prompt_clipboard/database.py:176-217 | the dictionary loop builds exactly the specified `related_map` and `cross_refs` |
| Database.Cascade | src/prompt_clipboard/database.py:94-103 | the deletion loop keeps exactly the relations that do not touch the id, in table order |
| Database.NextPair | src/prompt_clipboard/database.py:240-260 | one pass of the inner loop adds one reinforcement of that pair to what the loop has done |
| Database.DatabaseManager.constructor | src/prompt_clipboard/database.py:43-47 | a new store has three empty tables and satisfies the invariant |
| Database.DatabaseManager.AddPrompt | src/prompt_clipboard/database.py:55-63 | a fresh id gets one new prompt with the body, zero uses and timestamps `now`, and that id is returned; a taken id fails and stores nothing; every other key, the relations and the settings are unchanged |
| Database.DatabaseManager.UpdatePrompt | src/prompt_clipboard/database.py:68-81 | the prompt's body is replaced and it is stamped `now`, its usage kept; an unknown id changes nothing; every other prompt, the relations and the settings are unchanged |
| Database.DatabaseManager.IncrementUsage | src/prompt_clipboard/database.py:83-88 | the prompt's usage rises by exactly one; an unknown id changes nothing; all else is unchanged |
| Database.DatabaseManager.DeletePrompt | src/prompt_clipboard/database.py:90-119 | an existing prompt is removed together with exactly the relations touching it; the rest stays in order; a missing id changes nothing; other keys and the settings are unchanged |
| Database.DatabaseManager.AllPrompts | src/prompt_clipboard/database.py:121-125 | a permutation of the prompt table, most used first, older first among equals |
| Database.DatabaseManager.AllPromptsGrouped | src/prompt_clipboard/database.py:224-226 | the same listing as `get_all_prompts` |
| Database.DatabaseManager.Search | src/prompt_clipboard/database.py:127-222 | the imperative search returns exactly `Run`; `Run` is characterised by the `Search` lemmas above |
| Database.DatabaseManager.AddPromptRelations | src/prompt_clipboard/database.py:228-262 | the relation table becomes the specified reinforcement of the selection's pairs, stays well formed, and prompts and settings are unchanged |
| Database.DatabaseManager.StrengthenPairs | src/prompt_clipboard/database.py:239-262 | the outer loop applies the rows of pairs in loop order |
| Database.DatabaseManager.StrengthenRow | src/prompt_clipboard/database.py:240-260 | the inner loop applies the pairs `(i, j)`, `j > i`, in order |
| Database.DatabaseManager.Strengthen | src/prompt_clipboard/database.py:241-260 | one pair is looked up and bumped with `now`, or created at strength 1 |
| Database.DatabaseManager.IsEmpty | src/prompt_clipboard/database.py:275-277 | the store is empty exactly when no key finds a prompt |
| Database.DatabaseManager.GetSetting | src/prompt_clipboard/database.py:279-282 | the stored value of the key, or the default when it was never set |
| Database.DatabaseManager.SetSetting | src/prompt_clipboard/database.py:284-293 | the key now reads `value` whatever the default; every other key reads as before; prompts and relations are unchanged |

## Left out

- Persistence: the SQLite engine, sessions, `commit` and `refresh`, table creation and `db_path` are not modelled. The tables are in-memory fields, and each method is one atomic step.
- Logging: every `logger` call is left out.
- Storage failures: the `except … raise` paths for them are left out. The only failure modelled is the primary-key clash of `add_prompt`.
- UUIDs and the clock: `uuid.uuid4()` and `datetime.now(timezone.utc).isoformat()` are parameters (`id`, `now`). Timestamps are natural numbers, because the store's ISO strings sort like the instants they name.
- Timestamps at creation: the `created_at` and `updated_at` defaults of one new row are taken as the same `now`.
- Timestamps in `add_prompt_relations`: the code reads `datetime.now()` anew for each strengthened relation (src/prompt_clipboard/database.py:253) and for the defaults of each new relation (src/prompt_clipboard/database.py:26-31). The model uses one `now` for the whole call, so it does not capture that later pairs of one selection may get later timestamps.
- The `id` column of `promptrelation`: it is never read by the store, so relation records carry no id.
- Text.Lower: only ASCII letters are lowered; Python's full Unicode case mapping is not modelled.
- Text.IsSpace: Python's `str.isspace` set is written out, but the Unicode database behind it is not part of this model.
- Search.ByUsage: the scan uses `usage_count` then `created_at`, one of the orders the database may return for `usage_count` descending alone. Ties under `usage_count` in the scan are not otherwise modelled.
- Search.TouchingByStrength: ties in strength come out in table order, one admissible order; other orders the database may choose are not modelled.
- The default `limit=50` of `search_prompts` is not modelled; callers pass `limit`.
- Integer width: integers are unbounded; SQLite's 64-bit limit on `usage_count` and `strength` is not modelled.
- Files outside the store: the Qt windows and dialogs, the hotkey listener, configuration loading and logging setup are not part of this model.
