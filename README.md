# Clinical decision support core, modelled in Dafny

This project models the core of the MCP clinician assistant:

- **Symptom normalisation.** Free text is lower-cased. The symptom table (a tag and its synonyms, in insertion order) is walked, and a tag is recorded as soon as one of its synonyms is a substring of the text. The result is the set of tags and its size. The symptom server runs the same matcher over its own 20-tag table. It also offers the `get_symptom_variations` lookup.
- **Differential scoring.** The tag set is scored against every symptom combination of the condition table by Jaccard similarity. The first entry with the strictly greatest positive score wins. When no entry overlaps, a fixed fallback bundle is returned. The guideline lookup returns the stored record or a "not found" placeholder.
- **Chunking.** `_split_text_into_chunks` is carried identically by the symptom, knowledge and guidelines servers. Text within the limit is one chunk. Otherwise it is split into sentences, and consecutive sentences are packed greedily into space-joined chunks.
- **Context manager.** `MCPContextManager` keeps a conversation history, a system-state map, an active-tool set and two timestamps, all updated in place.

Modules:

- `Text` (text.dfy): ASCII lower-casing, the substring test, `' '.join`.
- `SymptomMatching` (symptom_matching.dfy): the shared nested matching loop.
- `ClinicalAssistant` (clinical_assistant.dfy): the client's tables, normalisation, scoring and guideline lookup.
- `SymptomServer` (symptom_server.dfy): the server's table, its local matching and the variations tool.
- `TextChunking` (text_chunking.dfy): the sentence splitter and the greedy packer.
- `McpContext` (mcp_context.dfy): the context manager as a class.
- `Optional` (optional.dfy): an `Option` type.

The loops are methods proved against specification functions:

- The matcher is proved against `MatchedTags`.
- The scorer is proved against the `IsFirstBest` predicate.
- The packer is proved against the `GreedyPacking` predicate, and a lemma shows that this predicate admits exactly one grouping.

## Model

| member | source | states |
|---|---|---|
| Text.Lower | client/clinical_assistant.py:85 | lower-casing keeps the length and maps each character through ASCII `lower` |
| Text.Contains | client/clinical_assistant.py:89 | the test `variation in symptoms_lower` is true exactly when the synonym occurs as a substring at some index |
| Text.JoinSpace | servers/symptom_server/symptom.py:99-107 | `' '.join(current_chunk)`, built part by part; its meaning is stated by `JoinSpaceIsInterleave` and `JoinSpaceLength` |
| Text.JoinSpaceIsInterleave | servers/symptom_server/symptom.py:99 | `' '.join(parts)` is the parts with exactly one space between each neighbouring pair |
| Text.InterleaveAppend | servers/symptom_server/symptom.py:99 | appending a part to the joined parts adds one separator and the part at the end |
| Text.JoinSpaceLength | servers/symptom_server/symptom.py:99 | a space-joined chunk is as long as its sentences plus one space per boundary |
| SymptomMatching.Lookup | servers/symptom_server/symptom.py:180 | `dict.get`: absent exactly when no row has the key; otherwise the synonyms of the first row with that key |
| SymptomMatching.MatchTags | client/clinical_assistant.py:84-91 | the nested loop with inner `break` builds exactly `MatchedTags`, the keys of matching rows in table order (the same loop as servers/symptom_server/symptom.py:112-121) |
| SymptomMatching.MatchedTagsMembership | client/clinical_assistant.py:87-91 | a tag is appended if and only if one of its synonyms occurs in the lower-cased text |
| SymptomMatching.MatchedTagsDistinct | servers/symptom_server/symptom.py:117-121 | with distinct table keys no tag is appended twice |
| SymptomMatching.MatchedTagsBound | servers/symptom_server/symptom.py:134 | the list has at most one entry per table row, so `local_matching` is at most 1 |
| SymptomMatching.NoSynonymNoTags | client/clinical_assistant.py:87-91 | when no synonym occurs in the text, no tag is produced |
| SymptomMatching.EmptyTextNoTags | client/clinical_assistant.py:82-97 | empty input gives no tag when every synonym is non-empty |
| ClinicalAssistant.SymptomsDb | client/clinical_assistant.py:19-29 | `_load_symptoms_db`: the literal, row for row, in insertion order |
| ClinicalAssistant.NormalizeSymptoms | client/clinical_assistant.py:82-97 | keeps the original input; the tag set holds exactly the tags with an occurring synonym; the count is the size of that set |
| ClinicalAssistant.SymptomsDbWellFormed | client/clinical_assistant.py:19-29 | the client's symptom table has distinct keys and no empty synonym |
| ClinicalAssistant.EmptyTextGivesNoSymptoms | client/clinical_assistant.py:82-97 | the empty text matches no tag of the loaded table |
| ClinicalAssistant.SynonymAtMatches | client/clinical_assistant.py:89-90 | a synonym found at a position makes its row's tag match |
| ClinicalAssistant.SampleSentenceMatches | client/clinical_assistant.py:19-29 | "I have been feeling tired with a fever and cough" matches fever, cough and fatigue |
| ClinicalAssistant.ConditionsDb | client/clinical_assistant.py:31-54 | `_load_conditions_db`: the literal, row for row, in insertion order, each key tuple as a set |
| ClinicalAssistant.Fallback | client/clinical_assistant.py:120-124 | the fallback bundle literal: one condition, urgency "unknown", likelihood 1.0 |
| ClinicalAssistant.Jaccard | client/clinical_assistant.py:107-111 | intersection over union with a positive denominator and value at most 1; positive exactly when the sets overlap; 1 exactly when they are equal and non-empty; 0 for two empty sets |
| ClinicalAssistant.GreaterAfterNotGreater | client/clinical_assistant.py:113-115 | exact comparison of scores is transitive across a kept and a replaced best score |
| ClinicalAssistant.GetDifferentialDiagnosis | client/clinical_assistant.py:99-124 | the fallback bundle when no entry overlaps the symptoms; otherwise the bundle of the entry with a positive score above every earlier entry and not beaten by any later one; well-formed tables give a well-formed bundle |
| ClinicalAssistant.FirstBestUnique | client/clinical_assistant.py:106-115 | at most one entry is the first strict maximum, so the choice is determined |
| ClinicalAssistant.TieGoesToEarlier | client/clinical_assistant.py:113 | an entry that does not score strictly higher than some earlier entry is never chosen; equal scores are equal as values (1/3 ties with 2/6), so the later of two tied entries loses (strict `>`) |
| ClinicalAssistant.ExactMatchIsFirstBest | client/clinical_assistant.py:106-115 | the first entry whose combination equals the non-empty symptom set is chosen |
| ClinicalAssistant.ConditionsDbWellFormed | client/clinical_assistant.py:31-54 | every stored bundle and the fallback have as many likelihoods as conditions |
| ClinicalAssistant.InfluenzaEntryChosen | client/clinical_assistant.py:31-54 | {fever, cough, fatigue} selects the Influenza/COVID-19 bundle over the partial matches |
| ClinicalAssistant.FeverAloneTieBreak | client/clinical_assistant.py:113-115 | {fever} ties at 1/2 between the first two entries and the first one is chosen |
| ClinicalAssistant.GuidelinesDb | client/clinical_assistant.py:56-80 | `_load_guidelines_db`: the literal, entry for entry, strings as written |
| ClinicalAssistant.GetTreatmentGuidelines | client/clinical_assistant.py:126-131 | the stored record for a known condition; otherwise the message naming the condition and the fixed recommendation |
| ClinicalAssistant.GuidelinesCoverage | client/clinical_assistant.py:56-80 | a stored record exists exactly for the three listed conditions; the fallback's condition has none |
| SymptomServer.ServerSymptomsDb | servers/symptom_server/symptom.py:14-37 | `load_symptoms_database`: the literal, row for row, in insertion order (keys and synonym lists zipped) |
| SymptomServer.ServerSymptomsDbKeys | servers/symptom_server/symptom.py:14-37 | the server's table has twenty distinct keys |
| SymptomServer.LocalMatching | servers/symptom_server/symptom.py:111-134 | the tag set holds exactly the tags with an occurring synonym; `len(normalized)` equals the set size and is at most the table size |
| SymptomServer.DistinctCard | servers/symptom_server/symptom.py:130 | a list without repeats is as long as its set |
| SymptomServer.GetSymptomVariations | servers/symptom_server/symptom.py:178-187 | the lower-cased `symptom` argument, empty if absent; its stored synonyms or `[]` when no row has it; `count` is their number |
| SymptomServer.VariationsDriveMatching | servers/symptom_server/symptom.py:180 | any reported synonym that occurs in a text makes the matcher report the looked-up tag |
| SymptomServer.VariationsOfCapitalisedFever | servers/symptom_server/symptom.py:179-180 | the argument "Fever" is lower-cased and yields fever's seven synonyms |
| TextChunking.FindBreak | servers/symptom_server/symptom.py:91 | the first position at or after a start where whitespace follows `.`, `!` or `?`, and none before it; none when there is no such position |
| TextChunking.SkipSpaces | servers/symptom_server/symptom.py:91 | the greedy `\s+`: the end of the whitespace run from a position |
| TextChunking.SplitSentences | servers/symptom_server/symptom.py:91 | `re.split` on the pattern: never an empty list, and the first sentence is a prefix of the text |
| TextChunking.Separators | servers/symptom_server/symptom.py:91 | one dropped separator per split point, so one fewer than the sentences |
| TextChunking.SplitSentencesRoundTrip | servers/symptom_server/symptom.py:91 | the sentences with the dropped separators put back between them give the text again |
| TextChunking.SplitSentencesSeparators | servers/knowledge_server/server.py:20 | every dropped separator is a non-empty run of `\s` characters |
| TextChunking.SplitSentencesNoLeadingSpace | servers/guidelines_server/server.py:19 | the `\s+` is greedy: no sentence after the first starts with whitespace |
| TextChunking.SplitSentencesNoBreak | servers/symptom_server/symptom.py:91 | no sentence contains a split point (whitespace right after `.`, `!` or `?`): every split point of the text was used |
| TextChunking.SplitSentencesTerminated | servers/knowledge_server/server.py:20 | every sentence but the last is non-empty and ends with its terminator |
| TextChunking.SplitSentencesLength | servers/guidelines_server/server.py:19 | the sentences together are no longer than the text |
| TextChunking.PackSentences | servers/symptom_server/symptom.py:92-109 | the chunks are the space-joined runs of a greedy packing of exactly the given sentences; non-empty input gives at least one chunk |
| TextChunking.PackStep | servers/symptom_server/symptom.py:97-104 | each iteration (close the run on overflow, else extend it) keeps the loop invariant |
| TextChunking.FinishPacking | servers/symptom_server/symptom.py:106-107 | flushing the last run completes the greedy packing |
| TextChunking.SplitTextIntoChunks | servers/knowledge_server/server.py:14-38 | text within the limit (1000 when not given) is the single chunk; otherwise the greedy packing of its sentences; never empty |
| TextChunking.ChunkShape | servers/guidelines_server/server.py:24-35 | a chunk is its run joined by spaces; a one-sentence chunk is that sentence, however long; a longer chunk is at most the limit plus its spaces |
| TextChunking.FirstRunIsLongest | servers/symptom_server/symptom.py:98 | no run of two or more sentences within the limit extends past the greedy first run |
| TextChunking.GreedyPackingUnique | servers/guidelines_server/server.py:13-37 | two packings that both satisfy the greedy rules are equal, so the rules determine the chunks |
| McpContext.PyTail | utils/mcp_context.py:45 | Python's `s[start:]`: a suffix of `s`; length `len - start` clamped at 0 for `start >= 0`, `min(-start, len)` for negative `start` |
| McpContext.ContextWindow | utils/mcp_context.py:43-45 | `n >= 1` gives the last `min(n, len)` turns; `n == 0` gives the whole history; `n < 0` drops the first `-n` turns |
| McpContext.WindowAfterAppend | utils/mcp_context.py:43-45 | after a turn is added, the window of `n` is the previous window of `n - 1` then the new turn; for `n == 1` only the new turn |
| McpContext.WideWindowIsWholeHistory | utils/mcp_context.py:45 | a window at least as large as the history is the whole history |
| McpContext.ContextManager.constructor | utils/mcp_context.py:6-15 | empty history, state and tools; creation then last-update time read from the clock |
| McpContext.ContextManager.UpdateTimestamp | utils/mcp_context.py:55-57 | only `last_updated` changes, to a fresh clock reading |
| McpContext.ContextManager.AddConversationTurn | utils/mcp_context.py:17-26 | appends exactly one turn with the given role and content, a fresh timestamp, and metadata `{}` when none is given; earlier turns, state, tools and `created_at` unchanged; `last_updated` refreshed; timestamp ordering kept |
| McpContext.ContextManager.UpdateSystemState | utils/mcp_context.py:28-31 | `state[key] := value`; other keys, history and tools unchanged |
| McpContext.ContextManager.RegisterTool | utils/mcp_context.py:33-36 | adds the name; no change to the set when already present |
| McpContext.ContextManager.UnregisterTool | utils/mcp_context.py:38-41 | removes the name; an absent name leaves the set unchanged |
| McpContext.ContextManager.GetContextWindow | utils/mcp_context.py:43-45 | the window of the current history (10 turns when no size is given), with the `[-0:]` and negative-size behaviour |
| McpContext.ContextManager.GetSystemState | utils/mcp_context.py:47-49 | a value with the same keys and values as the state; reading it changes nothing |
| McpContext.ContextManager.GetActiveTools | utils/mcp_context.py:51-53 | a value with the same tool names; reading it changes nothing |
| McpContext.ContextManager.ClearContext | utils/mcp_context.py:70-80 | history, state and tools emptied; `created_at` kept; `last_updated` refreshed |

## Left out

- The LLM call, prompt assembly in `analyze_patient_case` and the console `main`: foreign calls and terminal I/O (client/clinical_assistant.py:133-221).
- The HTTP queries (QuickUMLS, scispaCy, OpenFDA, RxNorm, MedlinePlus, NICE and other guideline sites), `get_condition_info`, `get_guidelines`, and the MCP `list_tools`/`call_tool` plumbing apart from the variations lookup: network and library glue.
- SymptomServer.GetSymptomVariations: the tool arguments are typed as a map from strings to strings, following the tool's input schema (servers/symptom_server/symptom.py:163-166). A `symptom` value that is null or not a string, for which `.lower()` (servers/symptom_server/symptom.py:179) raises `AttributeError`, cannot be expressed.
- SymptomServer.LocalMatching: returns the numerator `len(normalized)` of the `local_matching` confidence rather than the float ratio. The other confidence fields and the event-loop timestamp come from network results and a clock.
- ClinicalAssistant.Jaccard: the float division is replaced by an exact fraction, and scores are compared by cross-multiplication. This is exact where floats could in principle round two different ratios to the same value.
- ClinicalAssistant.GetDifferentialDiagnosis: the input is taken as a set, which is what the source converts its list to first. The `if best_match` truthiness test is modelled as "some entry was recorded", since every stored bundle is a non-empty dict.
- ClinicalAssistant.NormalizeSymptoms: returns a set rather than `list(set(...))`, whose order is Python's hash order.
- Likelihoods are opaque `real` values. Urgency is the three values that occur ("low", "moderate", "unknown").
- Text.Lower: only ASCII letters are lower-cased, not the full Unicode `str.lower`. Every table synonym is lower-case ASCII, but a non-ASCII capital that Python lower-cases to an ASCII letter is missed: U+212A KELVIN SIGN lower-cases to `k`, so `"BLOC\u212AED NOSE"` matches `runny_nose` in the source (client/clinical_assistant.py:27, 85) and matches nothing here. Capitals whose lower case is longer (U+0130 becomes `i` plus a combining dot) would also change the text's length, which `Lower` keeps.
- ClinicalAssistant.SampleSentenceMatches: proves that the three tags are matched but not that no other tag is. The "my joints hurt" example (no tag, so the fallback bundle) is not evaluated on the concrete strings. The general facts it relies on are proved: `NoSynonymNoTags` and the fallback clause of `GetDifferentialDiagnosis`.
- McpContext.ContextManager: `datetime.now()` is an abstract counter that advances by one per reading. ISO-8601 strings and real clock values are not modelled, so two readings are always distinct and increasing.
- McpContext.ContextManager: stored values, metadata and turns are modelled as values, so aliasing is not captured. In the source, `update_system_state` stores a reference to `value` (utils/mcp_context.py:30), `add_conversation_turn` keeps the caller's metadata dict (utils/mcp_context.py:23), `get_context_window` returns the stored turn dicts themselves (utils/mcp_context.py:45), and the `.copy()` in `get_system_state` and `get_active_tools` is shallow (utils/mcp_context.py:49, 53). A caller that mutates any of these objects later changes the context, or sees its changes; the model cannot express that.
- ClinicalAssistant.GuidelinesDb: the Upper Respiratory Infection red flag keeps the characters the source has, `¬∞F` (U+00AC U+221E: the UTF-8 bytes of a degree sign read as Mac Roman), not a repaired `°F`.
- `save_context` / `load_context`: file I/O and JSON; `json.dump` of the tool set would fail in the source anyway.
- setup.py and clinical_launcher.py: packaging and an entry point.
