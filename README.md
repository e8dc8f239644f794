# Document processor core, modelled in Dafny

This project models the decision-making part of `DocumentProcessor` in
`Backend/processor.py` of the Document Intelligence Platform:

- `sanitize_for_json`, the rewrite that makes a metadata tree safe for a JSON encoder;
- `get_file_type` and the client name that `re.sub(r"\..*$", "", filename)` derives from a file name;
- the metadata merge in `process_document`, which combines the language model's JSON reply,
  Docling's metadata and the file-name-derived client name into the record
  `{file_type, language, layout, client_name}`;
- the result shaping in `extract_json_with_schema`, and the choice between its two prompts;
- `find_suggested_prompt`, the two-phase prompt resolver. Phase 1 looks for an exact
  client-name match. Phase 2 is a best-of scan over layout-similarity scores, with a
  threshold of 70 and a strict `>`.

Python values are the datatype `Json.Value`. Floats are classified rather than computed:
`Num` (finite), `NaN` and `Inf`. Dicts are insertion-ordered entry lists. `Other(repr, dumps)`
stands for any other object: `repr` is its `str()` text, and `dumps` says whether `json.dumps`
accepts it.

The language model, Docling, `json.loads` and the SQL cursor are inputs:
- a reply is its raw text together with the `Json.Parse` outcome `json.loads` gives for it;
- the table is a sequence of `PromptSuggestion.Row`;
- the model's verdict on the i-th similarity candidate is `judge(i)`. It says the layout did not
  parse, the call raised, the reply held no number, or gives the score.

`PromptSuggestion.FindSuggestedPrompt` is imperative, like the source's `for` loop. Its
`while` loop keeps `(bestPrompt, bestScore)` equal to the specification fold `Scan` over the
candidates seen so far. It also counts the similarity calls it makes.

What the code does not do, although a reader of the system's description might expect it (the model follows the code):
- `extract_json_with_schema` returns the parsed reply unchanged. Missing schema keys are not
  filled with `"NaN"` and extra keys are not dropped (`SchemaExtraction.ReplyKeysNotChecked`).
- A key the model's metadata object holds wins even when its value is empty or null. The
  fallback applies only when the key is absent.
- The client name fallback removes everything from the first dot of the last line. It does not
  remove only the trailing extension (`report.v2.pdf` gives `report`).
- `process_document` returns Docling's markdown as it is; no language-model structuring pass
  exists in this file.
- There is no vector index and no `search` operation in this code.

## Model

| member | source | states |
|---|---|---|
| `Sanitize.SanitizeForJson` | Backend/processor.py:12-27 | the result is clean: no NaN or infinity anywhere in its nested lists and dicts, string keys only, distinct keys, no object json.dumps refuses |
| `Sanitize.SanitizeFixesClean` | Backend/processor.py:12-27 | a value that is already clean comes back unchanged (finite floats, strings, ints, dumps-able objects, clean containers) |
| `Sanitize.SanitizeIdempotent` | Backend/processor.py:12-27 | sanitising twice equals sanitising once |
| `Sanitize.SanitizeFloats` | Backend/processor.py:14-17 | a finite float is kept; NaN, +inf and -inf become the string "NaN" |
| `Sanitize.SanitizeOther` | Backend/processor.py:22-27 | an object json.dumps refuses becomes its str() text; one it accepts is kept unchanged |
| `Sanitize.SanitizeList` | Backend/processor.py:20-21 | a list stays a list of the same length and order, each element sanitised |
| `Sanitize.SanitizeDictOrder` | Backend/processor.py:18-19 | when no two keys print the same, every entry keeps its position, with key str(k) and the sanitised value |
| `Sanitize.SanitizeDictLastWins` | Backend/processor.py:18-19 | every key of a dict survives as str(k), holding the sanitised value of the last entry whose key prints the same; every entry of the result comes from some entry of the input |
| `Sanitize.SanitizeDictCollision` | Backend/processor.py:19 | two keys that print the same collapse into one entry at the first one's position holding the later value |
| `Sanitize.IndexOf` | Backend/processor.py:19 | the position found holds the key; no position means the key is absent |
| `Sanitize.Put` | Backend/processor.py:19 | dict assignment: the new pair is present and nothing else is added; a new key is appended last; an existing key keeps its position and the length, takes the new value there, and every other entry stays where it was |
| `Sanitize.Collect` | Backend/processor.py:19 | the comprehension's dict has distinct keys and holds only entries it was given; every key it was given is present, holding the value of the last entry with that key |
| `Sanitize.PutGet` | Backend/processor.py:19 | after dict[k] = v, looking up k gives v and every other key gives what it gave before |
| `Sanitize.CollectStep` | Backend/processor.py:19 | one more assignment of the comprehension keeps the dict's keys distinct, its entries drawn from the input, and every key holding its last value |
| `Sanitize.PutDistinct` | Backend/processor.py:19 | assigning into a dict keeps its keys distinct |
| `Sanitize.CollectDistinct` | Backend/processor.py:19 | entries with distinct keys, assigned in order, rebuild the same dict |
| `Sanitize.CollectSameKey` | Backend/processor.py:19 | assigning one key twice leaves a single entry holding the second value |
| `FileNames.FileType` | Backend/processor.py:30-33 | the file type never contains a dot |
| `FileNames.FileTypeOfExtension` | Backend/processor.py:30-33 | a name ending in "." and one or more non-dot characters yields those characters lower-cased |
| `FileNames.FileTypeWithoutExtension` | Backend/processor.py:30-33 | a name with no dot, or ending in a dot, yields "unknown" |
| `FileNames.LastDot` | Backend/processor.py:32 | the position found holds a dot and no dot follows it; no position means no dot at all |
| `FileNames.Lower` | Backend/processor.py:33 | lower-casing keeps the length, leaves no capital A-Z, turns each capital into its small letter, and keeps every other character |
| `FileNames.LowerIdempotent` | Backend/processor.py:33 | lower-casing twice changes nothing more |
| `FileNames.StripExtension` | Backend/processor.py:146 | the client name is never longer than the name; when it differs, it is the name cut at a dot of the last line, with that line's rest removed and a final newline kept |
| `FileNames.StripExtensionCut` | Backend/processor.py:146 | the removed part holds no newline |
| `FileNames.StripExtensionSingleLine` | Backend/processor.py:146 | for a name without newlines the client name is a prefix with no dot, followed in the name by a dot unless it is the whole name, and is the whole name when there is no dot |
| `FileNames.StripExtensionFinalNewline` | Backend/processor.py:146 | a final newline survives the substitution and the line before it is stripped as if alone |
| `FileNames.StripExtensionLastLine` | Backend/processor.py:146 | only the last line is stripped; earlier lines come through unchanged |
| `Json.Get` | Backend/processor.py:151-153 | dict.get finds nothing exactly when no entry has the key, and otherwise a value stored under it |
| `Json.GetOr` | Backend/processor.py:144-153 | dict.get with a default returns a value stored under the key, or the default when no entry has the key; with distinct keys, the value at the key's position |
| `Json.GetDistinct` | Backend/processor.py:151-153 | in a dict with distinct keys, get returns the value stored at a key's position |
| `Metadata.FallbackMeta` | Backend/processor.py:142-147 | the fallback dict has exactly the keys language, layout, client_name, holding Docling's language or "NaN", an empty list and the stripped file name |
| `Metadata.MetaRecord` | Backend/processor.py:149-154 | the normalised dict literal has the four keys in order, distinct, each holding the value given for it |
| `Metadata.ResultRecord` | Backend/processor.py:156-159 | the returned dict has the keys structured_markdown and metadata, holding the markdown and the metadata given |
| `Metadata.Merge` | Backend/processor.py:149-154 | the normalised record has exactly the keys file_type, language, layout, client_name, in that order |
| `Metadata.NormalizeAsWritten` | Backend/processor.py:140-154 | the step fails exactly when the reply parses to something other than an object; on success it yields exactly the four keys |
| `Metadata.Normalize` | Backend/processor.py:140-154 | the total version always yields a dict with exactly the four keys, all distinct |
| `Metadata.ProcessDocument` | Backend/processor.py:118-159 | the result has the keys structured_markdown and metadata, holding Docling's markdown unchanged and the normalised metadata; it fails exactly when the metadata step does |
| `Metadata.FileTypeFromName` | Backend/processor.py:150 | file_type always comes from get_file_type of the file name |
| `Metadata.MergePrefersReply` | Backend/processor.py:151-153 | a key present in the reply object is taken whatever its value; an absent one falls back to Docling's language or "NaN", to [], and to the stripped file name |
| `Metadata.MalformedReplyFallsBack` | Backend/processor.py:140-154 | with an unparseable reply the record is fixed by the fallbacks: Docling's language or "NaN", an empty layout, the stripped file name |
| `Metadata.NonObjectReplyFails` | Backend/processor.py:140-154 | a reply parsing to an array, string, number, boolean or null fails with the AttributeError of .get |
| `Metadata.EmptyArrayReplyFails` | Backend/processor.py:141 | the reply "[]" makes the metadata step fail |
| `Metadata.NormalizeAgrees` | Backend/processor.py:140-154 | wherever the step as written succeeds, the total version gives the same record |
| `SchemaExtraction.ParseErrorResult` | Backend/processor.py:197 | the error object has exactly the keys error and raw, holding "Failed to parse JSON" and the raw reply |
| `SchemaExtraction.ChoosePrompt` | Backend/processor.py:171-190 | the prompt with the suggestion is chosen exactly when a non-empty suggested prompt is given, and it carries that suggestion |
| `SchemaExtraction.ExtractJsonWithSchema` | Backend/processor.py:192-197 | a parsed reply is returned unchanged; an unparseable one gives exactly {"error": "Failed to parse JSON", "raw": raw text} |
| `SchemaExtraction.ReplyKeysNotChecked` | Backend/processor.py:194-195 | the parsed reply is not checked against the schema: a missing schema key stays missing, an extra key stays |
| `SchemaExtraction.ErrorObjectAmbiguous` | Backend/processor.py:194-197 | a reply that is the error object itself cannot be told apart from an unparseable reply |
| `PromptSuggestion.ExactMatch` | Backend/processor.py:206-212 | no match exactly when no row has the current client and a non-null prompt; a match is the prompt of such a row |
| `PromptSuggestion.PromptedIndices` | Backend/processor.py:215-218 | the positions listed are strictly increasing and each holds a row with a non-null prompt |
| `PromptSuggestion.PromptedIndicesComplete` | Backend/processor.py:215-218 | every row with a non-null prompt has its position listed |
| `PromptSuggestion.Candidates` | Backend/processor.py:215-218 | the candidates are the rows with a non-null prompt, filtered in table order: the k-th candidate is the row at the k-th such position; there are none exactly when no row has a prompt, every such row is a candidate and every candidate is such a row |
| `PromptSuggestion.CandidatesStep` | Backend/processor.py:215-218 | one more row extends the candidates by that row exactly when it has a prompt |
| `PromptSuggestion.FilterFacts` | Backend/processor.py:215-218 | a list of the rows at all prompted positions holds every prompted row and no other row |
| `PromptSuggestion.Step` | Backend/processor.py:250-254 | one loop pass never lowers the best score; it takes the candidate's prompt and score exactly when the score reaches 70 and beats the best so far, and otherwise keeps the best |
| `PromptSuggestion.Scan` | Backend/processor.py:226-258 | after the loop, no prompt means score 0; a prompt means a score of 70 or more that some candidate with that prompt was given |
| `PromptSuggestion.ScanExtend` | Backend/processor.py:229-258 | one more pass extends the scan and the call count by that candidate's verdict |
| `PromptSuggestion.Suggest` | Backend/processor.py:199-260 | the result is an error exactly when no row matches the client exactly, some row has a prompt, and the current layout does not parse; a suggested prompt is always the prompt of some row |
| `PromptSuggestion.ScanFromRows` | Backend/processor.py:215-258 | the prompt the scan settles on is the prompt of some row of the table |
| `PromptSuggestion.SimilarityCalls` | Backend/processor.py:223-248 | no similarity call is made when there is an exact match or the current layout does not parse, and at most one per row |
| `PromptSuggestion.CountCalls` | Backend/processor.py:229-245 | at most one similarity call per candidate |
| `PromptSuggestion.FindSuggestedPrompt` | Backend/processor.py:199-260 | the loop returns the specified suggestion (exact match, None, escaping layout error, or the scan's best prompt) and makes the specified number of similarity calls |
| `PromptSuggestion.ScanOutcome` | Backend/processor.py:226-260 | the scan ends with no prompt and score 0 when no score reaches 70, and otherwise with the winner's prompt and score |
| `PromptSuggestion.LastIsWinner` | Backend/processor.py:252-254 | a last candidate whose accepted score beats every earlier accepted score is the winner |
| `PromptSuggestion.WinnerKept` | Backend/processor.py:252-254 | a prefix's winner stays the winner when the next candidate's score does not exceed it |
| `PromptSuggestion.WinnerUnique` | Backend/processor.py:252-254 | at most one candidate is the earliest one with the highest accepted score |
| `PromptSuggestion.ScanNone` | Backend/processor.py:226-260 | the scan finds no prompt exactly when no candidate's score is 70 or more |
| `PromptSuggestion.ScanPicksWinner` | Backend/processor.py:226-260 | otherwise it returns the prompt of the earliest candidate with the highest score of 70 or more; later ties do not displace it |
| `PromptSuggestion.ScanIgnoresRejected` | Backend/processor.py:229-258 | unparseable layouts, failed calls, replies without a number and scores under 70 do not affect the scan |
| `PromptSuggestion.ExactMatchWins` | Backend/processor.py:205-212 | an exact match is returned whatever the current layout and the verdicts, with no similarity call |
| `PromptSuggestion.NoPromptsNoSuggestion` | Backend/processor.py:214-221 | with no saved prompt in the table the result is None, with no similarity call |
| `PromptSuggestion.CurrentLayoutErrorEscapes` | Backend/processor.py:224 | without an exact match but with candidates, an unparseable current layout is an error, raised before any similarity call |
| `PromptSuggestion.SimilarityMatch` | Backend/processor.py:223-260 | without an exact match the result is None exactly when no score reaches 70, else the winner's prompt, with one call per candidate whose layout parses |
| `PromptSuggestion.ThresholdEdges` | Backend/processor.py:252 | 69 is rejected, 70 is accepted over the initial 0, an equal later 70 does not displace, 71 does |

## Left out

- OCI client construction and the configuration checks of `DocumentProcessor.__init__` (Backend/processor.py:37-62): configuration files and a foreign SDK.
- `_call_oci_llm` (Backend/processor.py:78-109): a network call. Replies enter the model as inputs. A call that raises in `process_document` or `extract_json_with_schema` makes that function raise; that path is not modelled.
- `extract_with_docling` (Backend/processor.py:64-76): a library wrapper. Its markdown and metadata dict are inputs, and its failure path is not modelled.
- `json.loads`: each reply comes with its parse outcome (`Json.Parse`). The parser itself is not modelled.
- `os.path.basename`: the file name is given directly.
- SQL execution (Backend/processor.py:206-218): the two queries are functions over an in-memory row sequence. `LIMIT 1` without `ORDER BY` leaves open which matching row is returned; the model takes the first one in table order. The scan also visits candidates in table order.
- Prompt wording (Backend/processor.py:125-137, 172-190, 234-243): only which prompt branch is taken is modelled.
- The score regex `\b(\d+(?:\.\d+)?)\b` and `float()` (Backend/processor.py:249-251): the verdict oracle gives the score as a real number.
- `current_client` is a string. A `None` client, which SQL would never match, is not modelled.
- Whether `current_layout` parses is an input. A value that is not a string is used as is and always counts as parsing.
- FileNames.Lower: lower-cases ASCII letters only, because Python's Unicode case mapping (which can change length) is not modelled.
- Sanitize.SanitizeForJson: an object that json.dumps accepts (such as a tuple) passes through unchanged, so Clean does not look inside it. A tuple holding NaN keeps its NaN, as in the source.
- Backend/main.py: FastAPI endpoints, Supabase storage, temporary files and embedding generation are request plumbing and I/O.
- No vector index exists in this code, so none is modelled.

## Findings

| source | as written | input that shows it | evidently intended | confidence | as-written member | corrected member |
|---|---|---|---|---|---|---|
| Backend/processor.py:140-154 | only `json.loads` is inside the `try`; `meta_json.get` runs outside it, so a reply that parses to a non-object raises `AttributeError` and `process_document` fails | the model replies `[]` (or `"text"`, `42`, `null`) | treat any reply that is not a JSON object like an unparseable one and fall back, so the metadata step is total | medium; not executed | `Metadata.EmptyArrayReplyFails` | `Metadata.Normalize` |
