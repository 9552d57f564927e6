# Move-contract tooling: diagnostic codes, the refinement loop and the prompt registry

This project models three pieces of deterministic logic in Dafny and proves
properties about them. All three come from a toolkit that asks a language
model for Sui Move smart contracts and compiles the results.

- **Diagnostic codes and grouping.** This is `compute_error_code` and
  `collect_errors` in `gymnasuium/prompt_loader.py`.
  - A compiler diagnostic (level, code, category, optional external prefix)
    becomes a code string such as `N01005` or `Lint W04004`.
  - `collect_errors` takes the first bracketed span of the compiler output,
    decodes it and groups the records by their computed code.
  - Grouping is a `for` loop over a `defaultdict(list)`. Here it is the
    method `Grouping.GroupBy`, proved against the specification function
    `Grouping.Grouped`.
  - The partition facts are proved about `Grouped` for any record type and
    any key function:
    - every record lands in its own group;
    - group sizes add up to the input length;
    - duplicates are kept;
    - input order is preserved;
    - there is one group per distinct code.
- **The refinement loop.** This is `compile_contract` and
  `iterative_evaluation` in `neuromansui/main.py`.
  - The simulated compiler is a case-insensitive substring test.
  - The loop is the method `Refinement.IterativeEvaluation`, with `while`,
    `break` and invariants. It is proved to return exactly the passes
    described by the specification function `Refinement.Passes`, and the
    source of the last pass.
  - The language model is an oracle parameter `generate(i, prompt)`. The
    compiler is a parameter as well, and the lemmas specialise it to
    `CompileContract` where the simulated compiler matters.
  - The per-pass console output is returned as a log of
    `Pass(prompt, source, output)` records.
- **The prompt registry.** This is `PromptLoader.get_prompt`,
  `get_prompt_description` and `list_prompts` in both `prompt_loader.py`
  files.
  - The loaded registry is a two-level Python dict. It is modelled as an
    insertion-ordered sequence of distinct-key pairs, so the listing order is
    the dict order.
  - Both loaders are classes with a `prompts` field. Their lookups are
    functions that only read it, so no lookup can change the registry.
  - `list_prompts` is a method with nested `for` loops, proved equal to
    `PromptRegistry.Paths`.
  - The two variants differ in what a lookup answers:
    - the gymnasium loader answers a (content, system prompt) pair, with a
      default system prompt;
    - the neuromansui loader answers the content alone.

Module layout:

| file | module | contents |
|---|---|---|
| `wrappers.dfy` | `Wrappers` | `Option`, `Result` and `PyError` (`ValueError`) |
| `strings.dfy` | `Strings` | ASCII `lower`, `in` on strings, `split('.')`, `str(n)`, `zfill` |
| `dicts.dfy` | `Dicts` | ordered dictionaries |
| `error_codes.dfy` | `ErrorCodes` | `compute_error_code` |
| `grouping.dfy` | `Grouping` | `collect_errors` |
| `registry.dfy` | `PromptRegistry` | the loaded prompts, path parsing, lookup and listing |
| `gym_loader.dfy` | `GymPromptLoader` | the gymnasium `PromptLoader` |
| `neuro_loader.dfy` | `NeuroPromptLoader` | the neuromansui `PromptLoader` |
| `refinement.dfy` | `Refinement` | `compile_contract` and `iterative_evaluation` |

Where the code and its own documentation disagree, the model follows the code:

- **Level `Error`.** The docstring of `compute_error_code`
  (`gymnasuium/prompt_loader.py:126-131`) lists no level `"Error"`, so by its
  wording that level would fall back to its first letter. The code has its
  own case for it (`:158-159`), which also gives `E`. The result is the same
  either way; the model has the explicit case.
- **External prefix in the lint case.** The docstring (`:134`) says a present
  `external_prefix` is always prepended. The code returns from the lint case
  before it looks at the prefix (`:169-170`).
- **Features the code does not have.** The modelled code has no retry with
  exponential backoff, no session states, no persisted iteration ledger and
  no category-count or percentage-change metrics, so the model has none
  either.

A modelled observation: a namespace is a YAML file name without its
extension. If that name contains a `.` (for example `a.b.yaml`), `list_prompts`
lists paths such as `a.b.c`. `get_prompt` rejects those paths because they do
not split into two parts (`PromptRegistry.DottedNamespaceRejected`, with
`PromptRegistry.DottedNamespaceUnreachable` as an example). The
list-then-lookup round trip is therefore proved for each listed pair whose
own namespace and prompt name are dot-free, whatever the other names are.

## Model

| member | source | states |
|---|---|---|
| `ErrorCodes.ComputeErrorCode` | gymnasuium/prompt_loader.py:121-174 | Definition; no contract. The head (lint marker or external prefix, then the severity prefix) followed by the padded code and category digits. |
| `Strings.DecimalString` | gymnasuium/prompt_loader.py:165-166 | `str(n)` is a non-empty string of digits with no leading zero unless it is `0`. |
| `Strings.ZFill` | gymnasuium/prompt_loader.py:165-166 | `zfill(w)` has length max(w, \|s\|), ends with `s`, and everything before `s` is `0`. |
| `ErrorCodes.SeverityPrefix` | gymnasuium/prompt_loader.py:147-161 | BlockingError and Error give E, NonblockingError N, Warning W, Note I, Bug ICE. Any other non-empty level gives its first character. The prefix is empty exactly for the empty level. |
| `ErrorCodes.CodeDigitsAreDigits` | gymnasuium/prompt_loader.py:165-166 | The zero-padded code followed by the zero-padded category is all digits and at least five characters long. |
| `Strings.ZFillDecimal` | gymnasuium/prompt_loader.py:165-166 | `str(n).zfill(w)` is all digits and reads back as `n`: padding only adds leading zeros. |
| `Strings.ParseDecimalString` | gymnasuium/prompt_loader.py:165-166 | Reading `str(n)` back as a decimal gives `n`. |
| `Strings.DecimalLength` | gymnasuium/prompt_loader.py:165-166 | A number below 10^k has at most k decimal digits, so padding to width k makes it exactly k wide. |
| `ErrorCodes.ErrorCodeRoundTrip` | gymnasuium/prompt_loader.py:163-174 | While the code is below 100 and the category below 1000, the code string determines the head, the code and the category: its last five characters are the two code digits and the three category digits. |
| `ErrorCodes.WideCodesCollide` | gymnasuium/prompt_loader.py:165-166 | `zfill` never truncates, so code 102 with category 3 and code 10 with category 2003 both give `E102003`. |
| `ErrorCodes.ErrorExample` | tests/test_main.py:63 | Code 123 with category 1 under level Error gives `E123001`: a wide code is kept whole. |
| `ErrorCodes.LintIgnoresExternalPrefix` | gymnasuium/prompt_loader.py:169-170 | A Warning with code 4 gives "Lint W" followed by the digits, the same for every external prefix. |
| `ErrorCodes.ExternalPrefixPrepended` | gymnasuium/prompt_loader.py:172-174 | Outside the lint case, a non-empty external prefix is placed in front of the code computed without it. |
| `ErrorCodes.SampleCodes` | tests/test_collect_errors.py:81-85 | The records of the compiler-output sample give codes N01005, W02004, Lint W04004 and Lint W04001. |
| `Strings.IndexFrom` | gymnasuium/prompt_loader.py:190 | The scan behind the regex: the first index at or after the start that holds the character, or None when no later index does. |
| `Grouping.BracketSpan` | gymnasuium/prompt_loader.py:190 | The lazy match runs from the first `[` to the first `]` after it. There is no match exactly when no `[` is followed anywhere by a `]`. |
| `Grouping.ExtractArray` | gymnasuium/prompt_loader.py:190-194 | On a match the result is exactly the output from the first `[` to the first `]` after it, brackets included, with no earlier `]`. When there is no match, the result is the ValueError "No JSON array found in the compiler output." |
| `Grouping.CollectErrors` | gymnasuium/prompt_loader.py:190-205 | There are three outcomes: the no-array ValueError; "Error parsing JSON: " + the decoder's message; or the decoded records grouped as `Grouped` specifies with `ComputeErrorCode` as the key. |
| `Grouping.GroupBy` | gymnasuium/prompt_loader.py:200-205 | The append loop over a `defaultdict(list)` produces exactly `Grouped`: one group per key in order of first appearance, each holding that key's records in input order. |
| `Grouping.AddToGroup` | gymnasuium/prompt_loader.py:203 | Definition; no contract. `grouped[key].append(record)` on a `defaultdict(list)`, built from `Dicts.Put`. |
| `Grouping.GroupedStep` | gymnasuium/prompt_loader.py:201-203 | Appending one record to the input is one `grouped[key].append(record)` on the grouping of the rest. |
| `Grouping.KeysInOrderFacts` | gymnasuium/prompt_loader.py:200-205 | The group keys are exactly the computed codes of the input, each once. |
| `Grouping.GroupedDistinct` | gymnasuium/prompt_loader.py:205 | The grouping is a dictionary: no key repeats. |
| `Grouping.GroupCount` | gymnasuium/prompt_loader.py:200-205 | The number of groups equals the number of distinct computed codes. |
| `Grouping.GroupSizesSum` | gymnasuium/prompt_loader.py:200-205 | The group sizes add up to the number of input records. |
| `Grouping.MatchingMembers` | gymnasuium/prompt_loader.py:202-203 | A record is in the group of a key iff it is an input record whose computed code is that key. |
| `Grouping.MatchingEmpty` | gymnasuium/prompt_loader.py:202-203 | A key that no input record has collects no records. |
| `Grouping.RecordPlacement` | gymnasuium/prompt_loader.py:202-203 | Every input record is in the group of its own code and in no group with another key. |
| `Grouping.GroupKeepsDuplicates` | gymnasuium/prompt_loader.py:203 | A group holds a record as many times as the input does: nothing is deduplicated. |
| `Grouping.MatchingConcat` | gymnasuium/prompt_loader.py:201-203 | The group of a concatenated input is the concatenation of the groups, so input order is kept within each group. |
| `Grouping.SampleKeys` | tests/test_collect_errors.py:81-85 | The sample's group keys in order are N01005, W02004, Lint W04004 and Lint W04001. |
| `Grouping.SampleSizes` | tests/test_collect_errors.py:87-97 | Those groups have 4, 1, 1 and 1 records; the four identical ability errors are not merged. |
| `Grouping.SampleGrouping` | tests/test_collect_errors.py:87-99 | The sample groups into exactly 4 groups, each with its expected key and size. |
| `PromptRegistry.ParsePath` | gymnasuium/prompt_loader.py:63-68 | A path parses iff it has exactly one `.`; otherwise the result is the ValueError with the format message. The two parts are dot-free and joined by `.` give the path back. |
| `Strings.Split` | gymnasuium/prompt_loader.py:63 | `split('.')` gives one more part than there are separators, and no part contains one. |
| `Strings.JoinSplit` | gymnasuium/prompt_loader.py:63 | Joining the parts of `split` with the separator restores the string. |
| `Strings.SplitTwo` | neuromansui/prompt_loader.py:60-65 | Two dot-free names joined by `.` split into exactly those two names. |
| `PromptRegistry.ParseJoinPath` | neuromansui/prompt_loader.py:60-65 | A "namespace.prompt_name" built from dot-free names parses back into those names. |
| `PromptRegistry.DottedNamespaceRejected` | neuromansui/prompt_loader.py:60-65 | For every namespace containing `.` and every prompt name, the path built from them fails to parse, with the format ValueError. |
| `PromptRegistry.DottedNamespaceUnreachable` | neuromansui/prompt_loader.py:83-87 | Example: the registry with namespace `a.b` and prompt `c` lists `a.b.c`, and that path raises the format ValueError. |
| `PromptRegistry.LookupField` | neuromansui/prompt_loader.py:99-113 | The lookup raises exactly on a malformed path, with the format message. Otherwise it answers None when the namespace or the entry is missing, and else the entry's value under the key (None when absent). A value is answered only for an existing entry that holds the key. |
| `PromptRegistry.LookupFieldListed` | neuromansui/prompt_loader.py:104-111 | When the namespace and the prompt name are dot-free, the path of a listed prompt reads that key of that prompt's own entry. |
| `PromptRegistry.LookupFieldUnlisted` | neuromansui/prompt_loader.py:106-113 | A well-formed path naming no listed prompt reads None. |
| `Dicts.FindKey` | gymnasuium/prompt_loader.py:70-73 | The position of a key behind `in` and `.get`: the first position holding the key, or None when no position does. |
| `PromptRegistry.LookupEntry` | gymnasuium/prompt_loader.py:70-73 | Definition; no contract. None when the namespace is missing, else the namespace's `get(prompt_name)`. |
| `Dicts.GetItem` | gymnasuium/prompt_loader.py:73 | In a dictionary with distinct keys, looking up the key stored at a position gives the value stored there. |
| `Dicts.Put` | gymnasuium/prompt_loader.py:203 | After `d[k] = v`, `k` looks up `v` and every other key looks up what it did before. A present key keeps its position, so the key order is unchanged. A new key is appended at the end. |
| `Dicts.PutDistinct` | gymnasuium/prompt_loader.py:203 | Assigning a key keeps the dictionary's keys distinct. |
| `PromptRegistry.ListPaths` | gymnasuium/prompt_loader.py:89-93 | The nested loops build exactly `Paths`: one "namespace.prompt_name" per entry, namespace by namespace, in dict order. |
| `PromptRegistry.PairsLength` | gymnasuium/prompt_loader.py:89-93 | The listing has exactly as many elements as the registry has entries. |
| `PromptRegistry.PairsAt` | gymnasuium/prompt_loader.py:90-92 | The j-th prompt of the i-th namespace is listed right after all entries of the earlier namespaces. |
| `PromptRegistry.PairsMembers` | gymnasuium/prompt_loader.py:90-92 | A pair is listed iff some namespace has that name and holds that prompt name. |
| `PromptRegistry.PairsDistinct` | gymnasuium/prompt_loader.py:90-92 | No (namespace, prompt name) pair is listed twice. |
| `PromptRegistry.LookupIffListed` | gymnasuium/prompt_loader.py:70-75 | The entry lookup finds an entry iff the pair is listed. |
| `PromptRegistry.LookupListed` | gymnasuium/prompt_loader.py:70-73 | Looking up a listed pair finds the entry stored at that position. |
| `PromptRegistry.ListedPathsParse` | neuromansui/prompt_loader.py:60-87 | A listed path whose own namespace and prompt name are dot-free parses back, without raising, into the pair it was built from. |
| `GymPromptLoader.PromptLoader.constructor` | gymnasuium/prompt_loader.py:20-29 | The loader holds the given, already loaded registry. |
| `GymPromptLoader.PromptLoader.GetPrompt` | gymnasuium/prompt_loader.py:63-80 | It raises the format ValueError exactly when the path does not have exactly one `.`. |
| `GymPromptLoader.Found` | gymnasuium/prompt_loader.py:74-80 | Definition; no contract. (None, None) for an empty entry, else `get('content')` and `get('system_prompt', default)`; `GetListedPrompt` states it. |
| `GymPromptLoader.PromptLoader.GetListedPrompt` | gymnasuium/prompt_loader.py:68-80 | When the namespace and the prompt name are dot-free, a listed prompt's path does not raise. An empty entry answers (None, None). Otherwise the answer is the entry's content (None if absent) and its system prompt, defaulting to "You are an expert in Sui Move smart contract development." when the entry has none. |
| `GymPromptLoader.PromptLoader.GetUnlistedPrompt` | gymnasuium/prompt_loader.py:70-75 | A well-formed path with no namespace or no entry answers (None, None). |
| `GymPromptLoader.PromptLoader.GetPromptDescription` | gymnasuium/prompt_loader.py:105-119 | It raises exactly on a malformed path. Otherwise it answers the entry's "description" value, and None when the namespace, the entry or the key is missing. |
| `GymPromptLoader.PromptLoader.ListPrompts` | gymnasuium/prompt_loader.py:82-93 | The result equals `Paths` and has one element per entry. Every element whose namespace and prompt name are dot-free parses back into its pair. |
| `NeuroPromptLoader.PromptLoader.constructor` | neuromansui/prompt_loader.py:17-26 | The loader holds the given, already loaded registry. |
| `NeuroPromptLoader.PromptLoader.GetPrompt` | neuromansui/prompt_loader.py:60-74 | It raises exactly on a malformed path. Otherwise it answers the entry's "content" value, and None when the namespace, the entry or the key is missing. Content is answered only for an existing entry with a "content" key. |
| `NeuroPromptLoader.PromptLoader.GetListedPrompt` | neuromansui/prompt_loader.py:65-74 | When the namespace and the prompt name are dot-free, a listed prompt's path answers that entry's "content" value, or None without one. |
| `NeuroPromptLoader.PromptLoader.GetPromptDescription` | neuromansui/prompt_loader.py:89-113 | It raises exactly on a malformed path. Otherwise it answers the entry's "description" value, and None when the namespace, the entry or the key is missing. |
| `NeuroPromptLoader.PromptLoader.ListPrompts` | neuromansui/prompt_loader.py:76-87 | The result equals `Paths` and has one element per entry. Every element whose namespace and prompt name are dot-free parses back into its pair. |
| `Strings.Lower` | neuromansui/main.py:32 | `lower()` keeps the length and lower-cases character by character (ASCII). |
| `Strings.ContainsIffOccurs` | neuromansui/main.py:32 | Substring `in` holds iff the pattern occurs at some position. |
| `Strings.Contains` | neuromansui/main.py:32 | Definition; no contract. Python's substring `in`, also used for the test at :88; `ContainsIffOccurs` states its meaning. |
| `Refinement.CompileContract` | neuromansui/main.py:32-35 | The output is one of the two messages. It is "Compilation Successful" iff "error" occurs at no position of the lower-cased source. |
| `Refinement.CompileOutcome` | neuromansui/main.py:32-35 | The simulated compiler's output passes the loop's "Successful" test iff the lower-cased source has no "error". |
| `Refinement.IterativeEvaluation` | neuromansui/main.py:57-100 | The loop makes exactly the passes of `Passes` and returns the source of the last one. The log is non-empty and at most `max_iterations` long, or empty with result "" when `max_iterations <= 0`. |
| `Refinement.FullPrompt` | neuromansui/main.py:75 | Definition; no contract. `f"{base_prompt}\n\nFeedback: {feedback}"`; `InitialPrompt` and `PromptChain` state it. |
| `Refinement.RetryFeedback` | neuromansui/main.py:93-96 | Definition; no contract. The retry wrapper around the failed pass's compiler output; `PromptChain` states it. |
| `Refinement.RunIsPasses` | neuromansui/main.py:71-96 | The loop's accumulating run appends to its log exactly the passes `PassesFrom` describes. |
| `Refinement.PassesFromLength` | neuromansui/main.py:71 | From pass i with bound max, at most max - i passes are made, and at least one while i < max. |
| `Refinement.PassCount` | neuromansui/main.py:71 | At most `max_iterations` passes; none exactly when `max_iterations <= 0`. |
| `Refinement.PassesFromCalls` | neuromansui/main.py:75-83 | Pass k of a run entered at pass i is generated with index i + k from its own prompt, and its output is the compiler applied to its source. |
| `Refinement.PassCalls` | neuromansui/main.py:75-83 | Each pass makes one generate call (with its index and prompt), then one compile call on that source. |
| `Refinement.PassesFromPrompts` | neuromansui/main.py:75-96 | A run's first prompt carries the feedback it was entered with. Every later prompt carries the retry wrapper around the previous pass's output. |
| `Refinement.InitialPrompt` | neuromansui/main.py:68-75 | The first prompt is `base_prompt + "\n\nFeedback: Initial run"`. |
| `Refinement.PromptChain` | neuromansui/main.py:68-96 | The first prompt is `base_prompt + "\n\nFeedback: Initial run"`. The prompt of pass k > 0 is built from pass k - 1's compiler output only, inside the "did not compile … Please revise" wrapper. |
| `Refinement.PassesFromFailBeforeLast` | neuromansui/main.py:88-90 | Every pass before the last one of a run failed the "Successful" test. |
| `Refinement.PassesFromExhausted` | neuromansui/main.py:88-96 | A run whose last pass failed made all of its allowed passes. |
| `Refinement.EarlyExit` | neuromansui/main.py:88-90 | No pass follows a successful one. A run that stops before the bound ended with a success. |
| `Refinement.SimulatedRun` | neuromansui/main.py:71-90 | With the simulated compiler, the first source without "error" (any case), at pass k, makes the run exactly k + 1 passes long. If every source contains it, exactly `max_iterations` passes are made. |
| `Refinement.FailThenSucceed` | tests/test_main.py:151-155 | With two passes allowed, a failed first pass and a successful second one give exactly two compile calls. The result is the second source. |

## Left out

- `_load_all_prompts` in both loaders (directory listing, file reading, YAML
  parsing, error printing): filesystem I/O. The constructors take the already
  loaded registry, and `FileNotFoundError` is not modelled.
- YAML values that are not strings or null, and entries that are not
  mappings: out of scope. An entry is a mapping from keys to optional strings. A null
  entry is represented by the empty mapping; both are falsy, so every lookup
  answers the same.
- `json.loads`: a library call. `CollectErrors` takes the decoder as a
  parameter that returns the records or an error message. The message text is
  the decoder's own.
- `compute_error_code` on records with a missing or non-integer `code` or
  `category` (which Python would print as `None`): out of scope. The model's
  records have natural-number codes and categories and a string level, where
  a missing level is the empty string. Negative integer codes or categories
  are out of scope too: Python pads them after the sign
  (`str(-1).zfill(3) == "-01"`), which `nat` cannot express. So is an
  `external_prefix` that is not a string: the model's prefix is an optional
  string, and an empty one counts as absent.
- The sample records' file fields are shortened (the last record's long
  dependency path becomes `object.move`). No computed code depends on the
  file.
- A JSON array whose elements are not objects (for example `[1]`): out of
  scope. `compute_error_code` would raise `AttributeError` calling `.get` on
  such an element (`gymnasuium/prompt_loader.py:142`). The decoder parameter
  of `CollectErrors` answers diagnostic records only, so this input cannot be
  expressed.
- The default `max_iterations = 5` of `iterative_evaluation`
  (`neuromansui/main.py:57`): not modelled. `IterativeEvaluation` always
  takes the bound as an argument; a call without one behaves as a call with 5.
- `generate_contract`, the OpenAI client and `load_dotenv`: network and
  foreign calls. The model's answer is the oracle parameter `generate`.
- `time.sleep(1)` between passes, and every `print`: timing and console
  output. What is printed in each pass (the generated source and the
  compiler's output) is returned in the `log` of passes. Each logged pass also
  keeps the prompt it was sent, which is not printed.
- `argparse`, `main` and `list_available_prompts`: the command-line front
  end and console output.
- `Strings.Lower`: lowers ASCII letters only. Python's `str.lower` also
  changes non-ASCII letters. The only substring tested is "error", and Python
  lower-cases no non-ASCII character to one of its letters, so the outcome
  of `compile_contract` is the same. This is argued here, not proved.
- The `compile_contract` of `tests/test_main.py` (compiler subprocess,
  ANSI stripping, error tables) and its `iterative_evaluation` with a system
  prompt: they are not the functions of `neuromansui/main.py`. That test is
  used only for its two-pass scenario.
