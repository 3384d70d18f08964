# Pretty-CLEVR bookkeeping, modelled in Dafny

This project models the discrete core of the Pretty-CLEVR diagnostic
dataset (`tasks/diagnostics/pretty/data.py`):

- the **symbol vocabulary** of `PrettyClevrGenerator`: eight color names, then
  eight marker glyphs, numbered by position (`s2i`), and the inverse (`i2s`);
- the **scene** a generator draws: object `i` gets the `i`-th position, the
  `i`-th entry of the shuffled color list and the marker `markers[i]`;
- the **question synthesis** loop: for every start object, hop count and
  anchor kind, an `(anchor, n_jumps, target)` triple read off a path of
  object indices;
- the **files** `generate` writes (`questions.csv` lines in the format
  `"%s, %s, %s, %d, %s\n"`, the `%05d.json` state files) and what
  `PrettyClevr.load_data` and `PrettyClevr.sample_generator` read back
  from them (`strip()`, `split(", ")`, `int()`, `s2i` lookups, the
  `n_repeat` loop).

Randomness is a parameter: `random.sample` becomes an index permutation
(`Perms.IsPermutation`), and the path `greedy` returns becomes an input that
satisfies `Questions.IsPath`. Files are values: a state file is the object
list it holds, the image folder is a map from file name to pixels, and
`questions.csv` is its text.

Modules, one per file: `Wrappers` (Option/Result), `Perms` (permutations,
`len(range(n))`), `Vocabulary`, `Scene`, `Questions`, `Lines` (the text
format), `Dataset` (`generate`, `load_data`, `sample_generator`) and
`ReadBack` (what reading a generated split gives).

The four loops of the source are methods proved against specification
functions. `Questions.Synthesize` is proved against `AllQuestions`.
`Dataset.Generate` is proved against `QuestionFile`/`StateFiles`.
`Dataset.LoadStates` is proved against `StatesOf`, and
`Dataset.SampleStream` against `DecodeStream`. The properties are proved
about those functions.

A Python dict comprehension is modelled as a fold of its (key, value) pairs
in which a later pair overwrites an earlier one with the same key
(`Vocabulary.DictOf`).

## Model

| member | source | states |
|---|---|---|
| Vocabulary.VocabularyNumbering | tasks/diagnostics/pretty/data.py:105-109 | `s2i` has exactly the 16 symbols `colors + markers`, numbering `symbols[i]` as `i`; `i2s` is defined on exactly `0..15` with `i2s[i] == symbols[i]`; the two are inverse in both directions; `len(s2i) == 16` |
| Vocabulary.DictOfLastWins | tasks/diagnostics/pretty/data.py:107 | a comprehension's keys are exactly the pairs' keys; each key maps to the value of the last pair with that key; every entry comes from a pair |
| Vocabulary.DictOfDistinct | tasks/diagnostics/pretty/data.py:107 | with distinct keys, every pair is an entry of the dict, and nothing else is |
| Vocabulary.DictOfSize | tasks/diagnostics/pretty/data.py:109 | with distinct keys, the dict has as many entries as there are pairs |
| Vocabulary.InvertIsInverse | tasks/diagnostics/pretty/data.py:45 | inverting `s2i.items()` gives a dict defined on exactly the values, each sent to a key carrying it; with distinct values the two dicts are exact inverses |
| Scene.NewGenerator | tasks/diagnostics/pretty/data.py:111-115 | construction succeeds iff `n <= 8` (colors and markers alike); it then stores `n` and `r = 0.1`; otherwise it fails with the colors assertion, which is checked first |
| Scene.Zip | tasks/diagnostics/pretty/data.py:119 | `zip` stops at the shortest list, and entry `i` combines the `i`-th element of each list |
| Scene.AssembleObjects | tasks/diagnostics/pretty/data.py:119 | a scene has `min(len(positions), 8)` objects; object `i` has position `i`, color `colors[perm[i]]` and marker `markers[i]`; colors and markers are pairwise distinct within a scene |
| Questions.Synthesize | tasks/diagnostics/pretty/data.py:121-134 | the triple nested loop appends exactly the list `AllQuestions` specifies |
| Questions.QuestionOrder | tasks/diagnostics/pretty/data.py:121-134 | there are exactly `n * n * 2` questions, and entry `start*2n + hops*2 + k` is the question for `(start, hops, k == 0)` |
| Questions.QuestionContents | tasks/diagnostics/pretty/data.py:124-134 | a color-anchored question has anchor `objects[start].c` and target `objects[path[hops]].m`; a marker-anchored one has anchor `objects[start].m` and target `objects[path[hops]].c`; `hops` lies in `0..n-1` |
| Questions.ZeroHopQuestions | tasks/diagnostics/pretty/data.py:123-133 | as a path starts at its start object, the zero-hop questions pair an object's own color with its own marker, in both directions |
| Questions.QuestionsUseSymbols | tasks/diagnostics/pretty/data.py:127-132 | every anchor and target is the color or the marker of some object of the scene |
| Questions.BlocksLength | tasks/diagnostics/pretty/data.py:122-125 | the first `m` start objects contribute `m * 2n` questions |
| Questions.SampleScene | tasks/diagnostics/pretty/data.py:117-136 | one pass of the generator's loop: the scene is the assembled object list with one object per position, the path table fits it, and the questions are exactly `AllQuestions` |
| Perms.PermutedMultiset | tasks/diagnostics/pretty/data.py:89 | `random.sample(questions, len(questions))` reorders the questions without losing or duplicating any: same multiset |
| Perms.PermutationCovers | tasks/diagnostics/pretty/data.py:89 | a permutation of `0..k-1` contains every index below `k` |
| Lines.TrimLeft | tasks/diagnostics/pretty/data.py:56 | removes exactly the leading characters of the given whitespace set: the result is a suffix, all removed characters are in the set, and the result does not start with one |
| Lines.TrimRight | tasks/diagnostics/pretty/data.py:56 | the same for trailing characters of the set |
| Lines.Strip | tasks/diagnostics/pretty/data.py:56 | stripping gives a contiguous piece of the text; everything outside it is in the whitespace set; the piece neither starts nor ends with a character of the set. `strip()` uses `str.isspace()`'s set (`IsSpace`), `int()` the smaller set it skips (`IntSpace`) |
| Lines.Split | tasks/diagnostics/pretty/data.py:56 | `split(", ")` gives at least one piece, the first being a prefix of the text |
| Lines.SplitJoin | tasks/diagnostics/pretty/data.py:56 | joining the pieces of a split with `", "` gives the text back |
| Lines.SplitPieces | tasks/diagnostics/pretty/data.py:56 | no piece of a split contains `", "` |
| Lines.JoinSplit | tasks/diagnostics/pretty/data.py:56 | splitting a join of pieces that contain no `", "` gives the pieces back |
| Lines.IntToDecimal | tasks/diagnostics/pretty/data.py:175 | `%d` produces an optional minus sign followed by decimal digits only |
| Lines.DecimalValue | tasks/diagnostics/pretty/data.py:175 | the digits `%d` writes for `k >= 0` have the value `k` |
| Lines.IntSpaces | tasks/diagnostics/pretty/data.py:56 | `strip()` removes a leading U+001C, but `int()` (line 100) rejects U+001C before `5`, while it skips tabs, newlines and non-ASCII spaces around `5` |
| Lines.IntRoundTrip | tasks/diagnostics/pretty/data.py:100 | `int()` of what `%d` wrote for `b` is `b`, for every integer |
| Lines.ParseFields | tasks/diagnostics/pretty/data.py:56 | stripping and splitting five fields joined by `", "` and ended by a newline gives the five fields back, when none contains `", "`, the first does not start with whitespace and the last is non-empty and does not end with it |
| Lines.LineRoundTrip | tasks/diagnostics/pretty/data.py:175 | formatting five fields as a line, then stripping and splitting it, gives back `[png, json, anchor, "%d" % hops, target]`, and `int()` of the fourth gives `hops`; this holds when no field contains `", "`, `png` does not start with whitespace and `target` is non-empty and does not end with it |
| Lines.ReadWrittenLines | tasks/diagnostics/pretty/data.py:56 | `readlines()` of the lines `writelines` wrote gives those lines back, when each ends with its only newline |
| Lines.FormattedIsLine | tasks/diagnostics/pretty/data.py:175 | a formatted line ends with its only newline when no field contains one |
| Lines.Padded | tasks/diagnostics/pretty/data.py:170-171 | `%05d` gives at least five decimal digits |
| Lines.PaddedValue | tasks/diagnostics/pretty/data.py:170-171 | the digits `%05d` writes for `i` have the value `i` |
| Lines.NamesDistinct | tasks/diagnostics/pretty/data.py:170-171 | distinct scene numbers get distinct `%05d.png` and distinct `%05d.json` names |
| Lines.NamesSafe | tasks/diagnostics/pretty/data.py:170-171 | the file names are non-empty and contain neither `", "` nor a newline; they neither start nor end with whitespace |
| Dataset.SceneLines | tasks/diagnostics/pretty/data.py:175 | a scene writes one line per question |
| Dataset.Generate | tasks/diagnostics/pretty/data.py:168-175 | the loop over `range(n)` writes exactly the lines `QuestionFile` specifies (scene by scene, question by question, with the scene's file names in front) and the state files `StateFiles` specifies |
| Dataset.LookupAll | tasks/diagnostics/pretty/data.py:64-65 | the lookup succeeds iff every symbol is in `s2i`, giving `s2i[symbol]` for each in order; otherwise it raises `KeyError` for the first unknown symbol |
| Dataset.LoadState | tasks/diagnostics/pretty/data.py:62-66 | a state file loads iff all its colors and markers are known; then positions, color indices and marker indices are those of its objects, in order |
| Dataset.LoadStates | tasks/diagnostics/pretty/data.py:59-66 | the loop over the state files computes `StatesOf`: each file's state is filed under its name, and the first failure is raised |
| Dataset.StatesOfLoaded | tasks/diagnostics/pretty/data.py:59-66 | when every state file loads, the loop builds the dict of the `(name, state)` pairs, a later file overwriting an earlier one of the same name |
| Dataset.StatesOfDistinct | tasks/diagnostics/pretty/data.py:59-66 | when every state file loads and the names are distinct, `all_objects` has one entry per file, each file's state under its own name |
| Dataset.FailureSticks | tasks/diagnostics/pretty/data.py:59-66 | once a state file fails to load, later files do not change the outcome |
| Dataset.LoadWrittenQuestions | tasks/diagnostics/pretty/data.py:55-56 | reading back lines that each end with their only newline gives one row per line, row `k` being line `k` stripped and split |
| Dataset.DecodeRow | tasks/diagnostics/pretty/data.py:89-100 | a row yields a sample only when it has five fields, its image and state exist, its anchor and target are in `s2i` and its hop count parses; the sample is then exactly those looked-up values; a row without five fields raises the unpacking error |
| Dataset.DecodeFields | tasks/diagnostics/pretty/data.py:89-100 | a five-field row whose image and state were loaded, whose anchor and target are symbols and whose hop count parses yields exactly the sample of those looked-up values |
| Dataset.YieldedAll | tasks/diagnostics/pretty/data.py:85-101 | when every row succeeds the generator raises nothing and yields every row's sample in order |
| Dataset.YieldedUntil | tasks/diagnostics/pretty/data.py:85-101 | the generator yields the samples of the rows before the first failing one, then raises that row's failure |
| Dataset.YieldedMeaning | tasks/diagnostics/pretty/data.py:85-101 | the generator raises iff some row fails; without failure it yields every row's sample in order; otherwise it yields the samples before the first failure and raises that failure |
| Dataset.YieldedFailureSticks | tasks/diagnostics/pretty/data.py:85-101 | once the generator has raised, later rows change nothing |
| Dataset.YieldedStep | tasks/diagnostics/pretty/data.py:89-100 | one more row adds its sample, or raises its failure, which then ends the pass |
| Dataset.SamplePass | tasks/diagnostics/pretty/data.py:89-100 | the inner `for` over one drawn order yields what `Yielded` specifies for the rows so far followed by that order |
| Dataset.Passes | tasks/diagnostics/pretty/data.py:87-101 | the `while count < n_repeat or n_repeat == -1` loop yields what `Yielded` specifies for the rows of `n_repeat` passes (of the passes pulled, when `n_repeat == -1`), each pass visiting the questions in its drawn order, whatever the decoding of a row |
| Dataset.SampleStream | tasks/diagnostics/pretty/data.py:85-101 | `sample_generator` yields `DecodeStream` of the rows of those passes: the samples of the rows up to the first failing one, then that failure |
| Dataset.NextPass | tasks/diagnostics/pretty/data.py:88-89 | the outcomes of `m + 1` passes are those of `m` passes followed by those of pass `m` in its drawn order |
| Dataset.PassStops | tasks/diagnostics/pretty/data.py:85-101 | a stream that has raised after `m` passes yields nothing more in later passes |
| Dataset.RowsExtend | tasks/diagnostics/pretty/data.py:88-89 | the rows of `m` passes are a prefix of the rows of any later pass count |
| Dataset.RowsAt | tasks/diagnostics/pretty/data.py:88-89 | the row visited `t`-th in pass `p`, at position `p * len(questions) + t`, is `questions[perms[p][t]]` |
| Dataset.RowsLength | tasks/diagnostics/pretty/data.py:88-89 | `m` passes visit `m * len(questions)` rows |
| Dataset.RowsFromQuestions | tasks/diagnostics/pretty/data.py:89 | every visited row is one of the questions |
| Dataset.RowsVisitEach | tasks/diagnostics/pretty/data.py:88-89 | `m` passes visit every question exactly `m` times, counted with multiplicity |
| Dataset.CompleteStream | tasks/diagnostics/pretty/data.py:85-101 | when every question decodes, `passes` passes raise nothing and yield exactly `passes * len(questions)` samples, sample `r` being the decoding of visited row `r` |
| Dataset.YieldVisits | tasks/diagnostics/pretty/data.py:85-101 | when every question decodes, the value yielded `t`-th in pass `p` is the decoding of `questions[perms[p][t]]` |
| ReadBack.SymbolsSafe | tasks/diagnostics/pretty/data.py:105-106 | every symbol is non-empty and contains neither `", "` nor a newline; no symbol starts or ends with whitespace |
| ReadBack.SampledSceneUsesSymbols | tasks/diagnostics/pretty/data.py:119-134 | every color, marker, anchor and target of a generated scene is a symbol `s2i` numbers |
| ReadBack.LoadSampledState | tasks/diagnostics/pretty/data.py:64-65 | the state file of a generated scene loads; object `i` gets color index `perm[i]` and marker index `8 + i` |
| ReadBack.LoadWrittenStates | tasks/diagnostics/pretty/data.py:59-66 | loading the written state files, in any order `glob` lists them, succeeds with one entry per file; each scene's `%05d.json` name maps to that scene's state |
| ReadBack.DecodeWrittenRow | tasks/diagnostics/pretty/data.py:175 | a written question line decodes to the sample of that question: its image and state, `s2i[anchor]`, the written hop count, `s2i[target]` |
| ReadBack.WrittenLinesOrigin | tasks/diagnostics/pretty/data.py:168-175 | line `k` of the written `questions.csv` is the line written for one particular question of one particular scene, and there are as many origins as lines |
| ReadBack.WrittenLineAt | tasks/diagnostics/pretty/data.py:168-175 | line `k` of the written `questions.csv` is a whole line, and it decodes to the sample of the question written on it: its scene's image and state, `s2i[anchor]`, the hop count, `s2i[target]` |
| ReadBack.WrittenLinesDecode | tasks/diagnostics/pretty/data.py:168-175 | every line of the written `questions.csv` is a whole line and decodes |
| ReadBack.ReadQuestionsDecode | tasks/diagnostics/pretty/data.py:55-56 | reading the written `questions.csv` back gives one row per written line, and every row decodes |
| ReadBack.ReadQuestionAt | tasks/diagnostics/pretty/data.py:55-56 | row `k` read back from the written `questions.csv` decodes to the sample of the question written on line `k` |
| ReadBack.ReadBackSplit | tasks/diagnostics/pretty/data.py:85-101 | reading back a generated split gives one row per written question; the state files load, in any `glob` order; `passes` passes of `sample_generator` raise nothing and yield exactly `passes * len(questions)` samples; the sample yielded `t`-th in pass `p` is that of the question written on line `perms[p][t]` (its scene's image and state, `s2i[anchor]`, the hop count, `s2i[target]`) |

## Left out

- `greedy` and `dist_squared` come from `tasks/diagnostics/data.py`, which is not part of this model. The path of each start object is an input, and `Questions.IsPath` states what it must be: `n` indices in `0..n-1`, the first being the start object.
- `get_object_positions` is left out: it does floating-point rejection sampling with no termination bound. Positions are an input; it yields `n` of them, or a single one when `n < 1`.
- Augmentation (`augment=True`: random scaling and rotation of positions) is floating-point randomness. The stream is modelled with `augment=False`, the setting of `test_generator`.
- Rendering (`fig2array`, `_render`), the download and extraction in `PrettyClevr.__init__`, and every file-system call are left out. Images are opaque values, and files are the values written or read.
- JSON encoding of the state files and of `dict.json` is left out. The reader is given the same object lists, and the same `s2i`, that the writer had.
- `output_types` and `output_shapes` declare TensorFlow types and contain no logic.
- `random.sample` is not modelled. Each shuffle is a permutation given as an input.
- Dataset.Passes: with `n_repeat == -1` the source loops forever; the model follows the passes a consumer pulls, one per permutation supplied. With `n_repeat == -1` and no questions, the source's `next()` never returns, as it spins through empty passes without yielding; the model instead ends with `([], None)` after the supplied passes.
- Lines.ParseInt: does not accept the underscores between digits or the non-ASCII decimal digits that Python's `int()` also accepts; no field `generate` writes contains either.
- Lines.ReadLines: splits at `\n` only. Text-mode newline translation (`\r\n`, `\r`) is not modelled.
- Integers are unbounded; the model has no fixed integer width.
