# MWPToolkit multi-equation data pipeline, modelled in Dafny

This project models the data pipeline of MWPToolkit's multi-equation datasets
and proves properties of the model. The pipeline turns math word problems
into vocabularies and batches for equation solvers. It has three parts:

- **Vocabulary builder** (`multi_equation_dataset.py`), in `dataset.dfy`
  (module `MultiEquationDataset`):
  - the equation-notation dispatch and `generate_list` assembly of `_preprocess`;
  - the input word list of `_build_vocab`;
  - the output symbol tables of `_build_symbol` and `_build_symbol_for_tree`,
    with their `num_start` offset;
  - the shared-vocabulary extension;
  - the `enumerate`-built index maps.
- **Batch loader** (`multi_equation_dataloader.py`), in `dataloader.dfy`
  (module `MultiEquationDataLoader`):
  - the special-token lookups of the constructor;
  - `get_num_mask`;
  - the contiguous slicing loop of `load_data`, as a method with loop invariants,
    and `load_data` with `load_batch` applied to every slice;
  - `_get_number_position`;
  - the dictionary lookups, per-example SOS/EOS framing and position
    shifting of `load_batch`;
  - the span tables of `load_batch_spans`.
- **Configuration layer** (`configuration.py`), in `configuration.dfy`
  (module `Configuration`):
  - the command-line parser and `task_type` check of `_load_cmd_line`;
  - the derived path table;
  - the six-layer merge;
  - item access on the final dictionary.

Shared pieces:

- `outcomes.dfy` (module `Outcomes`) turns every Python exception the code
  raises into an `Error` alternative inside a `Result`.
- `seqs.dfy` (module `Seqs`) holds the list helpers: first occurrence
  (`list.index`), the last-position index map, dict insertion order
  (`FirstSeen`), filtering, `max`, substring search, `str.split` and
  `str.join` on one separator, and a fold that stops at the first failing
  element.

Behaviour of the code that is easy to misread:

- `_preprocess` raises `NotImplementedError` for `FixType.MultiWayTree`
  (multi_equation_dataset.py:27-36), although the loader branches on that
  notation (multi_equation_dataloader.py:27, 182, 200).
- `_build_vocab` keeps a question word when its count exceeds
  `min_word_keep` or when the word contains `NUM`
  (multi_equation_dataset.py:58-60).
- `_build_symbol_for_tree` puts no PAD, SOS or EOS in the output table
  (multi_equation_dataset.py:81-122). `_build_symbol` starts its table with
  PAD, then SOS unless the vocabulary is shared, then EOS
  (multi_equation_dataset.py:125-128).
- When `copy_nums` runs past a mask alphabet, the code raises `IndexError`.
  For the number alphabets the message carries the alphabet's size and the
  generate list (multi_equation_dataset.py:94-96, 114-116, 139-141, 159-161).
  For the letter alphabet it carries only `copy_nums`
  (multi_equation_dataset.py:104-106, 149-151). The model keeps both
  payloads, as `NumbersShort` and `AlphabetShort`.
- An unsupported `mask_symbol` raises `NotImplementedError`
  (multi_equation_dataset.py:118, 163).

## Model

| member | source | states |
|---|---|---|
| MultiEquationDataset.SelectNotation | mwptoolkit/data/dataset/multi_equation_dataset.py:27-36 | the dispatch succeeds exactly for Prefix, Postfix and Nonfix; every other value, MultiWayTree included, raises NotImplementedError |
| MultiEquationDataset.Preprocess | mwptoolkit/data/dataset/multi_equation_dataset.py:27-44 | fails exactly as the dispatch does; the stored generate list is the unknown-variable symbols followed by the generated constants, and copy count, operator count, operator list and unknown symbols are recorded unchanged |
| MultiEquationDataset.WordCounts | mwptoolkit/data/dataset/multi_equation_dataset.py:47-54 | the counts dictionary has exactly the training question words as keys, each mapped to its number of occurrences |
| MultiEquationDataset.InputWords | mwptoolkit/data/dataset/multi_equation_dataset.py:56-60 | the input word list starts with the special tokens; every later word is a training question word that is kept, and every kept question word is in the list |
| MultiEquationDataset.InputWordsSpec | mwptoolkit/data/dataset/multi_equation_dataset.py:46-60 | the input word list is the special tokens followed by the distinct question words, in first-seen order and without duplicates; a word is kept iff its count exceeds `min_word_keep` or it contains "NUM" |
| MultiEquationDataset.AppendMissing | mwptoolkit/data/dataset/multi_equation_dataset.py:67-72 | sharing keeps the input list as a prefix, makes every output symbol present, appends only output symbols that were missing and each at most once, and preserves duplicate-freedom |
| MultiEquationDataset.MaskAlphabet | mwptoolkit/data/dataset/multi_equation_dataset.py:132-165 | NUM and number select the number alphabet, alphabet selects the letter alphabet, and any other value raises NotImplementedError |
| MultiEquationDataset.MaskBlock | mwptoolkit/data/dataset/multi_equation_dataset.py:132-161 | the mask block is the first `copy_nums` tokens of the selected alphabet; it fails exactly when the alphabet is unsupported or shorter than `copy_nums`, and a short alphabet raises IndexError naming the alphabet size and generate list for the number alphabets and `copy_nums` for the letter alphabet |
| MultiEquationDataset.AbsorbToken | mwptoolkit/data/dataset/multi_equation_dataset.py:170-180 | one scan step fails exactly on an empty token that is not yet a symbol, with that error; `num_start` never moves backwards nor past the table end, nothing before `num_start` moves, no symbol is lost, and the only symbol that can appear is the token |
| MultiEquationDataset.Absorb | mwptoolkit/data/dataset/multi_equation_dataset.py:168-180 | the whole scan fails only with the empty-token error; on success `num_start` has not moved backwards nor past the table end, the symbols before the old `num_start` are unchanged, and every earlier symbol is still present |
| MultiEquationDataset.NewSymbols | mwptoolkit/data/dataset/multi_equation_dataset.py:168-180 | the symbols the scan adds are training equation tokens, new to the table, operator-like or letter-like, and pairwise distinct |
| MultiEquationDataset.AbsorbFailsOnEmptyToken | mwptoolkit/data/dataset/multi_equation_dataset.py:168-180 | the scan over all equations raises (on `word[0]`) iff some token is empty and the empty string is not already a symbol |
| MultiEquationDataset.AbsorbShape | mwptoolkit/data/dataset/multi_equation_dataset.py:168-180 | the scan yields prefix ++ new operator-like tokens ++ the rest of the table ++ new letter tokens, each in scan order, and `num_start` grows by exactly the number of inserted tokens |
| MultiEquationDataset.AbsorbNoDup | mwptoolkit/data/dataset/multi_equation_dataset.py:168-180 | a duplicate-free table stays duplicate-free through the scan |
| MultiEquationDataset.BuildSymbol | mwptoolkit/data/dataset/multi_equation_dataset.py:124-181 | a failing mask block fails the table with the same error; on success the table starts with its fixed prefix, `num_start` lies between the prefix and the end, and UNK is last |
| MultiEquationDataset.BuildSymbolErrors | mwptoolkit/data/dataset/multi_equation_dataset.py:124-181 | `_build_symbol` fails with NotImplementedError for an unsupported mask, with IndexError carrying the alphabet size and generate list (number alphabets) or `copy_nums` (letter alphabet) when `copy_nums` exceeds the alphabet, and otherwise only on a new empty equation token |
| MultiEquationDataset.BuildSymbolLayout | mwptoolkit/data/dataset/multi_equation_dataset.py:124-181 | the non-tree table is exactly prefix ++ inserted operators ++ mask block ++ generate list ++ appended letter tokens ++ [UNK], with `num_start` at the mask block, and it is duplicate-free when its starting parts are |
| MultiEquationDataset.NumStartMarksMaskBlock | mwptoolkit/data/dataset/multi_equation_dataset.py:130-181 | after every insertion `num_start` still marks the first mask token, the mask block is followed by the generate list, only operator-like symbols sit between the prefix and `num_start`, only letter tokens follow the generate list, and UNK is last |
| MultiEquationDataset.BuildSymbolForTree | mwptoolkit/data/dataset/multi_equation_dataset.py:81-122 | the tree table is operators ++ generate list ++ the first `copy_nums` mask tokens ++ [UNK], with `num_start` equal to the operator count; it fails exactly on an unsupported mask or too small an alphabet, with the IndexError payload of that alphabet, and adds no PAD, SOS or EOS of its own |
| MultiEquationDataset.OutputTable | mwptoolkit/data/dataset/multi_equation_dataset.py:62-65 | whichever table is built, an unsupported mask raises NotImplementedError, and a built table ends with UNK after `num_start` |
| MultiEquationDataset.BuildVocab | mwptoolkit/data/dataset/multi_equation_dataset.py:46-79 | the vocabulary fails exactly when the selected table does; the input list starts with the special tokens and the base word list; without sharing it is the base list, and with sharing it holds every output symbol and adds only output symbols that were missing |
| MultiEquationDataset.VocabRoundTrip | mwptoolkit/data/dataset/multi_equation_dataset.py:74-79 | each index map has exactly the listed words as keys, sends each key to the last position holding it, and inverts its list when the list is duplicate-free |
| MultiEquationDataset.BuiltVocabSpecialKeys | mwptoolkit/data/dataset/multi_equation_dataset.py:56-79 | a built vocabulary maps every special token in its input map, UNK in its output map, PAD and EOS in the non-tree output map, and SOS as well when that table is not shared |
| Seqs.IndexMap | mwptoolkit/data/dataset/multi_equation_dataset.py:76-79 | an `enumerate`-filled dictionary covers exactly the listed elements and maps each to the position where it last occurs |
| Seqs.FirstSeen | mwptoolkit/data/dataset/multi_equation_dataset.py:47-58 | the key order of the word counts is each distinct word once, in order of first occurrence |
| Seqs.IndexOf | mwptoolkit/data/dataloader/multi_equation_dataloader.py:46-48 | `seq.index(x)` is the first position holding x, and is absent exactly when x does not occur |
| MultiEquationDataLoader.LoaderIndices | mwptoolkit/data/dataloader/multi_equation_dataloader.py:24-41 | the constructor succeeds exactly when every key it reads is present: input PAD and UNK always, output and template UNK in tree mode, output and template PAD and UNK when not shared; a missing key raises KeyError for PAD or UNK, a missing input PAD first; a shared vocabulary reuses the input indices and tree mode sets no template padding index |
| MultiEquationDataLoader.BuiltVocabServesConstructor | mwptoolkit/data/dataloader/multi_equation_dataloader.py:24-41 | with PAD and UNK among the special tokens, a vocabulary the dataset built passes every constructor lookup into it, given a template table holding the keys the constructor reads from it |
| MultiEquationDataLoader.NumMask | mwptoolkit/data/dataloader/multi_equation_dataloader.py:8-14 | one row per example, every row `max(sizes) + len(generate_nums)` wide, entry j is 0 iff j < size + len(generate_nums); it fails exactly on an empty batch, where `max` raises |
| MultiEquationDataLoader.NumMaskCounts | mwptoolkit/data/dataloader/multi_equation_dataloader.py:8-14 | each mask row holds exactly size + len(generate_nums) zeros and `max(sizes) - size` ones |
| MultiEquationDataLoader.PySlice | mwptoolkit/data/dataloader/multi_equation_dataloader.py:70-72 | in-range bounds slice as usual, a negative start counts from the end, an end past the list stops there, an empty range gives [], and the result is always a run of consecutive elements from the normalised start |
| MultiEquationDataLoader.TruncDiv | mwptoolkit/data/dataloader/multi_equation_dataloader.py:65 | `int(a / b)` truncates toward zero: the remainder `a - q*b` is smaller than `b` in magnitude and is zero or has the sign of `a` |
| MultiEquationDataLoader.SliceAt | mwptoolkit/data/dataloader/multi_equation_dataloader.py:67-72 | round i of a positive batch size takes the next `min(size, n - i*size)` elements starting at `i*size` |
| MultiEquationDataLoader.SliceBatches | mwptoolkit/data/dataloader/multi_equation_dataloader.py:64-75 | for a positive batch size the slices concatenate back to the split in order, none is empty, all but the last are full, and there are ceil(n / size) of them; a negative size yields none |
| MultiEquationDataLoader.SliceStep | mwptoolkit/data/dataloader/multi_equation_dataloader.py:66-73 | each round of the slicing loop extends the covered prefix by exactly the slice it takes and keeps every earlier slice full |
| MultiEquationDataLoader.FiveInTwos | mwptoolkit/data/dataloader/multi_equation_dataloader.py:64-75 | five examples with batch size two give slices of sizes 2, 2, 1 covering the split exactly |
| MultiEquationDataLoader.SplitChoice | mwptoolkit/data/dataloader/multi_equation_dataloader.py:52-62 | only "train", "valid" and "test" are accepted; training uses the training batch size, the other two the test batch size |
| MultiEquationDataLoader.LoadData | mwptoolkit/data/dataloader/multi_equation_dataloader.py:51-75 | an unknown split raises ValueError, a zero batch size raises ZeroDivisionError, a positive size yields well-formed contiguous slices of the chosen split, a negative size yields nothing; `LoadDataBatches` applies `LoadBatch` to these slices |
| MultiEquationDataLoader.LoadBatches | mwptoolkit/data/dataloader/multi_equation_dataloader.py:73-75 | the generator yields `load_batch` of every slice, in order, and succeeds iff every slice loads; a failure is the error of the first slice that fails |
| Seqs.MapResults | mwptoolkit/data/dataloader/multi_equation_dataloader.py:73-75 | mapping a failing function over a list succeeds iff every element succeeds, keeps the order and the length, and otherwise stops with the error of the first failing element |
| MultiEquationDataLoader.BatchesFrameData | mwptoolkit/data/dataloader/multi_equation_dataloader.py:66-75 | the entries of the loaded batches, concatenated, are the framed examples of the concatenated slices, in order |
| MultiEquationDataLoader.LoadDataBatches | mwptoolkit/data/dataloader/multi_equation_dataloader.py:51-75 | `load_data` with `load_batch` on every slice: an unknown split raises ValueError, a zero size ZeroDivisionError, a negative size yields nothing; for a positive size it fails iff there is data and a `load_batch` lookup is missing, and on success there are ceil(n / size) batches whose entries are every example of the split framed in order |
| MultiEquationDataLoader.NumberPositions | mwptoolkit/data/dataloader/multi_equation_dataloader.py:44-49 | succeeds iff every number has an input index that occurs in the sequence; each result is the first position holding that index |
| MultiEquationDataLoader.BuiltVocabHasClassIndices | mwptoolkit/data/dataset/multi_equation_dataset.py:78-79 | a built vocabulary gives every output symbol a class index inside the output table, which is what the span tables index by |
| MultiEquationDataLoader.FrameLookups | mwptoolkit/data/dataloader/multi_equation_dataloader.py:173-190 | the lookups `load_batch` makes for each example succeed iff SOS (when added) and EOS (when added) are input words and, outside tree mode, the equation EOS is in the input map when shared and in the output and template maps otherwise; the first missing key raises KeyError, SOS before EOS |
| MultiEquationDataLoader.BuiltVocabServesFraming | mwptoolkit/data/dataloader/multi_equation_dataloader.py:173-190 | with SOS and EOS among the special tokens, a vocabulary the dataset built passes every `load_batch` lookup into it, given a template table holding EOS when it is read |
| MultiEquationDataLoader.JoinWords | mwptoolkit/data/dataloader/multi_equation_dataloader.py:199-205 | `' '.join` of no words is empty, and splitting the join on spaces gives the words back when none contains a space |
| MultiEquationDataLoader.FrameExample | mwptoolkit/data/dataloader/multi_equation_dataloader.py:163-228 | each entry keeps the example's id, answer, number list, source-1 text and infix equation, its number size is the number of positions, the question and equation source strings split back into the tokens, and in multi-way-tree mode both equation sources are a single space |
| MultiEquationDataLoader.QuestionFraming | mwptoolkit/data/dataloader/multi_equation_dataloader.py:172-177 | the question is an optional SOS, exactly the word indices, then an optional EOS, with the length counting all three |
| MultiEquationDataLoader.EquationFraming | mwptoolkit/data/dataloader/multi_equation_dataloader.py:179-190 | outside tree modes equation and template each get exactly one EOS, from the input vocabulary when shared and from their own otherwise; in tree modes nothing is appended |
| MultiEquationDataLoader.PositionsFollowSos | mwptoolkit/data/dataloader/multi_equation_dataloader.py:216-228 | number and group-number positions shift by one exactly when SOS is prepended, so they still point at the same word; a missing group-nums entry becomes [] |
| MultiEquationDataLoader.LoadBatchKeepsExamples | mwptoolkit/data/dataloader/multi_equation_dataloader.py:209-223 | entries follow batch order and keep id, answer and number list; the number size is the number of positions |
| MultiEquationDataLoader.LoadBatch | mwptoolkit/data/dataloader/multi_equation_dataloader.py:163-276 | an empty batch raises ValueError in the number mask; otherwise a missing lookup key raises KeyError, naming SOS when SOS is added and missing and EOS otherwise; on success there is one entry per example, the number mask is built over the batch's number sizes and the generate list, and span tables are present exactly when asked for |
| MultiEquationDataLoader.LastHit | mwptoolkit/data/dataloader/multi_equation_dataloader.py:92-97 | the last position in a sentence of a mask token of the given class, or none |
| MultiEquationDataLoader.MarkWordsSpec | mwptoolkit/data/dataloader/multi_equation_dataloader.py:92-97 | after scanning a sentence each class entry holds the value for the last word of that class, and is untouched when the sentence has none |
| MultiEquationDataLoader.SpanNumPos | mwptoolkit/data/dataloader/multi_equation_dataloader.py:90-98 | a `span_num_pos` row has one entry per output symbol; its contents are stated by `SpanNumPosSpec` |
| MultiEquationDataLoader.SpanNumPosSpec | mwptoolkit/data/dataloader/multi_equation_dataloader.py:87-98 | `span_num_pos[c]` is the index of the last sentence containing a mask token of class c, and -1 when none does |
| MultiEquationDataLoader.WordNumPos | mwptoolkit/data/dataloader/multi_equation_dataloader.py:91-97 | a sentence's `word_num_poses` row has one entry per output symbol, holding the last word position of that class in the sentence, else -1 |
| MultiEquationDataLoader.LoadBatchSpans | mwptoolkit/data/dataloader/multi_equation_dataloader.py:77-129 | tables are sentence-major with `max(span nums)` slots; real sentences carry their word indices, length and position row; examples with fewer sentences are padded with [], length 0 and an all -1 row |
| Seqs.Split | mwptoolkit/config/configuration.py:63-66 | `str.split` yields at least one piece and no piece contains the separator |
| Seqs.JoinSplit | mwptoolkit/config/configuration.py:63-66 | joining the pieces of a split with the separator gives the original string back |
| Seqs.SplitJoin | mwptoolkit/config/configuration.py:63-66 | splitting a join of separator-free pieces gives the pieces back |
| Seqs.SplitCount | mwptoolkit/config/configuration.py:63 | a split yields one more piece than there are separators |
| Configuration.RecognizedShape | mwptoolkit/config/configuration.py:63-66 | every `--name=value` with no `=` in name or value is recognised, and name and value are read back unchanged |
| Configuration.RecognizedParts | mwptoolkit/config/configuration.py:63-66 | a recognised token is exactly `--` + name + `=` + value, with exactly one `=` after the dashes |
| Configuration.ParseStep | mwptoolkit/config/configuration.py:62-70 | one round of the loop raises SyntaxError, naming the token, exactly when it is an option whose name already has a different value |
| Configuration.ParseArgs | mwptoolkit/config/configuration.py:62-70 | the only failure the parser raises is SyntaxError |
| Configuration.ParseArgsSucceeds | mwptoolkit/config/configuration.py:62-70 | the parser succeeds iff no option name is given two different values |
| Configuration.ParseArgsContents | mwptoolkit/config/configuration.py:62-70 | on success the dictionary's keys are exactly the given names, each mapped to its given value |
| Configuration.ParseArgsUnrecognized | mwptoolkit/config/configuration.py:62-65 | the unrecognised list is exactly the tokens that are not options, in their order |
| Configuration.RepeatSameValue | mwptoolkit/config/configuration.py:67-70 | repeating an option with the value it already has changes nothing |
| Configuration.LoadCmdLine | mwptoolkit/config/configuration.py:55-79 | inside a notebook kernel, or when `task_type` is absent, raises KeyError; a task type other than single_equation or multi_equation raises NotImplementedError; otherwise yields the parsed options |
| Configuration.DefaultPaths | mwptoolkit/config/configuration.py:120-128 | the derived table has exactly the six path keys |
| Configuration.DefaultPathsRecoverNames | mwptoolkit/config/configuration.py:120-128 | the model and dataset names can be read back from the model-config and dataset paths, and the checkpoint and log paths have the documented formats |
| Configuration.DefaultPathsInjective | mwptoolkit/config/configuration.py:120-128 | distinct (model, dataset) pairs never share a path table |
| Configuration.PathConfig | mwptoolkit/config/configuration.py:119-135 | corrected member of the finding below: a missing model or dataset raises KeyError as at lines 121-122; otherwise the table has exactly the six path keys, each the option's value when given and the derived path when not |
| Configuration.PathConfigAsWritten | mwptoolkit/config/configuration.py:119-135 | as written: a missing model or dataset raises KeyError; the derived table survives exactly when no path key is among the options, and otherwise the setting is the bare string of one of the given path options |
| Configuration.OverrideAsWrittenSpec | mwptoolkit/config/configuration.py:131-135 | the override loop as written keeps the table only when no path key is given, and otherwise leaves the bare string of the last given path key |
| Configuration.AsWrittenAgreesWithoutOverride | mwptoolkit/config/configuration.py:119-135 | with no path key among the options the as-written and corrected path tables agree, failures included |
| Configuration.UpdateAsWritten | mwptoolkit/config/configuration.py:141 | merging a table always succeeds; merging a bare string succeeds only when it is empty |
| Configuration.LastOverrideReplacesTable | mwptoolkit/config/configuration.py:131-135 | as written, whenever some path key is overridden, the path setting ends as the string given for the last such key in table order, whatever the table held |
| Configuration.PathOverrideAsWritten | mwptoolkit/config/configuration.py:131-141 | with the single option `--log_path=x` the path setting becomes the string "x" and the merge fails |
| Configuration.PathOverrideIntended | mwptoolkit/config/configuration.py:119-135 | with the same option the intended table overrides only the log path and keeps the derived model config path |
| Configuration.MergeLayers | mwptoolkit/config/configuration.py:138-144 | successive `dict.update` calls keep every key of every layer, and the last layer's values win |
| Configuration.TopLayerWith | mwptoolkit/config/configuration.py:137-145 | the last layer defining a key, or none |
| Configuration.MergeLayersSpec | mwptoolkit/config/configuration.py:137-145 | a merged key comes from the highest layer that defines it, and a key no layer defines is absent |
| Configuration.External | mwptoolkit/config/configuration.py:137-145 | the external dictionary holds every key of the six layers, and a command-line option always wins |
| Configuration.ExternalPrecedence | mwptoolkit/config/configuration.py:137-145 | precedence is command line, then model file, then dataset file, then paths, then variables, then the base file |
| Configuration.BuildConfig | mwptoolkit/config/configuration.py:6-23 | construction succeeds iff the command line loads and names both a model and a dataset |
| Configuration.ConfigLayersPrecedence | mwptoolkit/config/configuration.py:107-148 | every command-line option reaches the final dictionary unchanged, and every path key is present |
| Configuration.BuildConfigContents | mwptoolkit/config/configuration.py:6-23 | the same for a constructed configuration |
| Configuration.GetItem | mwptoolkit/config/configuration.py:158-162 | an unhashable key raises TypeError and nothing else does; the result is a value exactly when the key is a string present in the final dictionary, and None otherwise |
| Configuration.SetItem | mwptoolkit/config/configuration.py:153-156 | a non-string key raises TypeError, and a string key is always accepted |
| Configuration.GetAfterSet | mwptoolkit/config/configuration.py:153-162 | after `config[k] = v` reading k gives v, and every other key reads as before |

## Left out

- The number-masking transforms, the choice among them by dataset name, `fix_process` and the infix-to-prefix/postfix converters are not part of this model. Their outputs are inputs: the `Transfer` record and the masked examples.
- The contents of `SPECIAL_TOKENS`, `Operators.Multi`, `NumMask.number` and `NumMask.alphabet` are not part of this model and are parameters (`Enums`). SOS and EOS are spelled `<SOS>` and `<EOS>`, as the loader spells them. PAD and UNK are assumed to be `<PAD>` and `<UNK>`.
- `str.isdigit` and `str.isalpha` are approximated by ASCII digits and letters. Non-ASCII tokens may be classified differently.
- The abstract loader's `_word2idx`, `_equ_symbol2idx` and `_temp_symbol2idx` are not part of this model. They are function parameters (`Indexers`).
- Padding, validity masks and the number stack are not modelled, because their helpers are not part of this model. The template padding quirk at multi_equation_dataloader.py:237 is therefore not modelled either. The recorded question and equation lengths are the lengths of the unpadded entries.
- Tensor construction and device placement are not modelled; batches are nested integer lists.
- The constructor's lookups are modelled (`LoaderIndices`), but the indices it reads are only stored. They are used by padding and by the token-to-index helpers, which map unseen tokens to the UNK index, and neither is part of this model.
- MultiEquationDataLoader.LoadBatch: the template table `temp_symbol2idx` is built outside the modelled code, so its keys are an input (`tempSymbol2Idx`). `BuiltVocabServesFraming` and `BuiltVocabServesConstructor` prove that a built vocabulary serves every lookup into it, but they assume the template table's EOS, PAD and UNK rather than prove them.
- MultiEquationDataLoader.LoadBatch: it requires, when span tables are asked for, that every output symbol's class index lies inside the output table. The source would raise `IndexError` otherwise. `BuiltVocabHasClassIndices` proves that condition for every built vocabulary.
- MultiEquationDataLoader.FrameExample: it and the framing lemmas (`QuestionFraming`, `EquationFraming`, `PositionsFollowSos`) describe the success path and require `LookupsDefined`. The `KeyError` path is stated by `FrameLookups` and `LoadBatch`.
- `load_data` is modelled with exact integer truncation for `int(n / size)`. Floating-point rounding of very large counts is not modelled. Batches are returned as a list rather than lazily yielded.
- The `hms` model-name test is the boolean option `withSpans`. Dependency trees are opaque payloads.
- `_convert_config_dict` is not modelled: it runs `eval` on strings, which the model cannot express, and names `Enum` without importing it. Command-line values stay strings.
- The JSON reads of the model and dataset files are a parameter (`Reader`). A failed read gives an empty layer, as the `try`/`except` at configuration.py:108-117 does. The base-file read at configuration.py:28 has no such guard and raises when the file cannot be read. The model does not read the base file: its contents are the `fileLayer` argument of `BuildConfig`, so that failure is outside the model.
- Logging, `__str__`, `_init_device` and `get_vocab_size` are not modelled. `_get_model_and_dataset` is not called during construction and resolves model classes, so it is not modelled.
- The notebook-kernel test is modelled as a substring test on `argv[0]`. `sys.argv` itself is an argument.
- MultiEquationDataLoader.NumberPositions: on failure it states only that the error is KeyError or ValueError. It does not pin the error to the first failing number.
- Configuration.BuildConfig: it uses the corrected path table from the Findings below, not the as-written override loop. The as-written loop makes construction fail for any non-empty path override.

## Findings

| source | as written | input that shows it | evidently intended | confidence | as-written member | corrected member |
|---|---|---|---|---|---|---|
| mwptoolkit/config/configuration.py:131-135 | each path key found among the command-line options replaces the whole path dictionary with that option's string | `--model=M --dataset=D --task_type=multi_equation --log_path=x`: the path setting becomes "x", `dict.update("x")` then raises ValueError, and the model config path is never used | override only the named path entry and keep the rest of the table | not executed; high | Configuration.PathConfigAsWritten (with Configuration.PathOverrideAsWritten) | Configuration.PathConfig (with Configuration.PathOverrideIntended) |
