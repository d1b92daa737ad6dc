# Language detector: training-side model

A Dafny model of the training half of `langdetector.py`, a small tool that
learns character n-gram profiles of languages from sample texts. Training
normalises each text, counts its unigrams (single characters) or bigrams
(adjacent character pairs) into a dictionary, and writes that dictionary to
a profile file named after the training file. The detection half of the
program is only stubs and is not modelled.

Modules, one per component:

- `Basics` (`basics.dfy`): `Option`, occurrence counting `Count`, first
  position `IndexOf`, `Distinct`, the ASCII digit class.
- `TextNormalizer` (`normalizer.dfy`): `preprocess_text` as the composition
  `DeleteSpaces(DigitsToSpaces(CaseFold(text)))`, proved equal to a one-pass
  reference filter `KeepFolded`, with its cleanliness, length, idempotence
  and occurrence-count properties.
- `NgramCounter` (`ngram_counter.dfy`): the dictionary as a `Table` (keys in
  insertion order plus a `map` from n-gram to count). `weight_unigrams` and
  `weight_bigrams` are methods with the source's loops. Each is proved to
  build `Tally` of the text's sliding windows. `Tally` records the windows one
  by one, as the loop does. Lemmas then say what that table is: exact
  occurrence counts, keys in first-occurrence order, and the sum of the counts.
- `ProfileFormat` (`profile_format.dfy`): the record format of
  `save_weights`. `DecimalString` renders a count as `str` does.
  `ProfileText` is the file text and `SaveWeights` is the source's loop that
  builds it. `ReadProfile` reads such a text back; it is the inverse used to
  state the round trip.
- `Trainer` (`trainer.dfy`): the order/suffix choice of `train` and its loop
  over the training files.

The code stores raw occurrence counts, not relative frequencies, and deletes
only the space character: tabs, newlines and other whitespace survive
normalisation. The model follows the code on both points. A consequence is
that whether a profile reads back depends on the training text. Assume the
normalised text is long enough to hold one n-gram (one character for
unigrams, two for bigrams). Then the written profile reads back as the
counted dictionary exactly when the training text holds no tab and no newline.
`Trainer.TrainedProfileReadsBack` proves the direction without tabs and
newlines. `Trainer.TrainedProfileUnreadable` proves the converse: a
surviving tab or newline lands inside some counted n-gram, whose record then
does not split into one n-gram field and one count field. A shorter
normalised text gives an empty profile, which always reads back.

Where a definition is a plain composition (`Preprocess`, `Tally`,
`TrainedWeights`, `TrainedProfile`, `WeightsFileName`), what it means is
stated by the lemmas about it, named in the table below.

## Model

| member | source | states |
|---|---|---|
| `TextNormalizer.Fold` | langdetector.py:17 | case folding of one character never turns a non-digit into a digit or a non-space into a space, nor the reverse |
| `TextNormalizer.CaseFold` | langdetector.py:17 | `casefold` keeps the length, leaves no upper-case ASCII letter, maps each one to its lower-case letter and leaves every other character as it was |
| `TextNormalizer.DigitsToSpaces` | langdetector.py:18 | the substitution keeps the length and turns every ASCII digit, and only a digit, into a space, so no digit is left |
| `TextNormalizer.DeleteSpaces` | langdetector.py:19 | `replace(" ", "")` leaves no space, shortens the text by its number of spaces, keeps the number of occurrences of every other character and adds no character |
| `TextNormalizer.Preprocess` | langdetector.py:16-20 | the normalised text contains no ASCII digit and no space, and is no longer than the input |
| `TextNormalizer.PreprocessIsFilter` | langdetector.py:16-20 | case-fold, digits to spaces, delete spaces equals keeping, in order, the folded form of each character whose folded form is neither a digit nor a space |
| `TextNormalizer.PreprocessIdempotent` | langdetector.py:16-20 | normalising a normalised text changes nothing |
| `TextNormalizer.PreprocessCount` | langdetector.py:16-20 | each kept character occurs in the output exactly as often as in the case-folded input; digits and spaces occur zero times |
| `TextNormalizer.PreprocessKeepsTabsAndNewlines` | langdetector.py:18-19 | only `' '` is deleted: the output has exactly as many tabs and newlines as the input |
| `TextNormalizer.KeptAt` | langdetector.py:16-20 | a tab or a newline of the input stands at some position of the normalised text |
| `NgramCounter.BumpValid` | langdetector.py:32 | `d[k] = d.get(k, 0) + 1` keeps the dictionary well formed, adds `k` as a key if it was not one, leaves every other key's count alone and adds one to the sum of the counts |
| `NgramCounter.TallyCounts` | langdetector.py:30-32 | recording n-grams one at a time with `get(k, 0) + 1` gives a table whose keys are exactly the n-grams seen, each mapped to its number of occurrences, with counts summing to the number of n-grams recorded |
| `NgramCounter.TallyDomain` | langdetector.py:30-32 | the keys of the table are exactly the n-grams recorded |
| `NgramCounter.TallyOrder` | langdetector.py:30-32 | the table's keys stand in the order of the first occurrence of their n-grams (dictionary insertion order) |
| `NgramCounter.Windows` | langdetector.py:38-40 | a window sliding with stride 1 yields one n-gram per start position that leaves a full window, and none for a text shorter than the window |
| `NgramCounter.WindowAt` | langdetector.py:40 | every window is the slice `text[i:i + width]` at some start position `i` that leaves a full window |
| `NgramCounter.TallyKeys` | langdetector.py:29-42 | the table of the windows of a text is well formed and all its keys have the window's width |
| `NgramCounter.KeysAvoid` | langdetector.py:29-42 | a character absent from the text is absent from every key |
| `NgramCounter.KeyHolding` | langdetector.py:29-42 | when the text holds at least one window, every character of the text lies inside some key |
| `NgramCounter.WeightUnigrams` | langdetector.py:29-33 | the loop over the characters builds exactly the tally of the text's one-character windows |
| `NgramCounter.UnigramTable` | langdetector.py:29-33 | every unigram key is one character of the text, counted as often as it occurs; every character of the text is a key; the counts sum to the text's length |
| `NgramCounter.WeightBigrams` | langdetector.py:36-42 | the loop over positions, guarded by `i + 1 < len(text)`, builds exactly the tally of the text's stride-1 windows of width 2 |
| `NgramCounter.BigramTable` | langdetector.py:38-41 | every bigram key is a pair of adjacent characters, counted once per position where it starts, overlaps included; every adjacent pair is a key |
| `NgramCounter.BigramTotal` | langdetector.py:38-41 | bigram counts sum to `len(text) - 1`; a text of fewer than two characters gives an empty table, and only such a text does |
| `NgramCounter.BigramsOverlap` | langdetector.py:38-41 | overlapping pairs are all counted: `"aa"` counts 2 in `"aaa"` |
| `ProfileFormat.DecimalString` | langdetector.py:26 | the decimal text of a count is non-empty, all ASCII digits, without a leading zero |
| `ProfileFormat.DecimalRoundTrip` | langdetector.py:26 | reading the decimal text of a count gives the count back |
| `ProfileFormat.Record` | langdetector.py:26 | a record starts with the n-gram, then a tab, holds at least one count character and ends in a newline |
| `ProfileFormat.ProfileText` | langdetector.py:25-26 | the file text is empty exactly when the dictionary has no entry |
| `ProfileFormat.OneRecordPerEntry` | langdetector.py:25-26 | the written text holds exactly one newline per entry when no n-gram contains a newline |
| `ProfileFormat.SaveWeights` | langdetector.py:23-26 | the loop over `items()` writes the records of all entries, in insertion order, and nothing else |
| `ProfileFormat.ReadRecord` | langdetector.py:26 | one record `ngram TAB count NEWLINE`, for an n-gram without tab or newline, reads back as that entry followed by whatever follows it |
| `ProfileFormat.ProfileRoundTrip` | langdetector.py:25-26 | reading the written text back yields exactly the entries, in order, when no n-gram is empty or contains a tab or newline |
| `ProfileFormat.UnwritableRecord` | langdetector.py:26 | the record of a one- or two-character n-gram holding a tab or a newline does not read back, whatever follows it |
| `ProfileFormat.UnreadableProfile` | langdetector.py:25-26 | a text of records of one- or two-character n-grams, one of which holds a tab or a newline, does not read back |
| `Trainer.OrderOf` | langdetector.py:49-54 | size 1 selects windows of width 1 and any other size windows of width 2 |
| `Trainer.WeightsFileNameSuffix` | langdetector.py:49-54 | the profile name is the training file name followed by `-unigram-weights.txt` exactly when the size is 1, and by `-bigram-weights.txt` exactly when it is not |
| `Trainer.WeightsFileNamesDistinct` | langdetector.py:46-54 | distinct training file names give distinct profile names |
| `Trainer.TrainFile` | langdetector.py:47-55 | one pass of the loop names the profile after the file and writes the profile text of the counts of the normalised text for the selected order |
| `Trainer.Train` | langdetector.py:45-55 | one write per training file, in listing order: its profile name, and the profile text of the counts of its normalised text for the selected order |
| `Trainer.TrainedTotal` | langdetector.py:48-53 | a trained dictionary is well formed, has no entry exactly when the normalised text is shorter than one n-gram, and its counts sum to the normalised text's length for size 1 and to that length minus one (or 0) otherwise |
| `Trainer.TrainedProfileLines` | langdetector.py:48-55 | the profile is empty exactly when the normalised text is shorter than one n-gram, and holds one line per dictionary entry when the training text has no newline |
| `Trainer.TrainedProfileReadsBack` | langdetector.py:48-55 | for a training text without tabs and newlines, the written profile reads back as the counted dictionary, entry for entry |
| `Trainer.TrainedProfileUnreadable` | langdetector.py:17-55 | for a training text with a tab or a newline whose normalised text holds at least one n-gram, the written profile does not read back |

## Left out

- `TextNormalizer.Fold`: case folding is ASCII lower-casing only. Python's `str.casefold` also folds non-ASCII letters and can expand one character into several (`ß` to `ss`); the model leaves non-ASCII characters unchanged.
- File and directory I/O: listing the training folder, opening and decoding files as ISO-8859-1 with undecodable bytes ignored, and writing the profile file. Training files enter `Trainer.Train` as (name, decoded text) pairs and the writes leave it as (file name, contents) pairs; UTF-8 encoding of the written text is not modelled.
- Newline translation of Python's text mode: reading turns `\r\n` and a lone `\r` into `\n` before the text reaches `preprocess_text`, and writing turns each `\n` into the platform's line separator. The model takes the decoded text as already translated and writes `\n`; a `\r` that reaches it is an ordinary kept character.
- The order of `listdir`: it is arbitrary, so `Trainer.Train` takes the files in whatever order it is given them.
- The command line: `main`, `sys.argv`, the usage message and the `int(...)` parsing of the n-gram size. The size enters as an `int`.
- `detect`, `detect_with_unigrams` and `detect_with_bigrams`: the last two are stubs with no behaviour, and `detect` only normalises the text and dispatches to them. No classification, profile loading, correlation or accuracy scoring exists in the source, so none is modelled.
- The unused constants `UNIGRAM_FILE_NAME` and `BIGRAM_FILE_NAME`.
- `ReadProfile` is not a function of the source; it exists only to state what the record format allows a reader to recover.
