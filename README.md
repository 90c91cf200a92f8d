# Melody tokens, in Dafny

A model of the symbolic token pipeline of GeneratingMusicUsingLSTM, a
folk-melody generator built around an LSTM. The model covers two halves.

Training data (`processing/preprocess.py`):
- A song, flattened to notes and rests, is kept only if every duration is
  one of eight quarter lengths.
- It is written as a time series on a sixteenth-note grid: the MIDI number
  or `r`, then one `_` hold for every further step.
- All songs go into one corpus, each followed by 64 `/` boundary symbols.
- Every distinct symbol gets an id, the corpus becomes a list of ids, and a
  sliding window cuts that list into (64 ids, next id) training pairs.

Generation (`processing/melodygener.py`):
- A `MelodyGenerator` holds the symbol-to-id mapping and 64 start symbols.
- `generate_melody` maps the seed to ids after the start symbols. At each
  step it cuts the context to its last `max_sequence_length` ids, draws an
  id from the network, and decodes it. It stops at `/`.
- `save_melody` turns the symbol/hold melody back into notes and rests.

The modules follow the program:
- `Wrappers` holds `Option`, `Result` and the Python exceptions.
- `Text` models `str.split()`, `" ".join`, `str(int)` and `int(str)`.
- `Dict` is a Python dict as an insertion-ordered list of entries.
- `Preprocess` holds the training-data loops.
- `Generation` holds the sampling loop's meaning, stated apart from the loop.
- `Detokenize` holds what `save_melody` computes, stated apart from its loop.
- `MelodyGen` is the class and its loops.
- `RoundTrip` holds encoding followed by decoding.

Each loop of the source is a method with a `while` or `for` loop. Each
method is proved against a function that specifies it, and the lemmas
state what the source promises about that function.

Behaviour of the code worth knowing:
- Decoding `r _ _ _` at step 0.25 gives a rest of 0.75, because the final
  hold is never counted (see Findings).
- The boundary run follows every song, the last one included.
- The duration filter is membership in a fixed list of eight durations;
  `RoundTrip.AcceptableOnGrid` shows that each of them is a whole number of
  sixteenth-note steps.
- The vocabulary order is whatever `list(set(...))` yields.
- The reverse lookup of a drawn id is a scan for the first entry with that
  id.

## Model

| member | source | states |
|---|---|---|
| Preprocess.HasAcceptableDurations | processing/preprocess.py:49-58 | true exactly when every event's duration is in the acceptable list |
| Preprocess.Trunc | processing/preprocess.py:106 | `int(x)` truncates toward zero: the result is within one of `x`, on the side of zero |
| Preprocess.Steps | processing/preprocess.py:106 | `int(d / time_step)`, the number of grid steps an event occupies; its truncation is `Trunc`'s contract, and `TokenCount` and `EventLayout` say how the steps become tokens |
| Preprocess.Symbol | processing/preprocess.py:99-102 | an event's symbol is one whitespace-free word, never the hold or the boundary |
| Preprocess.EncodeTokens | processing/preprocess.py:96-112 | the token list of a song: each event's symbol then its holds, in order; pinned down by `TokenCount`, `EventLayout`, `DroppedEvent` and `EncodeTokensAppend` |
| Preprocess.EncodeSong | processing/preprocess.py:87-116 | the result is the song's tokens joined by single spaces, and `split()` on it gives those tokens back |
| Preprocess.TokenCount | processing/preprocess.py:106-112 | the number of tokens is the sum over events of `int(d / time_step)`; events with no step add nothing |
| Preprocess.EventLayout | processing/preprocess.py:106-112 | event `j`'s block starts after the steps of the events before it; it is the event's symbol then only holds, `int(d / time_step)` tokens in all |
| Preprocess.DroppedEvent | processing/preprocess.py:106-108 | an event shorter than one step leaves no token: the tokens are those of the song without it |
| Preprocess.EncodeTokensAppend | processing/preprocess.py:96-112 | the tokens of two songs in a row are the tokens of the first followed by those of the second |
| Preprocess.TokensAreWords | processing/preprocess.py:114 | every token is a non-empty word without whitespace, so joining with spaces loses nothing |
| Preprocess.Repeat | processing/preprocess.py:150 | `s * n`: `max(n, 0)` copies of `s` in a row, so it is `max(n, 0) * len(s)` long, starts with `s` when `n > 0`, and repeats with period `len(s)` |
| Preprocess.Boundaries | processing/preprocess.py:150 | `n` boundary symbols, none for `n <= 0` |
| Preprocess.CreateSingleFileDataset | processing/preprocess.py:147-164 | the text is every song plus a space plus `n` copies of `"/ "`, without the final space; no songs give `""`; as tokens it is each song's tokens followed by exactly `n` boundaries, in order |
| Preprocess.DelimitedTokens | processing/preprocess.py:150-158 | at token level the accumulated text is each song's tokens followed by `n` boundaries |
| Preprocess.RepeatTokens | processing/preprocess.py:150 | the delimiter splits into exactly `n` boundary symbols |
| Preprocess.FirstSeen | processing/preprocess.py:173 | every token list has an enumeration of its distinct tokens, so `CreateMapping`'s requirement can always be met |
| Preprocess.CreateMapping | processing/preprocess.py:167-181 | for any vocabulary order: the keys are exactly the distinct tokens; ids are distinct and exactly `0 .. n-1`; vocabulary entry `i` maps to `i` |
| Preprocess.ConvertSongsToInt | processing/preprocess.py:184-202 | the ids of the tokens in order, or `KeyError` for the first token without one |
| Preprocess.TrainingSequences | processing/preprocess.py:211-216 | exactly `max(0, len - L)` pairs; input `i` is `int_songs[i .. i+L)` of length `L`, and target `i` is `int_songs[i+L]`; each input is the previous one shifted by its target |
| Dict.Get | processing/preprocess.py:200 | `d[k]` fails exactly for a missing key; otherwise it gives a value stored beside `k` |
| Dict.GetAt | processing/preprocess.py:178 | with distinct keys, `d[k]` is the value stored beside `k` |
| Dict.Put | processing/preprocess.py:178 | `d[k] = v` adds `k` to the keys; an existing key keeps its place; a new key goes at the end; no other entry changes; distinct keys stay distinct, and `d[k]` then gives `v` |
| Dict.KeyOf | processing/melodygener.py:57 | the reverse lookup fails exactly for an id no symbol has; otherwise it gives the key of the first entry with that id |
| Dict.KeyOfGet | processing/melodygener.py:57 | with distinct keys and ids, reverse lookup of a symbol's id gives the symbol back |
| Dict.GetKeyOf | processing/melodygener.py:57 | for an id in use, looking up the decoded symbol gives the id back |
| Dict.GetAll | processing/melodygener.py:35 | the ids of all symbols in order exactly when all have one; otherwise `KeyError` for the first missing symbol |
| Dict.GetAllErrPersists | processing/preprocess.py:199-200 | a failure on a prefix of the symbols is the failure of the whole list |
| Text.Split | processing/preprocess.py:172 | every piece `split()` yields is a non-empty word without whitespace |
| Text.SplitAppend | processing/preprocess.py:158 | splitting text joined at whitespace gives the pieces of each part in order |
| Text.Join | processing/preprocess.py:114 | `" ".join(ws)`: the words with one space between neighbours; `SplitJoin` shows that `split()` gives the words back |
| Text.SplitJoin | processing/preprocess.py:114 | `" ".join` followed by `split()` gives the words back |
| Text.SplitDropLast | processing/preprocess.py:159 | cutting one trailing space does not change the tokens |
| Text.IntToDecimal | processing/preprocess.py:114 | `str(n)` is a single word ending in a digit |
| Text.ParseInt | processing/melodygener.py:107 | `int(s)`: surrounding whitespace dropped, an optional sign, then digits with single underscores between them; `None` is the `ValueError`; `ParseIntDecimal` shows it inverts `str` |
| Text.ParseIntDecimal | processing/melodygener.py:107 | `int(str(n)) == n` for every integer |
| Generation.PyTail | processing/melodygener.py:40 | `s[-m:]`: for `m >= 1` the last `min(m, len)` ids; for `m == 0` all of them; for `m < 0` all but the first `-m` |
| Generation.PyTailIsLast | processing/melodygener.py:40 | for `m >= 1`, `s[-m:]` is the last `min(m, len)` ids, the window the model is shown |
| Generation.Draws | processing/melodygener.py:37-54 | one drawn id per step, in order, each the oracle's answer on that step's window |
| Generation.WindowIsRecentHistory | processing/melodygener.py:40-54 | for `m >= 1` the model sees the last `m` ids of start context plus all draws so far, or all of them while fewer; the context after a step is that window plus the drawn id |
| Generation.ZeroLengthKeepsAll | processing/melodygener.py:40 | with `max_sequence_length == 0` the model sees the whole history |
| Generation.Outcome | processing/melodygener.py:57-63 | decoding the drawn ids in order: an unknown id raises `IndexError`, the boundary stops the melody without being added, anything else is appended; pinned down by `OutcomeOk`, `OutcomeErr` and `FullLengthIffNoBoundary` |
| Generation.OutcomeOk | processing/melodygener.py:30-63 | the melody is the seed followed by the decoded ids in drawing order, none a boundary; it is at most seed plus steps long; it is shorter only when the next id decoded to the boundary |
| Generation.FullLengthIffNoBoundary | processing/melodygener.py:37-63 | the melody has seed-plus-steps symbols exactly when no drawn id decodes to the boundary |
| Generation.OutcomeErr | processing/melodygener.py:57 | generation fails only with `IndexError` for an id no symbol has; every id drawn before it decoded to an ordinary symbol |
| Generation.OutcomeNeverFails | processing/melodygener.py:57 | when every drawn id belongs to a symbol, generation cannot fail |
| Generation.DecodedSymbolsRoundTrip | processing/melodygener.py:57 | with distinct keys and ids, each generated symbol maps back to the id drawn for it |
| MelodyGen.MelodyGenerator.constructor | processing/melodygener.py:10-20 | keeps the mapping; the start symbols are 64 boundary symbols |
| MelodyGen.MelodyGenerator.GenerateMelody | processing/melodygener.py:22-64 | a seed symbol without an id raises its `KeyError`; otherwise the result is the decoding of the ids the oracle draws, with the context cut and grown as in `Draws` |
| MelodyGen.MelodyGenerator.SaveMelody | processing/melodygener.py:85-115 | the events are `SavedEvents(melody)` (everything but the last token decoded), or the `ValueError` of the first bad symbol |
| MelodyGen.MelodyGenerator.SaveMelodyCorrected | processing/melodygener.py:95-115 | the events are the complete decoding of the melody, or the `ValueError` of the first bad symbol |
| MelodyGen.SamplerInRangeNeverFails | processing/melodygener.py:51-57 | if ids are `0 .. n-1` and the sampler only returns such ids, generation never raises `IndexError` |
| Detokenize.ParseTiles | processing/melodygener.py:95-115 | the lead holds plus the runs spell the melody, and no run opens with a hold |
| Detokenize.ParseUnique | processing/melodygener.py:95-115 | any lead and runs that open with symbols and spell the melody are its parse |
| Detokenize.Complete | processing/melodygener.py:95-115 | the complete decoding: one event per run of the parse, as long as the run, with the leading holds added to the first; `ParseTiles` and `ParseUnique` pin the parse down, and `CompleteSymbols`, `CompleteSteps` and `LeadingHolds` state its counts |
| Detokenize.SavedEvents | processing/melodygener.py:95-115 | what the loop as written emits: the runs before the last, plus the last run one step short when it has holds; `SavedDropsLast` shows it is the complete decoding of all tokens but the last |
| Detokenize.CompleteSnoc | processing/melodygener.py:95-115 | a symbol adds a one-step event (carrying the leading holds when it is the first); a hold lengthens the last event, or changes nothing before any symbol |
| Detokenize.SavedDropsLast | processing/melodygener.py:97 | the loop as written emits the complete decoding of every token but the last, whatever that token is |
| Detokenize.CompleteSettles | processing/melodygener.py:97-112 | once a symbol follows, the decoding so far stays a prefix of every later decoding |
| Detokenize.CompleteSymbols | processing/melodygener.py:97-112 | one event per symbol of the melody, in order, with that symbol; never a hold |
| Detokenize.CompleteSteps | processing/melodygener.py:100-115 | the event lengths add up to the number of tokens, once there is a symbol at all |
| Detokenize.SavedCounts | processing/melodygener.py:95-115 | as written: one event per symbol before the last token (flush positions minus one), never a hold, together one step short of the melody |
| Detokenize.LeadingHolds | processing/melodygener.py:91-115 | holds before the first symbol lengthen the first event and change nothing else |
| Detokenize.ToEvent | processing/melodygener.py:100-107 | `r` gives a rest; a number gives a note with that MIDI number; both last `step_duration * steps`; anything else raises `ValueError` |
| Detokenize.ToEvents | processing/melodygener.py:95-108 | all events in order exactly when every symbol converts; otherwise the error of the first that does not |
| Detokenize.ToEventsPrefixErr | processing/melodygener.py:95-108 | a failure on a prefix of the events is the failure of the whole |
| Detokenize.StepSymbol | processing/melodygener.py:97-112 | at a symbol, the pending event is emitted and the symbol becomes pending, with the counter reset |
| Detokenize.Flush | processing/melodygener.py:97-112 | at a symbol or the last token, everything emitted is a prefix of the loop's output; at the last token it is the whole output |
| Detokenize.StepHold | processing/melodygener.py:113-115 | at a hold, the pending event grows by one step |
| RoundTrip.CompleteEncoded | processing/preprocess.py:106-112 | a song's tokens decode completely to one event per event, with its symbol and its step count |
| RoundTrip.EventFromSymbol | processing/melodygener.py:100-107 | an event lasting `k` steps is rebuilt exactly from its symbol and `k` |
| RoundTrip.NoteSymbol | processing/melodygener.py:107 | a note's symbol is never `r` and reads back as its MIDI number |
| RoundTrip.DecodeEncode | processing/melodygener.py:95-115 | complete decoding inverts encoding for every song on the time grid |
| RoundTrip.AcceptableOnGrid | processing/preprocess.py:18-27 | every acceptable duration is a whole, positive number of sixteenths |
| RoundTrip.AcceptableRoundTrip | processing/preprocess.py:49-58 | every song the filter keeps comes back unchanged from complete decoding |
| RoundTrip.ShortenLast | processing/preprocess.py:108-112 | without its final hold, a song's tokens are those of the song with a last event one step shorter |
| RoundTrip.SavedEncoded | processing/melodygener.py:95-115 | as written, every event but the last comes back; the last is lost if it is one step long, and otherwise comes back one step short |
| RoundTrip.FinalRestShortened | processing/melodygener.py:97-115 | a quarter-note rest encodes to `r _ _ _` and comes back as a rest of 0.75 |
| RoundTrip.FinalNoteLost | processing/melodygener.py:97-112 | `60 _ _ _ 62` comes back as the first note only |

## Left out

- music21: parsing kern files, `flat.notesAndRests`, building `Note`/`Rest` and `stream.write`. Songs come in as lists of events, and a decoded melody is a list of events. Chords and other elements that are neither a note nor a rest are not represented.
- `transpose` and `load_songs_in_kern` depend on music21's key analysis and the file system.
- File and JSON reads and writes: the per-song files, the corpus file, `mapping.json` and the saved MIDI file. The mapping is a parameter of the constructor and of `ConvertSongsToInt`, which reads `mapping.json` in the source; the corpus is a parameter of the functions that read it.
- Keras: `load_model`, `to_categorical`, `model.predict` and all of `train.py`. The network together with `_sample_with_temp` is one oracle from (window, step) to an id. Randomness is folded into the step number.
- `_sample_with_temp` uses floating-point `log`/`exp` and numpy randomness. As written, it samples from the original probabilities, so `temp` has no effect. `GenerateMelody` therefore takes no temperature.
- `_file_name` refers to names it does not define and is never called.
- Durations are exact reals: float rounding in `d / time_step` and in `step_duration * step_counter` is not modelled.
- `Detokenize.ToEvent`: a note's duration is `step_duration * steps`. The source passes it as the keyword `quarterlength=`, and what music21 does with that spelling is not modelled.
- `Preprocess.CreateMapping` takes the vocabulary order as a parameter: any duplicate-free enumeration of the distinct tokens. The order `list(set(...))` actually produces depends on string hashing.
- `Text.ParseInt` accepts ASCII digits only. Python's `int()` also accepts other Unicode decimal digits.
- `generating_training_sequences`: the one-hot encoding of the inputs and `np.array` are left out; only the window loop is modelled.

## Findings

| source | as written | input that shows it | evidently intended | confidence | as-written member | corrected member |
|---|---|---|---|---|---|---|
| processing/melodygener.py:97-115 | the last token only flushes the pending event: a final symbol is never emitted, and a final hold is not counted | `60 _ _ _ 62` gives one note of 1.0 (the 62 is lost); `r _ _ _` gives a rest of 0.75 | the event pending after the last token is emitted with every hold counted, so decoding inverts encoding | not executed | RoundTrip.FinalNoteLost | MelodyGen.MelodyGenerator.SaveMelodyCorrected |

- As written, `Detokenize.SavedDropsLast` shows that the loop decodes everything but the final token.
- `RoundTrip.SavedEncoded` shows the effect on any encoded song.
- The corrected loop, `MelodyGen.MelodyGenerator.SaveMelodyCorrected`, emits the complete decoding.
- `RoundTrip.DecodeEncode` and `RoundTrip.AcceptableRoundTrip` prove that the complete decoding gives every song on the grid back unchanged.
