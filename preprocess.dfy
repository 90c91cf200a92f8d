/**
 * The symbolic half of the training pipeline: the duration filter, the
 * tokenizer of one song, the single-file corpus, the vocabulary, the
 * integer coding and the sliding window over it.
 */
module Preprocess {
  import opened Wrappers
  import opened Text
  import opened Dict

  /** The hold token: the previous note or rest goes on for one more step. */
  const HOLD: string := "_"
  const REST: string := "r"
  /** The boundary token written between songs and before a seed. */
  const BOUNDARY: string := "/"
  const SEQUENCE_LENGTH: nat := 64
  /** Quarter lengths a song may use (a sixteenth up to a whole note). */
  const ACCEPTABLE_DURATIONS: seq<real> := [0.25, 0.5, 0.75, 1.0, 1.5, 2.0, 3.0, 4.0]
  const TIME_STEP: real := 0.25

  /** One element of a score flattened to notes and rests; durations in quarter lengths. */
  datatype Event = Note(midi: int, duration: real) | Rest(duration: real)

  // ------------------------------------------------------- duration filter

  /** A song is kept only if every note and rest has an acceptable duration. */
  method HasAcceptableDurations(song: seq<Event>, acceptable: seq<real>) returns (ok: bool)
    ensures ok <==> forall i :: 0 <= i < |song| ==> song[i].duration in acceptable
  {
    for i := 0 to |song|
      invariant forall j :: 0 <= j < i ==> song[j].duration in acceptable
    {
      if song[i].duration !in acceptable {
        return false;
      }
    }
    return true;
  }

  // ------------------------------------------------------------- tokenizer

  /** Python's `int(x)` on a number: truncation toward zero. */
  function Trunc(x: real): (n: int)
    ensures x >= 0.0 ==> n as real <= x < n as real + 1.0
    ensures x < 0.0 ==> n as real - 1.0 < x <= n as real
  {
    if x >= 0.0 then x.Floor else -((-x).Floor)
  }

  /** `int(duration / time_step)`: how many grid steps an event occupies. */
  function Steps(e: Event, timeStep: real): int
    requires timeStep != 0.0
  {
    Trunc(e.duration / timeStep)
  }

  /** The token that opens an event: its MIDI number, or `r` for a rest. */
  function Symbol(e: Event): (s: string)
    ensures IsWord(s) && s != HOLD && s != BOUNDARY
  {
    match e
    case Note(m, _) => IntToDecimal(m)
    case Rest(_) => REST
  }

  function Holds(n: nat): (h: seq<string>)
    ensures |h| == n && forall i :: 0 <= i < n ==> h[i] == HOLD
  {
    seq(n, _ => HOLD)
  }

  lemma HoldsSnoc(n: nat)
    ensures Holds(n + 1) == Holds(n) + [HOLD]
  {
  }

  /** The tokens of one event: its symbol, then a hold for every further step. */
  function Block(e: Event, timeStep: real): seq<string>
    requires timeStep != 0.0
  {
    var k := Steps(e, timeStep);
    if k <= 0 then [] else [Symbol(e)] + Holds(k - 1)
  }

  /** The token list of a song: the blocks of its events, in order. */
  function EncodeTokens(song: seq<Event>, timeStep: real): seq<string>
    requires timeStep != 0.0
  {
    if song == [] then [] else EncodeTokens(song[..|song| - 1], timeStep) + Block(song[|song| - 1], timeStep)
  }

  /** Number of grid steps a song covers; events shorter than a step count zero. */
  function TotalSteps(song: seq<Event>, timeStep: real): nat
    requires timeStep != 0.0
  {
    if song == [] then 0
    else
      var k := Steps(song[|song| - 1], timeStep);
      TotalSteps(song[..|song| - 1], timeStep) + (if k > 0 then k else 0)
  }

  /**
   * `encode_song`: one symbol per event followed by its holds, `int(d / time_step)`
   * tokens in all, joined by single spaces.
   */
  method EncodeSong(song: seq<Event>, timeStep: real) returns (encoded: string)
    requires timeStep != 0.0
    ensures encoded == Join(EncodeTokens(song, timeStep))
    ensures Split(encoded) == EncodeTokens(song, timeStep)
  {
    var tokens: seq<string> := [];
    for i := 0 to |song|
      invariant tokens == EncodeTokens(song[..i], timeStep)
    {
      var event := song[i];
      var symbol := Symbol(event);
      var steps := Trunc(event.duration / timeStep);
      var n := if steps > 0 then steps else 0;
      ghost var before := tokens;
      for step := 0 to n
        invariant tokens == before + BlockPrefix(symbol, step)
      {
        BlockPrefixStep(symbol, step);
        AppendAssoc(before, BlockPrefix(symbol, step), [if step == 0 then symbol else HOLD]);
        if step == 0 {
          tokens := tokens + [symbol];
        } else {
          tokens := tokens + [HOLD];
        }
      }
      assert tokens == EncodeTokens(song[..i + 1], timeStep) by {
        assert song[..i + 1][..i] == song[..i];
        BlockIsPrefix(event, timeStep);
      }
    }
    assert song[..|song|] == song;
    encoded := Join(tokens);
    TokensAreWords(song, timeStep);
    SplitJoin(tokens);
  }

  /** The first `step` tokens of a block opened by `symbol`. */
  function BlockPrefix(symbol: string, step: int): seq<string>
  {
    if step <= 0 then [] else [symbol] + Holds(step - 1)
  }

  lemma BlockPrefixStep(symbol: string, step: nat)
    ensures BlockPrefix(symbol, step) + [if step == 0 then symbol else HOLD] == BlockPrefix(symbol, step + 1)
  {
    if step > 0 {
      HoldsSnoc(step - 1);
      AppendAssoc([symbol], Holds(step - 1), [HOLD]);
    }
  }

  lemma BlockIsPrefix(e: Event, timeStep: real)
    requires timeStep != 0.0
    ensures Block(e, timeStep) == BlockPrefix(Symbol(e), Steps(e, timeStep))
  {
  }

  lemma {:induction false} TokensAreWords(song: seq<Event>, timeStep: real)
    requires timeStep != 0.0
    ensures forall i :: 0 <= i < |EncodeTokens(song, timeStep)| ==> IsWord(EncodeTokens(song, timeStep)[i])
  {
    if song != [] {
      TokensAreWords(song[..|song| - 1], timeStep);
    }
  }

  /** `encode_song` emits exactly `int(d / time_step)` tokens per event with a positive count. */
  lemma {:induction false} TokenCount(song: seq<Event>, timeStep: real)
    requires timeStep != 0.0
    ensures |EncodeTokens(song, timeStep)| == TotalSteps(song, timeStep)
  {
    if song != [] {
      TokenCount(song[..|song| - 1], timeStep);
    }
  }

  /** Tokenizing is compositional: the tokens of a concatenation are the concatenated tokens. */
  lemma {:induction false} EncodeTokensAppend(a: seq<Event>, b: seq<Event>, timeStep: real)
    requires timeStep != 0.0
    ensures EncodeTokens(a + b, timeStep) == EncodeTokens(a, timeStep) + EncodeTokens(b, timeStep)
    decreases |b|
  {
    if b == [] {
      assert a + b == a;
    } else {
      var b' := b[..|b| - 1];
      var x := Block(b[|b| - 1], timeStep);
      assert EncodeTokens(a + b, timeStep) == EncodeTokens(a + b', timeStep) + x by {
        assert (a + b)[..|a + b| - 1] == a + b';
      }
      EncodeTokensAppend(a, b', timeStep);
      AppendAssoc(EncodeTokens(a, timeStep), EncodeTokens(b', timeStep), x);
    }
  }

  /** The tokens of a song split around event `j` into before, its block, and after. */
  lemma EventBlock(song: seq<Event>, timeStep: real, j: int)
    requires timeStep != 0.0 && 0 <= j < |song|
    ensures EncodeTokens(song, timeStep) ==
            EncodeTokens(song[..j], timeStep) + Block(song[j], timeStep) + EncodeTokens(song[j + 1..], timeStep)
  {
    assert song == song[..j] + ([song[j]] + song[j + 1..]);
    EncodeTokensAppend(song[..j], [song[j]] + song[j + 1..], timeStep);
    EncodeTokensAppend([song[j]], song[j + 1..], timeStep);
    assert EncodeTokens([song[j]], timeStep) == Block(song[j], timeStep) by {
      assert [song[j]][..0] == [];
    }
  }

  /** An event shorter than one step leaves no token at all. */
  lemma EmptyBlock(e: Event, timeStep: real)
    requires timeStep != 0.0 && Steps(e, timeStep) <= 0
    ensures Block(e, timeStep) == []
  {
  }

  lemma DroppedBlock(song: seq<Event>, timeStep: real, j: int)
    requires timeStep != 0.0 && 0 <= j < |song| && Block(song[j], timeStep) == []
    ensures EncodeTokens(song, timeStep) == EncodeTokens(song[..j] + song[j + 1..], timeStep)
  {
    EventBlock(song, timeStep, j);
    AppendEmpty(EncodeTokens(song[..j], timeStep), Block(song[j], timeStep), EncodeTokens(song[j + 1..], timeStep));
    EncodeTokensAppend(song[..j], song[j + 1..], timeStep);
  }

  lemma DroppedEvent(song: seq<Event>, timeStep: real, j: int)
    requires timeStep != 0.0 && 0 <= j < |song| && Steps(song[j], timeStep) <= 0
    ensures EncodeTokens(song, timeStep) == EncodeTokens(song[..j] + song[j + 1..], timeStep)
  {
    EmptyBlock(song[j], timeStep);
    DroppedBlock(song, timeStep, j);
  }

  /**
   * Where event `j` lands in the tokens: from offset `TotalSteps(song[..j])`
   * come its symbol and then `Steps - 1` holds.
   */
  lemma EventLayout(song: seq<Event>, timeStep: real, j: int)
    requires timeStep != 0.0 && 0 <= j < |song| && Steps(song[j], timeStep) > 0
    ensures var tokens := EncodeTokens(song, timeStep);
            var o := TotalSteps(song[..j], timeStep);
            var k := Steps(song[j], timeStep);
            && o + k <= |tokens|
            && tokens[o] == Symbol(song[j])
            && forall t :: o < t < o + k ==> tokens[t] == HOLD
  {
    EventBlock(song, timeStep, j);
    TokenCount(song[..j], timeStep);
    var pre := EncodeTokens(song[..j], timeStep);
    var block := Block(song[j], timeStep);
    var tokens := EncodeTokens(song, timeStep);
    forall t | |pre| <= t < |pre| + |block| ensures tokens[t] == block[t - |pre|] {
    }
  }

  // --------------------------------------------------------- single corpus

  /**
   * Python's `s * n` for a string: `n` copies, none when `n <= 0`. The result
   * starts with `s` and repeats with period `|s|`.
   */
  function Repeat(s: string, n: int): (r: string)
    ensures |r| == (if n > 0 then n else 0) * |s|
    ensures n > 0 ==> r[..|s|] == s
    ensures forall i :: 0 <= i < |r| - |s| ==> r[i + |s|] == r[i]
    decreases n
  {
    if n <= 0 then []
    else
      var rest := Repeat(s, n - 1);
      assert (n - 1) * |s| + |s| == n * |s|;
      assert forall i :: 0 <= i < |rest| ==> (s + rest)[i + |s|] == (s + rest)[i] by {
        forall i | 0 <= i < |rest| ensures (s + rest)[i + |s|] == (s + rest)[i] {
          if i < |s| {
            assert rest[i] == rest[..|s|][i];
          }
        }
      }
      s + rest
  }

  function Boundaries(n: int): (b: seq<string>)
    ensures |b| == (if n > 0 then n else 0) && forall i :: 0 <= i < |b| ==> b[i] == BOUNDARY
  {
    seq(if n > 0 then n else 0, _ => BOUNDARY)
  }

  /** The text before trimming: every song followed by a space and `n` copies of `"/ "`. */
  function Delimited(songs: seq<string>, n: int): string
  {
    if songs == [] then ""
    else Delimited(songs[..|songs| - 1], n) + (songs[|songs| - 1] + " " + Repeat("/ ", n))
  }

  /** The corpus as tokens: each song's tokens followed by `n` boundary tokens. */
  function CorpusTokens(songs: seq<string>, n: int): seq<string>
  {
    if songs == [] then []
    else CorpusTokens(songs[..|songs| - 1], n) + (Split(songs[|songs| - 1]) + Boundaries(n))
  }

  /**
   * `create_Single_file_dataset` without the file reads and writes: the songs
   * each followed by a space and the delimiter, with the last space cut off.
   */
  method CreateSingleFileDataset(songs: seq<string>, sequenceLength: int) returns (corpus: string)
    ensures songs == [] ==> corpus == ""
    ensures songs != [] ==> corpus + " " == Delimited(songs, sequenceLength)
    ensures Split(corpus) == CorpusTokens(songs, sequenceLength)
  {
    var delimiter := Repeat("/ ", sequenceLength);
    var acc := "";
    for i := 0 to |songs|
      invariant acc == Delimited(songs[..i], sequenceLength)
    {
      acc := acc + songs[i] + " " + delimiter;
      assert songs[..i + 1][..i] == songs[..i];
    }
    assert songs[..|songs|] == songs;
    DelimitedTokens(songs, sequenceLength);
    if acc == "" {
      corpus := acc;
    } else {
      corpus := acc[..|acc| - 1];
      DelimitedEndsInSpace(songs, sequenceLength);
      assert corpus + " " == acc;
      SplitDropLast(acc);
    }
  }

  lemma {:induction false} RepeatEndsInSpace(n: int)
    ensures Repeat("/ ", n) == [] || Repeat("/ ", n)[|Repeat("/ ", n)| - 1] == ' '
    decreases n
  {
    if n > 0 {
      RepeatEndsInSpace(n - 1);
    }
  }

  lemma DelimitedEndsInSpace(songs: seq<string>, n: int)
    ensures var d := Delimited(songs, n); d == [] || d[|d| - 1] == ' '
  {
    if songs != [] {
      RepeatEndsInSpace(n);
    }
  }

  lemma {:induction false} RepeatTokens(n: int)
    ensures Split(Repeat("/ ", n)) == Boundaries(n)
    decreases n
  {
    if n > 0 {
      assert Split("/ ") == [BOUNDARY] by {
        assert WordLen("/ ") == 1;
        assert "/ "[..1] == BOUNDARY && "/ "[1..] == " ";
      }
      assert Split(Repeat("/ ", n)) == Split("/ ") + Split(Repeat("/ ", n - 1)) by {
        SplitAppend("/ ", Repeat("/ ", n - 1));
      }
      RepeatTokens(n - 1);
      assert Boundaries(n) == [BOUNDARY] + Boundaries(n - 1);
    }
  }

  /** At token level the delimited text is every song's tokens followed by `n` boundaries. */
  lemma {:induction false} DelimitedTokens(songs: seq<string>, n: int)
    ensures Split(Delimited(songs, n)) == CorpusTokens(songs, n)
  {
    if songs != [] {
      var init := songs[..|songs| - 1];
      var last := songs[|songs| - 1];
      var rep := Repeat("/ ", n);
      DelimitedTokens(init, n);
      DelimitedEndsInSpace(init, n);
      SplitAppend(Delimited(init, n), last + " " + rep);
      assert last + " " + rep == last + (" " + rep);
      SplitAppend(last, " " + rep);
      assert Split(" " + rep) == Split(rep) by {
        assert (" " + rep)[1..] == rep;
      }
      RepeatTokens(n);
    }
  }

  // ------------------------------------------------------------ vocabulary

  /** `vocab` lists every distinct token exactly once, in some order. */
  predicate IsEnumeration(vocab: seq<string>, tokens: seq<string>)
  {
    && (forall i, j :: 0 <= i < j < |vocab| ==> vocab[i] != vocab[j])
    && (forall i :: 0 <= i < |vocab| ==> vocab[i] in tokens)
    && (forall i :: 0 <= i < |tokens| ==> tokens[i] in vocab)
  }

  /** One order `list(set(tokens))` may produce: first occurrences, left to right. */
  function FirstSeen(tokens: seq<string>): (vocab: seq<string>)
    ensures IsEnumeration(vocab, tokens)
  {
    if tokens == [] then []
    else
      var init := FirstSeen(tokens[..|tokens| - 1]);
      var t := tokens[|tokens| - 1];
      assert forall i :: 0 <= i < |tokens| - 1 ==> tokens[i] == tokens[..|tokens| - 1][i];
      if t in init then init else init + [t]
  }

  /**
   * `create_mapping` without the JSON write. `list(set(...))` fixes no order,
   * so the order is the parameter `vocabulary`, any enumeration of the
   * distinct tokens.
   */
  method CreateMapping(songs: string, vocabulary: seq<string>) returns (mappings: Dict)
    requires IsEnumeration(vocabulary, Split(songs))
    ensures DistinctKeys(mappings) && InjectiveValues(mappings)
    ensures Keys(mappings) == set t | t in Split(songs)
    ensures forall v :: v in Values(mappings) <==> 0 <= v < |vocabulary|
    ensures |mappings| == |vocabulary|
    ensures forall i :: 0 <= i < |vocabulary| ==> Get(mappings, vocabulary[i]) == Some(i)
  {
    mappings := [];
    for i := 0 to |vocabulary|
      invariant |mappings| == i
      invariant forall j :: 0 <= j < i ==> mappings[j] == Entry(vocabulary[j], j)
    {
      forall j | 0 <= j < |mappings| ensures mappings[j].key != vocabulary[i] {
        assert mappings[j].key == vocabulary[j];
      }
      mappings := Put(mappings, vocabulary[i], i);
    }
    forall i | 0 <= i < |vocabulary| ensures Get(mappings, vocabulary[i]) == Some(i) {
      GetAt(mappings, i);
    }
    assert Keys(mappings) == set t | t in Split(songs) by {
      forall t | t in Split(songs) ensures t in Keys(mappings) {
        var j :| 0 <= j < |vocabulary| && vocabulary[j] == t;
        assert mappings[j].key == t;
      }
    }
    forall v | 0 <= v < |vocabulary| ensures v in Values(mappings) {
      assert mappings[v].value == v;
    }
  }

  // ---------------------------------------------------------- integer code

  /**
   * `convert_songs_to_int` without the JSON read: each token replaced by its
   * id; the first token without one raises `KeyError`.
   */
  method ConvertSongsToInt(songs: string, mappings: Dict) returns (r: Result<seq<int>, Failure>)
    ensures r == GetAll(mappings, Split(songs))
  {
    var tokens := Split(songs);
    var intSongs: seq<int> := [];
    for i := 0 to |tokens|
      invariant GetAll(mappings, tokens[..i]) == Ok(intSongs)
    {
      assert tokens[..i + 1][..i] == tokens[..i];
      match Get(mappings, tokens[i])
      case None =>
        GetAllErrPersists(mappings, tokens, i + 1);
        return Err(KeyError(tokens[i]));
      case Some(id) =>
        intSongs := intSongs + [id];
    }
    assert tokens[..|tokens|] == tokens;
    return Ok(intSongs);
  }

  // ------------------------------------------------------------- windowing

  /**
   * The loop of `generating_training_sequences`: one example per position,
   * the `sequenceLength` ids there as input and the id after them as target.
   */
  method TrainingSequences(intSongs: seq<int>, sequenceLength: nat) returns (inputs: seq<seq<int>>, targets: seq<int>)
    ensures |inputs| == |targets| == if |intSongs| > sequenceLength then |intSongs| - sequenceLength else 0
    ensures forall i :: 0 <= i < |inputs| ==>
              |inputs[i]| == sequenceLength && inputs[i] == intSongs[i..i + sequenceLength] &&
              targets[i] == intSongs[i + sequenceLength]
    ensures sequenceLength > 0 ==>
              forall i :: 0 <= i < |inputs| - 1 ==> inputs[i + 1] == inputs[i][1..] + [targets[i]]
  {
    var numSequences := |intSongs| - sequenceLength;
    inputs, targets := [], [];
    var n := if numSequences > 0 then numSequences else 0;
    for i := 0 to n
      invariant |inputs| == |targets| == i
      invariant forall j :: 0 <= j < i ==>
                  inputs[j] == intSongs[j..j + sequenceLength] && targets[j] == intSongs[j + sequenceLength]
    {
      inputs := inputs + [intSongs[i..i + sequenceLength]];
      targets := targets + [intSongs[i + sequenceLength]];
    }
    if sequenceLength > 0 {
      forall i | 0 <= i < |inputs| - 1 ensures inputs[i + 1] == inputs[i][1..] + [targets[i]] {
        assert intSongs[i..i + sequenceLength][1..] == intSongs[i + 1..i + sequenceLength];
        assert intSongs[i + 1..i + 1 + sequenceLength] == intSongs[i + 1..i + sequenceLength] + [intSongs[i + sequenceLength]];
      }
    }
  }
}
