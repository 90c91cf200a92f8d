/**
 * Encoding a song and decoding its tokens again. The complete decoding
 * gives back every song whose durations lie on the time grid, which covers
 * every song the duration filter keeps; the loop of `save_melody` as
 * written loses the last step of the melody.
 */
module RoundTrip {
  import opened Wrappers
  import opened Text
  import opened Preprocess
  import opened Detokenize

  /** Every event covers at least one grid step. */
  predicate NoneDropped(song: seq<Event>, timeStep: real)
    requires timeStep != 0.0
  {
    forall i :: 0 <= i < |song| ==> Steps(song[i], timeStep) >= 1
  }

  /** An event covers at least one grid step and lasts exactly its steps. */
  predicate EventOnGrid(e: Event, timeStep: real)
    requires timeStep != 0.0
  {
    Steps(e, timeStep) >= 1 && e.duration == timeStep * Steps(e, timeStep) as real
  }

  predicate OnGrid(song: seq<Event>, timeStep: real)
    requires timeStep != 0.0
  {
    forall i :: 0 <= i < |song| ==> EventOnGrid(song[i], timeStep)
  }

  lemma OnGridAt(song: seq<Event>, timeStep: real, i: int)
    requires timeStep != 0.0 && OnGrid(song, timeStep) && 0 <= i < |song|
    ensures Steps(song[i], timeStep) >= 1 && song[i].duration == timeStep * Steps(song[i], timeStep) as real
  {
    assert EventOnGrid(song[i], timeStep);
  }

  /** The runs an encoded song consists of: one per event, its symbol and one hold per further step. */
  function EventRuns(song: seq<Event>, timeStep: real): (runs: seq<Run>)
    requires timeStep != 0.0 && NoneDropped(song, timeStep)
    ensures |runs| == |song|
    ensures forall i :: 0 <= i < |song| ==> runs[i] == Run(Symbol(song[i]), Steps(song[i], timeStep) - 1)
  {
    if song == [] then []
    else
      var e := song[|song| - 1];
      EventRuns(song[..|song| - 1], timeStep) + [Run(Symbol(e), Steps(e, timeStep) - 1)]
  }

  /** The tokens of an encoded song are the tokens of its runs. */
  lemma {:induction false} EncodedRuns(song: seq<Event>, timeStep: real)
    requires timeStep != 0.0 && NoneDropped(song, timeStep)
    ensures RunTokens(EventRuns(song, timeStep)) == EncodeTokens(song, timeStep)
  {
    if song != [] {
      var init, e := song[..|song| - 1], song[|song| - 1];
      var r := EventRuns(init, timeStep);
      var x := Run(Symbol(e), Steps(e, timeStep) - 1);
      assert RunTokens(r + [x]) == RunTokens(r) + [x.symbol] + Holds(x.holds) by {
        assert (r + [x])[..|r|] == r;
      }
      EncodedRuns(init, timeStep);
      AppendAssoc(RunTokens(r), [x.symbol], Holds(x.holds));
    }
  }

  /**
   * An encoded song reads back as one run per event, with no lead: the
   * complete decoding is one pending event per event, as many steps long.
   */
  lemma CompleteEncoded(song: seq<Event>, timeStep: real)
    requires timeStep != 0.0 && NoneDropped(song, timeStep)
    ensures var c := Complete(EncodeTokens(song, timeStep));
            && |c| == |song|
            && forall i :: 0 <= i < |song| ==> c[i] == Pending(Symbol(song[i]), Steps(song[i], timeStep))
  {
    var runs := EventRuns(song, timeStep);
    assert Parse(EncodeTokens(song, timeStep)) == Parsed(0, runs) by {
      EncodedRuns(song, timeStep);
      assert Holds(0) + RunTokens(runs) == RunTokens(runs);
      ParseUnique(0, runs);
    }
  }

  /** An event lasting `k` steps is rebuilt from its symbol and `k`. */
  lemma EventFromSymbol(e: Event, timeStep: real, k: nat)
    requires e.duration == timeStep * k as real
    ensures ToEvent(Pending(Symbol(e), k), timeStep).Ok?
    ensures ToEvent(Pending(Symbol(e), k), timeStep).value == e
  {
    var r := ToEvent(Pending(Symbol(e), k), timeStep);
    match e
    case Note(m, d) =>
      assert r.Ok? && r.value == Note(m, timeStep * k as real) by {
        NoteSymbol(m);
      }
    case Rest(d) =>
      assert r.Ok? && r.value == Rest(timeStep * k as real);
  }

  /** The symbol of a note is never `r` and reads back as its MIDI number. */
  lemma NoteSymbol(m: int)
    ensures IntToDecimal(m) != REST && ParseInt(IntToDecimal(m)) == Some(m)
  {
    assert IsDigit(IntToDecimal(m)[|IntToDecimal(m)| - 1]);
    ParseIntDecimal(m);
  }

  /** Decoding completely inverts encoding for every song on the grid. */
  lemma DecodeEncode(song: seq<Event>, timeStep: real)
    requires timeStep != 0.0 && OnGrid(song, timeStep)
    ensures ToEvents(Complete(EncodeTokens(song, timeStep)), timeStep) == Ok(song)
  {
    forall i | 0 <= i < |song|
      ensures ToEvent(Pending(Symbol(song[i]), Steps(song[i], timeStep)), timeStep).Ok?
      ensures ToEvent(Pending(Symbol(song[i]), Steps(song[i], timeStep)), timeStep).value == song[i]
    {
      OnGridAt(song, timeStep, i);
      EventFromSymbol(song[i], timeStep, Steps(song[i], timeStep));
    }
    var c := Complete(EncodeTokens(song, timeStep));
    CompleteEncoded(song, timeStep);
    var r := ToEvents(c, timeStep);
    assert r.Ok?;
    assert r.value == song;
  }

  /** Each acceptable duration is a whole, positive number of sixteenths. */
  lemma AcceptableStep(e: Event)
    requires e.duration in ACCEPTABLE_DURATIONS
    ensures EventOnGrid(e, TIME_STEP)
  {
  }

  /** The songs the duration filter keeps lie on the grid of the time step. */
  lemma AcceptableOnGrid(song: seq<Event>)
    requires forall i :: 0 <= i < |song| ==> song[i].duration in ACCEPTABLE_DURATIONS
    ensures OnGrid(song, TIME_STEP)
  {
    forall i | 0 <= i < |song| ensures EventOnGrid(song[i], TIME_STEP) {
      AcceptableStep(song[i]);
    }
  }

  /** Every song the filter keeps survives encoding and complete decoding unchanged. */
  lemma AcceptableRoundTrip(song: seq<Event>)
    requires forall i :: 0 <= i < |song| ==> song[i].duration in ACCEPTABLE_DURATIONS
    ensures ToEvents(Complete(EncodeTokens(song, TIME_STEP)), TIME_STEP) == Ok(song)
  {
    AcceptableOnGrid(song);
    DecodeEncode(song, TIME_STEP);
  }

  // ------------------------------------------------------------ as written

  /** The same note or rest, `k` steps long. */
  function WithSteps(e: Event, timeStep: real, k: nat): (e': Event)
    ensures e'.Note? == e.Note? && (e.Note? ==> e'.midi == e.midi)
    ensures e'.duration == timeStep * k as real
  {
    match e
    case Note(m, _) => Note(m, timeStep * k as real)
    case Rest(_) => Rest(timeStep * k as real)
  }

  /** An event lasting `k` steps of the grid is encoded as `k` steps. */
  lemma StepsWithSteps(e: Event, timeStep: real, k: nat)
    requires timeStep != 0.0
    ensures Steps(WithSteps(e, timeStep, k), timeStep) == k
  {
    assert WithSteps(e, timeStep, k).duration / timeStep == k as real;
  }

  /** Dropping the final hold of a block leaves the block of an event one step shorter. */
  lemma BlockShortened(e: Event, timeStep: real)
    requires timeStep != 0.0 && Steps(e, timeStep) > 1
    ensures Block(e, timeStep) == Block(WithSteps(e, timeStep, Steps(e, timeStep) - 1), timeStep) + [HOLD]
  {
    var k := Steps(e, timeStep);
    var e' := WithSteps(e, timeStep, k - 1);
    StepsWithSteps(e, timeStep, k - 1);
    assert Symbol(e') == Symbol(e);
    HoldsSnoc(k - 2);
    AppendAssoc([Symbol(e)], Holds(k - 2), [HOLD]);
  }

  lemma ShortenedOnGrid(e: Event, timeStep: real, k: nat)
    requires timeStep != 0.0 && k >= 1
    ensures EventOnGrid(WithSteps(e, timeStep, k), timeStep)
  {
    StepsWithSteps(e, timeStep, k);
  }

  /** The tokens of a song whose last event is longer than a step end in a hold that belongs to it. */
  lemma TokensShortened(song: seq<Event>, timeStep: real)
    requires timeStep != 0.0 && |song| > 0 && Steps(song[|song| - 1], timeStep) > 1
    ensures var n := |song|;
            var e' := WithSteps(song[n - 1], timeStep, Steps(song[n - 1], timeStep) - 1);
            EncodeTokens(song, timeStep) == EncodeTokens(song[..n - 1] + [e'], timeStep) + [HOLD]
  {
    var n := |song|;
    var init, e := song[..n - 1], song[n - 1];
    var e' := WithSteps(e, timeStep, Steps(e, timeStep) - 1);
    var pre := EncodeTokens(init, timeStep);
    assert EncodeTokens(init + [e'], timeStep) == pre + Block(e', timeStep) by {
      assert (init + [e'])[..n - 1] == init;
    }
    assert EncodeTokens(song, timeStep) == pre + Block(e, timeStep) by {
      assert song[..n - 1] == init;
    }
    BlockShortened(e, timeStep);
    AppendAssoc(pre, Block(e', timeStep), [HOLD]);
  }

  /** A song on the grid whose last event is one step shorter. */
  lemma ShortenLast(song: seq<Event>, timeStep: real)
    requires timeStep != 0.0 && OnGrid(song, timeStep) && |song| > 0
    requires Steps(song[|song| - 1], timeStep) > 1
    ensures var n := |song|;
            var e' := WithSteps(song[n - 1], timeStep, Steps(song[n - 1], timeStep) - 1);
            && OnGrid(song[..n - 1] + [e'], timeStep)
            && EncodeTokens(song, timeStep)[..|EncodeTokens(song, timeStep)| - 1] == EncodeTokens(song[..n - 1] + [e'], timeStep)
  {
    var n := |song|;
    var init, e := song[..n - 1], song[n - 1];
    var e' := WithSteps(e, timeStep, Steps(e, timeStep) - 1);
    ShortenedOnGrid(e, timeStep, Steps(e, timeStep) - 1);
    var s' := init + [e'];
    forall i | 0 <= i < n ensures EventOnGrid(s'[i], timeStep) {
      if i < n - 1 {
        assert s'[i] == song[i];
      }
    }
    var x := EncodeTokens(s', timeStep);
    TokensShortened(song, timeStep);
    assert (x + [HOLD])[..|x|] == x;
  }

  /**
   * What `save_melody` as written gives for an encoded song on the grid:
   * every event but the last comes back unchanged; the last is lost when it
   * is one step long and comes back one step short otherwise.
   */
  lemma SavedEncoded(song: seq<Event>, timeStep: real)
    requires timeStep != 0.0 && OnGrid(song, timeStep) && |song| > 0
    ensures var n := |song|;
            var k := Steps(song[n - 1], timeStep);
            ToEvents(SavedEvents(EncodeTokens(song, timeStep)), timeStep) ==
              Ok(song[..n - 1] + (if k == 1 then [] else [WithSteps(song[n - 1], timeStep, k - 1)]))
  {
    var n := |song|;
    var init, e := song[..n - 1], song[n - 1];
    var k := Steps(e, timeStep);
    var tokens := EncodeTokens(song, timeStep);
    var p := tokens[..|tokens| - 1];
    assert |tokens| > 0 && tokens == p + [tokens[|tokens| - 1]] by {
      assert song == init + [e];
      assert tokens == EncodeTokens(init, timeStep) + Block(e, timeStep);
    }
    SavedDropsLast(p, tokens[|tokens| - 1]);
    assert OnGrid(init, timeStep) by {
      forall i | 0 <= i < n - 1 ensures EventOnGrid(init[i], timeStep) {
        assert init[i] == song[i];
      }
    }
    if k == 1 {
      assert p == EncodeTokens(init, timeStep) by {
        assert song == init + [e];
        assert Block(e, timeStep) == [Symbol(e)];
      }
      DecodeEncode(init, timeStep);
      assert init + [] == init;
    } else {
      ShortenLast(song, timeStep);
      DecodeEncode(init + [WithSteps(e, timeStep, k - 1)], timeStep);
    }
  }

  /** Examples: a quarter-note rest comes back three sixteenths long. */
  lemma FinalRestShortened()
    ensures EncodeTokens([Rest(1.0)], TIME_STEP) == ["r", "_", "_", "_"]
    ensures ToEvents(SavedEvents(["r", "_", "_", "_"]), TIME_STEP) == Ok([Rest(0.75)])
  {
    var song := [Rest(1.0)];
    assert Steps(song[0], TIME_STEP) == 4;
    assert EncodeTokens(song, TIME_STEP) == ["r", "_", "_", "_"] by {
      assert song[..0] == [];
      assert Holds(3) == ["_", "_", "_"];
    }
    assert OnGrid(song, TIME_STEP) by {
      AcceptableOnGrid(song);
    }
    SavedEncoded(song, TIME_STEP);
    assert song[..0] + [WithSteps(song[0], TIME_STEP, 3)] == [Rest(0.75)];
  }

  /** And a sixteenth note at the end is lost altogether. */
  lemma FinalNoteLost()
    ensures EncodeTokens([Note(60, 1.0), Note(62, 0.25)], TIME_STEP) == ["60", "_", "_", "_", "62"]
    ensures ToEvents(SavedEvents(["60", "_", "_", "_", "62"]), TIME_STEP) == Ok([Note(60, 1.0)])
  {
    var song := [Note(60, 1.0), Note(62, 0.25)];
    assert Steps(song[0], TIME_STEP) == 4 && Steps(song[1], TIME_STEP) == 1;
    assert IntToDecimal(60) == "60" && IntToDecimal(62) == "62";
    assert EncodeTokens(song, TIME_STEP) == ["60", "_", "_", "_", "62"] by {
      assert song[..1] == [Note(60, 1.0)] && song[..1][..0] == [];
      assert Holds(3) == ["_", "_", "_"] && Holds(0) == [];
    }
    assert OnGrid(song, TIME_STEP) by {
      AcceptableOnGrid(song);
    }
    SavedEncoded(song, TIME_STEP);
    assert song[..1] + [] == [Note(60, 1.0)];
  }
}
