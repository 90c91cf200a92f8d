/**
 * The melody generator: seeded sampling from the trained network, and the
 * decoding of a finished melody into notes and rests. The network and the
 * sampler are one oracle, the mapping is given to the constructor instead
 * of being read from disk, and the music21 stream is the list of events.
 */
module MelodyGen {
  import opened Wrappers
  import opened Text
  import opened Dict
  import opened Preprocess
  import opened Generation
  import opened Detokenize

  class MelodyGenerator {
    /** The symbol-to-id mapping saved by the preprocessing step. */
    const mappings: Dict
    /** The boundary symbols put before every seed. */
    const startSymbols: seq<string>

    /** `__init__` with the model and the mapping file already loaded. */
    constructor(mappings: Dict)
      ensures this.mappings == mappings
      ensures startSymbols == Boundaries(SEQUENCE_LENGTH)
    {
      this.mappings := mappings;
      startSymbols := Boundaries(SEQUENCE_LENGTH);
    }

    /**
     * `generate_melody`: the seed is split into symbols, put after the start
     * symbols and mapped to ids (a symbol without an id raises `KeyError`);
     * then at most `numSteps` times the context is cut to its last
     * `maxSequenceLength` ids, an id is drawn, appended and decoded, and the
     * melody stops at the boundary symbol.
     */
    method GenerateMelody(seed: string, numSteps: int, maxSequenceLength: int, oracle: Oracle)
      returns (r: Result<seq<string>, Failure>)
      ensures var ids := GetAll(mappings, startSymbols + Split(seed));
              ids.Err? ==> r == Err(ids.error)
      ensures var ids := GetAll(mappings, startSymbols + Split(seed));
              var steps := if numSteps > 0 then numSteps else 0;
              ids.Ok? ==> r == Outcome(mappings, Draws(oracle, maxSequenceLength, ids.value, steps), Split(seed))
    {
      var melody := Split(seed);
      var start := GetAll(mappings, startSymbols + melody);
      if start.Err? {
        return Err(start.error);
      }
      var context := start.value;
      var steps := if numSteps > 0 then numSteps else 0;
      ghost var draws := Draws(oracle, maxSequenceLength, start.value, steps);
      ghost var initial := melody;
      var i := 0;
      while i < steps
        invariant 0 <= i <= steps
        invariant context == ContextAt(oracle, maxSequenceLength, start.value, i)
        invariant Outcome(mappings, draws, initial) == Outcome(mappings, draws[i..], melody)
      {
        context := PyTail(context, maxSequenceLength);
        var output := oracle(context, i);
        assert output == draws[i];
        context := context + [output];
        assert draws[i..][1..] == draws[i + 1..];
        match KeyOf(mappings, output)
        case None =>
          return Err(IndexError(output));
        case Some(symbol) =>
          if symbol == BOUNDARY {
            return Ok(melody);
          }
          melody := melody + [symbol];
        i := i + 1;
      }
      assert draws[i..] == [];
      return Ok(melody);
    }

    /**
     * The decoding loop of `save_melody`: a symbol (or the last token)
     * emits the pending event, if any, with its counted steps; a hold adds
     * a step. Each emitted event is built by `ToEvent`, whose `int()` raises
     * `ValueError` on a symbol that is neither `r` nor a number. The events
     * are exactly what the loop as written produces.
     */
    method SaveMelody(melody: seq<string>, stepDuration: real) returns (r: Result<seq<Event>, Failure>)
      ensures r == ToEvents(SavedEvents(melody), stepDuration)
    {
      var events: seq<Event> := [];
      var startSymbol: Option<string> := None;
      var stepCounter: nat := 1;
      ghost var done: seq<Pending> := [];
      for i := 0 to |melody|
        invariant i < |melody| ==> DecoderState(melody[..i], startSymbol, stepCounter, done)
        invariant i == |melody| ==> done == SavedEvents(melody)
        invariant ToEvents(done, stepDuration) == Ok(events)
      {
        if melody[i] != HOLD || i + 1 == |melody| {
          Flush(melody, i, startSymbol, stepCounter, done);
          if startSymbol.Some? {
            var pending := Pending(startSymbol.value, stepCounter);
            ToEventsSnoc(done, pending, stepDuration);
            match ToEvent(pending, stepDuration)
            case Err(e) =>
              ToEventsPrefixErr(done + [pending], SavedEvents(melody), stepDuration);
              return Err(e);
            case Ok(event) =>
              events := events + [event];
              done := done + [pending];
              stepCounter := 1;
          }
          startSymbol := Some(melody[i]);
        } else {
          assert melody[..i + 1] == melody[..i] + [HOLD];
          StepHold(melody[..i], startSymbol, stepCounter, done);
          stepCounter := stepCounter + 1;
        }
      }
      return Ok(events);
    }
    /**
     * The decoding loop as evidently intended: a symbol emits the pending
     * event, a hold (the last one included) adds a step, and the event still
     * pending after the last token is emitted too. It decodes the melody
     * completely, so it inverts the encoder (`RoundTrip.DecodeEncode`).
     */
    method SaveMelodyCorrected(melody: seq<string>, stepDuration: real) returns (r: Result<seq<Event>, Failure>)
      ensures r == ToEvents(Complete(melody), stepDuration)
    {
      var events: seq<Event> := [];
      var startSymbol: Option<string> := None;
      var stepCounter: nat := 1;
      ghost var done: seq<Pending> := [];
      for i := 0 to |melody|
        invariant DecoderState(melody[..i], startSymbol, stepCounter, done)
        invariant ToEvents(done, stepDuration) == Ok(events)
      {
        assert melody[..i + 1] == melody[..i] + [melody[i]];
        if melody[i] != HOLD {
          StepSymbol(melody[..i], melody[i], startSymbol, stepCounter, done);
          if startSymbol.Some? {
            var pending := Pending(startSymbol.value, stepCounter);
            ToEventsSnoc(done, pending, stepDuration);
            match ToEvent(pending, stepDuration)
            case Err(e) =>
              CompletePrefix(melody, i);
              ToEventsPrefixErr(done + [pending], Complete(melody), stepDuration);
              return Err(e);
            case Ok(event) =>
              events := events + [event];
              done := done + [pending];
              stepCounter := 1;
          }
          startSymbol := Some(melody[i]);
        } else {
          StepHold(melody[..i], startSymbol, stepCounter, done);
          stepCounter := stepCounter + 1;
        }
      }
      assert melody[..|melody|] == melody;
      if startSymbol.Some? {
        var pending := Pending(startSymbol.value, stepCounter);
        ToEventsSnoc(done, pending, stepDuration);
        match ToEvent(pending, stepDuration)
        case Err(e) =>
          return Err(e);
        case Ok(event) =>
          events := events + [event];
      }
      return Ok(events);
    }
  }

  /**
   * When every id the sampler can return belongs to a symbol (ids are
   * `0 .. |mappings| - 1`, as the vocabulary step assigns them, and the
   * sampler picks an index of the network's output of that size),
   * generation never raises `IndexError`.
   */
  lemma SamplerInRangeNeverFails(d: Dict, oracle: Oracle, m: int, init: seq<int>, steps: nat, melody: seq<string>)
    requires forall v :: v in Values(d) <==> 0 <= v < |d|
    requires forall w, k :: 0 <= oracle(w, k) < |d|
    ensures Outcome(d, Draws(oracle, m, init, steps), melody).Ok?
  {
    var draws := Draws(oracle, m, init, steps);
    forall i | 0 <= i < |draws| ensures draws[i] in Values(d) {
      assert draws[i] == oracle(WindowAt(oracle, m, init, i), i);
    }
    OutcomeNeverFails(d, draws, melody);
  }
}
