/**
 * What `save_melody` turns a melody into, stated apart from its loop.
 *
 * A melody is a lead of holds followed by runs: a symbol (a MIDI number or
 * `r`) and the holds right after it. Decoding a melody completely emits one
 * event per run, as long as the run, with the lead added to the first event.
 * The loop as written emits the complete decoding of everything but the
 * final token (`SavedDropsLast`).
 */
module Detokenize {
  import opened Wrappers
  import opened Text
  import opened Preprocess

  // ------------------------------------------------------------------ runs

  /** A symbol and the number of holds that follow it. */
  datatype Run = Run(symbol: string, holds: nat)

  /** A melody cut into the holds before its first symbol and its runs. */
  datatype Parsed = Parsed(lead: nat, runs: seq<Run>)

  /** The tokens a list of runs stands for. */
  function RunTokens(runs: seq<Run>): seq<string>
  {
    if |runs| == 0 then []
    else
      var last := runs[|runs| - 1];
      RunTokens(runs[..|runs| - 1]) + [last.symbol] + Holds(last.holds)
  }

  /** The runs with `h` more holds on the last. */
  function AddHolds(runs: seq<Run>, h: nat): seq<Run>
    requires |runs| > 0
  {
    var last := runs[|runs| - 1];
    runs[..|runs| - 1] + [Run(last.symbol, last.holds + h)]
  }

  /** One token more: a symbol opens a run; a hold extends the last run, or the lead before any symbol. */
  function ParseStep(prev: Parsed, x: string): Parsed
  {
    if x != HOLD then Parsed(prev.lead, prev.runs + [Run(x, 0)])
    else if |prev.runs| == 0 then Parsed(prev.lead + 1, [])
    else Parsed(prev.lead, AddHolds(prev.runs, 1))
  }

  /** A melody read left to right into its lead and runs. */
  function Parse(p: seq<string>): Parsed
  {
    if |p| == 0 then Parsed(0, []) else ParseStep(Parse(p[..|p| - 1]), p[|p| - 1])
  }

  lemma ParseSnoc(p: seq<string>, x: string)
    ensures Parse(p + [x]) == ParseStep(Parse(p), x)
  {
    assert (p + [x])[..|p|] == p;
  }

  lemma RunTokensOpen(r: seq<Run>, x: string)
    ensures RunTokens(r + [Run(x, 0)]) == RunTokens(r) + [x]
  {
    assert (r + [Run(x, 0)])[..|r|] == r;
  }

  lemma RunTokensAddHold(r: seq<Run>)
    requires |r| > 0
    ensures RunTokens(AddHolds(r, 1)) == RunTokens(r) + [HOLD]
    ensures forall j :: 0 <= j < |r| ==> AddHolds(r, 1)[j].symbol == r[j].symbol
  {
    var last, x := r[|r| - 1], AddHolds(r, 1);
    var a := RunTokens(r[..|r| - 1]) + [last.symbol];
    assert x[..|x| - 1] == r[..|r| - 1] && x[|x| - 1] == Run(last.symbol, last.holds + 1);
    assert RunTokens(x) == a + Holds(last.holds + 1);
    HoldsSnoc(last.holds);
    AppendAssoc(a, Holds(last.holds), [HOLD]);
    forall j | 0 <= j < |r| ensures x[j].symbol == r[j].symbol {
      if j < |r| - 1 {
        assert x[j] == x[..|x| - 1][j];
      }
    }
  }

  /**
   * The parse tiles the melody: the lead's holds followed by the tokens of
   * the runs give the melody back, and no run opens with a hold.
   */
  lemma {:induction false} ParseTiles(p: seq<string>)
    ensures Holds(Parse(p).lead) + RunTokens(Parse(p).runs) == p
    ensures forall j :: 0 <= j < |Parse(p).runs| ==> Parse(p).runs[j].symbol != HOLD
  {
    if |p| > 0 {
      var q, x := p[..|p| - 1], p[|p| - 1];
      assert p == q + [x];
      ParseTiles(q);
      ParseSnoc(q, x);
      var l, r := Parse(q).lead, Parse(q).runs;
      if x != HOLD {
        RunTokensOpen(r, x);
        AppendAssoc(Holds(l), RunTokens(r), [x]);
      } else if |r| == 0 {
        HoldsSnoc(l);
      } else {
        RunTokensAddHold(r);
        AppendAssoc(Holds(l), RunTokens(r), [HOLD]);
      }
    }
  }

  lemma {:induction false} ParseLead(l: nat)
    ensures Parse(Holds(l)) == Parsed(l, [])
  {
    if l > 0 {
      ParseLead(l - 1);
      HoldsSnoc(l - 1);
      ParseSnoc(Holds(l - 1), HOLD);
    }
  }

  lemma AddHoldsZero(runs: seq<Run>)
    requires |runs| > 0
    ensures AddHolds(runs, 0) == runs
  {
    assert runs == runs[..|runs| - 1] + [runs[|runs| - 1]];
  }

  lemma AddHoldsSucc(runs: seq<Run>, h: nat)
    requires |runs| > 0
    ensures AddHolds(AddHolds(runs, h), 1) == AddHolds(runs, h + 1)
  {
    var x := AddHolds(runs, h);
    assert x[..|x| - 1] == runs[..|runs| - 1];
  }

  lemma AddHoldsFresh(r: seq<Run>, x: Run)
    ensures AddHolds(r + [Run(x.symbol, 0)], x.holds) == r + [x]
  {
    assert (r + [Run(x.symbol, 0)])[..|r|] == r;
  }

  /** A hold after a symbol lengthens the last run. */
  lemma ParseHold(q: seq<string>)
    requires |Parse(q).runs| > 0
    ensures Parse(q + [HOLD]) == Parsed(Parse(q).lead, AddHolds(Parse(q).runs, 1))
  {
    ParseSnoc(q, HOLD);
  }

  /** Holds after a symbol go to the last run. */
  lemma {:induction false} ParseHolds(q: seq<string>, h: nat)
    requires |Parse(q).runs| > 0
    ensures Parse(q + Holds(h)) == Parsed(Parse(q).lead, AddHolds(Parse(q).runs, h))
  {
    if h == 0 {
      assert q + Holds(0) == q;
      AddHoldsZero(Parse(q).runs);
    } else {
      var q' := q + Holds(h - 1);
      assert q + Holds(h) == q' + [HOLD] by {
        HoldsSnoc(h - 1);
      }
      ParseHolds(q, h - 1);
      ParseHold(q');
      AddHoldsSucc(Parse(q).runs, h - 1);
    }
  }

  lemma RunTokensSnoc(l: nat, r: seq<Run>, x: Run)
    ensures Holds(l) + RunTokens(r + [x]) == (Holds(l) + RunTokens(r) + [x.symbol]) + Holds(x.holds)
  {
    assert (r + [x])[..|r|] == r;
    AppendAssoc(Holds(l), RunTokens(r) + [x.symbol], Holds(x.holds));
    AppendAssoc(Holds(l), RunTokens(r), [x.symbol]);
  }

  /** One more run after a parsed melody is parsed as that run. */
  lemma ParseRunSnoc(l: nat, r: seq<Run>, x: Run)
    requires x.symbol != HOLD
    requires Parse(Holds(l) + RunTokens(r)) == Parsed(l, r)
    ensures Parse(Holds(l) + RunTokens(r + [x])) == Parsed(l, r + [x])
  {
    var a := Holds(l) + RunTokens(r) + [x.symbol];
    RunTokensSnoc(l, r, x);
    assert Parse(a) == Parsed(l, r + [Run(x.symbol, 0)]) by {
      ParseSnoc(Holds(l) + RunTokens(r), x.symbol);
    }
    ParseHolds(a, x.holds);
    AddHoldsFresh(r, x);
  }

  /**
   * The parse is the only tiling: any lead and runs that open with symbols
   * and spell the melody are what `Parse` returns.
   */
  lemma {:induction false} ParseUnique(l: nat, r: seq<Run>)
    requires forall j :: 0 <= j < |r| ==> r[j].symbol != HOLD
    ensures Parse(Holds(l) + RunTokens(r)) == Parsed(l, r)
  {
    if |r| == 0 {
      assert Holds(l) + RunTokens(r) == Holds(l);
      ParseLead(l);
    } else {
      var r', last := r[..|r| - 1], r[|r| - 1];
      assert r == r' + [last];
      assert forall j :: 0 <= j < |r'| ==> r'[j] == r[j];
      ParseUnique(l, r');
      ParseRunSnoc(l, r', last);
    }
  }

  // ------------------------------------------------------------- decoding

  /** A decoded event before its symbol is interpreted: the symbol and its length in steps. */
  datatype Pending = Pending(symbol: string, steps: nat)

  /** One pending event per run, as long as the run; the lead goes to the first. */
  function Flushed(runs: seq<Run>, lead: nat): seq<Pending>
  {
    seq(|runs|, j requires 0 <= j < |runs| => Pending(runs[j].symbol, 1 + runs[j].holds + (if j == 0 then lead else 0)))
  }

  /** The complete decoding of a melody: every run becomes an event. */
  function Complete(p: seq<string>): seq<Pending>
  {
    Flushed(Parse(p).runs, Parse(p).lead)
  }

  /**
   * What the loop of `save_melody` emits. It flushes the pending event at
   * each new symbol and once more at the last token, which is never itself
   * emitted: a last run without holds is lost, and a last run with holds is
   * flushed before its final hold is counted.
   */
  function SavedEvents(melody: seq<string>): seq<Pending>
  {
    var lead, runs := Parse(melody).lead, Parse(melody).runs;
    if |runs| == 0 then []
    else
      var last := runs[|runs| - 1];
      Flushed(runs[..|runs| - 1], lead)
        + (if last.holds > 0 then [Pending(last.symbol, last.holds + (if |runs| == 1 then lead else 0))] else [])
  }

  lemma FlushedSnoc(r: seq<Run>, x: Run, lead: nat)
    ensures Flushed(r + [x], lead) == Flushed(r, lead) + [Pending(x.symbol, 1 + x.holds + (if |r| == 0 then lead else 0))]
  {
    assert forall j :: 0 <= j < |r| ==> (r + [x])[j] == r[j];
  }

  lemma FlushedAddHold(r: seq<Run>, lead: nat)
    requires |r| > 0
    ensures var c := Flushed(r, lead);
            Flushed(AddHolds(r, 1), lead) == c[..|c| - 1] + [Pending(c[|c| - 1].symbol, c[|c| - 1].steps + 1)]
  {
    var last := r[|r| - 1];
    FlushedSnoc(r[..|r| - 1], Run(last.symbol, last.holds + 1), lead);
    FlushedSnoc(r[..|r| - 1], last, lead);
    assert r == r[..|r| - 1] + [last];
  }

  /** Before any symbol the lead is the whole melody. */
  lemma LeadBeforeSymbols(p: seq<string>)
    requires |Parse(p).runs| == 0
    ensures Parse(p).lead == |p|
  {
    ParseTiles(p);
  }

  /**
   * How the complete decoding grows token by token: a symbol adds a
   * one-step event (carrying the lead when it is the first symbol); a hold
   * lengthens the last event by one step, or, before any symbol, changes
   * nothing.
   */
  lemma CompleteSnoc(p: seq<string>, x: string)
    ensures var c := Complete(p);
            && (x != HOLD ==> Complete(p + [x]) == c + [Pending(x, 1 + (if |c| == 0 then |p| else 0))])
            && (x == HOLD && |c| == 0 ==> Complete(p + [x]) == [])
            && (x == HOLD && |c| > 0 ==>
                  Complete(p + [x]) == c[..|c| - 1] + [Pending(c[|c| - 1].symbol, c[|c| - 1].steps + 1)])
  {
    ParseSnoc(p, x);
    var l, r := Parse(p).lead, Parse(p).runs;
    if |r| == 0 {
      LeadBeforeSymbols(p);
    }
    if x != HOLD {
      FlushedSnoc(r, Run(x, 0), l);
    } else if |r| > 0 {
      FlushedAddHold(r, l);
    }
  }

  /**
   * `save_melody` as written decodes every token but the last: whatever the
   * final token, the events are the complete decoding of the tokens before it.
   */
  lemma SavedDropsLast(p: seq<string>, x: string)
    ensures SavedEvents(p + [x]) == Complete(p)
  {
    ParseSnoc(p, x);
    var l, r := Parse(p).lead, Parse(p).runs;
    if x != HOLD {
      assert (r + [Run(x, 0)])[..|r|] == r;
    } else if |r| > 0 {
      var last := r[|r| - 1];
      FlushedSnoc(r[..|r| - 1], last, l);
      assert r == r[..|r| - 1] + [last];
      assert AddHolds(r, 1)[..|r| - 1] == r[..|r| - 1];
    }
  }

  /**
   * Once a symbol follows `p`, the complete decoding of `p` is settled: it
   * stays a prefix of every later decoding, short of the still-open last event.
   */
  lemma {:induction false} CompleteSettles(p: seq<string>, s: seq<string>)
    requires |s| > 0 && s[0] != HOLD
    ensures var c, c' := Complete(p), Complete(p + s);
            |c'| > |c| && c <= c'[..|c'| - 1]
  {
    var c := Complete(p);
    if |s| == 1 {
      assert p + s == p + [s[0]];
      CompleteSnoc(p, s[0]);
    } else {
      var s', y := s[..|s| - 1], s[|s| - 1];
      CompleteSettles(p, s');
      assert p + s == (p + s') + [y];
      CompleteSnoc(p + s', y);
      var c' := Complete(p + s');
      var c'' := Complete(p + s);
      if y != HOLD {
        assert c''[..|c''| - 1] == c';
      } else {
        assert c''[..|c''| - 1] == c'[..|c'| - 1];
      }
    }
  }

  /** Before a symbol, the complete decoding so far is a prefix of the complete decoding of the melody. */
  lemma CompletePrefix(melody: seq<string>, i: int)
    requires 0 <= i < |melody| && melody[i] != HOLD
    ensures Complete(melody[..i]) <= Complete(melody)
  {
    assert melody == melody[..i] + melody[i..];
    CompleteSettles(melody[..i], melody[i..]);
  }

  /**
   * Whatever `save_melody` has emitted when it meets a new symbol, or the
   * last token, is a prefix of everything it emits.
   */
  lemma SavedPrefix(melody: seq<string>, i: int)
    requires 0 <= i < |melody| && (melody[i] != HOLD || i + 1 == |melody|)
    ensures Complete(melody[..i]) <= SavedEvents(melody)
  {
    var n := |melody|;
    assert melody == melody[..n - 1] + [melody[n - 1]];
    SavedDropsLast(melody[..n - 1], melody[n - 1]);
    if i + 1 < n {
      assert melody[..n - 1] == melody[..i] + melody[i..n - 1];
      CompleteSettles(melody[..i], melody[i..n - 1]);
    } else {
      assert melody[..i] == melody[..n - 1];
    }
  }

  // ------------------------------------------------------ counts and sums

  /** The tokens of `s` that are not holds, in order. */
  function Symbols(s: seq<string>): (r: seq<string>)
    ensures forall i :: 0 <= i < |r| ==> r[i] != HOLD
  {
    if |s| == 0 then []
    else Symbols(s[..|s| - 1]) + (if s[|s| - 1] == HOLD then [] else [s[|s| - 1]])
  }

  /**
   * The complete decoding emits one event per symbol of the melody, in
   * order, each carrying that symbol: never a hold.
   */
  lemma {:induction false} CompleteSymbols(p: seq<string>)
    ensures |Complete(p)| == |Symbols(p)|
    ensures forall j :: 0 <= j < |Complete(p)| ==> Complete(p)[j].symbol == Symbols(p)[j]
  {
    if |p| > 0 {
      var q, x := p[..|p| - 1], p[|p| - 1];
      assert p == q + [x];
      CompleteSymbols(q);
      CompleteSnoc(q, x);
    }
  }

  /** The total length of some pending events, in steps. */
  function SumSteps(ps: seq<Pending>): nat
  {
    if |ps| == 0 then 0 else SumSteps(ps[..|ps| - 1]) + ps[|ps| - 1].steps
  }

  /**
   * The complete decoding accounts for every step of a melody that holds a
   * symbol at all: the event lengths add up to the number of tokens.
   */
  lemma SumStepsSnoc(ps: seq<Pending>, x: Pending)
    ensures SumSteps(ps + [x]) == SumSteps(ps) + x.steps
  {
    assert (ps + [x])[..|ps|] == ps;
  }

  lemma {:induction false} CompleteSteps(p: seq<string>)
    ensures SumSteps(Complete(p)) == if |Symbols(p)| == 0 then 0 else |p|
  {
    if |p| > 0 {
      var q, x := p[..|p| - 1], p[|p| - 1];
      assert p == q + [x];
      assert Symbols(p) == Symbols(q) + (if x == HOLD then [] else [x]);
      CompleteSteps(q);
      CompleteSymbols(q);
      var c := Complete(q);
      CompleteSnoc(q, x);
      if x != HOLD {
        SumStepsSnoc(c, Pending(x, 1 + (if |c| == 0 then |q| else 0)));
      } else if |c| > 0 {
        var last := c[|c| - 1];
        assert c == c[..|c| - 1] + [last];
        SumStepsSnoc(c[..|c| - 1], last);
        SumStepsSnoc(c[..|c| - 1], Pending(last.symbol, last.steps + 1));
      }
    }
  }

  /**
   * What `save_melody` emits for a non-empty melody: one event per symbol
   * before the final token, in order, together one step short of the melody
   * whenever a symbol comes before the final token.
   */
  lemma SavedCounts(melody: seq<string>)
    requires |melody| > 0
    ensures var p := melody[..|melody| - 1];
            && |SavedEvents(melody)| == |Symbols(p)|
            && (forall j :: 0 <= j < |Symbols(p)| ==> SavedEvents(melody)[j].symbol == Symbols(p)[j])
            && SumSteps(SavedEvents(melody)) == if |Symbols(p)| == 0 then 0 else |melody| - 1
  {
    var p := melody[..|melody| - 1];
    assert melody == p + [melody[|melody| - 1]];
    SavedDropsLast(p, melody[|melody| - 1]);
    CompleteSymbols(p);
    CompleteSteps(p);
  }

  /** Holds before the first symbol lengthen the first event and change nothing else. */
  lemma LeadingHolds(h: nat, q: seq<string>)
    requires |q| > 0 && q[0] != HOLD
    ensures var c, c' := Complete(q), Complete(Holds(h) + q);
            && |c| == |c'| > 0
            && c'[0] == Pending(c[0].symbol, c[0].steps + h)
            && c'[1..] == c[1..]
  {
    var r := Parse(q).runs;
    assert Parse(q) == Parsed(0, r) && q == RunTokens(r) && |r| > 0 by {
      ParseTiles(q);
      assert Holds(0) == [];
    }
    assert Parse(Holds(h) + q) == Parsed(h, r) by {
      ParseTiles(q);
      ParseUnique(h, r);
    }
    var c, c' := Flushed(r, 0), Flushed(r, h);
    assert c'[1..] == c[1..];
  }

  // ------------------------------------------------------------ to events

  /** `m21.note.Rest` for `r`, `m21.note.Note(int(symbol))` otherwise; `int` may raise `ValueError`. */
  function ToEvent(p: Pending, stepDuration: real): (r: Result<Event, Failure>)
    ensures r.Ok? ==> r.value.duration == stepDuration * p.steps as real
    ensures r.Ok? && r.value.Rest? <==> p.symbol == REST
    ensures r.Ok? && r.value.Note? ==> ParseInt(p.symbol) == Some(r.value.midi)
    ensures r.Err? <==> p.symbol != REST && ParseInt(p.symbol).None?
  {
    var duration := stepDuration * p.steps as real;
    if p.symbol == REST then Ok(Rest(duration))
    else
      match ParseInt(p.symbol)
      case Some(m) => Ok(Note(m, duration))
      case None => Err(ValueError(p.symbol))
  }

  /** The events in order; the first symbol that is neither `r` nor a number stops it. */
  function ToEvents(ps: seq<Pending>, stepDuration: real): (r: Result<seq<Event>, Failure>)
    ensures r.Ok? <==> forall i :: 0 <= i < |ps| ==> ToEvent(ps[i], stepDuration).Ok?
    ensures r.Ok? ==> |r.value| == |ps| && forall i :: 0 <= i < |ps| ==> ToEvent(ps[i], stepDuration) == Ok(r.value[i])
    ensures r.Err? ==> exists i :: 0 <= i < |ps| && ToEvent(ps[i], stepDuration) == Err(r.error) &&
                                   forall j :: 0 <= j < i ==> ToEvent(ps[j], stepDuration).Ok?
  {
    if |ps| == 0 then Ok([])
    else
      var init := ps[..|ps| - 1];
      assert forall i :: 0 <= i < |init| ==> init[i] == ps[i];
      match ToEvents(init, stepDuration)
      case Err(e) => Err(e)
      case Ok(events) =>
        match ToEvent(ps[|ps| - 1], stepDuration)
        case Err(e) => Err(e)
        case Ok(event) => Ok(events + [event])
  }

  /** A failure in a prefix is the failure of the whole. */
  lemma {:induction false} ToEventsPrefixErr(a: seq<Pending>, c: seq<Pending>, stepDuration: real)
    requires a <= c && ToEvents(a, stepDuration).Err?
    ensures ToEvents(c, stepDuration) == ToEvents(a, stepDuration)
    decreases |c|
  {
    if |c| > |a| {
      assert a <= c[..|c| - 1];
      ToEventsPrefixErr(a, c[..|c| - 1], stepDuration);
    } else {
      assert a == c;
    }
  }

  /** One event more: the events so far followed by the new one, or the error it raises. */
  lemma ToEventsSnoc(ps: seq<Pending>, p: Pending, stepDuration: real)
    requires ToEvents(ps, stepDuration).Ok?
    ensures ToEvent(p, stepDuration).Ok? ==>
              ToEvents(ps + [p], stepDuration) == Ok(ToEvents(ps, stepDuration).value + [ToEvent(p, stepDuration).value])
    ensures ToEvent(p, stepDuration).Err? ==> ToEvents(ps + [p], stepDuration) == Err(ToEvent(p, stepDuration).error)
  {
    assert (ps + [p])[..|ps|] == ps;
  }

  // ---------------------------------------------------- the loop's state

  /**
   * The state of the `save_melody` loop after the tokens `p`, the last
   * token not yet reached: no symbol seen and a counter of `1 + |p|`, or
   * the events already emitted followed by the pending one make up the
   * complete decoding of `p`.
   */
  ghost predicate DecoderState(p: seq<string>, start: Option<string>, counter: nat, done: seq<Pending>)
  {
    if start.None? then done == [] && counter == 1 + |p| && Complete(p) == []
    else done + [Pending(start.value, counter)] == Complete(p)
  }

  /** At a symbol the pending event is emitted and the symbol becomes pending. */
  lemma StepSymbol(p: seq<string>, x: string, start: Option<string>, counter: nat, done: seq<Pending>)
    requires x != HOLD && DecoderState(p, start, counter, done)
    ensures start.Some? ==> DecoderState(p + [x], Some(x), 1, done + [Pending(start.value, counter)])
    ensures start.None? ==> DecoderState(p + [x], Some(x), counter, done)
  {
    CompleteSnoc(p, x);
  }

  /**
   * At a symbol, or at the last token, the pending event (if any) is
   * emitted: what has been emitted is then a prefix of everything the loop
   * emits, and either the loop goes on from the new state or, at the last
   * token, it has emitted everything.
   */
  lemma Flush(melody: seq<string>, i: nat, start: Option<string>, counter: nat, done: seq<Pending>)
    requires i < |melody| && (melody[i] != HOLD || i + 1 == |melody|)
    requires DecoderState(melody[..i], start, counter, done)
    ensures var done' := if start.Some? then done + [Pending(start.value, counter)] else done;
            && done' <= SavedEvents(melody)
            && (i + 1 < |melody| ==> DecoderState(melody[..i + 1], Some(melody[i]), if start.Some? then 1 else counter, done'))
            && (i + 1 == |melody| ==> done' == SavedEvents(melody))
  {
    var q, x := melody[..i], melody[i];
    assert melody[..i + 1] == q + [x];
    if i + 1 == |melody| {
      assert melody == q + [x];
    }
    var done' := if start.Some? then done + [Pending(start.value, counter)] else done;
    assert done' == Complete(q) by {
      if start.None? {
        assert Complete(q) == [];
      }
    }
    SavedPrefix(melody, i);
    if i + 1 < |melody| {
      StepSymbol(q, x, start, counter, done);
    } else {
      SavedDropsLast(q, x);
    }
  }

  /** At a hold the pending event grows by one step. */
  lemma StepHold(p: seq<string>, start: Option<string>, counter: nat, done: seq<Pending>)
    requires DecoderState(p, start, counter, done)
    ensures DecoderState(p + [HOLD], start, counter + 1, done)
  {
    CompleteSnoc(p, HOLD);
    if start.Some? {
      var c := Complete(p);
      assert c[..|c| - 1] == done;
    }
  }
}
