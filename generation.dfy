/**
 * What the sampling loop of the melody generator computes, stated apart
 * from the loop: the context kept between steps, the window the model is
 * shown, the ids drawn, and how the drawn ids are decoded and where the
 * melody stops. The trained model and the sampler are one opaque oracle.
 */
module Generation {
  import opened Wrappers
  import opened Dict
  import opened Preprocess

  /**
   * The trained model followed by the sampler: the id drawn at step `k`
   * when the window `w` is shown to the model. Randomness is folded into
   * the step number.
   */
  type Oracle = (seq<int>, nat) -> int

  function Min(a: int, b: int): int
  {
    if a < b then a else b
  }

  /** The last `min(m, |s|)` ids of `s`. */
  function Last(s: seq<int>, m: nat): seq<int>
  {
    s[|s| - Min(m, |s|)..]
  }

  /**
   * Python's `s[-m:]`. For `m >= 1` the last `m` ids (all of them when there
   * are fewer); `s[-0:]` is the whole list; a negative `m` drops `-m` ids
   * from the front.
   */
  function PyTail(s: seq<int>, m: int): (r: seq<int>)
    ensures m >= 1 ==> |r| == Min(m, |s|) && r == s[|s| - |r|..]
    ensures m == 0 ==> r == s
    ensures m < 0 ==> r == s[Min(-m, |s|)..]
  {
    var k := -m;
    var start := if k < 0 then (if |s| + k > 0 then |s| + k else 0) else Min(k, |s|);
    s[start..]
  }

  /** For `m >= 1`, `s[-m:]` is the last `min(m, |s|)` ids. */
  lemma PyTailIsLast(s: seq<int>, m: int)
    requires m >= 1
    ensures PyTail(s, m) == Last(s, m)
  {
  }

  /** The context before step `k`: each step truncates it and appends the id drawn. */
  function ContextAt(oracle: Oracle, m: int, init: seq<int>, k: nat): seq<int>
  {
    if k == 0 then init
    else
      var w := PyTail(ContextAt(oracle, m, init, k - 1), m);
      w + [oracle(w, k - 1)]
  }

  /** The window shown to the model at step `k`. */
  function WindowAt(oracle: Oracle, m: int, init: seq<int>, k: nat): seq<int>
  {
    PyTail(ContextAt(oracle, m, init, k), m)
  }

  /** The id drawn at step `k`. */
  function DrawAt(oracle: Oracle, m: int, init: seq<int>, k: nat): int
  {
    oracle(WindowAt(oracle, m, init, k), k)
  }

  /** The ids drawn in the first `n` steps, in order. */
  function Draws(oracle: Oracle, m: int, init: seq<int>, n: nat): (ds: seq<int>)
    ensures |ds| == n
    ensures forall k :: 0 <= k < n ==> ds[k] == DrawAt(oracle, m, init, k)
  {
    if n == 0 then [] else Draws(oracle, m, init, n - 1) + [DrawAt(oracle, m, init, n - 1)]
  }

  lemma LastSnoc(s: seq<int>, x: int, m: nat)
    requires m >= 1
    ensures Last(Last(s, m) + [x], m) == Last(s + [x], m)
  {
    var t := Last(s, m);
    if |s| >= m {
      assert t + [x] == s[|s| - m..] + [x];
      assert Last(t + [x], m) == (s[|s| - m..] + [x])[1..];
      assert (s[|s| - m..] + [x])[1..] == s[|s| - m + 1..] + [x];
      assert Last(s + [x], m) == (s + [x])[|s| + 1 - m..];
      assert (s + [x])[|s| + 1 - m..] == s[|s| + 1 - m..] + [x];
    } else {
      assert t == s;
    }
  }

  /**
   * For `m >= 1` the model always sees the last `m` ids of the whole history
   * (the start context followed by every id drawn so far), or all of it
   * while it is shorter; the context after a step is that window plus the
   * id drawn.
   */
  lemma {:induction false} WindowIsRecentHistory(oracle: Oracle, m: int, init: seq<int>, k: nat)
    requires m >= 1
    ensures WindowAt(oracle, m, init, k) == Last(init + Draws(oracle, m, init, k), m)
    ensures ContextAt(oracle, m, init, k + 1) == WindowAt(oracle, m, init, k) + [DrawAt(oracle, m, init, k)]
  {
    if k > 0 {
      var h := init + Draws(oracle, m, init, k - 1);
      var x := DrawAt(oracle, m, init, k - 1);
      var c := ContextAt(oracle, m, init, k);
      assert c == Last(h, m) + [x] by {
        WindowIsRecentHistory(oracle, m, init, k - 1);
      }
      assert WindowAt(oracle, m, init, k) == Last(c, m) by {
        PyTailIsLast(c, m);
      }
      assert init + Draws(oracle, m, init, k) == h + [x];
      LastSnoc(h, x, m);
    } else {
      assert init + Draws(oracle, m, init, 0) == init;
    }
  }

  /** With `max_sequence_length == 0` nothing is ever cut: the model sees the whole history. */
  lemma {:induction false} ZeroLengthKeepsAll(oracle: Oracle, init: seq<int>, k: nat)
    ensures WindowAt(oracle, 0, init, k) == init + Draws(oracle, 0, init, k)
  {
    if k > 0 {
      ZeroLengthKeepsAll(oracle, init, k - 1);
    } else {
      assert init + Draws(oracle, 0, init, 0) == init;
    }
  }

  /**
   * How drawn ids extend the melody: each id is decoded by reverse lookup
   * (an id no symbol has raises `IndexError`); the boundary symbol ends the
   * melody without being added; anything else is appended.
   */
  function Outcome(d: Dict, ids: seq<int>, melody: seq<string>): Result<seq<string>, Failure>
    decreases |ids|
  {
    if ids == [] then Ok(melody)
    else
      match KeyOf(d, ids[0])
      case None => Err(IndexError(ids[0]))
      case Some(symbol) =>
        if symbol == BOUNDARY then Ok(melody) else Outcome(d, ids[1..], melody + [symbol])
  }

  /**
   * A finished melody is the seed followed by the decoded ids in drawing
   * order, none of them the boundary; it is shorter than seed plus draws
   * exactly when the next id decoded to the boundary.
   */
  lemma {:induction false} OutcomeOk(d: Dict, ids: seq<int>, melody: seq<string>, result: seq<string>)
    requires Outcome(d, ids, melody) == Ok(result)
    ensures |melody| <= |result| <= |melody| + |ids|
    ensures result[..|melody|] == melody
    ensures forall i :: |melody| <= i < |result| ==>
              KeyOf(d, ids[i - |melody|]) == Some(result[i]) && result[i] != BOUNDARY
    ensures |result| < |melody| + |ids| ==> KeyOf(d, ids[|result| - |melody|]) == Some(BOUNDARY)
    decreases |ids|
  {
    if ids != [] {
      var symbol := KeyOf(d, ids[0]).value;
      if symbol != BOUNDARY {
        var t, m' := ids[1..], melody + [symbol];
        assert Outcome(d, t, m') == Ok(result);
        OutcomeOk(d, t, m', result);
        assert result[..|melody|] == melody by {
          assert result[..|melody|] == result[..|m'|][..|melody|];
        }
        forall i | |melody| <= i < |result|
          ensures KeyOf(d, ids[i - |melody|]) == Some(result[i]) && result[i] != BOUNDARY
        {
          if i > |melody| {
            assert ids[i - |melody|] == t[i - |m'|];
          } else {
            assert result[i] == result[..|m'|][i];
          }
        }
        if |result| < |melody| + |ids| {
          assert ids[|result| - |melody|] == t[|result| - |m'|];
        }
      }
    }
  }

  /** The melody grows by one symbol per step exactly when no drawn id decodes to the boundary. */
  lemma FullLengthIffNoBoundary(d: Dict, ids: seq<int>, melody: seq<string>, result: seq<string>)
    requires Outcome(d, ids, melody) == Ok(result)
    ensures |result| == |melody| + |ids| <==> forall i :: 0 <= i < |ids| ==> KeyOf(d, ids[i]) != Some(BOUNDARY)
  {
    OutcomeOk(d, ids, melody, result);
    if |result| == |melody| + |ids| {
      forall i | 0 <= i < |ids| ensures KeyOf(d, ids[i]) != Some(BOUNDARY) {
        assert ids[i] == ids[(i + |melody|) - |melody|];
      }
    }
  }

  /**
   * Generation fails only on an id that no symbol has, met before any
   * boundary; every earlier id decoded to an ordinary symbol.
   */
  lemma {:induction false} OutcomeErr(d: Dict, ids: seq<int>, melody: seq<string>, e: Failure)
    requires Outcome(d, ids, melody) == Err(e)
    ensures exists j :: 0 <= j < |ids| && e == IndexError(ids[j]) && ids[j] !in Values(d) &&
                        forall i :: 0 <= i < j ==> ids[i] in Values(d) && KeyOf(d, ids[i]) != Some(BOUNDARY)
    decreases |ids|
  {
    match KeyOf(d, ids[0])
    case None =>
      assert e == IndexError(ids[0]) && ids[0] !in Values(d);
    case Some(symbol) =>
      var t := ids[1..];
      OutcomeErr(d, t, melody + [symbol], e);
      var j :| 0 <= j < |t| && e == IndexError(t[j]) && t[j] !in Values(d) &&
               forall i :: 0 <= i < j ==> t[i] in Values(d) && KeyOf(d, t[i]) != Some(BOUNDARY);
      assert ids[j + 1] == t[j];
      forall i | 0 <= i < j + 1
        ensures ids[i] in Values(d) && KeyOf(d, ids[i]) != Some(BOUNDARY)
      {
        if i > 0 {
          assert ids[i] == t[i - 1];
        }
      }
  }

  /** When every drawn id belongs to some symbol, generation cannot fail. */
  lemma {:induction false} OutcomeNeverFails(d: Dict, ids: seq<int>, melody: seq<string>)
    requires forall i :: 0 <= i < |ids| ==> ids[i] in Values(d)
    ensures Outcome(d, ids, melody).Ok?
    decreases |ids|
  {
    if ids != [] {
      var symbol := KeyOf(d, ids[0]).value;
      if symbol != BOUNDARY {
        OutcomeNeverFails(d, ids[1..], melody + [symbol]);
      }
    }
  }

  /**
   * With a mapping built by the vocabulary step (distinct keys, distinct
   * ids), every symbol in the melody past the seed maps back to the very id
   * that was drawn for it.
   */
  lemma DecodedSymbolsRoundTrip(d: Dict, ids: seq<int>, melody: seq<string>, result: seq<string>)
    requires DistinctKeys(d) && InjectiveValues(d)
    requires Outcome(d, ids, melody) == Ok(result)
    ensures forall i :: |melody| <= i < |result| && i < |melody| + |ids| ==>
              Get(d, result[i]) == Some(ids[i - |melody|])
  {
    OutcomeOk(d, ids, melody, result);
    forall i | |melody| <= i < |result| && i < |melody| + |ids| ensures Get(d, result[i]) == Some(ids[i - |melody|]) {
      var v := ids[i - |melody|];
      assert KeyOf(d, v) == Some(result[i]);
      GetKeyOf(d, v);
    }
  }
}
