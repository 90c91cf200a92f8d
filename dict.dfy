/**
 * A Python `dict` from symbols to ids, kept in insertion order, which is
 * the order `items()` walks and `json.dump` writes.
 */
module Dict {
  import opened Wrappers

  datatype Entry = Entry(key: string, value: int)

  type Dict = seq<Entry>

  /** A dict never holds the same key twice. */
  predicate DistinctKeys(d: Dict)
  {
    forall i, j :: 0 <= i < j < |d| ==> d[i].key != d[j].key
  }

  function Keys(d: Dict): set<string>
  {
    set i | 0 <= i < |d| :: d[i].key
  }

  function Values(d: Dict): set<int>
  {
    set i | 0 <= i < |d| :: d[i].value
  }

  lemma KeysCons(e: Entry, d: Dict)
    ensures Keys([e] + d) == {e.key} + Keys(d)
    ensures Values([e] + d) == {e.value} + Values(d)
  {
    var c := [e] + d;
    forall k | k in Keys(c) ensures k in {e.key} + Keys(d) {
      var i :| 0 <= i < |c| && c[i].key == k;
      if i > 0 { assert d[i - 1].key == k; }
    }
    forall k | k in {e.key} + Keys(d) ensures k in Keys(c) {
      if k == e.key { assert c[0].key == k; }
      else { var i :| 0 <= i < |d| && d[i].key == k; assert c[i + 1].key == k; }
    }
    forall v | v in Values(c) ensures v in {e.value} + Values(d) {
      var i :| 0 <= i < |c| && c[i].value == v;
      if i > 0 { assert d[i - 1].value == v; }
    }
    forall v | v in {e.value} + Values(d) ensures v in Values(c) {
      if v == e.value { assert c[0].value == v; }
      else { var i :| 0 <= i < |d| && d[i].value == v; assert c[i + 1].value == v; }
    }
  }

  /** Every token of `tokens` is a key of `d`. */
  predicate Covers(d: Dict, tokens: seq<string>)
  {
    forall i :: 0 <= i < |tokens| ==> tokens[i] in Keys(d)
  }

  /** No two keys share an id: the reverse lookup is unambiguous. */
  predicate InjectiveValues(d: Dict)
  {
    forall i, j :: 0 <= i < j < |d| ==> d[i].value != d[j].value
  }

  /** `d[k]`; `None` is the `KeyError` Python raises for a missing key. */
  function Get(d: Dict, k: string): (r: Option<int>)
    ensures r.None? <==> k !in Keys(d)
    ensures r.Some? ==> exists i :: 0 <= i < |d| && d[i] == Entry(k, r.value)
  {
    if d == [] then None
    else if d[0].key == k then Some(d[0].value)
    else
      var r := Get(d[1..], k);
      KeysCons(d[0], d[1..]);
      assert [d[0]] + d[1..] == d;
      assert r.Some? ==> exists i :: 0 <= i < |d[1..]| && d[1..][i] == Entry(k, r.value);
      r
  }

  /** With distinct keys, `d[k]` is the value stored beside `k`. */
  lemma {:induction false} GetAt(d: Dict, i: int)
    requires DistinctKeys(d) && 0 <= i < |d|
    ensures Get(d, d[i].key) == Some(d[i].value)
  {
    if i > 0 {
      assert d[0].key != d[i].key;
      GetAt(d[1..], i - 1);
    }
  }

  /** Position of a key that is present. */
  function IndexOfKey(d: Dict, k: string): (i: nat)
    requires k in Keys(d)
    ensures i < |d| && d[i].key == k
    ensures forall j :: 0 <= j < i ==> d[j].key != k
  {
    if d[0].key == k then 0
    else
      KeysCons(d[0], d[1..]);
      assert [d[0]] + d[1..] == d;
      1 + IndexOfKey(d[1..], k)
  }

  /**
   * `d[k] = v`: an existing key keeps its place and takes the new value,
   * a new key is added at the end.
   */
  function Put(d: Dict, k: string, v: int): (r: Dict)
    ensures Keys(r) == Keys(d) + {k}
    ensures k in Keys(d) ==> |r| == |d|
    ensures k !in Keys(d) ==> r == d + [Entry(k, v)]
    ensures forall i :: 0 <= i < |r| && r[i].key != k ==> i < |d| && r[i] == d[i]
    ensures DistinctKeys(d) ==> DistinctKeys(r) && Get(r, k) == Some(v)
  {
    if k in Keys(d) then
      var i := IndexOfKey(d, k);
      UpdateKeys(d, i, v);
      d[i := Entry(k, v)]
    else
      AppendKeys(d, k, v);
      d + [Entry(k, v)]
  }

  /** Overwriting the value of entry `i` keeps the keys. */
  lemma UpdateKeys(d: Dict, i: int, v: int)
    requires 0 <= i < |d|
    ensures var r := d[i := Entry(d[i].key, v)];
            && Keys(r) == Keys(d)
            && (DistinctKeys(d) ==> DistinctKeys(r) && Get(r, d[i].key) == Some(v))
  {
    var r := d[i := Entry(d[i].key, v)];
    forall x | x in Keys(r) ensures x in Keys(d) {
      var j :| 0 <= j < |r| && r[j].key == x;
      assert d[j].key == x;
    }
    forall x | x in Keys(d) ensures x in Keys(r) {
      var j :| 0 <= j < |d| && d[j].key == x;
      assert r[j].key == x;
    }
    if DistinctKeys(d) {
      assert DistinctKeys(r);
      GetAt(r, i);
    }
  }

  /** Appending an entry with a new key adds that key. */
  lemma AppendKeys(d: Dict, k: string, v: int)
    requires k !in Keys(d)
    ensures var r := d + [Entry(k, v)];
            && Keys(r) == Keys(d) + {k}
            && (DistinctKeys(d) ==> DistinctKeys(r) && Get(r, k) == Some(v))
  {
    var r := d + [Entry(k, v)];
    forall x | x in Keys(r) ensures x in Keys(d) + {k} {
      var j :| 0 <= j < |r| && r[j].key == x;
      if j < |d| { assert d[j].key == x; }
    }
    forall x | x in Keys(d) ensures x in Keys(r) {
      var j :| 0 <= j < |d| && d[j].key == x;
      assert r[j].key == x;
    }
    assert r[|d|].key == k;
    if DistinctKeys(d) {
      forall j | 0 <= j < |d| ensures d[j].key != k {
        assert d[j].key in Keys(d);
      }
      assert DistinctKeys(r);
      GetAt(r, |d|);
    }
  }

  /**
   * `[k for k, w in d.items() if w == v][0]`: the first key, in insertion
   * order, whose id is `v`; `None` is the `IndexError` of an empty list.
   */
  function KeyOf(d: Dict, v: int): (r: Option<string>)
    ensures r.None? <==> v !in Values(d)
    ensures r.Some? ==> exists i :: 0 <= i < |d| && d[i] == Entry(r.value, v) &&
                                    forall j :: 0 <= j < i ==> d[j].value != v
  {
    if d == [] then None
    else if d[0].value == v then Some(d[0].key)
    else
      var r := KeyOf(d[1..], v);
      assert Values(d) == {d[0].value} + Values(d[1..]) by {
        assert [d[0]] + d[1..] == d;
        KeysCons(d[0], d[1..]);
      }
      if r.Some? then
        FirstValueShift(d, v, r.value);
        r
      else r
  }

  lemma FirstValueShift(d: Dict, v: int, k: string)
    requires |d| > 0 && d[0].value != v
    requires exists i :: 0 <= i < |d[1..]| && d[1..][i] == Entry(k, v) && forall j :: 0 <= j < i ==> d[1..][j].value != v
    ensures exists i :: 0 <= i < |d| && d[i] == Entry(k, v) && forall j :: 0 <= j < i ==> d[j].value != v
  {
    var t := d[1..];
    var i :| 0 <= i < |t| && t[i] == Entry(k, v) && forall j :: 0 <= j < i ==> t[j].value != v;
    assert d[i + 1] == Entry(k, v);
    forall j | 0 <= j < i + 1 ensures d[j].value != v {
      if j > 0 {
        assert d[j] == t[j - 1];
      }
    }
  }

  /**
   * Reverse lookup inverts lookup when ids are not shared: decoding the id
   * of a symbol gives that symbol back.
   */
  lemma KeyOfGet(d: Dict, k: string)
    requires DistinctKeys(d) && InjectiveValues(d) && k in Keys(d)
    ensures Get(d, k).Some? && KeyOf(d, Get(d, k).value) == Some(k)
  {
    var v := Get(d, k).value;
    var i :| 0 <= i < |d| && d[i] == Entry(k, v);
    var r := KeyOf(d, v);
    assert v in Values(d);
    var j :| 0 <= j < |d| && d[j] == Entry(r.value, v) && forall j' :: 0 <= j' < j ==> d[j'].value != v;
    assert i == j;
  }

  /** And lookup inverts reverse lookup for every id in use. */
  lemma GetKeyOf(d: Dict, v: int)
    requires DistinctKeys(d) && v in Values(d)
    ensures KeyOf(d, v).Some? && Get(d, KeyOf(d, v).value) == Some(v)
  {
    var r := KeyOf(d, v);
    var i :| 0 <= i < |d| && d[i] == Entry(r.value, v) && forall j :: 0 <= j < i ==> d[j].value != v;
    GetAt(d, i);
  }

  /**
   * `[d[k] for k in keys]` (and the equivalent loop): the ids of all keys in
   * order; the first key without one raises `KeyError`.
   */
  function GetAll(d: Dict, keys: seq<string>): (r: Result<seq<int>, Failure>)
    ensures r.Ok? <==> Covers(d, keys)
    ensures r.Ok? ==> |r.value| == |keys| &&
                      forall i :: 0 <= i < |keys| ==> Get(d, keys[i]) == Some(r.value[i])
    ensures r.Err? ==> exists k :: 0 <= k < |keys| && r.error == KeyError(keys[k]) &&
                                   keys[k] !in Keys(d) && Covers(d, keys[..k])
  {
    if keys == [] then Ok([])
    else
      var init := keys[..|keys| - 1];
      var last := keys[|keys| - 1];
      assert forall i :: 0 <= i < |init| ==> init[i] == keys[i];
      match GetAll(d, init)
      case Err(e) =>
        assert !Covers(d, keys) by {
          var k :| 0 <= k < |init| && e == KeyError(init[k]) && init[k] !in Keys(d) && Covers(d, init[..k]);
          assert keys[..k] == init[..k];
        }
        Err(e)
      case Ok(ids) =>
        match Get(d, last)
        case None =>
          assert keys[..|keys| - 1] == init;
          Err(KeyError(last))
        case Some(id) => Ok(ids + [id])
  }

  /** Once a prefix of the keys fails, the whole lookup fails with the same error. */
  lemma {:induction false} GetAllErrPersists(d: Dict, keys: seq<string>, k: int)
    requires 0 <= k <= |keys| && GetAll(d, keys[..k]).Err?
    ensures GetAll(d, keys) == GetAll(d, keys[..k])
    decreases |keys| - k
  {
    if k < |keys| {
      var init := keys[..|keys| - 1];
      assert init[..k] == keys[..k];
      GetAllErrPersists(d, init, k);
    } else {
      assert keys[..k] == keys;
    }
  }
}
