/** The two walks the loaders make over a `read_dir` listing. Each stops at the first entry that
    cannot be read (the `?` applied to every entry) and otherwise either appends what each entry
    contributes or inserts it into a map, a later insertion under the same key replacing an
    earlier one. */
module Listing {
  import opened Wrappers

  /** Appending, in listing order, what each readable entry contributes. */
  function Gather<T, U, E>(entries: seq<Result<T, E>>, f: T -> seq<U>): Result<seq<U>, E>
    decreases |entries|
  {
    if entries == [] then Ok([])
    else
      var before :- Gather(entries[..|entries| - 1], f);
      match entries[|entries| - 1]
      case Err(e) => Err(e)
      case Ok(x) => Ok(before + f(x))
  }

  /** The walk fails exactly when some entry cannot be read, and then with the first such
      entry's error. */
  lemma {:induction false} GatherOk<T, U, E>(entries: seq<Result<T, E>>, f: T -> seq<U>)
    ensures Gather(entries, f).Ok? <==> forall i | 0 <= i < |entries| :: entries[i].Ok?
    ensures Gather(entries, f).Err? ==> exists i | 0 <= i < |entries| ::
      entries[i] == Err(Gather(entries, f).error) && forall j | 0 <= j < i :: entries[j].Ok?
    decreases |entries|
  {
    if entries != [] {
      var n := |entries| - 1;
      var init := entries[..n];
      assert forall i | 0 <= i < n :: init[i] == entries[i];
      GatherOk(init, f);
    }
  }

  /** It finds nothing exactly when no entry contributes anything. */
  lemma {:induction false} GatherEmpty<T, U, E>(entries: seq<Result<T, E>>, f: T -> seq<U>)
    requires Gather(entries, f).Ok?
    ensures Gather(entries, f).value == [] <==>
      forall i | 0 <= i < |entries| && entries[i].Ok? :: f(entries[i].value) == []
    decreases |entries|
  {
    if entries != [] {
      var n := |entries| - 1;
      var init := entries[..n];
      assert forall i | 0 <= i < n :: init[i] == entries[i];
      GatherEmpty(init, f);
    }
  }

  /** What holds of every contribution holds of everything gathered. */
  lemma {:induction false} GatherAll<T, U, E>(entries: seq<Result<T, E>>, f: T -> seq<U>, P: U -> bool)
    requires Gather(entries, f).Ok?
    requires forall i | 0 <= i < |entries| && entries[i].Ok? :: forall u | u in f(entries[i].value) :: P(u)
    ensures forall u | u in Gather(entries, f).value :: P(u)
    decreases |entries|
  {
    if entries != [] {
      var n := |entries| - 1;
      var init := entries[..n];
      assert forall i | 0 <= i < n :: init[i] == entries[i];
      GatherAll(init, f, P);
    }
  }

  /** One more readable entry appends its contribution. */
  lemma GatherStep<T, U, E>(entries: seq<Result<T, E>>, f: T -> seq<U>, i: nat)
    requires i < |entries| && entries[i].Ok? && Gather(entries[..i], f).Ok?
    ensures Gather(entries[..i + 1], f) == Ok(Gather(entries[..i], f).value + f(entries[i].value))
  {
    assert entries[..i + 1][..i] == entries[..i];
  }

  /** An entry that cannot be read ends the walk with its error. */
  lemma GatherStopsAt<T, U, E>(entries: seq<Result<T, E>>, f: T -> seq<U>, i: nat)
    requires i < |entries| && entries[i].Err? && Gather(entries[..i], f).Ok?
    ensures Gather(entries, f) == Err(entries[i].error)
  {
    assert entries[..i + 1][..i] == entries[..i];
    GatherStops(entries, f, i + 1);
  }

  /** Once a prefix of the listing fails, the whole walk fails the same way. */
  lemma {:induction false} GatherStops<T, U, E>(entries: seq<Result<T, E>>, f: T -> seq<U>, i: nat)
    requires i <= |entries| && Gather(entries[..i], f).Err?
    ensures Gather(entries, f) == Gather(entries[..i], f)
    decreases |entries| - i
  {
    if i < |entries| {
      assert entries[..i + 1][..i] == entries[..i];
      GatherStops(entries, f, i + 1);
    } else {
      assert entries[..i] == entries;
    }
  }

  /** Inserting, in listing order, the key and value each readable entry yields, if any. */
  function Collect<T, K(==), V, E>(entries: seq<Result<T, E>>, f: T -> Option<(K, V)>): Result<map<K, V>, E>
    decreases |entries|
  {
    if entries == [] then Ok(map[])
    else
      var before :- Collect(entries[..|entries| - 1], f);
      match entries[|entries| - 1]
      case Err(e) => Err(e)
      case Ok(x) =>
        match f(x)
        case Some(kv) => Ok(before[kv.0 := kv.1])
        case None => Ok(before)
  }

  /** Entry `i` is readable and yields key `k`. */
  ghost predicate YieldsKey<T, K, V, E>(entries: seq<Result<T, E>>, f: T -> Option<(K, V)>, i: int, k: K)
  {
    0 <= i < |entries| && entries[i].Ok? && f(entries[i].value).Some? && f(entries[i].value).value.0 == k
  }

  /** The walk fails exactly when some entry cannot be read. */
  lemma {:induction false} CollectOk<T, K, V, E>(entries: seq<Result<T, E>>, f: T -> Option<(K, V)>)
    ensures Collect(entries, f).Ok? <==> forall i | 0 <= i < |entries| :: entries[i].Ok?
    decreases |entries|
  {
    if entries != [] {
      var n := |entries| - 1;
      var init := entries[..n];
      assert forall i | 0 <= i < n :: init[i] == entries[i];
      CollectOk(init, f);
    }
  }

  /** Every key yielded is in the map, and only those. */
  lemma {:induction false} CollectKeys<T, K, V, E>(entries: seq<Result<T, E>>, f: T -> Option<(K, V)>, k: K)
    requires Collect(entries, f).Ok?
    ensures k in Collect(entries, f).value <==> exists i :: YieldsKey(entries, f, i, k)
    decreases |entries|
  {
    if entries != [] {
      var n := |entries| - 1;
      var init := entries[..n];
      assert forall i | 0 <= i < n :: init[i] == entries[i];
      CollectKeys(init, f, k);
      assert forall i | 0 <= i < n :: YieldsKey(init, f, i, k) == YieldsKey(entries, f, i, k);
      if YieldsKey(entries, f, n, k) {
        assert k in Collect(entries, f).value;
      } else {
        assert (k in Collect(entries, f).value) == (k in Collect(init, f).value);
        if exists i :: YieldsKey(entries, f, i, k) {
          var i :| YieldsKey(entries, f, i, k);
          assert YieldsKey(init, f, i, k);
        }
        if exists i :: YieldsKey(init, f, i, k) {
          var i :| YieldsKey(init, f, i, k);
          assert YieldsKey(entries, f, i, k);
        }
      }
    }
  }

  /** The value under a key is the one the last entry yielding that key gives. */
  lemma {:induction false} CollectLastWins<T, K, V, E>(entries: seq<Result<T, E>>, f: T -> Option<(K, V)>, i: nat)
    requires Collect(entries, f).Ok?
    requires i < |entries| && entries[i].Ok? && f(entries[i].value).Some?
    requires forall j | i < j < |entries| :: !YieldsKey(entries, f, j, f(entries[i].value).value.0)
    ensures var kv := f(entries[i].value).value;
      kv.0 in Collect(entries, f).value && Collect(entries, f).value[kv.0] == kv.1
    decreases |entries|
  {
    var n := |entries| - 1;
    var init := entries[..n];
    assert forall j | 0 <= j < n :: init[j] == entries[j];
    if i < n {
      var k := f(entries[i].value).value.0;
      assert !YieldsKey(entries, f, n, k);
      assert forall j | i < j < n :: YieldsKey(init, f, j, k) == YieldsKey(entries, f, j, k);
      CollectLastWins(init, f, i);
    }
  }

  /** Which entry a key's value came from: the last one yielding that key. */
  lemma {:induction false} CollectSource<T, K, V, E>(entries: seq<Result<T, E>>, f: T -> Option<(K, V)>, k: K)
    returns (i: nat)
    requires Collect(entries, f).Ok? && k in Collect(entries, f).value
    ensures i < |entries| && entries[i].Ok? && f(entries[i].value) == Some((k, Collect(entries, f).value[k]))
    ensures forall j | i < j < |entries| :: !YieldsKey(entries, f, j, k)
    decreases |entries|
  {
    var n := |entries| - 1;
    var init := entries[..n];
    assert forall j | 0 <= j < n :: init[j] == entries[j];
    if YieldsKey(entries, f, n, k) {
      i := n;
    } else {
      assert forall j | 0 <= j < n :: YieldsKey(init, f, j, k) == YieldsKey(entries, f, j, k);
      i := CollectSource(init, f, k);
    }
  }

  /** One more readable entry inserts what it yields, if anything. */
  lemma CollectStep<T, K, V, E>(entries: seq<Result<T, E>>, f: T -> Option<(K, V)>, i: nat)
    requires i < |entries| && entries[i].Ok? && Collect(entries[..i], f).Ok?
    ensures Collect(entries[..i + 1], f) == Ok(
      match f(entries[i].value)
      case Some(kv) => Collect(entries[..i], f).value[kv.0 := kv.1]
      case None => Collect(entries[..i], f).value)
  {
    assert entries[..i + 1][..i] == entries[..i];
  }

  /** An entry that cannot be read ends the walk with its error. */
  lemma CollectStopsAt<T, K, V, E>(entries: seq<Result<T, E>>, f: T -> Option<(K, V)>, i: nat)
    requires i < |entries| && entries[i].Err? && Collect(entries[..i], f).Ok?
    ensures Collect(entries, f) == Err(entries[i].error)
  {
    assert entries[..i + 1][..i] == entries[..i];
    CollectStops(entries, f, i + 1);
  }

  /** Once a prefix of the listing fails, the whole walk fails the same way. */
  lemma {:induction false} CollectStops<T, K, V, E>(entries: seq<Result<T, E>>, f: T -> Option<(K, V)>, i: nat)
    requires i <= |entries| && Collect(entries[..i], f).Err?
    ensures Collect(entries, f) == Collect(entries[..i], f)
    decreases |entries| - i
  {
    if i < |entries| {
      assert entries[..i + 1][..i] == entries[..i];
      CollectStops(entries, f, i + 1);
    } else {
      assert entries[..i] == entries;
    }
  }
}
