/**
 * Python `dict` semantics over an item list: keys keep the position of their
 * first insertion, assigning to an existing key replaces its value in place,
 * and a new key goes to the end. `dict(pairs)` is `FromPairs`.
 */
module OrderedDict {
  import opened Wrappers

  type Dict<K, V> = seq<(K, V)>

  predicate KeysUnique<K(==), V>(d: Dict<K, V>) {
    forall i, j | 0 <= i < j < |d| :: d[i].0 != d[j].0
  }

  /** `d.get(k)` */
  function Get<K(==), V>(d: Dict<K, V>, k: K): (r: Option<V>)
    ensures r.None? <==> forall i | 0 <= i < |d| :: d[i].0 != k
    ensures r.Some? ==> exists i | 0 <= i < |d| :: d[i] == (k, r.value)
    decreases |d|
  {
    if |d| == 0 then None
    else if d[0].0 == k then Some(d[0].1)
    else Get(d[1..], k)
  }

  /** With unique keys, `Get` finds the value stored beside the key. */
  lemma GetUnique<K, V>(d: Dict<K, V>, i: nat)
    requires KeysUnique(d) && i < |d|
    ensures Get(d, d[i].0) == Some(d[i].1)
  {
    var r := Get(d, d[i].0);
    var j :| 0 <= j < |d| && d[j] == (d[i].0, r.value);
    assert i == j;
  }

  /** `d[k] = v` */
  function Insert<K(==), V(==)>(d: Dict<K, V>, k: K, v: V): (r: Dict<K, V>)
    ensures Get(r, k) == Some(v)
    ensures Get(d, k).None? ==> r == d + [(k, v)]
    ensures Get(d, k).Some? ==> |r| == |d|
    decreases |d|
  {
    if |d| == 0 then [(k, v)]
    else if d[0].0 == k then [(k, v)] + d[1..]
    else [d[0]] + Insert(d[1..], k, v)
  }

  /** Assigning to a key keeps every key where it was and keeps keys unique. */
  lemma InsertKeys<K, V>(d: Dict<K, V>, k: K, v: V)
    ensures forall i | 0 <= i < |d| :: Insert(d, k, v)[i].0 == d[i].0
    ensures KeysUnique(d) ==> KeysUnique(Insert(d, k, v))
  {
    InsertKeepsKeys(d, k, v);
    var r := Insert(d, k, v);
    if KeysUnique(d) {
      if Get(d, k).None? {
        assert r == d + [(k, v)];
        forall i, j | 0 <= i < j < |r|
          ensures r[i].0 != r[j].0
        {
          if j < |d| {
            assert r[i] == d[i] && r[j] == d[j];
          } else {
            assert r[i] == d[i] && r[j] == (k, v);
          }
        }
      } else {
        forall i, j | 0 <= i < j < |r|
          ensures r[i].0 != r[j].0
        {
          assert r[i].0 == d[i].0 && r[j].0 == d[j].0;
        }
      }
    }
  }

  lemma {:induction false} InsertKeepsKeys<K, V>(d: Dict<K, V>, k: K, v: V)
    ensures forall i | 0 <= i < |d| :: Insert(d, k, v)[i].0 == d[i].0
    decreases |d|
  {
    if |d| > 0 && d[0].0 != k {
      InsertKeepsKeys(d[1..], k, v);
      var r, t := Insert(d, k, v), Insert(d[1..], k, v);
      assert r == [d[0]] + t;
      assert forall i | 1 <= i < |d| :: r[i] == t[i - 1] && d[i] == d[1..][i - 1];
    }
  }

  /** Assigning to `k` leaves every other key's value as it was. */
  lemma {:induction false} InsertOther<K, V>(d: Dict<K, V>, k: K, v: V, other: K)
    requires other != k
    ensures Get(Insert(d, k, v), other) == Get(d, other)
    decreases |d|
  {
    if |d| > 0 && d[0].0 != k {
      InsertOther(d[1..], k, v, other);
    }
  }

  /** `dict(pairs)`: the pairs inserted one after another. */
  function FromPairs<K(==), V(==)>(ps: seq<(K, V)>): (d: Dict<K, V>)
    ensures KeysUnique(d)
    ensures |d| <= |ps|
    decreases |ps|
  {
    if |ps| == 0 then []
    else
      var d := FromPairs(ps[..|ps| - 1]);
      InsertKeys(d, ps[|ps| - 1].0, ps[|ps| - 1].1);
      Insert(d, ps[|ps| - 1].0, ps[|ps| - 1].1)
  }

  lemma FromPairsStep<K, V>(ps: seq<(K, V)>)
    requires 0 < |ps|
    ensures FromPairs(ps) == Insert(FromPairs(ps[..|ps| - 1]), ps[|ps| - 1].0, ps[|ps| - 1].1)
  {
  }

  /** Pairs with distinct keys build a dict holding exactly those pairs, in their order. */
  lemma {:induction false} FromPairsDistinct<K, V>(ps: seq<(K, V)>)
    requires KeysUnique(ps)
    ensures FromPairs(ps) == ps
    decreases |ps|
  {
    if |ps| > 0 {
      UniqueInit(ps);
      FromPairsDistinct(ps[..|ps| - 1]);
      DistinctStep(ps);
    }
  }

  /** Inserting a pair whose key is new appends it. */
  lemma DistinctStep<K, V>(ps: seq<(K, V)>)
    requires |ps| > 0 && FromPairs(ps[..|ps| - 1]) == ps[..|ps| - 1]
    requires Get(ps[..|ps| - 1], ps[|ps| - 1].0).None?
    ensures FromPairs(ps) == ps
  {
    FromPairsStep(ps);
    SplitLast(ps);
  }

  lemma SplitLast<K, V>(ps: seq<(K, V)>)
    requires |ps| > 0
    ensures ps[..|ps| - 1] + [(ps[|ps| - 1].0, ps[|ps| - 1].1)] == ps
  {
  }

  /** Dropping the last pair keeps keys unique, and the last key is not among the others. */
  lemma UniqueInit<K, V>(ps: seq<(K, V)>)
    requires KeysUnique(ps) && |ps| > 0
    ensures KeysUnique(ps[..|ps| - 1])
    ensures Get(ps[..|ps| - 1], ps[|ps| - 1].0).None?
  {
    var n := |ps| - 1;
    assert forall i | 0 <= i < n :: ps[..n][i] == ps[i];
  }

  /** A property every stored value has survives `Insert`. */
  lemma {:induction false} InsertValues<K, V>(d: Dict<K, V>, k: K, v: V, P: V -> bool)
    requires forall i | 0 <= i < |d| :: P(d[i].1)
    requires P(v)
    ensures forall i | 0 <= i < |Insert(d, k, v)| :: P(Insert(d, k, v)[i].1)
    decreases |d|
  {
    if |d| > 0 && d[0].0 != k {
      InsertValues(d[1..], k, v, P);
    }
  }

  /** A property every pair's value has holds of every value of `dict(pairs)`. */
  lemma {:induction false} FromPairsValues<K, V>(ps: seq<(K, V)>, P: V -> bool)
    requires forall i | 0 <= i < |ps| :: P(ps[i].1)
    ensures forall i | 0 <= i < |FromPairs(ps)| :: P(FromPairs(ps)[i].1)
    decreases |ps|
  {
    if |ps| > 0 {
      var n := |ps| - 1;
      FromPairsValues(ps[..n], P);
      FromPairsStep(ps);
      InsertValues(FromPairs(ps[..n]), ps[n].0, ps[n].1, P);
    }
  }

  /** `ps[i]` is the last pair whose key is `k`. */
  predicate LastFor<K(==), V>(ps: seq<(K, V)>, i: nat, k: K) {
    i < |ps| && ps[i].0 == k && forall j | i < j < |ps| :: ps[j].0 != k
  }

  /** In `dict(pairs)` a key is present exactly when some pair carries it. */
  lemma {:induction false} FromPairsPresent<K, V>(ps: seq<(K, V)>, k: K)
    ensures Get(FromPairs(ps), k).None? <==> Absent(ps, k)
    decreases |ps|
  {
    if |ps| > 0 && ps[|ps| - 1].0 != k {
      FromPairsPresent(ps[..|ps| - 1], k);
      PresentStep(ps, k);
    } else if |ps| > 0 {
      PresentLast(ps, k);
    }
  }

  lemma PresentLast<K, V>(ps: seq<(K, V)>, k: K)
    requires |ps| > 0 && ps[|ps| - 1].0 == k
    ensures Get(FromPairs(ps), k).Some? && !Absent(ps, k)
  {
    FromPairsStep(ps);
  }

  lemma PresentStep<K, V>(ps: seq<(K, V)>, k: K)
    requires |ps| > 0 && ps[|ps| - 1].0 != k
    requires Get(FromPairs(ps[..|ps| - 1]), k).None? <==> Absent(ps[..|ps| - 1], k)
    ensures Get(FromPairs(ps), k).None? <==> Absent(ps, k)
  {
    var n := |ps| - 1;
    FromPairsStep(ps);
    InsertOther(FromPairs(ps[..n]), ps[n].0, ps[n].1, k);
    assert Get(FromPairs(ps), k) == Get(FromPairs(ps[..n]), k);
    AbsentInit(ps, k);
  }

  lemma AbsentInit<K, V>(ps: seq<(K, V)>, k: K)
    requires |ps| > 0 && ps[|ps| - 1].0 != k
    ensures Absent(ps, k) <==> Absent(ps[..|ps| - 1], k)
  {
    var n := |ps| - 1;
    if Absent(ps[..n], k) {
      forall i | 0 <= i < |ps|
        ensures ps[i].0 != k
      {
        if i < n { assert ps[..n][i] == ps[i]; }
      }
    }
  }

  /** No pair carries key `k`. */
  predicate Absent<K(==), V>(ps: seq<(K, V)>, k: K) {
    forall i | 0 <= i < |ps| :: ps[i].0 != k
  }

  /** Last write wins: the value `dict(pairs)` keeps for a key is that of the last pair carrying it. */
  lemma {:induction false} FromPairsLastWins<K, V>(ps: seq<(K, V)>, i: nat, k: K)
    requires LastFor(ps, i, k)
    ensures Get(FromPairs(ps), k) == Some(ps[i].1)
    decreases |ps|
  {
    if i < |ps| - 1 {
      LastForInit(ps, i, k);
      FromPairsLastWins(ps[..|ps| - 1], i, k);
      KeepStep(ps, k, ps[i].1);
    } else {
      FromPairsStep(ps);
    }
  }

  lemma LastForInit<K, V>(ps: seq<(K, V)>, i: nat, k: K)
    requires LastFor(ps, i, k) && i < |ps| - 1
    ensures LastFor(ps[..|ps| - 1], i, k) && ps[i] == ps[..|ps| - 1][i] && ps[|ps| - 1].0 != k
  {
  }

  lemma KeepStep<K, V>(ps: seq<(K, V)>, k: K, v: V)
    requires |ps| > 0 && ps[|ps| - 1].0 != k
    requires Get(FromPairs(ps[..|ps| - 1]), k) == Some(v)
    ensures Get(FromPairs(ps), k) == Some(v)
  {
    FromPairsStep(ps);
    InsertOther(FromPairs(ps[..|ps| - 1]), ps[|ps| - 1].0, ps[|ps| - 1].1, k);
  }
}
