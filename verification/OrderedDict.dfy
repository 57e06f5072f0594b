/** Dictionaries that remember the order in which their keys were first stored.

    Python's dictionaries iterate in that order, and both the sorting of positions by urgency
    (which keeps equals in place) and the list of generated orders depend on it, so a plain
    map would lose behaviour.  A dictionary is a sequence of pairs; `Distinct` says that no key
    occurs twice, and every operation keeps it. */
module OrderedDict {
  import opened Wrappers

  type Dict<V> = seq<(string, V)>

  function Get<V>(d: Dict<V>, k: string): Option<V> {
    if d == [] then None else if d[0].0 == k then Some(d[0].1) else Get(d[1..], k)
  }

  predicate Has<V>(d: Dict<V>, k: string) {
    Get(d, k).Some?
  }

  /** A key that is present keeps its place; a new one goes last. */
  function Put<V>(d: Dict<V>, k: string, v: V): Dict<V> {
    if d == [] then [(k, v)]
    else if d[0].0 == k then [(k, v)] + d[1..]
    else [d[0]] + Put(d[1..], k, v)
  }

  function Remove<V>(d: Dict<V>, k: string): Dict<V> {
    if d == [] then [] else if d[0].0 == k then d[1..] else [d[0]] + Remove(d[1..], k)
  }

  predicate Distinct<V>(d: Dict<V>) {
    forall i, j :: 0 <= i < j < |d| ==> d[i].0 != d[j].0
  }

  lemma {:induction false} GetPut<V>(d: Dict<V>, k: string, v: V, x: string)
    ensures Get(Put(d, k, v), x) == if x == k then Some(v) else Get(d, x)
  {
    if d != [] && d[0].0 != k {
      GetPut(d[1..], k, v, x);
    }
  }

  lemma {:induction false} GetAt<V>(d: Dict<V>, i: nat)
    requires i < |d| && Distinct(d)
    ensures Get(d, d[i].0) == Some(d[i].1)
  {
    if i > 0 {
      assert d[0].0 != d[i].0;
      GetAt(d[1..], i - 1);
    }
  }

  lemma {:induction false} GetSome<V>(d: Dict<V>, k: string) returns (i: nat)
    requires Has(d, k)
    ensures i < |d| && d[i].0 == k && Get(d, k) == Some(d[i].1)
  {
    if d[0].0 == k {
      i := 0;
    } else {
      var j := GetSome(d[1..], k);
      i := j + 1;
    }
  }

  lemma {:induction false} PutDistinct<V>(d: Dict<V>, k: string, v: V)
    requires Distinct(d)
    ensures Distinct(Put(d, k, v))
    ensures |Put(d, k, v)| == if Has(d, k) then |d| else |d| + 1
    ensures forall i :: 0 <= i < |d| ==> Put(d, k, v)[i].0 == d[i].0
    ensures !Has(d, k) ==> Put(d, k, v) == d + [(k, v)]
  {
    if d != [] && d[0].0 != k {
      PutDistinct(d[1..], k, v);
      var p := Put(d, k, v);
      forall i, j | 0 <= i < j < |p| ensures p[i].0 != p[j].0 {
        if i == 0 && j == |d| { assert p[j].0 == k; }
      }
    }
  }

  lemma {:induction false} RemoveDistinct<V>(d: Dict<V>, k: string)
    requires Distinct(d)
    ensures Distinct(Remove(d, k))
    ensures forall i :: 0 <= i < |Remove(d, k)| ==> Remove(d, k)[i].0 != k && Remove(d, k)[i] in d
  {
    if d != [] {
      if d[0].0 == k {
        assert forall i :: 0 <= i < |d[1..]| ==> d[1..][i] == d[i + 1];
      } else {
        RemoveDistinct(d[1..], k);
        var r := Remove(d[1..], k);
        forall i | 0 <= i < |r| ensures r[i].0 != d[0].0 {
          assert r[i] in d[1..];
        }
      }
    }
  }
}
