/**
 An insertion-ordered dictionary from text keys to integers, behaving as a
 Python `dict` does: iteration visits the keys in the order in which they were
 first inserted, assigning to a present key keeps its place, a new key goes to
 the end, and deleting a key removes it from the order (so re-inserting it later
 puts it at the end again).

 A dictionary is its iteration order `keys` together with the mapping `values`;
 in a well-formed one the order lists every key of the mapping exactly once.
 */
module OrderedDict {
  import opened Optional

  datatype Dict = Dict(keys: seq<string>, values: map<string, int>)

  const Empty := Dict([], map[])

  predicate Distinct(ks: seq<string>)
  {
    forall i, j :: 0 <= i < j < |ks| ==> ks[i] != ks[j]
  }

  ghost predicate Valid(d: Dict)
  {
    && Distinct(d.keys)
    && (forall k :: k in d.values <==> k in d.keys)
  }

  /** The position of `k` in `ks`, if it occurs. */
  function IndexOf(ks: seq<string>, k: string): (r: Option<nat>)
    ensures r.Some? ==> r.value < |ks| && ks[r.value] == k
    ensures r.None? ==> k !in ks
  {
    if |ks| == 0 then None
    else if ks[0] == k then Some(0)
    else
      match IndexOf(ks[1..], k)
      case None => None
      case Some(i) => Some(i + 1)
  }

  /** In a list without repetitions, the key at position `i` is found at `i`. */
  lemma IndexOfDistinct(ks: seq<string>, i: nat)
    requires Distinct(ks) && i < |ks|
    ensures IndexOf(ks, ks[i]) == Some(i)
  {
  }

  /** `x` and `y` both occur in `ks`, the first `x` strictly before the first `y`. */
  predicate Precedes(ks: seq<string>, x: string, y: string)
  {
    var ix, iy := IndexOf(ks, x), IndexOf(ks, y);
    ix.Some? && iy.Some? && ix.value < iy.value
  }

  /** `x` comes strictly before `y` in the iteration order of `d`. */
  predicate Before(d: Dict, x: string, y: string)
  {
    Precedes(d.keys, x, y)
  }

  /** `ks` lists keys of `d` in strictly increasing iteration order. */
  predicate InKeyOrder(d: Dict, ks: seq<string>)
  {
    forall i, j :: 0 <= i < j < |ks| ==> Before(d, ks[i], ks[j])
  }

  /** `ks` with every occurrence of `k` dropped, the rest in order. */
  function Without(ks: seq<string>, k: string): (r: seq<string>)
    ensures forall x :: x in r <==> x in ks && x != k
  {
    if |ks| == 0 then []
    else
      assert ks == [ks[0]] + ks[1..];
      (if ks[0] == k then [] else [ks[0]]) + Without(ks[1..], k)
  }

  /** Dropping `k` keeps the relative order of every other pair of keys. */
  lemma {:induction false} WithoutKeepsOrder(ks: seq<string>, k: string, x: string, y: string)
    requires x != k && y != k
    ensures Precedes(ks, x, y) <==> Precedes(Without(ks, k), x, y)
  {
    if |ks| > 0 {
      var rest := Without(ks[1..], k);
      WithoutKeepsOrder(ks[1..], k, x, y);
      if ks[0] == k {
        assert Without(ks, k) == rest;
        PrecedesTail(ks, x, y);
      } else {
        var w := Without(ks, k);
        assert w == [ks[0]] + rest;
        assert w[0] == ks[0] && w[1..] == rest;
        PrecedesTail(ks, x, y);
        PrecedesTail(w, x, y);
      }
    }
  }

  /** How `Precedes` on a non-empty list reduces to its tail. */
  lemma PrecedesTail(ks: seq<string>, x: string, y: string)
    requires |ks| > 0
    ensures ks[0] != x && ks[0] != y ==> (Precedes(ks, x, y) <==> Precedes(ks[1..], x, y))
    ensures ks[0] == x ==> (Precedes(ks, x, y) <==> y != x && y in ks[1..])
    ensures ks[0] == y ==> !Precedes(ks, x, y)
  {
  }

  lemma {:induction false} WithoutDistinct(ks: seq<string>, k: string)
    requires Distinct(ks)
    ensures Distinct(Without(ks, k))
  {
    if |ks| > 0 {
      WithoutDistinct(ks[1..], k);
      var head := if ks[0] == k then [] else [ks[0]];
      var tail := Without(ks[1..], k);
      assert ks[0] !in ks[1..];
      forall i, j | 0 <= i < j < |head + tail|
        ensures (head + tail)[i] != (head + tail)[j]
      {
        if i < |head| {
          assert (head + tail)[j] == tail[j - |head|];
        } else {
          assert (head + tail)[i] == tail[i - |head|];
          assert (head + tail)[j] == tail[j - |head|];
        }
      }
    }
  }

  /** Dropping a key that is absent changes nothing; in particular a key
      appended and then dropped leaves the rest as it was. */
  lemma {:induction false} WithoutAbsent(ks: seq<string>, k: string)
    requires k !in ks
    ensures Without(ks, k) == ks
    ensures Without(ks + [k], k) == ks
  {
    if |ks| > 0 {
      WithoutAbsent(ks[1..], k);
      assert (ks + [k])[1..] == ks[1..] + [k];
    }
  }

  /** Assignment `d[k] = v`: the mapping gets `k := v`; a present key keeps
      its place in the order and a new key is appended. */
  function Put(d: Dict, k: string, v: int): (r: Dict)
    requires Valid(d)
    ensures Valid(r)
    ensures k in r.values && r.values[k] == v
    ensures forall x :: x != k ==> (x in r.values <==> x in d.values)
    ensures forall x :: x != k && x in d.values ==> r.values[x] == d.values[x]
    ensures d.keys <= r.keys
  {
    if k in d.values then Dict(d.keys, d.values[k := v])
    else Dict(d.keys + [k], d.values[k := v])
  }

  /** `del d[k]`: the key leaves both the mapping and the order, and the other
      keys keep their relative order. */
  function Delete(d: Dict, k: string): (r: Dict)
    requires Valid(d)
    ensures Valid(r)
    ensures k !in r.values && k !in r.keys
    ensures forall x :: x != k ==> (x in r.values <==> x in d.values)
    ensures forall x :: x != k && x in d.values ==> r.values[x] == d.values[x]
    ensures r.keys == Without(d.keys, k)
    ensures forall x, y :: x != k && y != k ==> (Before(d, x, y) <==> Before(r, x, y))
  {
    WithoutDistinct(d.keys, k);
    forall x, y | x != k && y != k
      ensures Precedes(d.keys, x, y) <==> Precedes(Without(d.keys, k), x, y)
    {
      WithoutKeepsOrder(d.keys, k, x, y);
    }
    Dict(Without(d.keys, k), d.values - {k})
  }
}
