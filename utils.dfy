/**
 * The stable multi-key sort of src/core/utils/utils.py: `multisort` sorts a list in
 * place once per sort spec, from the last spec to the first, each pass being a stable
 * sort (Python's `list.sort`) on one key, ascending or, with `reverse`, descending.
 */
module Utils {

  /** One sort criterion: the key (an attribute getter in the source) and its `reverse` flag. */
  datatype SortSpec<!T> = SortSpec(key: T -> real, reverse: bool)

  /** The key of a boolean attribute: Python orders `False` before `True`. */
  function BoolKey(b: bool): real
  {
    if b then 1.0 else 0.0
  }

  /** The key of `x` oriented so that the pass sorts it ascending: Python's `reverse=True`
      is a stable ascending sort on the negated key. */
  function Oriented<T>(spec: SortSpec<T>, x: T): real
  {
    if spec.reverse then -spec.key(x) else spec.key(x)
  }

  /** Lexicographic comparison of `x` and `y` by `specs[m..]`, in priority order:
      -1 when `x` sorts first, 1 when `y` does, 0 when they agree on every key. */
  function Compare<T>(specs: seq<SortSpec<T>>, m: nat, x: T, y: T): (c: int)
    requires m <= |specs|
    ensures -1 <= c <= 1
    decreases |specs| - m
  {
    if m == |specs| then 0
    else if Oriented(specs[m], x) < Oriented(specs[m], y) then -1
    else if Oriented(specs[m], y) < Oriented(specs[m], x) then 1
    else Compare(specs, m + 1, x, y)
  }

  /** `x`, found at original index `px`, sorts strictly before `y`, found at `py`:
      earlier by the keys, or equal on every key and earlier in the input (stability). */
  predicate Precedes<T>(specs: seq<SortSpec<T>>, m: nat, x: T, px: nat, y: T, py: nat)
    requires m <= |specs|
  {
    Compare(specs, m, x, y) < 0 || (Compare(specs, m, x, y) == 0 && px < py)
  }

  /** `s` is in the stable order of `specs[m..]`, `perm[i]` being where `s[i]` was. */
  predicate SortedBy<T>(s: seq<T>, perm: seq<nat>, specs: seq<SortSpec<T>>, m: nat)
    requires m <= |specs|
  {
    |perm| == |s| &&
    forall i, j :: 0 <= i < j < |s| ==> Precedes(specs, m, s[i], perm[i], s[j], perm[j])
  }

  /** The indices 0, 1, ..., n - 1 in order. */
  function Range(n: nat): (r: seq<nat>)
    ensures |r| == n && forall i :: 0 <= i < n ==> r[i] == i
  {
    seq(n, i => i)
  }

  /** `perm` lists every index below `n` exactly once. */
  ghost predicate IsPermutation(perm: seq<nat>, n: nat)
  {
    |perm| == n && multiset(perm) == multiset(Range(n))
  }

  /** `output` is the stable sort of `input` by `specs`, through the rearrangement `perm`. */
  ghost predicate StableSorted<T>(input: seq<T>, output: seq<T>, perm: seq<nat>, specs: seq<SortSpec<T>>)
  {
    IsPermutation(perm, |input|) && |output| == |input| &&
    (forall i :: 0 <= i < |output| ==> perm[i] < |input| && output[i] == input[perm[i]]) &&
    SortedBy(output, perm, specs, 0)
  }

  lemma CompareAntisymmetric<T>(specs: seq<SortSpec<T>>, m: nat, x: T, y: T)
    requires m <= |specs|
    ensures Compare(specs, m, x, y) == -Compare(specs, m, y, x)
    decreases |specs| - m
  {
    if m < |specs| && Oriented(specs[m], x) == Oriented(specs[m], y) {
      CompareAntisymmetric(specs, m + 1, x, y);
    }
  }

  lemma CompareTransitive<T>(specs: seq<SortSpec<T>>, m: nat, x: T, y: T, z: T)
    requires m <= |specs|
    requires Compare(specs, m, x, y) <= 0 && Compare(specs, m, y, z) <= 0
    ensures Compare(specs, m, x, z) <= 0
    ensures Compare(specs, m, x, z) == 0 ==> Compare(specs, m, x, y) == 0 && Compare(specs, m, y, z) == 0
    decreases |specs| - m
  {
    if m < |specs| && Oriented(specs[m], x) == Oriented(specs[m], y) == Oriented(specs[m], z) {
      CompareTransitive(specs, m + 1, x, y, z);
    }
  }

  lemma PrecedesTransitive<T>(specs: seq<SortSpec<T>>, m: nat, x: T, px: nat, y: T, py: nat, z: T, pz: nat)
    requires m <= |specs|
    requires Precedes(specs, m, x, px, y, py) && Precedes(specs, m, y, py, z, pz)
    ensures Precedes(specs, m, x, px, z, pz)
  {
    CompareTransitive(specs, m, x, y, z);
  }

  /** An element `x` whose oriented key on `specs[m]` is smaller sorts first by `specs[m..]`;
      on equal keys the order is that of `specs[m + 1..]`. */
  lemma PrecedesStep<T>(specs: seq<SortSpec<T>>, m: nat, x: T, px: nat, y: T, py: nat)
    requires m < |specs|
    ensures Oriented(specs[m], x) < Oriented(specs[m], y) ==> Precedes(specs, m, x, px, y, py)
    ensures Oriented(specs[m], x) == Oriented(specs[m], y) ==>
              (Precedes(specs, m, x, px, y, py) <==> Precedes(specs, m + 1, x, px, y, py))
  {
  }

  /** Swapping positions `j - 1` and `j` of a rearrangement keeps its multiset. */
  lemma SwapMultiset(p: seq<nat>, j: nat)
    requires 0 < j < |p|
    ensures multiset(p[j - 1 := p[j]][j := p[j - 1]]) == multiset(p)
  {
    var q := p[j - 1 := p[j]][j := p[j - 1]];
    assert p == p[..j - 1] + [p[j - 1], p[j]] + p[j + 1..];
    assert q == p[..j - 1] + [p[j], p[j - 1]] + p[j + 1..];
  }

  /** `s[lo..hi]` is in the stable order of `specs[m..]`. */
  ghost predicate OrderedRange<T>(s: seq<T>, perm: seq<nat>, specs: seq<SortSpec<T>>, m: nat, lo: nat, hi: nat)
    requires m <= |specs| && lo <= hi <= |s| == |perm|
  {
    forall p, q :: lo <= p < q < hi ==> Precedes(specs, m, s[p], perm[p], s[q], perm[q])
  }

  /** `s[k]` is the input element `orig[perm[k]]`, for every position `k`. */
  ghost predicate Tracks<T>(s: seq<T>, perm: seq<nat>, orig: seq<T>)
  {
    |s| == |perm| && forall k :: 0 <= k < |s| ==> perm[k] < |orig| && s[k] == orig[perm[k]]
  }

  /** Before inserting `s[i]`: `s[..i]` is ordered by `specs[m..]`, and every element is
      ordered by `specs[m + 1..]` before every later element of `s[i..]`. */
  ghost predicate PassInv<T>(s: seq<T>, perm: seq<nat>, specs: seq<SortSpec<T>>, m: nat, i: nat)
    requires m < |specs|
  {
    i <= |s| == |perm| && OrderedRange(s, perm, specs, m, 0, i) &&
    forall p, q :: 0 <= p < q < |s| && i <= q ==> Precedes(specs, m + 1, s[p], perm[p], s[q], perm[q])
  }

  /** While `x` (from position `i`, now at `j`) moves left: the other elements of `s[..i + 1]`
      are ordered by `specs[m..]`, `x` has a smaller key than every element it passed, and
      everything in `s[..i + 1]` other than `x` precedes `x` and the rest by `specs[m + 1..]`. */
  ghost predicate InsertInv<T>(s: seq<T>, perm: seq<nat>, specs: seq<SortSpec<T>>, m: nat, i: nat, j: nat, x: T, px: nat)
    requires m < |specs|
  {
    j <= i < |s| == |perm| && s[j] == x && perm[j] == px &&
    (forall p, q :: 0 <= p < q <= i && p != j && q != j ==> Precedes(specs, m, s[p], perm[p], s[q], perm[q])) &&
    (forall q :: j < q <= i ==> Oriented(specs[m], x) < Oriented(specs[m], s[q])) &&
    (forall p :: 0 <= p <= i && p != j ==> Precedes(specs, m + 1, s[p], perm[p], x, px)) &&
    (forall p, q :: 0 <= p < q < |s| && i < q ==> Precedes(specs, m + 1, s[p], perm[p], s[q], perm[q]))
  }

  function Swapped<U>(s: seq<U>, j: nat): (r: seq<U>)
    requires 0 < j < |s|
    ensures |r| == |s| && r[j - 1] == s[j] && r[j] == s[j - 1]
    ensures forall k :: 0 <= k < |s| && k != j - 1 && k != j ==> r[k] == s[k]
  {
    s[j - 1 := s[j]][j := s[j - 1]]
  }

  lemma InsertStart<T>(s: seq<T>, perm: seq<nat>, specs: seq<SortSpec<T>>, m: nat, i: nat)
    requires m < |specs| && PassInv(s, perm, specs, m, i) && i < |s|
    ensures InsertInv(s, perm, specs, m, i, i, s[i], perm[i])
  {
  }

  lemma InsertSwap<T>(s: seq<T>, perm: seq<nat>, specs: seq<SortSpec<T>>, m: nat, i: nat, j: nat, x: T, px: nat)
    requires m < |specs| && InsertInv(s, perm, specs, m, i, j, x, px)
    requires 0 < j && Oriented(specs[m], s[j]) < Oriented(specs[m], s[j - 1])
    ensures InsertInv(Swapped(s, j), Swapped(perm, j), specs, m, i, j - 1, x, px)
  {
    var s', perm' := Swapped(s, j), Swapped(perm, j);
    forall p, q | 0 <= p < q <= i && p != j - 1 && q != j - 1
      ensures Precedes(specs, m, s'[p], perm'[p], s'[q], perm'[q])
    {
      var p0 := if p == j then j - 1 else p;
      var q0 := if q == j then j - 1 else q;
      assert s'[p] == s[p0] && perm'[p] == perm[p0] && s'[q] == s[q0] && perm'[q] == perm[q0];
      assert Precedes(specs, m, s[p0], perm[p0], s[q0], perm[q0]);
    }
  }

  lemma InsertDone<T>(s: seq<T>, perm: seq<nat>, specs: seq<SortSpec<T>>, m: nat, i: nat, j: nat, x: T, px: nat)
    requires m < |specs| && InsertInv(s, perm, specs, m, i, j, x, px)
    requires j == 0 || !(Oriented(specs[m], s[j]) < Oriented(specs[m], s[j - 1]))
    ensures PassInv(s, perm, specs, m, i + 1)
  {
    forall q | j < q <= i
      ensures Precedes(specs, m, x, px, s[q], perm[q])
    {
      PrecedesStep(specs, m, x, px, s[q], perm[q]);
    }
    if j > 0 {
      PrecedesStep(specs, m, s[j - 1], perm[j - 1], x, px);
      forall p | 0 <= p < j
        ensures Precedes(specs, m, s[p], perm[p], x, px)
      {
        if p < j - 1 {
          PrecedesTransitive(specs, m, s[p], perm[p], s[j - 1], perm[j - 1], x, px);
        }
      }
    }
  }

  lemma SwapTracks<T>(s: seq<T>, perm: seq<nat>, orig: seq<T>, j: nat)
    requires Tracks(s, perm, orig) && 0 < j < |s|
    ensures Tracks(Swapped(s, j), Swapped(perm, j), orig)
    ensures multiset(Swapped(perm, j)) == multiset(perm)
  {
    SwapMultiset(perm, j);
  }

  /**
   * One pass of `multisort`: a stable in-place sort on the key `specs[m]` (insertion
   * sort, which moves an element only past strictly greater keys). The array comes in
   * ordered by `specs[m + 1..]` and leaves ordered by `specs[m..]`.
   */
  method SortPass<T>(a: array<T>, ghost orig: seq<T>, ghost perm0: seq<nat>, specs: seq<SortSpec<T>>, m: nat)
    returns (ghost perm: seq<nat>)
    requires m < |specs| && Tracks(a[..], perm0, orig)
    requires SortedBy(a[..], perm0, specs, m + 1)
    modifies a
    ensures multiset(perm) == multiset(perm0) && Tracks(a[..], perm, orig)
    ensures SortedBy(a[..], perm, specs, m)
  {
    var n := a.Length;
    perm := perm0;
    var i := 0;
    while i < n
      invariant i <= n && multiset(perm) == multiset(perm0) && Tracks(a[..], perm, orig)
      invariant PassInv(a[..], perm, specs, m, i)
    {
      var j := i;
      ghost var x, px := a[i], perm[i];
      InsertStart(a[..], perm, specs, m, i);
      while j > 0 && Oriented(specs[m], a[j]) < Oriented(specs[m], a[j - 1])
        invariant multiset(perm) == multiset(perm0) && Tracks(a[..], perm, orig)
        invariant InsertInv(a[..], perm, specs, m, i, j, x, px)
      {
        InsertSwap(a[..], perm, specs, m, i, j, x, px);
        SwapTracks(a[..], perm, orig, j);
        ghost var next := Swapped(a[..], j);
        a[j - 1], a[j] := a[j], a[j - 1];
        assert a[..] == next;
        perm := Swapped(perm, j);
        j := j - 1;
      }
      InsertDone(a[..], perm, specs, m, i, j, x, px);
      i := i + 1;
    }
  }

  /**
   * `multisort(list_to_sort, specs)`: sorts `a` in place by `specs`, the first spec having
   * the highest priority, and returns the same array. The result is a rearrangement of
   * the input, ordered lexicographically by the keys, and stable.
   */
  method Multisort<T>(a: array<T>, specs: seq<SortSpec<T>>) returns (r: array<T>, ghost perm: seq<nat>)
    modifies a
    ensures r == a
    ensures StableSorted(old(a[..]), a[..], perm, specs)
  {
    ghost var orig := a[..];
    perm := Range(a.Length);
    var m := |specs|;
    while m > 0
      invariant 0 <= m <= |specs| && multiset(perm) == multiset(Range(a.Length)) && Tracks(a[..], perm, orig)
      invariant SortedBy(a[..], perm, specs, m)
    {
      m := m - 1;
      perm := SortPass(a, orig, perm, specs, m);
    }
    r := a;
  }

  /** Every index below `n` occurs in a permutation of `n` indices. */
  lemma PermutationCovers(perm: seq<nat>, n: nat, k: nat)
    requires IsPermutation(perm, n) && k < n
    ensures exists i :: 0 <= i < n && perm[i] == k
  {
    assert Range(n)[k] == k;
    assert k in multiset(Range(n));
    assert k in multiset(perm);
    assert k in perm;
  }
}
