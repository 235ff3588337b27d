/** List-splice operations on the shared sibling array of a fixed-position
    layout: `splice(i, 1)` (remove one entry) and `splice(i, 0, x)` (insert
    one entry), and the "move one entry" composition that z-ordering uses. */
module Splice {

  /** `s.splice(i, 1)`: the entry at `i` is dropped, later entries shift down. */
  function RemoveAt<T>(s: seq<T>, i: nat): (r: seq<T>)
    requires i < |s|
    ensures |r| == |s| - 1
    ensures forall k :: 0 <= k < i ==> r[k] == s[k]
    ensures forall k :: i <= k < |r| ==> r[k] == s[k + 1]
    ensures multiset(r) + multiset{s[i]} == multiset(s)
  {
    assert s == s[..i] + [s[i]] + s[i + 1..];
    s[..i] + s[i + 1..]
  }

  /** `s.splice(i, 0, x)` with `i <= |s|`: `x` lands at `i`, later entries shift up. */
  function InsertAt<T>(s: seq<T>, i: nat, x: T): (r: seq<T>)
    requires i <= |s|
    ensures |r| == |s| + 1
    ensures r[i] == x
    ensures forall k :: 0 <= k < i ==> r[k] == s[k]
    ensures forall k :: i < k < |r| ==> r[k] == s[k - 1]
    ensures multiset(r) == multiset(s) + multiset{x}
  {
    assert s == s[..i] + s[i..];
    s[..i] + [x] + s[i..]
  }

  /** Removing what was just inserted gives the original sequence back. */
  lemma RemoveInsertAt<T>(s: seq<T>, i: nat, x: T)
    requires i <= |s|
    ensures RemoveAt(InsertAt(s, i, x), i) == s
  {
  }

  /** The entry at `i` taken out and put back at `d`. */
  function Move<T>(s: seq<T>, i: nat, d: nat): (r: seq<T>)
    requires i < |s| && d < |s|
    ensures |r| == |s|
    ensures multiset(r) == multiset(s)
    ensures r[d] == s[i]
  {
    InsertAt(RemoveAt(s, i), d, s[i])
  }

  /** Reference definition of a move, position by position: the old index
      whose entry ends up at position `k` after moving `i` to `d`. */
  function Source(i: nat, d: nat, k: nat): nat
  {
    if k == d then i
    else if i < d && i <= k < d then k + 1
    else if d < i && d < k <= i then k - 1
    else k
  }

  /** Where the entry at old index `k` (other than `i`) ends up after
      moving `i` to `d`. */
  function Target(i: nat, d: nat, k: nat): nat
    requires k != i
  {
    if i < k && k <= d then k - 1
    else if d <= k && k < i then k + 1
    else k
  }

  /** The splice composition agrees with the position-by-position definition. */
  lemma MoveIsPointwise<T>(s: seq<T>, i: nat, d: nat)
    requires i < |s| && d < |s|
    ensures forall k :: 0 <= k < |s| ==> Source(i, d, k) < |s| && Move(s, i, d)[k] == s[Source(i, d, k)]
  {
    var t := RemoveAt(s, i);
    forall k | 0 <= k < |s|
      ensures Source(i, d, k) < |s| && Move(s, i, d)[k] == s[Source(i, d, k)]
    {
      if k < d {
        assert Move(s, i, d)[k] == t[k];
      } else if k > d {
        assert Move(s, i, d)[k] == t[k - 1];
      }
    }
  }

  /** The other entries keep their relative order: taking the moved entry
      out of the result leaves exactly what taking it out of the input leaves. */
  lemma MoveKeepsOthers<T>(s: seq<T>, i: nat, d: nat)
    requires i < |s| && d < |s|
    ensures RemoveAt(Move(s, i, d), d) == RemoveAt(s, i)
  {
    RemoveInsertAt(RemoveAt(s, i), d, s[i]);
  }

  /** Every entry other than the moved one is found at its target position,
      and targets are strictly increasing, so no two others swap places. */
  lemma MoveTargets<T>(s: seq<T>, i: nat, d: nat)
    requires i < |s| && d < |s|
    ensures forall k :: 0 <= k < |s| && k != i ==> Target(i, d, k) < |s| && Target(i, d, k) != d && Move(s, i, d)[Target(i, d, k)] == s[k]
    ensures forall a, b :: 0 <= a < b < |s| && a != i && b != i ==> Target(i, d, a) < Target(i, d, b)
  {
    MoveIsPointwise(s, i, d);
    forall k | 0 <= k < |s| && k != i
      ensures Target(i, d, k) < |s| && Target(i, d, k) != d && Move(s, i, d)[Target(i, d, k)] == s[k]
    {
      assert Source(i, d, Target(i, d, k)) == k;
    }
    forall a, b | 0 <= a < b < |s| && a != i && b != i
      ensures Target(i, d, a) < Target(i, d, b)
    {
      TargetIncreasing(i, d, a, b);
    }
  }

  /** Moving an entry by one place swaps it with its neighbour. */
  lemma MoveAdjacent<T>(s: seq<T>, i: nat, d: nat)
    requires i < |s| && d < |s| && (d == i + 1 || d + 1 == i)
    ensures Move(s, i, d) == s[i := s[d]][d := s[i]]
  {
    MoveIsPointwise(s, i, d);
    var w := s[i := s[d]][d := s[i]];
    assert forall k :: 0 <= k < |s| ==> Move(s, i, d)[k] == w[k];
  }

  /** Two entries other than the moved one keep their order. */
  lemma TargetIncreasing(i: nat, d: nat, a: nat, b: nat)
    requires a < b && a != i && b != i
    ensures Target(i, d, a) < Target(i, d, b)
  {
  }
}
