/**
 * UnorderedSampleWithoutReplacement.Enumerator: walks through all k-element
 * samples (as increasing zero-based index sequences) of a population of n in
 * lexicographic order, rewriting one index array in place.
 */
module UnorderedSample {
  import opened Wrappers
  import opened Combinatorics

  /** (start, start + 1, ..., start + len - 1). */
  function Run(start: int, len: nat): (r: seq<int>)
    ensures |r| == len && forall i :: 0 <= i < len ==> r[i] == start + i
  {
    seq(len, i => start + i)
  }

  /** A sample: strictly increasing indices into the population. */
  predicate IsSample(c: seq<int>, n: int)
  {
    (forall i :: 0 <= i < |c| ==> 0 <= c[i] < n) &&
    (forall i, j :: 0 <= i < j < |c| ==> c[i] < c[j])
  }

  /**
   * What `Reset` leaves behind: the first sample (0, ..., k - 1) with its
   * last index stepped back by one, so that the first move produces it.
   */
  function BeforeFirst(k: nat): (r: seq<int>)
    ensures |r| == k
    ensures k > 0 ==> r[..k - 1] == Run(0, k - 1) && r[k - 1] == k - 2
  {
    if k == 0 then [] else Run(0, k - 1) + [k - 2]
  }

  /** The states the enumerator can be in. */
  predicate Reachable(c: seq<int>, n: int)
  {
    IsSample(c, n) || c == BeforeFirst(|c|)
  }

  /** The largest index a position can hold: the last sample is (n - k, ..., n - 1). */
  function Ceiling(c: seq<int>, n: int, j: int): int
  {
    n - |c| + j
  }

  /**
   * The rightmost position below `pos` that has not reached its ceiling,
   * or -1 when there is none.
   */
  function Movable(c: seq<int>, n: int, pos: nat): (p: int)
    requires pos <= |c|
    ensures -1 <= p < pos
    ensures forall j :: p < j < pos ==> c[j] == Ceiling(c, n, j)
    ensures p >= 0 ==> c[p] != Ceiling(c, n, p)
  {
    if pos == 0 then -1
    else if c[pos - 1] != Ceiling(c, n, pos - 1) then pos - 1
    else Movable(c, n, pos - 1)
  }

  /** A position at its ceiling is skipped. */
  lemma MovableSkips(c: seq<int>, n: int, pos: nat)
    requires 0 < pos <= |c| && c[pos - 1] == Ceiling(c, n, pos - 1)
    ensures Movable(c, n, pos) == Movable(c, n, pos - 1)
  {
  }

  /** The sample that follows `c`, or None when `c` is the last one. */
  function Successor(c: seq<int>, n: int): (r: Option<seq<int>>)
    ensures r.Some? ==> |r.value| == |c|
  {
    var p := Movable(c, n, |c|);
    if p < 0 then None else Some(c[..p] + Run(c[p] + 1, |c| - p))
  }

  /** The successor written out position by position, as `MoveNext` produces it. */
  lemma SuccessorAt(c: seq<int>, n: int, p: int, d: seq<int>)
    requires 0 <= p < |c| == |d| && Movable(c, n, |c|) == p
    requires forall j :: 0 <= j < p ==> d[j] == c[j]
    requires forall j :: p <= j < |c| ==> d[j] == c[p] + 1 + (j - p)
    ensures Successor(c, n) == Some(d)
  {
    var e := c[..p] + Run(c[p] + 1, |c| - p);
    assert Successor(c, n) == Some(e);
    forall j | 0 <= j < |c|
      ensures e[j] == d[j]
    {
      if j < p {
        assert e[j] == c[..p][j];
      } else {
        assert e[j] == Run(c[p] + 1, |c| - p)[j - p];
      }
    }
    assert e == d;
  }

  /** `c` comes strictly before `d` in lexicographic order. */
  predicate LexLess(c: seq<int>, d: seq<int>)
  {
    exists p :: 0 <= p < |c| && p < |d| && c[..p] == d[..p] && c[p] < d[p]
  }

  lemma SampleBelowCeiling(c: seq<int>, n: int)
    requires IsSample(c, n)
    ensures forall j :: 0 <= j < |c| ==> c[j] <= Ceiling(c, n, j)
  {
    forall j | 0 <= j < |c|
      ensures c[j] <= Ceiling(c, n, j)
    {
      BelowCeiling(c, n, j);
    }
  }

  lemma {:induction false} BelowCeiling(c: seq<int>, n: int, j: nat)
    requires IsSample(c, n) && j < |c|
    ensures c[j] <= Ceiling(c, n, j)
    decreases |c| - j
  {
    if j + 1 < |c| {
      BelowCeiling(c, n, j + 1);
    }
  }

  /** Every move from a reachable state produces a sample that comes later. */
  lemma SuccessorIsLaterSample(c: seq<int>, n: int)
    requires |c| <= n && Reachable(c, n)
    ensures Successor(c, n).Some? ==>
      IsSample(Successor(c, n).value, n) && LexLess(c, Successor(c, n).value)
    ensures Successor(c, n).None? ==> c == Run(n - |c|, |c|)
  {
    var k := |c|;
    var p := Movable(c, n, k);
    if IsSample(c, n) {
      SampleBelowCeiling(c, n);
    }
    if p >= 0 {
      assert c[p] < Ceiling(c, n, p);
      var d := Successor(c, n).value;
      assert d[..p] == c[..p];
      assert IsSample(d, n);
      assert LexLess(c, d);
    }
  }

  // ------------------------------------------- how many samples are left

  /** The number of k-element sets of an m-element population other than its first one, by Pascal's rule. */
  function Tail(m: nat, r: nat): nat
    requires r <= m
  {
    if r == 0 then 0 else Choose(m - 1, r) + Tail(m - 1, r - 1)
  }

  lemma {:induction false} TailIsChooseLessOne(m: nat, r: nat)
    requires r <= m
    ensures Tail(m, r) + 1 == Choose(m, r)
    decreases r
  {
    if r > 0 {
      TailIsChooseLessOne(m - 1, r - 1);
    }
  }

  /**
   * How many samples still come after the state `c`, counted from position
   * `i`: the samples that first differ from `c` at position j are the
   * (k - j)-element sets above c[j].
   */
  function Remaining(c: seq<int>, n: int, i: nat): nat
    decreases |c| - i
  {
    if i >= |c| then 0
    else (if n - 1 - c[i] >= 0 then Choose(n - 1 - c[i], |c| - i) else 0) + Remaining(c, n, i + 1)
  }

  lemma {:induction false} RemainingOfRun(d: seq<int>, n: int, p: nat, s: int)
    requires p <= |d| && d[p..] == Run(s, |d| - p) && 0 <= n - s && |d| - p <= n - s
    ensures Remaining(d, n, p) == Tail(n - s, |d| - p)
    decreases |d| - p
  {
    if p < |d| {
      assert d[p] == s;
      assert d[p + 1..] == d[p..][1..];
      RemainingOfRun(d, n, p + 1, s + 1);
    }
  }

  /** Positions at their ceilings contribute nothing. */
  lemma {:induction false} RemainingAtCeiling(c: seq<int>, n: int, i: nat)
    requires i <= |c|
    requires forall j :: i <= j < |c| ==> c[j] == Ceiling(c, n, j)
    ensures Remaining(c, n, i) == 0
    decreases |c| - i
  {
    if i < |c| {
      if n - 1 - c[i] >= 0 {
        ChooseAboveIsZero(n - 1 - c[i], |c| - i);
      }
      RemainingAtCeiling(c, n, i + 1);
    }
  }

  /** Two states that agree below p differ in what remains only by what they do from p on. */
  lemma {:induction false} RemainingCommonPrefix(c: seq<int>, d: seq<int>, n: int, i: nat, p: nat)
    requires |c| == |d| && i <= p <= |c| && c[..p] == d[..p]
    ensures Remaining(c, n, i) - Remaining(d, n, i) == Remaining(c, n, p) - Remaining(d, n, p)
    decreases p - i
  {
    if i < p {
      assert c[i] == c[..p][i] == d[..p][i] == d[i];
      RemainingCommonPrefix(c, d, n, i + 1, p);
    }
  }

  /** Every move uses up exactly one of the samples left. */
  lemma SuccessorConsumesOne(c: seq<int>, n: int)
    requires |c| <= n && Reachable(c, n)
    ensures Successor(c, n).Some? ==> Remaining(Successor(c, n).value, n, 0) + 1 == Remaining(c, n, 0)
    ensures Successor(c, n).None? ==> Remaining(c, n, 0) == 0
  {
    var k := |c|;
    var p := Movable(c, n, k);
    if IsSample(c, n) {
      SampleBelowCeiling(c, n);
    }
    if p >= 0 {
      assert c[p] < Ceiling(c, n, p);
      var d := Successor(c, n).value;
      assert d[..p] == c[..p];
      var m := n - 1 - c[p];
      RemainingCommonPrefix(c, d, n, 0, p);
      RemainingAtCeiling(c, n, p + 1);
      assert d[p..] == Run(c[p] + 1, k - p);
      RemainingOfRun(d, n, p, c[p] + 1);
      TailIsChooseLessOne(m, k - p);
    } else {
      RemainingAtCeiling(c, n, 0);
    }
  }

  /** After `Reset` every k-element sample is still to come. */
  lemma RemainingAfterReset(n: nat, k: nat)
    requires 0 < k <= n
    ensures Remaining(BeforeFirst(k), n, 0) == Choose(n, k)
  {
    var c, d := BeforeFirst(k), Run(0, k);
    assert c[..k - 1] == d[..k - 1];
    RemainingCommonPrefix(c, d, n, 0, k - 1);
    ChooseOne(n - k + 1);
    ChooseOne(n - k);
    assert d[k - 1..] == [k - 1];
    assert Remaining(c, n, k - 1) == n - k + 1;
    assert Remaining(d, n, k - 1) == n - k;
    assert d[0..] == Run(0, k);
    RemainingOfRun(d, n, 0, 0);
    TailIsChooseLessOne(n, k);
  }

  /** The number of successful moves from the state `c` on. */
  function Yields(c: seq<int>, n: int): nat
    requires |c| <= n && Reachable(c, n)
    decreases Remaining(c, n, 0)
  {
    SuccessorConsumesOne(c, n);
    SuccessorIsLaterSample(c, n);
    if Successor(c, n).None? then 0 else 1 + Yields(Successor(c, n).value, n)
  }

  lemma {:induction false} YieldsIsRemaining(c: seq<int>, n: int)
    requires |c| <= n && Reachable(c, n)
    ensures Yields(c, n) == Remaining(c, n, 0)
    decreases Remaining(c, n, 0)
  {
    SuccessorConsumesOne(c, n);
    SuccessorIsLaterSample(c, n);
    if Successor(c, n).Some? {
      YieldsIsRemaining(Successor(c, n).value, n);
    }
  }

  /**
   * From `Reset` the enumerator yields exactly C(n, k) samples when k is
   * positive; for k == 0 it yields none, although the empty sample is one.
   */
  lemma YieldsAfterReset(n: nat, k: nat)
    requires k <= n
    ensures k > 0 ==> Yields(BeforeFirst(k), n) == Choose(n, k)
    ensures k == 0 ==> Yields(BeforeFirst(k), n) == 0 && Choose(n, k) == 1
  {
    YieldsIsRemaining(BeforeFirst(k), n);
    if k > 0 {
      RemainingAfterReset(n, k);
    }
  }

  // ------------------------------------------------------------ enumerator

  class Enumerator {
    const n: Int32
    const k: Int32
    var indices: array<int>

    ghost predicate Valid()
      reads this, indices
    {
      0 <= k <= n && indices.Length == k && Reachable(indices[..], n)
    }

    /** Arguments already checked by `Open`. */
    constructor (n: Int32, k: Int32)
      requires 0 <= k <= n
      ensures Valid() && this.n == n && this.k == k
      ensures fresh(indices) && indices[..] == BeforeFirst(k)
    {
      this.n := n;
      this.k := k;
      indices := new int[k];
      new;
      Reset();
    }

    function PopulationSize(): (r: Int32)
      reads this
      ensures r == n
    {
      n
    }

    function SampleSize(): (r: Int32)
      reads this
      ensures r == k
    {
      k
    }

    /** A copy of the current sample. */
    method Current() returns (r: seq<int>)
      requires Valid()
      ensures r == indices[..]
    {
      r := indices[..];
    }

    method Reset()
      requires 0 <= k <= n && indices.Length == k
      modifies indices
      ensures Valid() && indices[..] == BeforeFirst(k)
    {
      for i := 0 to k
        invariant forall j :: 0 <= j < i ==> indices[j] == j
      {
        indices[i] := i;
      }
      if k != 0 {
        indices[k - 1] := indices[k - 1] - 1;
      }
      assert indices[..] == BeforeFirst(k);
    }

    /** The inner loop of `MoveNext`: counts upwards from the index at p to the end. */
    method Rewrite(p: int)
      requires 0 <= p < indices.Length == k
      modifies indices
      ensures forall j :: 0 <= j < p ==> indices[j] == old(indices[j])
      ensures forall j :: p <= j < k ==> indices[j] == old(indices[p]) + 1 + (j - p)
    {
      var position := p;
      var threshold := indices[position];
      ghost var start := threshold;
      while position < k
        invariant p <= position <= k && threshold == start + (position - p)
        invariant forall j :: 0 <= j < p ==> indices[j] == old(indices[j])
        invariant forall j :: p <= j < position ==> indices[j] == start + 1 + (j - p)
      {
        threshold := threshold + 1;
        indices[position] := threshold;
        position := position + 1;
      }
    }

    /** Advances to the next sample; false, with nothing changed, after the last one. */
    method MoveNext() returns (r: bool)
      requires Valid()
      modifies indices
      ensures Valid()
      ensures r <==> Successor(old(indices[..]), n).Some?
      ensures r ==> indices[..] == Successor(old(indices[..]), n).value
      ensures !r ==> indices[..] == old(indices[..])
    {
      ghost var c := indices[..];
      SuccessorIsLaterSample(c, n);
      var position := k;
      var threshold := n;
      while position > 0
        invariant 0 <= position <= k && threshold == n - k + position
        invariant indices[..] == c
        invariant Movable(c, n, k) == Movable(c, n, position)
      {
        position := position - 1;
        threshold := threshold - 1;
        if indices[position] != threshold {
          Rewrite(position);
          SuccessorAt(c, n, position, indices[..]);
          return true;
        }
        MovableSkips(c, n, position + 1);
      }
      return false;
    }
  }

  /** `new Enumerator(n, k)`: throws ArgumentOutOfRange unless 0 <= k <= n. */
  method Open(n: Int32, k: Int32) returns (r: Result<Enumerator, Failure>)
    ensures r.Err? <==> n < 0 || k < 0 || k > n
    ensures r.Err? ==> r.error == ArgumentOutOfRange
    ensures r.Ok? ==> (fresh(r.value) && fresh(r.value.indices) && r.value.Valid() &&
      r.value.n == n && r.value.k == k && r.value.indices[..] == BeforeFirst(k))
  {
    if n < 0 || k < 0 || k > n {
      return Err(ArgumentOutOfRange);
    }
    var e := new Enumerator(n, k);
    return Ok(e);
  }

  /** Counting the moves of a fresh enumerator, as the tests do. */
  method CountSamples(n: Int32, k: Int32) returns (count: nat)
    requires 0 < k <= n
    ensures count == Choose(n, k)
  {
    var e := new Enumerator(n, k);
    YieldsAfterReset(n, k);
    count := 0;
    var more := e.MoveNext();
    while more
      invariant e.Valid() && e.n == n && e.k == k && fresh(e.indices)
      invariant more ==> count + 1 + Yields(e.indices[..], n) == Choose(n, k)
      invariant !more ==> count == Choose(n, k)
      decreases Yields(e.indices[..], n), more
    {
      count := count + 1;
      more := e.MoveNext();
    }
  }
}
