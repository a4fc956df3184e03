/** Smooth weighted round robin on values: one step over a shared cursor, and what long runs of steps do. */
module Wrr {

  /** A node's weight counts as 1 when it is not positive. */
  function Weight(w: int): (r: int)
    ensures r >= 1
    ensures w >= 1 ==> r == w
    ensures w < 1 ==> r == 1
  {
    if w <= 0 then 1 else w
  }

  /** A candidate list: positions in a node list of length n. */
  ghost predicate InRange(n: nat, idx: seq<nat>) {
    forall k :: 0 <= k < |idx| ==> idx[k] < n
  }

  ghost predicate Distinct(idx: seq<nat>) {
    forall j, k :: 0 <= j < k < |idx| ==> idx[j] != idx[k]
  }

  ghost predicate Candidates(n: nat, idx: seq<nat>) {
    0 < |idx| && InRange(n, idx) && Distinct(idx)
  }

  /** The cursor with the first n candidates raised by their weights. */
  function Raise(weights: seq<int>, idx: seq<nat>, n: nat, cur: seq<int>): (r: seq<int>)
    requires |weights| == |cur| && n <= |idx| && InRange(|cur|, idx)
    ensures |r| == |cur|
  {
    if n == 0 then cur
    else
      var r := Raise(weights, idx, n - 1, cur);
      r[idx[n - 1] := r[idx[n - 1]] + Weight(weights[idx[n - 1]])]
  }

  /** The total weight of the first n candidates. */
  function Total(weights: seq<int>, idx: seq<nat>, n: nat): (t: int)
    requires n <= |idx| && InRange(|weights|, idx)
    ensures t >= n
  {
    if n == 0 then 0 else Total(weights, idx, n - 1) + Weight(weights[idx[n - 1]])
  }

  /** The running best of the scan after n candidates, as a place in the list and the value to beat:
      it starts at the first candidate with 0 to beat. */
  function Scan(r: seq<int>, idx: seq<nat>, n: nat): (b: (nat, int))
    requires 0 < |idx| && n <= |idx| && InRange(|r|, idx)
    ensures b.0 < |idx|
  {
    if n == 0 then (0, 0)
    else
      var b := Scan(r, idx, n - 1);
      if r[idx[n - 1]] > b.1 then (n - 1, r[idx[n - 1]]) else b
  }

  /** The cursor after raising every candidate. */
  function Raised(weights: seq<int>, idx: seq<nat>, cur: seq<int>): (r: seq<int>)
    requires |weights| == |cur| && InRange(|cur|, idx)
    ensures |r| == |cur|
  {
    Raise(weights, idx, |idx|, cur)
  }

  /** The position picked by one step. */
  function Pick(weights: seq<int>, idx: seq<nat>, cur: seq<int>): (p: nat)
    requires |weights| == |cur| && 0 < |idx| && InRange(|cur|, idx)
    ensures p < |cur|
  {
    idx[Scan(Raised(weights, idx, cur), idx, |idx|).0]
  }

  /** The cursor after one step. */
  function Step(weights: seq<int>, idx: seq<nat>, cur: seq<int>): (r: seq<int>)
    requires |weights| == |cur| && 0 < |idx| && InRange(|cur|, idx)
    ensures |r| == |cur|
  {
    var p := Pick(weights, idx, cur);
    var up := Raised(weights, idx, cur);
    up[p := up[p] - Total(weights, idx, |idx|)]
  }

  lemma {:induction false} RaiseAt(weights: seq<int>, idx: seq<nat>, n: nat, cur: seq<int>, x: nat)
    requires |weights| == |cur| && n <= |idx| && InRange(|cur|, idx) && Distinct(idx) && x < |cur|
    ensures Raise(weights, idx, n, cur)[x] == cur[x] + (if x in idx[..n] then Weight(weights[x]) else 0)
  {
    if n > 0 {
      RaiseAt(weights, idx, n - 1, cur, x);
      assert idx[..n] == idx[..n - 1] + [idx[n - 1]];
      assert forall j :: 0 <= j < n - 1 ==> idx[..n - 1][j] == idx[j] != idx[n - 1];
    }
  }

  lemma RaisedAt(weights: seq<int>, idx: seq<nat>, cur: seq<int>, x: nat)
    requires |weights| == |cur| && InRange(|cur|, idx) && Distinct(idx) && x < |cur|
    ensures Raised(weights, idx, cur)[x] == cur[x] + (if x in idx then Weight(weights[x]) else 0)
  {
    RaiseAt(weights, idx, |idx|, cur, x);
    assert idx[..|idx|] == idx;
  }

  /** The scan stops at the first place that beats every earlier one and is beaten by none, provided some
      candidate stands above zero; otherwise it stays at the first place. */
  lemma {:induction false} ScanFinds(r: seq<int>, idx: seq<nat>, n: nat)
    requires 0 < |idx| && n <= |idx| && InRange(|r|, idx)
    ensures var b := Scan(r, idx, n);
      && (forall k :: 0 <= k < n ==> r[idx[k]] <= b.1)
      && (b.1 == 0 ==> b.0 == 0)
      && (b.1 != 0 ==> b.0 < n && b.1 == r[idx[b.0]] > 0 && forall k :: 0 <= k < b.0 ==> r[idx[k]] < b.1)
  {
    if n > 0 {
      ScanFinds(r, idx, n - 1);
    }
  }

  /** idx[j] is the first candidate holding the largest raised cursor. */
  ghost predicate FirstMaximum(r: seq<int>, idx: seq<nat>, j: nat)
    requires InRange(|r|, idx)
  {
    && j < |idx|
    && (forall k :: 0 <= k < |idx| ==> r[idx[k]] <= r[idx[j]])
    && (forall k :: 0 <= k < j ==> r[idx[k]] < r[idx[j]])
  }

  /** The scan ends at the first true maximum exactly when some raised cursor is positive or the first
      candidate is itself the maximum. */
  lemma PickIsFirstMaximum(weights: seq<int>, idx: seq<nat>, cur: seq<int>)
    requires |weights| == |cur| && Candidates(|cur|, idx)
    ensures var r := Raised(weights, idx, cur);
      (exists j :: 0 <= j < |idx| && FirstMaximum(r, idx, j) && Pick(weights, idx, cur) == idx[j])
      <==> ((exists k :: 0 <= k < |idx| && r[idx[k]] > 0) || FirstMaximum(r, idx, 0))
  {
    var r := Raised(weights, idx, cur);
    ScanFinds(r, idx, |idx|);
    var j := Scan(r, idx, |idx|).0;
    if exists k :: 0 <= k < |idx| && r[idx[k]] > 0 {
      assert FirstMaximum(r, idx, j);
    } else {
      assert j == 0;
    }
  }

  // ---- Sums over the cursor ----

  /** The sum of the first n entries. */
  ghost function SumOf(s: seq<int>, n: nat): int
    requires n <= |s|
  {
    if n == 0 then 0 else SumOf(s, n - 1) + s[n - 1]
  }

  ghost function Balance(cur: seq<int>): int { SumOf(cur, |cur|) }

  lemma {:induction false} SumUpdate(s: seq<int>, n: nat, i: nat, x: int)
    requires i < |s| && n <= |s|
    ensures SumOf(s[i := x], n) == SumOf(s, n) + (if i < n then x - s[i] else 0)
  {
    if n > 0 {
      SumUpdate(s, n - 1, i, x);
    }
  }

  lemma {:induction false} RaiseBalance(weights: seq<int>, idx: seq<nat>, n: nat, cur: seq<int>)
    requires |weights| == |cur| && n <= |idx| && InRange(|cur|, idx)
    ensures Balance(Raise(weights, idx, n, cur)) == Balance(cur) + Total(weights, idx, n)
  {
    if n > 0 {
      var r := Raise(weights, idx, n - 1, cur);
      RaiseBalance(weights, idx, n - 1, cur);
      SumUpdate(r, |r|, idx[n - 1], r[idx[n - 1]] + Weight(weights[idx[n - 1]]));
    }
  }

  /** Whatever the candidates, a step hands out exactly what it takes: the cursor's sum never moves. */
  lemma StepKeepsBalance(weights: seq<int>, idx: seq<nat>, cur: seq<int>)
    requires |weights| == |cur| && Candidates(|cur|, idx)
    ensures Balance(Step(weights, idx, cur)) == Balance(cur)
  {
    var p := Pick(weights, idx, cur);
    var up := Raised(weights, idx, cur);
    RaiseBalance(weights, idx, |idx|, cur);
    SumUpdate(up, |up|, p, up[p] - Total(weights, idx, |idx|));
  }

  /** With a single candidate a full step changes nothing, which is why it may be skipped. */
  lemma SingleCandidate(weights: seq<int>, x: nat, cur: seq<int>)
    requires |weights| == |cur| && x < |cur|
    ensures Step(weights, [x], cur) == cur && Pick(weights, [x], cur) == x
  {
    assert Raise(weights, [x], 0, cur) == cur;
    assert Raise(weights, [x], 1, cur) == cur[x := cur[x] + Weight(weights[x])];
    assert Total(weights, [x], 1) == Weight(weights[x]);
  }

  // ---- A run over candidate lists that change from step to step ----

  ghost predicate Choices(n: nat, choices: seq<seq<nat>>) {
    forall k :: 0 <= k < |choices| ==> Candidates(n, choices[k])
  }

  /** The cursor after the first k choices. */
  function Follow(weights: seq<int>, choices: seq<seq<nat>>, k: nat, cur: seq<int>): (r: seq<int>)
    requires |weights| == |cur| && Choices(|cur|, choices) && k <= |choices|
    ensures |r| == |cur|
  {
    if k == 0 then cur else Step(weights, choices[k - 1], Follow(weights, choices, k - 1, cur))
  }

  /** However health, priority fallback and tie sets vary, the cursor's sum stays what it was: zero when fresh. */
  lemma {:induction false} FollowKeepsBalance(weights: seq<int>, choices: seq<seq<nat>>, k: nat, cur: seq<int>)
    requires |weights| == |cur| && Choices(|cur|, choices) && k <= |choices|
    ensures Balance(Follow(weights, choices, k, cur)) == Balance(cur)
  {
    if k > 0 {
      FollowKeepsBalance(weights, choices, k - 1, cur);
      StepKeepsBalance(weights, choices[k - 1], Follow(weights, choices, k - 1, cur));
    }
  }

  /** A fresh cursor can be led by health changes to a step that passes over the largest candidate: four
      nodes of weight 1, two picks among all, then two picks among the first two. */
  lemma PickCanMissMaximum()
    returns (w: seq<int>, zero: seq<int>, choices: seq<seq<nat>>, idx: seq<nat>)
    ensures w == [1, 1, 1, 1] && zero == [0, 0, 0, 0] && idx == [0, 1]
    ensures Choices(4, choices) && |choices| == 3
    ensures var cur := Follow(w, choices, 3, zero);
      Pick(w, idx, cur) == idx[0] && Raised(w, idx, cur)[0] < Raised(w, idx, cur)[1]
  {
    var all;
    w, zero, all, idx := [1, 1, 1, 1], [0, 0, 0, 0], [0, 1, 2, 3], [0, 1];
    choices := [all, all, idx];
    MissingRun(w, zero, all, idx, choices);
  }

  lemma MissingRun(w: seq<int>, c0: seq<int>, all: seq<nat>, two: seq<nat>, choices: seq<seq<nat>>)
    requires w == [1, 1, 1, 1] && c0 == [0, 0, 0, 0] && all == [0, 1, 2, 3] && two == [0, 1]
    requires choices == [all, all, two]
    ensures Choices(4, choices)
    ensures var cur := Follow(w, choices, 3, c0);
      Pick(w, two, cur) == two[0] && Raised(w, two, cur)[0] < Raised(w, two, cur)[1]
  {
    var c2 := AmongAll(w, c0, all);
    AmongTwo(w, c2, two);
    assert Follow(w, choices, 0, c0) == c0;
    assert Follow(w, choices, 1, c0) == Step(w, all, c0);
    assert Follow(w, choices, 2, c0) == c2;
    assert Follow(w, choices, 3, c0) == Step(w, two, c2);
  }

  lemma AmongAll(w: seq<int>, c0: seq<int>, all: seq<nat>) returns (c2: seq<int>)
    requires w == [1, 1, 1, 1] && c0 == [0, 0, 0, 0] && all == [0, 1, 2, 3]
    ensures c2 == Step(w, all, Step(w, all, c0)) && c2 == [-2, -2, 2, 2]
  {
    UnitStep(w, all, c0, [1, 1, 1, 1], 0);
    var c1 := Step(w, all, c0);
    assert c1 == [-3, 1, 1, 1];
    UnitStep(w, all, c1, [-2, 2, 2, 2], 1);
    c2 := Step(w, all, c1);
    assert c2 == [-2, -2, 2, 2];
  }

  lemma AmongTwo(w: seq<int>, c2: seq<int>, two: seq<nat>)
    requires w == [1, 1, 1, 1] && c2 == [-2, -2, 2, 2] && two == [0, 1]
    ensures var c3 := Step(w, two, c2);
      Pick(w, two, c3) == two[0] && Raised(w, two, c3) == [-2, 0, 2, 2]
  {
    UnitStep(w, two, c2, [-1, -1, 2, 2], 0);
    var c3 := Step(w, two, c2);
    assert c3 == [-3, -1, 2, 2];
    UnitStep(w, two, c3, [-2, 0, 2, 2], 0);
  }

  /** A step with unit weights worked out: up is the raised cursor, and its scan stops at place j. */
  lemma UnitStep(w: seq<int>, idx: seq<nat>, cur: seq<int>, up: seq<int>, j: nat)
    requires |w| == |cur| == |up| && Candidates(|cur|, idx)
    requires forall x :: 0 <= x < |w| ==> w[x] == 1
    requires forall x :: 0 <= x < |cur| ==> up[x] == cur[x] + (if x in idx then 1 else 0)
    requires (FirstMaximum(up, idx, j) && (up[idx[j]] > 0 || j == 0))
      || (j == 0 && forall k :: 0 <= k < |idx| ==> up[idx[k]] <= 0)
    ensures Raised(w, idx, cur) == up && Pick(w, idx, cur) == idx[j]
    ensures Step(w, idx, cur) == up[idx[j] := up[idx[j]] - |idx|]
  {
    forall x | 0 <= x < |cur|
      ensures Raised(w, idx, cur)[x] == up[x]
    {
      RaisedAt(w, idx, cur, x);
    }
    assert Raised(w, idx, cur) == up;
    ScanFinds(up, idx, |idx|);
    UnitTotal(w, idx, |idx|);
  }

  lemma {:induction false} UnitTotal(w: seq<int>, idx: seq<nat>, n: nat)
    requires n <= |idx| && InRange(|w|, idx)
    requires forall x :: 0 <= x < |w| ==> w[x] == 1
    ensures Total(w, idx, n) == n
  {
    if n > 0 {
      UnitTotal(w, idx, n - 1);
    }
  }

  // ---- A run over one fixed candidate list ----

  /** The cursor after k picks from the same candidates. */
  function Iterate(weights: seq<int>, idx: seq<nat>, k: nat, cur: seq<int>): (r: seq<int>)
    requires |weights| == |cur| && 0 < |idx| && InRange(|cur|, idx)
    ensures |r| == |cur|
  {
    if k == 0 then cur else Step(weights, idx, Iterate(weights, idx, k - 1, cur))
  }

  /** How many of the first k picks were node x. */
  function Picks(weights: seq<int>, idx: seq<nat>, k: nat, cur: seq<int>, x: nat): (n: nat)
    requires |weights| == |cur| && 0 < |idx| && InRange(|cur|, idx)
  {
    if k == 0 then 0
    else
      Picks(weights, idx, k - 1, cur, x)
      + (if Pick(weights, idx, Iterate(weights, idx, k - 1, cur)) == x then 1 else 0)
  }

  /** The exact ledger of a candidate: one weight in per step, one total out per pick. */
  lemma {:induction false} Ledger(weights: seq<int>, idx: seq<nat>, k: nat, cur: seq<int>, x: nat)
    requires |weights| == |cur| && Candidates(|cur|, idx) && x < |cur|
    ensures Iterate(weights, idx, k, cur)[x]
         == cur[x] + (if x in idx then k * (if weights[x] >= 1 then weights[x] else 1) else 0)
            - Picks(weights, idx, k, cur, x) * Total(weights, idx, |idx|)
  {
    if k > 0 {
      var before := Iterate(weights, idx, k - 1, cur);
      Ledger(weights, idx, k - 1, cur, x);
      RaisedAt(weights, idx, before, x);
      Scaled(k, Weight(weights[x]));
      Counted(Picks(weights, idx, k - 1, cur, x), Total(weights, idx, |idx|));
    }
  }

  lemma Scaled(k: nat, w: int)
    requires k > 0
    ensures k * w == (k - 1) * w + w
  {}

  lemma Counted(n: nat, t: int)
    ensures (n + 1) * t == n * t + t
  {}

  lemma {:induction false} IterateKeepsBalance(weights: seq<int>, idx: seq<nat>, k: nat, cur: seq<int>)
    requires |weights| == |cur| && Candidates(|cur|, idx)
    ensures Balance(Iterate(weights, idx, k, cur)) == Balance(cur)
  {
    if k > 0 {
      IterateKeepsBalance(weights, idx, k - 1, cur);
      StepKeepsBalance(weights, idx, Iterate(weights, idx, k - 1, cur));
    }
  }

  /** Some entry of a list with a positive sum is positive. */
  lemma {:induction false} PositiveEntry(s: seq<int>, n: nat) returns (x: nat)
    requires n <= |s| && SumOf(s, n) > 0
    ensures x < n && s[x] > 0
  {
    if s[n - 1] > 0 {
      x := n - 1;
    } else {
      x := PositiveEntry(s, n - 1);
    }
  }

  ghost predicate Zeros(cur: seq<int>) { forall x :: 0 <= x < |cur| ==> cur[x] == 0 }

  lemma {:induction false} ZeroSum(cur: seq<int>, n: nat)
    requires Zeros(cur) && n <= |cur|
    ensures SumOf(cur, n) == 0
  {
    if n > 0 {
      ZeroSum(cur, n - 1);
    }
  }

  /** From a balanced cursor that is zero outside the candidates, the pick stands above zero and is the
      first true maximum. */
  lemma BalancedPick(weights: seq<int>, idx: seq<nat>, cur: seq<int>) returns (j: nat)
    requires |weights| == |cur| && Candidates(|cur|, idx) && Balance(cur) == 0
    requires forall x :: 0 <= x < |cur| && x !in idx ==> cur[x] == 0
    ensures var r := Raised(weights, idx, cur);
      j < |idx| && Pick(weights, idx, cur) == idx[j] && FirstMaximum(r, idx, j) && r[idx[j]] >= 1
  {
    var r := Raised(weights, idx, cur);
    RaiseBalance(weights, idx, |idx|, cur);
    var x := PositiveEntry(r, |r|);
    RaisedAt(weights, idx, cur, x);
    var k :| 0 <= k < |idx| && idx[k] == x;
    ScanFinds(r, idx, |idx|);
    j := Scan(r, idx, |idx|).0;
  }

  /** From a fresh cursor every entry stays strictly above minus the total weight, and entries outside
      the candidates stay zero. */
  lemma {:induction false} NeverATurnBehind(weights: seq<int>, idx: seq<nat>, k: nat, cur: seq<int>)
    requires |weights| == |cur| && Candidates(|cur|, idx) && Zeros(cur)
    ensures var c := Iterate(weights, idx, k, cur);
      && (forall x :: 0 <= x < |c| ==> c[x] >= 1 - Total(weights, idx, |idx|))
      && (forall x :: 0 <= x < |c| && x !in idx ==> c[x] == 0)
      && Balance(c) == 0
  {
    ZeroSum(cur, |cur|);
    IterateKeepsBalance(weights, idx, k, cur);
    if k > 0 {
      var before, c := Iterate(weights, idx, k - 1, cur), Iterate(weights, idx, k, cur);
      NeverATurnBehind(weights, idx, k - 1, cur);
      var j := BalancedPick(weights, idx, before);
      forall x | 0 <= x < |c|
        ensures c[x] >= 1 - Total(weights, idx, |idx|) && (x !in idx ==> c[x] == 0)
      {
        RaisedAt(weights, idx, before, x);
      }
    }
  }

  /** With a fresh cursor and unchanging candidates every pick is the first true maximum, and no node is
      ever a full turn ahead of its share. */
  lemma FairAtEveryPick(weights: seq<int>, idx: seq<nat>, k: nat, cur: seq<int>, x: nat)
    requires |weights| == |cur| && Candidates(|cur|, idx) && Zeros(cur) && x in idx
    ensures var t := Total(weights, idx, |idx|);
      Picks(weights, idx, k, cur, x) * t < k * (if weights[x] >= 1 then weights[x] else 1) + t
    ensures var c := Iterate(weights, idx, k, cur);
      exists j :: 0 <= j < |idx| && FirstMaximum(Raised(weights, idx, c), idx, j) && Pick(weights, idx, c) == idx[j]
  {
    NeverATurnBehind(weights, idx, k, cur);
    Ledger(weights, idx, k, cur, x);
    var j := BalancedPick(weights, idx, Iterate(weights, idx, k, cur));
  }

  lemma Scales(a: int, b: int, t: int)
    requires a <= b && t >= 0
    ensures a * t <= b * t
  {}

  /** A multiple of t above minus t is not negative. */
  lemma TurnMultiple(c: int, t: int, w: int, n: int)
    requires t > 0 && c == t * w - n * t && c > -t
    ensures c >= 0
  {
    assert c == (w - n) * t;
    if w - n < 0 {
      Scales(w - n, -1, t);
    } else {
      Scales(0, w - n, t);
    }
  }

  /** A list without negative entries that sums to zero is all zero. */
  lemma {:induction false} AllZero(s: seq<int>, n: nat)
    requires n <= |s| && (forall x :: 0 <= x < n ==> s[x] >= 0) && SumOf(s, n) <= 0
    ensures SumOf(s, n) == 0 && forall x :: 0 <= x < n ==> s[x] == 0
  {
    if n > 0 {
      SumNonNegative(s, n - 1);
      AllZero(s, n - 1);
    }
  }

  lemma {:induction false} SumNonNegative(s: seq<int>, n: nat)
    requires n <= |s| && forall x :: 0 <= x < n ==> s[x] >= 0
    ensures SumOf(s, n) >= 0
  {
    if n > 0 {
      SumNonNegative(s, n - 1);
    }
  }

  /** After a full turn no entry is negative: each is a multiple of the total above minus the total. */
  lemma NotNegative(weights: seq<int>, idx: seq<nat>, cur: seq<int>, x: nat)
    requires |weights| == |cur| && Candidates(|cur|, idx) && Zeros(cur) && x < |cur|
    ensures Iterate(weights, idx, Total(weights, idx, |idx|), cur)[x] >= 0
  {
    var t := Total(weights, idx, |idx|);
    NeverATurnBehind(weights, idx, t, cur);
    if x in idx {
      Ledger(weights, idx, t, cur, x);
      var c := Iterate(weights, idx, t, cur)[x];
      TurnMultiple(c, t, Weight(weights[x]), Picks(weights, idx, t, cur, x));
    }
  }

  /** After exactly as many picks as the total weight, the fresh cursor is fresh again. */
  lemma FullTurn(weights: seq<int>, idx: seq<nat>, cur: seq<int>)
    requires |weights| == |cur| && Candidates(|cur|, idx) && Zeros(cur)
    ensures Iterate(weights, idx, Total(weights, idx, |idx|), cur) == cur
  {
    var c := Iterate(weights, idx, Total(weights, idx, |idx|), cur);
    NeverATurnBehind(weights, idx, Total(weights, idx, |idx|), cur);
    forall x | 0 <= x < |c|
      ensures c[x] >= 0
    {
      NotNegative(weights, idx, cur, x);
    }
    AllZero(c, |c|);
    assert c == cur;
  }

  lemma {:induction false} IterateSplits(weights: seq<int>, idx: seq<nat>, a: nat, b: nat, cur: seq<int>, x: nat)
    requires |weights| == |cur| && 0 < |idx| && InRange(|cur|, idx)
    ensures var mid := Iterate(weights, idx, a, cur);
      && Iterate(weights, idx, a + b, cur) == Iterate(weights, idx, b, mid)
      && Picks(weights, idx, a + b, cur, x) == Picks(weights, idx, a, cur, x) + Picks(weights, idx, b, mid, x)
  {
    if b > 0 {
      IterateSplits(weights, idx, a, b - 1, cur, x);
    }
  }

  /** Wherever the window starts, every run of consecutive picks as long as the total weight selects each
      candidate exactly as often as its weight says, and nobody else. */
  lemma EveryWindow(weights: seq<int>, idx: seq<nat>, start: nat, cur: seq<int>, x: nat)
    requires |weights| == |cur| && Candidates(|cur|, idx) && Zeros(cur) && x < |cur|
    ensures var t := Total(weights, idx, |idx|);
      Picks(weights, idx, start + t, cur, x) - Picks(weights, idx, start, cur, x)
      == if x !in idx then 0 else if weights[x] >= 1 then weights[x] else 1
  {
    var t := Total(weights, idx, |idx|);
    var mid := Iterate(weights, idx, start, cur);
    FullTurn(weights, idx, cur);
    IterateSplits(weights, idx, t, start, cur, x);
    IterateSplits(weights, idx, start, t, cur, x);
    assert Iterate(weights, idx, t, mid) == mid;
    Ledger(weights, idx, t, mid, x);
    var n, w := Picks(weights, idx, t, mid, x), if x in idx then Weight(weights[x]) else 0;
    assert t * w == n * t;
    Cancel(t, w, n);
  }

  /** With positive weights the total is their sum. */
  lemma {:induction false} TotalIsSum(weights: seq<int>, idx: seq<nat>, shares: seq<int>, n: nat)
    requires n <= |idx| == |shares| && InRange(|weights|, idx)
    requires forall k :: 0 <= k < |idx| ==> shares[k] == weights[idx[k]] >= 1
    ensures Total(weights, idx, n) == SumOf(shares, n)
  {
    if n > 0 {
      TotalIsSum(weights, idx, shares, n - 1);
    }
  }

  lemma Cancel(t: int, a: int, b: int)
    requires t > 0 && t * a == b * t
    ensures a == b
  {
    assert t * (a - b) == 0;
  }
}
