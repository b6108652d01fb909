/** From computed weights to traffic percentages (the weight part of
    modules/gloo/pkg/vsfactory/target.go). */
module Traffic {
  import opened Prelude
  import opened Services
  import opened Float64Model

  datatype Target = Target(app: string, version: string, weight: int)

  function TargetWeight(r: Revision): int {
    if r.computed.Some? then r.computed.value else if r.weight.Some? then r.weight.value else 0
  }

  function TargetOf(r: Revision): Target {
    Target(App(r), Version(r), TargetWeight(r))
  }

  function Targets(svcs: seq<Revision>): seq<Target> {
    if svcs == [] then []
    else Targets(svcs[..|svcs| - 1])
         + (if svcs[|svcs| - 1].template then [] else [TargetOf(svcs[|svcs| - 1])])
  }

  function WeightsOf(ts: seq<Target>): (ws: seq<int>)
    ensures |ws| == |ts|
  {
    seq(|ts|, i requires 0 <= i < |ts| => ts[i].weight)
  }

  predicate AllZero(ws: seq<int>) {
    forall i :: 0 <= i < |ws| ==> ws[i] == 0
  }

  // The truncated percentages of the first m weights, out of a given total.
  function Truncated(a: Arithmetic, ws: seq<int>, total: int, m: nat): (ss: seq<int>)
    requires m <= |ws|
    ensures |ss| == m
  {
    seq(m, i requires 0 <= i < m => a.share(ws[i], total))
  }

  // Every target gets its truncated percentage, the last one what is left of 100.
  function Shares(a: Arithmetic, ws: seq<int>): (ss: seq<int>)
    ensures |ss| == |ws|
  {
    if AllZero(ws) then seq(|ws|, _ => 1)
    else var init := Truncated(a, ws, Sum(ws), |ws| - 1); init + [100 - Sum(init)]
  }

  function Reweighted(ts: seq<Target>, ss: seq<int>): (ts': seq<Target>)
    requires |ts| == |ss|
    ensures |ts'| == |ts|
  {
    seq(|ts|, i requires 0 <= i < |ts| => ts[i].(weight := ss[i]))
  }

  function TargetsForApp(a: Arithmetic, svcs: seq<Revision>): seq<Target> {
    var ts := Targets(svcs);
    Reweighted(ts, Shares(a, WeightsOf(ts)))
  }

  method GetTargetsForApp(a: Arithmetic, svcs: seq<Revision>) returns (targets: seq<Target>)
    ensures targets == TargetsForApp(a, svcs)
  {
    targets := [];
    var weightSet := false;
    for i := 0 to |svcs|
      invariant targets == Targets(svcs[..i])
      invariant weightSet == !AllZero(WeightsOf(targets))
    {
      assert svcs[..i + 1][..i] == svcs[..i];
      if svcs[i].template {
        continue;
      }
      var target := TargetOf(svcs[i]);
      assert WeightsOf(targets + [target]) == WeightsOf(targets) + [target.weight];
      ghost var ws := WeightsOf(targets);
      assert forall k :: 0 <= k < |ws| ==> (ws + [target.weight])[k] == ws[k];
      assert (ws + [target.weight])[|ws|] == target.weight;
      if target.weight != 0 {
        weightSet := true;
      }
      targets := targets + [target];
    }
    assert svcs[..|svcs|] == svcs;
    if !weightSet {
      targets := SetAllToOne(targets);
    } else {
      targets := SplitHundred(a, targets);
    }
  }

  method SetAllToOne(ts: seq<Target>) returns (targets: seq<Target>)
    ensures targets == Reweighted(ts, seq(|ts|, _ => 1))
  {
    targets := ts;
    for i := 0 to |targets|
      invariant |targets| == |ts|
      invariant forall k :: 0 <= k < |ts| ==> targets[k] == if k < i then ts[k].(weight := 1) else ts[k]
    {
      targets := targets[i := targets[i].(weight := 1)];
    }
  }

  method SplitHundred(a: Arithmetic, ts: seq<Target>) returns (targets: seq<Target>)
    requires !AllZero(WeightsOf(ts))
    ensures targets == Reweighted(ts, Shares(a, WeightsOf(ts)))
  {
    targets := ts;
    var totalWeight := 0;
    ghost var ws := WeightsOf(ts);
    for i := 0 to |targets|
      invariant totalWeight == Sum(ws[..i])
    {
      assert ws[..i + 1] == ws[..i] + [ws[i]];
      SumAppend(ws[..i], ws[i]);
      totalWeight := totalWeight + targets[i].weight;
    }
    assert ws[..|ws|] == ws;
    var addedWeight := 0;
    ghost var ss := Shares(a, ws);
    for i := 0 to |targets|
      invariant |targets| == |ts|
      invariant i < |ts| ==> addedWeight == Sum(Truncated(a, ws, totalWeight, i))
      invariant forall k :: 0 <= k < |ts| ==> targets[k] == if k < i then ts[k].(weight := ss[k]) else ts[k]
    {
      if i == |targets| - 1 {
        targets := targets[i := targets[i].(weight := 100 - addedWeight)];
        break;
      }
      targets := targets[i := targets[i].(weight := a.share(targets[i].weight, totalWeight))];
      assert Truncated(a, ws, totalWeight, i + 1) == Truncated(a, ws, totalWeight, i) + [targets[i].weight];
      SumAppend(Truncated(a, ws, totalWeight, i), targets[i].weight);
      addedWeight := addedWeight + targets[i].weight;
    }
  }

  // ----- fairness -----

  predicate Splittable(ws: seq<int>) {
    (forall i :: 0 <= i < |ws| ==> ws[i] >= 0) && !AllZero(ws)
  }

  lemma {:induction false} SumBounds(ws: seq<int>)
    requires forall i :: 0 <= i < |ws| ==> ws[i] >= 0
    ensures forall i :: 0 <= i < |ws| ==> ws[i] <= Sum(ws)
    ensures Sum(ws) >= 0
    ensures !AllZero(ws) ==> Sum(ws) > 0
  {
    if ws != [] {
      SumBounds(ws[1..]);
      assert forall i :: 1 <= i < |ws| ==> ws[i] == ws[1..][i - 1];
    }
  }

  lemma ShareBounds(a: Arithmetic, w: int, total: int)
    requires Float64(a) && 0 <= w <= total && total > 0
    ensures
      var s := a.share(w, total);
      && 0 <= s <= 100
      && s * total <= 100 * w <= s * total + total
      && (w == 0 ==> s == 0) && (w == total ==> s == 100)
  {
    var s, e := a.share(w, total), 100 * w / total;
    assert ShareValue(w, total, s);
    DivisionBounds(100 * w, total);
    Distribute(e, -1, total);
    CancelFactor(e, 101, total);
    if w == total {
      CancelFactor(99, e, total);
    }
  }

  predicate Within(ws: seq<int>, total: int) {
    total > 0 && forall i :: 0 <= i < |ws| ==> 0 <= ws[i] <= total
  }

  lemma {:induction false} PrefixShares(a: Arithmetic, ws: seq<int>, total: int, m: nat)
    requires Float64(a) && Within(ws, total) && m <= |ws|
    ensures
      var s := Sum(Truncated(a, ws, total, m));
      s * total <= 100 * Sum(ws[..m]) <= (s + m) * total
    decreases m
  {
    if m > 0 {
      var w, x, t := ws[m - 1], a.share(ws[m - 1], total), Truncated(a, ws, total, m - 1);
      PrefixShares(a, ws, total, m - 1);
      assert Truncated(a, ws, total, m) == t + [x];
      SumAppend(t, x);
      assert ws[..m] == ws[..m - 1] + [w];
      SumAppend(ws[..m - 1], w);
      ShareBounds(a, w, total);
      Distribute(Sum(t), x, total);
      Distribute(Sum(t) + m - 1, x + 1, total);
      Distribute(x, 1, total);
    }
  }

  // s percent of the total is the fair share of weight w, short of it by at most one percent.
  predicate FairShare(s: int, w: int, total: int) {
    0 <= s <= 100 && s * total <= 100 * w <= s * total + total
  }

  // s percent covers the fair share of weight w, and exceeds it by at most m percent.
  predicate CoversShare(s: int, w: int, total: int, m: int) {
    0 <= s <= 100 && 100 * w <= s * total <= 100 * w + m * total
  }

  // Percentages sum to 100, and the last, which takes what truncation leaves, covers its fair
  // share and exceeds it by at most the number of the other targets.
  lemma FairSplit(a: Arithmetic, ws: seq<int>)
    requires Float64(a) && Splittable(ws)
    ensures Sum(Shares(a, ws)) == 100
    ensures CoversShare(Shares(a, ws)[|ws| - 1], ws[|ws| - 1], Sum(ws), |ws| - 1)
  {
    SharesShape(a, ws);
    SumBounds(ws);
    LastCovers(a, ws, Sum(ws), Shares(a, ws)[|ws| - 1]);
  }

  // Every other target is at most one percent below its fair share.
  lemma FairOthers(a: Arithmetic, ws: seq<int>)
    requires Float64(a) && Splittable(ws)
    ensures forall i :: 0 <= i < |ws| - 1 ==> FairShare(Shares(a, ws)[i], ws[i], Sum(ws))
  {
    SharesShape(a, ws);
    SumBounds(ws);
    InitShares(a, ws, Sum(ws), |ws| - 1);
  }

  lemma SharesShape(a: Arithmetic, ws: seq<int>)
    requires !AllZero(ws)
    ensures
      var init := Truncated(a, ws, Sum(ws), |ws| - 1);
      Shares(a, ws) == init + [100 - Sum(init)] && Sum(Shares(a, ws)) == 100
  {
    var init := Truncated(a, ws, Sum(ws), |ws| - 1);
    SumAppend(init, 100 - Sum(init));
  }

  lemma LastCovers(a: Arithmetic, ws: seq<int>, total: int, s: int)
    requires Float64(a) && ws != [] && Within(ws, total) && total == Sum(ws)
    requires s == 100 - Sum(Truncated(a, ws, total, |ws| - 1))
    ensures CoversShare(s, ws[|ws| - 1], total, |ws| - 1)
  {
    var n := |ws|;
    InitShares(a, ws, total, n - 1);
    SumBounds(Truncated(a, ws, total, n - 1));
    PrefixShares(a, ws, total, n - 1);
    LastWeight(ws);
    LastShare(Sum(Truncated(a, ws, total, n - 1)), total, n - 1, ws[n - 1]);
  }

  lemma LastWeight(ws: seq<int>)
    requires ws != []
    ensures Sum(ws) == Sum(ws[..|ws| - 1]) + ws[|ws| - 1]
  {
    assert ws == ws[..|ws| - 1] + [ws[|ws| - 1]];
    SumAppend(ws[..|ws| - 1], ws[|ws| - 1]);
  }

  lemma InitShares(a: Arithmetic, ws: seq<int>, total: int, m: nat)
    requires Float64(a) && Within(ws, total) && m <= |ws|
    ensures forall i :: 0 <= i < m ==> FairShare(Truncated(a, ws, total, m)[i], ws[i], total)
  {
    forall i | 0 <= i < m ensures FairShare(Truncated(a, ws, total, m)[i], ws[i], total) {
      ShareBounds(a, ws[i], total);
    }
  }

  lemma LastShare(s: int, total: int, m: int, w: int)
    requires total > 0 && 0 <= w && s * total <= 100 * (total - w) <= (s + m) * total
    ensures s <= 100 && 100 * w <= (100 - s) * total <= 100 * w + m * total
  {
    Distribute(100, -s, total);
    Distribute(s, m, total);
    CancelFactor(s, 101, total);
  }

  // ----- one revision on -----

  // When exactly one weight is positive and the rest are zero, it gets everything.
  lemma OneOnTakesAll(a: Arithmetic, ws: seq<int>, p: nat)
    requires Float64(a) && p < |ws| && ws[p] > 0
    requires forall i :: 0 <= i < |ws| && i != p ==> ws[i] == 0
    ensures forall i :: 0 <= i < |ws| ==> Shares(a, ws)[i] == if i == p then 100 else 0
  {
    var ss, n := Shares(a, ws), |ws|;
    SingleSum(ws, p);
    forall i | 0 <= i < n - 1 ensures ss[i] == if i == p then 100 else 0 {
      ShareBounds(a, ws[i], Sum(ws));
    }
    var init := Truncated(a, ws, Sum(ws), n - 1);
    assert forall i :: 0 <= i < n - 1 ==> init[i] == ss[i];
    if p < n - 1 {
      SingleSum(init, p);
    } else {
      ZeroSum(init);
    }
  }

  lemma {:induction false} ZeroSum(xs: seq<int>)
    requires AllZero(xs)
    ensures Sum(xs) == 0
  {
    if xs != [] {
      ZeroSum(xs[1..]);
    }
  }

  lemma {:induction false} SingleSum(xs: seq<int>, p: nat)
    requires p < |xs| && forall i :: 0 <= i < |xs| && i != p ==> xs[i] == 0
    ensures Sum(xs) == xs[p]
  {
    if p == 0 {
      ZeroSum(xs[1..]);
    } else {
      SingleSum(xs[1..], p - 1);
    }
  }

  // ----- what truncation loses goes to the last target -----

  // What the first m targets lose against their fair shares, in hundredths of the total.
  function Lost(a: Arithmetic, ws: seq<int>, total: int, m: nat): (ls: seq<int>)
    requires m <= |ws|
    ensures |ls| == m
  {
    seq(m, i requires 0 <= i < m => 100 * ws[i] - a.share(ws[i], total) * total)
  }

  // Each target loses between nothing and one percent.
  predicate SmallLosses(ls: seq<int>, total: int) {
    forall i :: 0 <= i < |ls| ==> 0 <= ls[i] <= total
  }

  // The last target gets its fair share plus exactly what the others lose.
  lemma LastTakesTheLosses(a: Arithmetic, ws: seq<int>)
    requires Float64(a) && Splittable(ws)
    ensures
      var total, m := Sum(ws), |ws| - 1;
      && Shares(a, ws)[m] * total == 100 * ws[m] + Sum(Lost(a, ws, total, m))
      && SmallLosses(Lost(a, ws, total, m), total)
  {
    SharesShape(a, ws);
    SumBounds(ws);
    LastPlusLost(a, ws, Sum(ws), Shares(a, ws)[|ws| - 1]);
    LossesAreSmall(a, ws, Sum(ws), |ws| - 1);
  }

  lemma LossesAreSmall(a: Arithmetic, ws: seq<int>, total: int, m: nat)
    requires Float64(a) && Within(ws, total) && m <= |ws|
    ensures SmallLosses(Lost(a, ws, total, m), total)
  {
    forall i | 0 <= i < m ensures 0 <= Lost(a, ws, total, m)[i] <= total {
      ShareBounds(a, ws[i], total);
    }
  }

  lemma LastPlusLost(a: Arithmetic, ws: seq<int>, total: int, s: int)
    requires ws != [] && total == Sum(ws)
    requires s == 100 - Sum(Truncated(a, ws, total, |ws| - 1))
    ensures s * total == 100 * ws[|ws| - 1] + Sum(Lost(a, ws, total, |ws| - 1))
  {
    LastWeight(ws);
    LostToTruncation(a, ws, total, |ws| - 1);
    Distribute(100, -Sum(Truncated(a, ws, total, |ws| - 1)), total);
  }

  lemma {:induction false} LostToTruncation(a: Arithmetic, ws: seq<int>, total: int, m: nat)
    requires m <= |ws|
    ensures Sum(Truncated(a, ws, total, m)) * total + Sum(Lost(a, ws, total, m)) == 100 * Sum(ws[..m])
    decreases m
  {
    if m > 0 {
      var w, x := ws[m - 1], a.share(ws[m - 1], total);
      LostToTruncation(a, ws, total, m - 1);
      var t, l := Truncated(a, ws, total, m - 1), Lost(a, ws, total, m - 1);
      assert Truncated(a, ws, total, m) == t + [x];
      assert Lost(a, ws, total, m) == l + [100 * w - x * total];
      SumAppend(t, x);
      SumAppend(l, 100 * w - x * total);
      assert ws[..m] == ws[..m - 1] + [w];
      SumAppend(ws[..m - 1], w);
      Distribute(Sum(t), x, total);
    }
  }

  // The share of a target is exact: no percent is lost to truncation.
  predicate ExactShare(a: Arithmetic, w: int, total: int) {
    a.share(w, total) * total == 100 * w
  }

  // So a last target of weight zero gets no traffic exactly when no other target loses any.
  lemma LastOffExactly(a: Arithmetic, ws: seq<int>)
    requires Float64(a) && Splittable(ws) && ws[|ws| - 1] == 0
    ensures Shares(a, ws)[|ws| - 1] == 0
            <==> forall i :: 0 <= i < |ws| - 1 ==> ExactShare(a, ws[i], Sum(ws))
  {
    var total, m := Sum(ws), |ws| - 1;
    var ls := Lost(a, ws, total, m);
    LastTakesTheLosses(a, ws);
    SumBounds(ws);
    SumBounds(ls);
    if AllZero(ls) {
      ZeroSum(ls);
    }
    assert AllZero(ls) <==> forall i :: 0 <= i < m ==> ExactShare(a, ws[i], total) by {
      assert forall i :: 0 <= i < m ==> (ls[i] == 0 <==> ExactShare(a, ws[i], total));
    }
    ZeroProduct(Shares(a, ws)[m], total);
  }

  // A target of weight zero, in any position, gets no traffic exactly when some target has weight and
  // it is not the one that collects what the others lose.
  lemma OffExactly(a: Arithmetic, ws: seq<int>, i: nat)
    requires Float64(a) && i < |ws| && ws[i] == 0 && forall j :: 0 <= j < |ws| ==> ws[j] >= 0
    ensures Shares(a, ws)[i] == 0
            <==> && !AllZero(ws)
                 && (i < |ws| - 1 || forall j :: 0 <= j < |ws| - 1 ==> ExactShare(a, ws[j], Sum(ws)))
  {
    if !AllZero(ws) {
      if i == |ws| - 1 {
        LastOffExactly(a, ws);
      } else {
        SumBounds(ws);
        SharesShape(a, ws);
        ShareBounds(a, ws[i], Sum(ws));
      }
    }
  }

  // An app all of whose revisions are off serves them all.
  lemma AllOffServed(a: Arithmetic)
    ensures Shares(a, [0, 0]) == [1, 1]
  {
    assert AllZero([0, 0]);
  }

  lemma ZeroProduct(x: int, k: int)
    requires k > 0
    ensures x * k == 0 <==> x == 0
  {
  }

  // An exact share is a whole percent; nothing and everything always are exact, and in exact
  // arithmetic every whole percent is.
  lemma WhenSharesAreExact(a: Arithmetic, w: int, total: int)
    requires Float64(a) && 0 <= w <= total && total > 0
    ensures ExactShare(a, w, total) ==> 100 * w % total == 0
    ensures w == 0 || w == total ==> ExactShare(a, w, total)
    ensures ExactShare(EXACT, w, total) <==> 100 * w % total == 0
  {
    ShareBounds(a, w, total);
    DivisionBounds(100 * w, total);
    if ExactShare(a, w, total) {
      WholeMultiple(a.share(w, total), total, 100 * w);
    }
  }

  lemma WholeMultiple(x: int, k: int, y: int)
    requires k > 0 && x * k == y
    ensures y % k == 0
  {
    DivisionBounds(y, k);
    Distribute(x, -(y / k), k);
    CancelFactor(x - y / k, 1, k);
    CancelFactor(-1, x - y / k, k);
  }

  // Whole percents are necessary in every arithmetic and sufficient in exact arithmetic.
  lemma LastOffNeedsWholePercents(a: Arithmetic, ws: seq<int>)
    requires Float64(a) && Splittable(ws) && ws[|ws| - 1] == 0 && Sum(ws) > 0
    ensures Shares(a, ws)[|ws| - 1] == 0 ==> forall i :: 0 <= i < |ws| - 1 ==> 100 * ws[i] % Sum(ws) == 0
    ensures (forall i :: 0 <= i < |ws| - 1 ==> 100 * ws[i] % Sum(ws) == 0) ==> Shares(EXACT, ws)[|ws| - 1] == 0
  {
    SumBounds(ws);
    ExactIsFloat64();
    LastOffExactly(a, ws);
    LastOffExactly(EXACT, ws);
    forall i | 0 <= i < |ws| - 1
      ensures ExactShare(a, ws[i], Sum(ws)) ==> 100 * ws[i] % Sum(ws) == 0
      ensures 100 * ws[i] % Sum(ws) == 0 ==> ExactShare(EXACT, ws[i], Sum(ws))
    {
      WhenSharesAreExact(a, ws[i], Sum(ws));
    }
  }

  // ----- revisions that are off and served -----

  // Three equal revisions and one that is off: 1% of the traffic still goes to the last.
  lemma OffRevisionServed()
    ensures Shares(EXACT, [1, 1, 1, 0]) == [33, 33, 33, 1]
  {
    var ws := [1, 1, 1, 0];
    assert ws[1..] == [1, 1, 0] && ws[1..][1..] == [1, 0] && ws[1..][1..][1..] == [0];
    assert Sum(ws) == 3;
    assert ws[0] != 0;
    var t := Truncated(EXACT, ws, 3, 3);
    assert forall i :: 0 <= i < 3 ==> t[i] == 33;
    assert t == [33, 33, 33] && t[1..] == [33, 33] && t[1..][1..] == [33] && t[1..][1..][1..] == [];
    assert Sum(t[1..][1..]) == 33 && Sum(t[1..]) == 66;
  }

  // What float64 makes of 29 out of 100, where 29.0/100.0*100 is just below 29.
  const SHORT := EXACT.(share := (w, n) => if w == 29 && n == 100 then 28 else EXACT.share(w, n))

  // Whole percents alone do not help: 29, 71 and 0 leave the revision that is off 1%.
  lemma OffRevisionServedByRounding()
    ensures Float64(SHORT) && Shares(SHORT, [29, 71, 0]) == [28, 71, 1]
  {
    ExactIsFloat64();
    forall w, n | 0 <= w <= n && n > 0 ensures ShareValue(w, n, SHORT.share(w, n)) {
      assert ShareValue(w, n, EXACT.share(w, n));
    }
    var ws := [29, 71, 0];
    assert ws[1..] == [71, 0] && ws[1..][1..] == [0];
    assert Sum(ws) == 100 && ws[0] != 0;
    var t := Truncated(SHORT, ws, 100, 2);
    assert t[0] == 28 && t[1] == 71;
    assert t == [28, 71] && t[1..] == [71] && t[1..][1..] == [];
    assert Sum(t[1..]) == 71;
  }
}
