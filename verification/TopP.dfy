/** Sampling: top-k, top-p with its threshold pre-filter, and the draw, in real
    arithmetic. */
module TopP {
  /** Weights that follow the logits: positive, and monotone in them. */
  ghost predicate Fits(l: seq<real>, e: seq<real>) {
    && |l| == |e|
    && (forall i :: 0 <= i < |e| ==> e[i] > 0.0)
    && (forall i, j :: 0 <= i < |l| && 0 <= j < |l| && l[i] <= l[j] ==> e[i] <= e[j])
  }

  ghost predicate IdsOf(ids: seq<int>, n: nat) {
    forall i :: 0 <= i < |ids| ==> 0 <= ids[i] < n
  }

  /** (logit descending, id ascending). */
  predicate Before(l: seq<real>, i: int, j: int)
    requires 0 <= i < |l| && 0 <= j < |l|
  {
    l[i] > l[j] || (l[i] == l[j] && i <= j)
  }

  ghost predicate Ordered(l: seq<real>, ids: seq<int>) {
    IdsOf(ids, |l|) && forall i, j :: 0 <= i < j < |ids| ==> Before(l, ids[i], ids[j])
  }

  function Insert(l: seq<real>, x: int, ids: seq<int>): (r: seq<int>)
    requires 0 <= x < |l| && IdsOf(ids, |l|)
    ensures IdsOf(r, |l|) && |r| == |ids| + 1
  {
    if ids == [] || Before(l, x, ids[0]) then [x] + ids else [ids[0]] + Insert(l, x, ids[1..])
  }

  /** Ids sorted, best first. */
  function Sort(l: seq<real>, ids: seq<int>): (r: seq<int>)
    requires IdsOf(ids, |l|)
    ensures IdsOf(r, |l|) && |r| == |ids|
  {
    if ids == [] then [] else Insert(l, ids[0], Sort(l, ids[1..]))
  }

  /** range(n) */
  function Range(n: nat): (r: seq<int>)
    ensures |r| == n && forall i :: 0 <= i < n ==> r[i] == i
  {
    seq(n, i => i)
  }

  /** All ids, best first. */
  function Ranking(l: seq<real>): (r: seq<int>)
    ensures IdsOf(r, |l|) && |r| == |l|
  {
    Sort(l, Range(|l|))
  }

  function Mass(e: seq<real>, ids: seq<int>): real
    requires IdsOf(ids, |e|)
  {
    if ids == [] then 0.0 else e[ids[0]] + Mass(e, ids[1..])
  }

  // ----- sorting -----

  lemma {:induction false} InsertOrders(l: seq<real>, x: int, ids: seq<int>)
    requires 0 <= x < |l| && Ordered(l, ids)
    ensures Ordered(l, Insert(l, x, ids))
    ensures forall y :: y in Insert(l, x, ids) <==> y == x || y in ids
  {
    if !(ids == [] || Before(l, x, ids[0])) {
      InsertOrders(l, x, ids[1..]);
      var r := Insert(l, x, ids[1..]);
      forall k | 0 <= k < |r|
        ensures Before(l, ids[0], r[k])
      {
        assert r[k] in r;
      }
    }
  }

  lemma {:induction false} SortOrders(l: seq<real>, ids: seq<int>)
    requires IdsOf(ids, |l|)
    ensures Ordered(l, Sort(l, ids))
    ensures forall y :: y in Sort(l, ids) <==> y in ids
  {
    if ids != [] {
      SortOrders(l, ids[1..]);
      InsertOrders(l, ids[0], Sort(l, ids[1..]));
    }
  }

  lemma {:induction false} InsertMass(l: seq<real>, e: seq<real>, x: int, ids: seq<int>)
    requires |l| == |e| && 0 <= x < |l| && IdsOf(ids, |l|)
    ensures Mass(e, Insert(l, x, ids)) == e[x] + Mass(e, ids)
  {
    if ids == [] || Before(l, x, ids[0]) {
      assert ([x] + ids)[1..] == ids;
    } else {
      InsertMass(l, e, x, ids[1..]);
      assert Insert(l, x, ids)[1..] == Insert(l, x, ids[1..]);
    }
  }

  lemma {:induction false} SortMass(l: seq<real>, e: seq<real>, ids: seq<int>)
    requires |l| == |e| && IdsOf(ids, |l|)
    ensures Mass(e, Sort(l, ids)) == Mass(e, ids)
  {
    if ids != [] {
      SortMass(l, e, ids[1..]);
      InsertMass(l, e, ids[0], Sort(l, ids[1..]));
    }
  }

  // ----- the threshold -----

  /** The ids whose weight reaches the threshold. */
  function Keep(e: seq<real>, ids: seq<int>, thr: real): (r: seq<int>)
    requires IdsOf(ids, |e|)
    ensures IdsOf(r, |e|) && |r| <= |ids|
  {
    if ids == [] then []
    else if e[ids[0]] >= thr then [ids[0]] + Keep(e, ids[1..], thr) else Keep(e, ids[1..], thr)
  }

  /** n times the threshold, as a sum. */
  function Times(n: nat, thr: real): real {
    if n == 0 then 0.0 else Times(n - 1, thr) + thr
  }

  lemma {:induction false} TimesIsProduct(n: nat, thr: real)
    ensures Times(n, thr) == n as real * thr
  {
    if n > 0 {
      TimesIsProduct(n - 1, thr);
    }
  }

  lemma Quotient(x: real, n: real)
    requires n > 0.0
    ensures n * (x / n) == x && (x >= 0.0 ==> x / n >= 0.0)
  {
  }

  method Divide(x: real, n: nat) returns (thr: real)
    requires n > 0 && x >= 0.0
    ensures thr == x / n as real && thr >= 0.0 && Times(n, thr) == x
  {
    thr := x / n as real;
    Quotient(x, n as real);
    TimesIsProduct(n, thr);
  }

  /** top_p of a mass. */
  function TopShare(tp: real, z: real): real {
    tp * z
  }

  /** A share of a positive mass, and the rest of it. */
  method Share(tp: real, z: real) returns (part: real, rest: real)
    requires 0.0 <= tp < 1.0 && z > 0.0
    ensures part == tp * z && rest == (1.0 - tp) * z
    ensures part + rest == z && part >= 0.0 && rest > 0.0 && (tp > 0.0 ==> part > 0.0)
  {
    part, rest := tp * z, (1.0 - tp) * z;
    assert rest > 0.0;
    assert tp > 0.0 ==> part > 0.0;
  }

  /** What is dropped weighs less than the threshold each. */
  lemma {:induction false} KeptMass(e: seq<real>, ids: seq<int>, thr: real)
    requires IdsOf(ids, |e|) && thr >= 0.0
    ensures Mass(e, Keep(e, ids, thr)) >= Mass(e, ids) - Times(|ids|, thr)
  {
    if ids != [] {
      KeptMass(e, ids[1..], thr);
      var k := Keep(e, ids[1..], thr);
      assert ([ids[0]] + k)[1..] == k;
    }
  }

  lemma {:induction false} KeepOfInsert(l: seq<real>, e: seq<real>, x: int, ids: seq<int>, thr: real)
    requires Fits(l, e) && 0 <= x < |l| && Ordered(l, ids)
    ensures Keep(e, Insert(l, x, ids), thr) ==
            if e[x] >= thr then Insert(l, x, Keep(e, ids, thr)) else Keep(e, ids, thr)
  {
    if ids == [] || Before(l, x, ids[0]) {
      assert ([x] + ids)[1..] == ids;
      KeepFirst(l, e, x, ids, thr);
    } else {
      KeepOfInsert(l, e, x, ids[1..], thr);
      assert Insert(l, x, ids)[1..] == Insert(l, x, ids[1..]);
      assert e[ids[0]] >= e[x];
      var k := Keep(e, ids[1..], thr);
      assert ([ids[0]] + k)[1..] == k;
    }
  }

  /** What comes before every id comes before every kept one. */
  lemma {:induction false} KeepFirst(l: seq<real>, e: seq<real>, x: int, ids: seq<int>, thr: real)
    requires Fits(l, e) && 0 <= x < |l| && IdsOf(ids, |l|)
    requires forall i :: 0 <= i < |ids| ==> Before(l, x, ids[i])
    ensures Insert(l, x, Keep(e, ids, thr)) == [x] + Keep(e, ids, thr)
  {
    if ids != [] && e[ids[0]] < thr {
      KeepFirst(l, e, x, ids[1..], thr);
    }
  }

  /** Keeping and sorting commute. */
  lemma {:induction false} KeepOfSort(l: seq<real>, e: seq<real>, ids: seq<int>, thr: real)
    requires Fits(l, e) && IdsOf(ids, |l|)
    ensures Sort(l, Keep(e, ids, thr)) == Keep(e, Sort(l, ids), thr)
  {
    if ids != [] {
      KeepOfSort(l, e, ids[1..], thr);
      SortOrders(l, ids[1..]);
      KeepOfInsert(l, e, ids[0], Sort(l, ids[1..]), thr);
      var k := Keep(e, ids[1..], thr);
      assert ([ids[0]] + k)[1..] == k;
    }
  }

  /** Of ordered ids the kept ones are the first. */
  lemma {:induction false} KeptIsPrefix(l: seq<real>, e: seq<real>, ids: seq<int>, thr: real)
    requires Fits(l, e) && Ordered(l, ids)
    ensures Keep(e, ids, thr) == ids[..|Keep(e, ids, thr)|]
  {
    if ids != [] {
      KeptIsPrefix(l, e, ids[1..], thr);
      if e[ids[0]] < thr {
        assert forall i :: 0 <= i < |ids| ==> e[ids[i]] <= e[ids[0]];
        NoneKept(e, ids[1..], thr);
      }
    }
  }

  lemma {:induction false} NoneKept(e: seq<real>, ids: seq<int>, thr: real)
    requires IdsOf(ids, |e|) && forall i :: 0 <= i < |ids| ==> e[ids[i]] < thr
    ensures Keep(e, ids, thr) == []
  {
    if ids != [] {
      NoneKept(e, ids[1..], thr);
    }
  }

  // ----- the filter -----

  /** c ids reach the target and fewer do not. */
  ghost predicate Shortest(e: seq<real>, ids: seq<int>, target: real, c: nat) {
    && IdsOf(ids, |e|) && 0 < c <= |ids|
    && Mass(e, ids[..c]) >= target
    && forall d :: 0 <= d < c ==> Mass(e, ids[..d]) < target
  }

  lemma {:induction false} MassSnoc(e: seq<real>, ids: seq<int>, c: nat)
    requires IdsOf(ids, |e|) && c < |ids|
    ensures Mass(e, ids[..c + 1]) == Mass(e, ids[..c]) + e[ids[c]]
  {
    if c == 0 {
      assert ids[..1][1..] == [];
    } else {
      MassSnoc(e, ids[1..], c - 1);
      assert ids[..c + 1][1..] == ids[1..][..c];
      assert ids[..c][1..] == ids[1..][..c - 1];
    }
  }

  /** The cut: the shortest prefix whose mass reaches the target. */
  method Cut(e: seq<real>, ids: seq<int>, target: real) returns (cut: nat, acc: real)
    requires IdsOf(ids, |e|) && 0.0 < target <= Mass(e, ids)
    ensures Shortest(e, ids, target, cut) && acc == Mass(e, ids[..cut])
  {
    acc, cut := 0.0, 0;
    assert ids[..|ids|] == ids;
    while cut < |ids|
      invariant cut <= |ids| && acc == Mass(e, ids[..cut])
      invariant forall d :: 0 <= d <= cut ==> Mass(e, ids[..d]) < target
    {
      MassSnoc(e, ids, cut);
      acc := acc + e[ids[cut]];
      cut := cut + 1;
      if acc >= target {
        return;
      }
    }
    assert false;
  }

  method Sum(e: seq<real>, ids: seq<int>) returns (z: real)
    requires IdsOf(ids, |e|)
    ensures z == Mass(e, ids)
  {
    z := 0.0;
    for i := 0 to |ids|
      invariant z == Mass(e, ids[..i])
    {
      MassSnoc(e, ids, i);
      z := z + e[ids[i]];
    }
    assert ids[..|ids|] == ids;
  }

  lemma {:induction false} MassIsPositive(e: seq<real>, ids: seq<int>)
    requires IdsOf(ids, |e|) && forall i :: 0 <= i < |e| ==> e[i] > 0.0
    ensures Mass(e, ids) >= 0.0 && (ids != [] ==> Mass(e, ids) > 0.0)
  {
    if ids != [] {
      MassIsPositive(e, ids[1..]);
    }
  }

  /** The target, and the threshold whose n-fold is what may be lost. */
  method Targets(tp: real, z: real, n: nat) returns (target: real, thr: real)
    requires 0.0 < tp < 1.0 && z > 0.0 && n > 0
    ensures target == TopShare(tp, z) && 0.0 < target < z
    ensures thr >= 0.0 && Times(n, thr) == z - target
  {
    var x;
    target, x := Share(tp, z);
    thr := Divide(x, n);
  }

  /** The threshold keeps a prefix of the ranking that has the mass asked for. */
  lemma ThresholdKeepsEnough(l: seq<real>, e: seq<real>, thr: real)
    requires Fits(l, e) && thr >= 0.0
    ensures var kept := Sort(l, Keep(e, Range(|l|), thr));
            && kept == Ranking(l)[..|kept|]
            && Mass(e, kept) >= Mass(e, Range(|l|)) - Times(|l|, thr)
  {
    var ids := Range(|l|);
    KeepOfSort(l, e, ids, thr);
    SortOrders(l, ids);
    KeptIsPrefix(l, e, Ranking(l), thr);
    KeptMass(e, ids, thr);
    SortMass(l, e, Keep(e, ids, thr));
  }

  /** The candidates the filter would return if it sorted everything: the
      ranking, cut to top_k ids. */
  function Candidates(l: seq<real>, k: nat): (r: seq<int>)
    ensures IdsOf(r, |l|)
  {
    if 0 < k < |l| then Ranking(l)[..k] else Ranking(l)
  }

  lemma CandidatesMass(l: seq<real>, e: seq<real>, k: nat)
    requires Fits(l, e) && l != []
    ensures Mass(e, Candidates(l, k)) > 0.0
    ensures !(0 < k < |l|) ==> Mass(e, Candidates(l, k)) == Mass(e, Range(|l|))
  {
    MassIsPositive(e, Candidates(l, k));
    SortMass(l, e, Range(|l|));
  }

  /** _filter, from the sorted or unsorted candidates on (l: the logits over the
      temperature; e: their exponentials).  With top-p the result is the
      shortest prefix of the candidates with mass at least top_p of theirs. */
  method Filter(l: seq<real>, e: seq<real>, k: nat, tp: real) returns (ids: seq<int>, z: real, ghost target: real)
    requires Fits(l, e) && l != []
    ensures IdsOf(ids, |l|) && ids != [] && z == Mass(e, ids) && z > 0.0
    ensures target == TopShare(tp, Mass(e, Candidates(l, k)))
    ensures 0.0 < tp < 1.0 ==>
              && |ids| <= |Candidates(l, k)| && ids == Candidates(l, k)[..|ids|]
              && Shortest(e, Candidates(l, k), target, |ids|)
    ensures !(0.0 < tp < 1.0) ==> ids == if 0 < k < |l| then Candidates(l, k) else Range(|l|)
  {
    assert |e| == |l|;
    hide Fits, Shortest, Mass, Ranking, TopShare;
    var n := |l|;
    var sorted := 0 < k < n;
    ids := if sorted then Ranking(l)[..k] else Range(n);
    z := Sum(e, ids);
    CandidatesMass(l, e, k);
    target := TopShare(tp, z);
    if 0.0 < tp < 1.0 {
      var thr;
      var goal;
      goal, thr := Targets(tp, z, n);
      ids, z := Nucleus(l, e, k, sorted, ids, z, goal, thr);
      target := goal;
    }
  }

  /** Its top-p part. */
  method Nucleus(l: seq<real>, e: seq<real>, k: nat, sorted: bool, ids0: seq<int>, z0: real, target: real, thr: real)
    returns (ids: seq<int>, z: real)
    requires Fits(l, e) && l != [] && sorted == (0 < k < |l|)
    requires ids0 == if sorted then Candidates(l, k) else Range(|l|)
    requires z0 == Mass(e, ids0) && 0.0 < target < z0
    requires thr >= 0.0 && Times(|l|, thr) == z0 - target
    ensures |ids| <= |Candidates(l, k)| && ids == Candidates(l, k)[..|ids|]
    ensures Shortest(e, Candidates(l, k), target, |ids|)
    ensures z == Mass(e, ids) && z > 0.0
  {
    var kept := ids0;
    if !sorted {
      ThresholdKeepsEnough(l, e, thr);
      kept := Sort(l, Keep(e, ids0, thr));
      var s := Sum(e, kept);
      if s < target {
        assert false;                         // the full sort the source falls back to is never needed
      }
    }
    assert kept == Candidates(l, k)[..|kept|];
    var cut;
    cut, z := Cut(e, kept, target);
    ids := kept[..cut];
    PrefixIsShortest(e, Candidates(l, k), |kept|, target, cut);
  }

  lemma PrefixIsShortest(e: seq<real>, all: seq<int>, m: nat, target: real, c: nat)
    requires m <= |all| && IdsOf(all, |e|) && Shortest(e, all[..m], target, c)
    ensures Shortest(e, all, target, c) && all[..m][..c] == all[..c]
  {
    assert all[..m][..c] == all[..c];
    forall d | 0 <= d < c
      ensures Mass(e, all[..d]) < target
    {
      assert all[..m][..d] == all[..d];
    }
  }

  /** The greedy choice: the first of the largest logits is the ranking's head. */
  lemma GreedyIsFirst(l: seq<real>, i: nat)
    requires i < |l|
    requires forall j :: 0 <= j < |l| ==> l[j] <= l[i]
    requires forall j :: 0 <= j < i ==> l[j] < l[i]
    ensures Ranking(l)[0] == i
  {
    SortOrders(l, Range(|l|));
    var r := Ranking(l);
    assert Range(|l|)[i] == i;
    assert i in Range(|l|) && i in r;
    var k :| 0 <= k < |r| && r[k] == i;
    assert k > 0 ==> Before(l, r[0], r[k]);
  }

  // ----- the draw -----

  /** t is the id whose stretch of the mass `target` falls into. */
  ghost predicate FallsInto(e: seq<real>, ids: seq<int>, target: real, j: nat, t: int)
    requires IdsOf(ids, |e|)
  {
    j < |ids| && t == ids[j] && Mass(e, ids[..j]) <= target < Mass(e, ids[..j + 1])
  }

  /** The cumulative draw: it always returns inside its loop, with the id whose
      stretch of the mass the draw falls into. */
  method Draw(e: seq<real>, ids: seq<int>, z: real, u: real) returns (t: int)
    requires IdsOf(ids, |e|) && z == Mass(e, ids) && z > 0.0 && 0.0 <= u < 1.0
    ensures exists j: nat :: FallsInto(e, ids, TopShare(u, z), j, t)
  {
    var target, rest := Share(u, z);
    assert ids[..|ids|] == ids;
    var acc := 0.0;
    for i := 0 to |ids|
      invariant acc == Mass(e, ids[..i]) && acc <= target
    {
      MassSnoc(e, ids, i);
      acc := acc + e[ids[i]];
      if acc > target {
        var j: nat := i;
        assert FallsInto(e, ids, TopShare(u, z), j, ids[i]);
        return ids[i];
      }
    }
    assert false;
  }
}
