/** The DRY penalty: what would go on repeating the history, and for how long. */
module Dry {
  /** Ids a match may hold: in the vocabulary and no sequence breaker. */
  predicate Matchable(n: nat, breakers: set<int>, t: int) {
    0 <= t < n && t !in breakers
  }

  /** The L tokens up to position i are the last L of the history, and matchable. */
  ghost predicate Repeats(hist: seq<int>, n: nat, breakers: set<int>, i: nat, L: nat)
    requires i < |hist|
  {
    && L <= i + 1
    && hist[i + 1 - L..i + 1] == hist[|hist| - L..]
    && forall k :: |hist| - L <= k < |hist| ==> 0 <= hist[k] < n && hist[k] !in breakers
  }

  /** The inner loop: how far the match at i goes back, at most to maxMatch. */
  function MatchLength(hist: seq<int>, n: nat, breakers: set<int>, maxMatch: nat, i: nat, ln: nat): (L: nat)
    requires i < |hist| && ln <= i + 1
    ensures ln <= L <= i + 1
    decreases i + 1 - ln
  {
    if && ln < maxMatch && ln <= i && hist[i - ln] == hist[|hist| - 1 - ln]
       && Matchable(n, breakers, hist[|hist| - 1 - ln])
    then MatchLength(hist, n, breakers, maxMatch, i, ln + 1)
    else ln
  }

  lemma RepeatsMore(hist: seq<int>, n: nat, breakers: set<int>, i: nat, L: nat)
    requires i < |hist| && L < i + 1
    ensures Repeats(hist, n, breakers, i, L + 1) <==>
            && Repeats(hist, n, breakers, i, L)
            && hist[i - L] == hist[|hist| - 1 - L] && Matchable(n, breakers, hist[|hist| - 1 - L])
  {
    var a, b := hist[i - L..i + 1], hist[|hist| - L - 1..];
    assert a == [hist[i - L]] + hist[i + 1 - L..i + 1];
    assert b == [hist[|hist| - 1 - L]] + hist[|hist| - L..];
    assert a[1..] == hist[i + 1 - L..i + 1] && b[1..] == hist[|hist| - L..];
  }

  /** It is the longest common suffix with the history, cut at maxMatch. */
  lemma {:induction false} MatchLengthIsLongest(hist: seq<int>, n: nat, breakers: set<int>, maxMatch: nat, i: nat,
                                                ln: nat)
    requires i < |hist| && ln <= i + 1 && ln <= maxMatch && Repeats(hist, n, breakers, i, ln)
    ensures var L := MatchLength(hist, n, breakers, maxMatch, i, ln);
            && L <= maxMatch && Repeats(hist, n, breakers, i, L)
            && forall M: nat :: L < M <= maxMatch ==> !Repeats(hist, n, breakers, i, M)
    decreases i + 1 - ln
  {
    if ln < i + 1 {
      RepeatsMore(hist, n, breakers, i, ln);
    }
    if MatchLength(hist, n, breakers, maxMatch, i, ln) != ln {
      MatchLengthIsLongest(hist, n, breakers, maxMatch, i, ln + 1);
    } else {
      forall M: nat | ln < M <= maxMatch
        ensures !Repeats(hist, n, breakers, i, M)
      {
        if Repeats(hist, n, breakers, i, M) {
          ShorterRepeats(hist, n, breakers, i, M, ln + 1);
        }
      }
    }
  }

  lemma {:induction false} ShorterRepeats(hist: seq<int>, n: nat, breakers: set<int>, i: nat, M: nat, L: nat)
    requires i < |hist| && Repeats(hist, n, breakers, i, M) && L <= M
    ensures Repeats(hist, n, breakers, i, L)
    decreases M
  {
    if L < M {
      RepeatsMore(hist, n, breakers, i, M - 1);
      ShorterRepeats(hist, n, breakers, i, M - 1, L);
    }
  }

  /** Position i repeats the last token and t follows it. */
  predicate Precedes(hist: seq<int>, n: nat, breakers: set<int>, i: nat, t: int)
    requires i < |hist| - 1
  {
    hist[i] == hist[|hist| - 1] && hist[i + 1] == t && Matchable(n, breakers, t)
  }

  /** The longest match that t would continue, over the positions before k (0: none). */
  function BestBefore(hist: seq<int>, n: nat, breakers: set<int>, maxMatch: nat, t: int, k: nat): (L: nat)
    requires k < |hist|
  {
    if k == 0 then 0
    else
      var b := BestBefore(hist, n, breakers, maxMatch, t, k - 1);
      if !Precedes(hist, n, breakers, k - 1, t) then b
      else
        var L := MatchLength(hist, n, breakers, maxMatch, k - 1, 1);
        if L > b then L else b
  }

  function Best(hist: seq<int>, n: nat, breakers: set<int>, maxMatch: nat, t: int): nat
    requires hist != []
  {
    BestBefore(hist, n, breakers, maxMatch, t, |hist| - 1)
  }

  /** t would repeat L tokens: at some earlier position t followed the last L tokens. */
  ghost predicate Continues(hist: seq<int>, n: nat, breakers: set<int>, t: int, L: nat) {
    && 0 <= t < n && t !in breakers
    && exists i: nat :: i < |hist| - 1 && hist[i] == hist[|hist| - 1] && hist[i + 1] == t
                        && Repeats(hist, n, breakers, i, L)
  }

  lemma RepeatsOne(hist: seq<int>, n: nat, breakers: set<int>, i: nat)
    requires i < |hist| && hist[i] == hist[|hist| - 1] && Matchable(n, breakers, hist[|hist| - 1])
    ensures Repeats(hist, n, breakers, i, 1)
  {
    assert hist[i..i + 1] == [hist[i]] && hist[|hist| - 1..] == [hist[|hist| - 1]];
  }

  lemma {:induction false} BestBeforeIs(hist: seq<int>, n: nat, breakers: set<int>, maxMatch: nat, t: int, k: nat)
    requires k < |hist| && maxMatch >= 1 && Matchable(n, breakers, hist[|hist| - 1])
    ensures var b := BestBefore(hist, n, breakers, maxMatch, t, k);
            && b <= maxMatch && (b > 0 ==> Continues(hist, n, breakers, t, b))
            && forall i: nat, M: nat ::
                 i < k && M <= maxMatch && Precedes(hist, n, breakers, i, t) && Repeats(hist, n, breakers, i, M) ==>
                   M <= b
  {
    hide Repeats, MatchLength;
    if k > 0 {
      BestBeforeIs(hist, n, breakers, maxMatch, t, k - 1);
      if Precedes(hist, n, breakers, k - 1, t) {
        RepeatsOne(hist, n, breakers, k - 1);
        MatchLengthIsLongest(hist, n, breakers, maxMatch, k - 1, 1);
      }
    }
  }

  /** The recorded length: the most tokens, up to maxMatch, that t would repeat. */
  lemma BestIsTheMost(hist: seq<int>, n: nat, breakers: set<int>, maxMatch: nat, t: int)
    requires hist != [] && maxMatch >= 1 && Matchable(n, breakers, hist[|hist| - 1])
    ensures var b := Best(hist, n, breakers, maxMatch, t);
            && b <= maxMatch && (b > 0 ==> Continues(hist, n, breakers, t, b))
            && forall M: nat :: b < M <= maxMatch ==> !Continues(hist, n, breakers, t, M)
  {
    BestBeforeIs(hist, n, breakers, maxMatch, t, |hist| - 1);
  }

  function Pow(b: real, k: nat): real {
    if k == 0 then 1.0 else b * Pow(b, k - 1)
  }

  datatype Params = Params(multiplier: real, base: real, allowedLength: int, maxMatch: int)

  function MaxMatch(p: Params): nat {
    if p.maxMatch > 0 then p.maxMatch else 50
  }

  function Allowed(p: Params): nat {
    if p.allowedLength > 0 then p.allowedLength else 1
  }

  function Penalty(p: Params, L: nat): real {
    if L >= Allowed(p) then p.multiplier * Pow(p.base, L - Allowed(p)) else 0.0
  }

  /** The penalty does nothing: it is off, or the history ends in no matchable token. */
  predicate Idle(hist: seq<int>, n: nat, breakers: set<int>, p: Params) {
    !(p.multiplier > 0.0) || |hist| < 2 || !Matchable(n, breakers, hist[|hist| - 1])
  }

  /** The penalty: none below the allowed length, the multiplier at it, and `base` times as much for each token
      more; 0 for a limit or a length that is not set stands for 50 and 1. */
  lemma PenaltyGrows(p: Params, L: nat)
    ensures var allowed := if p.allowedLength > 0 then p.allowedLength else 1;
            && (L < allowed ==> Penalty(p, L) == 0.0)
            && (L == allowed ==> Penalty(p, L) == p.multiplier)
            && (L >= allowed ==> Penalty(p, L + 1) == p.base * Penalty(p, L))
    ensures MaxMatch(p) == if p.maxMatch > 0 then p.maxMatch else 50
  {
    if L >= Allowed(p) {
      var x := Pow(p.base, L - Allowed(p));
      assert Pow(p.base, L + 1 - Allowed(p)) == p.base * x;
      assert p.multiplier * (p.base * x) == p.base * (p.multiplier * x);
    }
  }

  /** When it does nothing, it is off or no token would repeat anything. */
  lemma IdleIsRight(hist: seq<int>, n: nat, breakers: set<int>, p: Params)
    requires Idle(hist, n, breakers, p) && p.multiplier > 0.0
    ensures forall t, L: nat :: L > 0 ==> !Continues(hist, n, breakers, t, L)
  {
    forall t, L: nat | L > 0
      ensures !Continues(hist, n, breakers, t, L)
    {
      if Continues(hist, n, breakers, t, L) {
        RepeatsLast(hist, n, breakers, t, L);
      }
    }
  }

  lemma RepeatsLast(hist: seq<int>, n: nat, breakers: set<int>, t: int, L: nat)
    requires L > 0 && Continues(hist, n, breakers, t, L)
    ensures |hist| >= 2 && Matchable(n, breakers, hist[|hist| - 1])
  {
  }

  /** The dictionary `ml` after the positions before k, with its first-seen order. */
  ghost predicate Records(ml: map<int, nat>, order: seq<int>, hist: seq<int>, n: nat, breakers: set<int>,
                          maxMatch: nat, k: nat)
    requires k < |hist|
  {
    && (forall t :: t in ml <==> t in order)
    && (forall i, j :: 0 <= i < j < |order| ==> order[i] != order[j])
    && (forall t :: t in ml ==> 0 <= t < n && ml[t] > 0)
    && (forall t :: BestBefore(hist, n, breakers, maxMatch, t, k) == if t in ml then ml[t] else 0)
  }

  /** _dry, in place on the logits: every token loses exactly the penalty of
      the most tokens it would repeat. */
  method Apply(l: array<real>, hist: seq<int>, breakers: set<int>, p: Params)
    modifies l
    ensures Idle(hist, l.Length, breakers, p) ==> l[..] == old(l[..])
    ensures !Idle(hist, l.Length, breakers, p) ==>
              forall t :: 0 <= t < l.Length ==>
                l[t] == old(l[t]) - Penalty(p, Best(hist, l.Length, breakers, MaxMatch(p), t))
  {
    var n := l.Length;
    if Idle(hist, n, breakers, p) {
      return;
    }
    var ml, order := Lengths(hist, n, breakers, MaxMatch(p));
    ghost var before := l[..];
    for j := 0 to |order|
      invariant forall t :: 0 <= t < n ==>
                  l[t] == if t in order[..j] then before[t] - Penalty(p, Best(hist, n, breakers, MaxMatch(p), t))
                          else before[t]
    {
      var t := order[j];
      assert t in order && order[..j + 1] == order[..j] + [t];
      assert t !in order[..j];
      if ml[t] >= Allowed(p) {
        l[t] := l[t] - p.multiplier * Pow(p.base, ml[t] - Allowed(p));
      }
    }
    assert order[..|order|] == order;
  }

  /** The lengths, recorded position by position. */
  method Lengths(hist: seq<int>, n: nat, breakers: set<int>, maxMatch: nat) returns (ml: map<int, nat>, order: seq<int>)
    requires |hist| >= 2 && Matchable(n, breakers, hist[|hist| - 1])
    ensures Records(ml, order, hist, n, breakers, maxMatch, |hist| - 1)
  {
    ml, order := map[], [];
    for i := 0 to |hist| - 1
      invariant Records(ml, order, hist, n, breakers, maxMatch, i)
    {
      var nx := hist[i + 1];
      if hist[i] == hist[|hist| - 1] && Matchable(n, breakers, nx) {
        var ln := Measure(hist, n, breakers, maxMatch, i);
        if ln > (if nx in ml then ml[nx] else 0) {
          if nx !in ml {
            order := order + [nx];
          }
          ml := ml[nx := ln];
        }
      }
    }
  }

  method Measure(hist: seq<int>, n: nat, breakers: set<int>, maxMatch: nat, i: nat) returns (ln: nat)
    requires i < |hist|
    ensures ln == MatchLength(hist, n, breakers, maxMatch, i, 1)
  {
    ln := 1;
    while ln < maxMatch
      invariant ln <= i + 1
      invariant MatchLength(hist, n, breakers, maxMatch, i, ln) == MatchLength(hist, n, breakers, maxMatch, i, 1)
    {
      if i < ln {
        break;
      }
      var prev := hist[|hist| - 1 - ln];
      if hist[i - ln] != prev || !Matchable(n, breakers, prev) {
        break;
      }
      ln := ln + 1;
    }
  }
}
