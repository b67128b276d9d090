/** Byte-pair merging of one word: the rescan and the heap of `_BPE._merge`,
    both against one reference, "merge the leftmost adjacent pair of lowest
    rank until no pair merges". */
module BpeMerge {
  import opened Wrappers

  /** What a merge rule gives: its rank and the id of the merged token. */
  datatype Rule = Rule(rank: nat, id: int)

  /** The merge table: a pair of ids to its rule. */
  type Merges = map<(int, int), Rule>

  /** The rescan compares ranks with this value. */
  const NO_RANK: nat := 0x4000_0000_0000_0000

  /** Words up to this many symbols take the rescan. */
  const NAIVE: nat := 24

  /** One rank per rule, and no rank that the rescan would overlook. */
  ghost predicate Ranked(ms: Merges) {
    && (forall p, q :: p in ms && q in ms && ms[p].rank == ms[q].rank ==> p == q)
    && (forall p :: p in ms ==> ms[p].rank < NO_RANK)
  }

  /** A merged token is as long as its two halves together, and no token is empty. */
  ghost predicate Graded(ms: Merges, length: int -> int) {
    && (forall i :: length(i) > 0)
    && (forall p :: p in ms ==> length(ms[p].id) == length(p.0) + length(p.1))
  }

  /** Every rule that uses a merged token ranks after the rule that makes it. */
  ghost predicate Layered(ms: Merges) {
    forall p, q :: p in ms && q in ms && (q.0 == ms[p].id || q.1 == ms[p].id) ==> ms[p].rank < ms[q].rank
  }

  // ----- the reference -----

  predicate MergesAt(ms: Merges, w: seq<int>, p: int) {
    0 <= p && p + 1 < |w| && (w[p], w[p + 1]) in ms
  }

  function RuleAt(ms: Merges, w: seq<int>, p: int): Rule
    requires MergesAt(ms, w, p)
  {
    ms[(w[p], w[p + 1])]
  }

  function MergeAt(ms: Merges, w: seq<int>, p: int): seq<int>
    requires MergesAt(ms, w, p)
  {
    w[..p] + [RuleAt(ms, w, p).id] + w[p + 2..]
  }

  /** The leftmost pair of lowest rank. */
  ghost predicate IsBest(ms: Merges, w: seq<int>, p: int) {
    && MergesAt(ms, w, p)
    && forall q :: MergesAt(ms, w, q) ==>
         || RuleAt(ms, w, p).rank < RuleAt(ms, w, q).rank
         || (RuleAt(ms, w, p).rank == RuleAt(ms, w, q).rank && p <= q)
  }

  /** The best pair that starts before position k, or -1. */
  function BestBefore(ms: Merges, w: seq<int>, k: nat): (p: int)
    requires k <= |w|
    ensures p >= 0 ==> p < k && MergesAt(ms, w, p)
    ensures forall q :: q < k && MergesAt(ms, w, q) ==>
              p >= 0 && (|| RuleAt(ms, w, p).rank < RuleAt(ms, w, q).rank
                         || (RuleAt(ms, w, p).rank == RuleAt(ms, w, q).rank && p <= q))
  {
    if k == 0 then -1
    else
      var p := BestBefore(ms, w, k - 1);
      if MergesAt(ms, w, k - 1) && (p < 0 || RuleAt(ms, w, k - 1).rank < RuleAt(ms, w, p).rank) then k - 1 else p
  }

  function Best(ms: Merges, w: seq<int>): (p: int)
    ensures p >= 0 ==> IsBest(ms, w, p)
    ensures p < 0 ==> forall q :: !MergesAt(ms, w, q)
  {
    BestBefore(ms, w, |w|)
  }

  /** Merge the leftmost pair of lowest rank until none is left. */
  function Reference(ms: Merges, w: seq<int>): seq<int>
    decreases |w|
  {
    var p := Best(ms, w);
    if p < 0 then w else Reference(ms, MergeAt(ms, w, p))
  }

  lemma BestIsUnique(ms: Merges, w: seq<int>, p: int)
    requires IsBest(ms, w, p)
    ensures Best(ms, w) == p
  {
    assert MergesAt(ms, w, p);
  }

  // ----- the rescan: every occurrence of the best pair in one pass -----

  /** Every occurrence of (a, b), left to right, replaced by c. */
  function ReplaceAll(w: seq<int>, a: int, b: int, c: int): (r: seq<int>)
    ensures |r| <= |w|
    decreases |w|
  {
    if w == [] then []
    else if |w| > 1 && w[0] == a && w[1] == b then [c] + ReplaceAll(w[2..], a, b, c)
    else [w[0]] + ReplaceAll(w[1..], a, b, c)
  }

  function Pass(ms: Merges, w: seq<int>, p: int): (r: seq<int>)
    requires MergesAt(ms, w, p)
    ensures |r| < |w|
  {
    w[..p] + ([RuleAt(ms, w, p).id] + ReplaceAll(w[p + 2..], w[p], w[p + 1], RuleAt(ms, w, p).id))
  }

  function Rescanned(ms: Merges, w: seq<int>): seq<int>
    decreases |w|
  {
    var p := Best(ms, w);
    if p < 0 then w else Rescanned(ms, Pass(ms, w, p))
  }

  /** Between two merges of one pass: nothing in `done + rest` ranks before
      (a, b), and no (a, b) starts in `done`. */
  ghost predicate MidPass(ms: Merges, done: seq<int>, rest: seq<int>, a: int, b: int) {
    && (a, b) in ms
    && forall q :: MergesAt(ms, done + rest, q) ==>
         && ms[(a, b)].rank <= RuleAt(ms, done + rest, q).rank
         && (q < |done| ==> ((done + rest)[q], (done + rest)[q + 1]) != (a, b))
  }

  /** One more occurrence merged: the reference takes the same step. */
  lemma MidPassMerge(ms: Merges, done: seq<int>, rest: seq<int>, a: int, b: int)
    requires Ranked(ms) && Layered(ms) && MidPass(ms, done, rest, a, b)
    requires |rest| > 1 && rest[0] == a && rest[1] == b
    ensures var c := ms[(a, b)].id;
            && Reference(ms, done + rest) == Reference(ms, (done + [c]) + rest[2..])
            && MidPass(ms, done + [c], rest[2..], a, b)
  {
    var w, c, p := done + rest, ms[(a, b)].id, |done|;
    assert w[p] == a && w[p + 1] == b;
    assert IsBest(ms, w, p) by {
      forall q | MergesAt(ms, w, q)
        ensures || RuleAt(ms, w, p).rank < RuleAt(ms, w, q).rank
                || (RuleAt(ms, w, p).rank == RuleAt(ms, w, q).rank && p <= q)
      {}
    }
    BestIsUnique(ms, w, p);
    var v := (done + [c]) + rest[2..];
    assert MergeAt(ms, w, p) == v;
    forall q | MergesAt(ms, v, q)
      ensures ms[(a, b)].rank <= RuleAt(ms, v, q).rank && (q < |done| + 1 ==> (v[q], v[q + 1]) != (a, b))
    {
      if q + 1 < p {
        assert v[q] == w[q] && v[q + 1] == w[q + 1];
        assert MergesAt(ms, w, q);
      } else if q > p {
        assert v[q] == w[q + 1] && v[q + 1] == w[q + 2];
        assert MergesAt(ms, w, q + 1);
      } else {
        assert v[q] == c || v[q + 1] == c;
        assert (a, b) in ms && (v[q], v[q + 1]) in ms;
      }
    }
  }

  /** A symbol that does not start an occurrence is passed over. */
  lemma MidPassSkip(ms: Merges, done: seq<int>, rest: seq<int>, a: int, b: int)
    requires MidPass(ms, done, rest, a, b)
    requires rest != [] && !(|rest| > 1 && rest[0] == a && rest[1] == b)
    ensures (done + [rest[0]]) + rest[1..] == done + rest
    ensures MidPass(ms, done + [rest[0]], rest[1..], a, b)
  {
    assert (done + [rest[0]]) + rest[1..] == done + rest;
  }

  lemma ReplaceAllStep(done: seq<int>, rest: seq<int>, a: int, b: int, c: int)
    requires rest != []
    ensures done + ReplaceAll(rest, a, b, c) ==
            if |rest| > 1 && rest[0] == a && rest[1] == b
            then (done + [c]) + ReplaceAll(rest[2..], a, b, c)
            else (done + [rest[0]]) + ReplaceAll(rest[1..], a, b, c)
  {
  }

  /** The rest of a pass is a run of the reference. */
  lemma {:induction false} PassIsReference(ms: Merges, done: seq<int>, rest: seq<int>, a: int, b: int)
    requires Ranked(ms) && Layered(ms) && MidPass(ms, done, rest, a, b)
    ensures Reference(ms, done + rest) == Reference(ms, done + ReplaceAll(rest, a, b, ms[(a, b)].id))
    decreases |rest|
  {
    var c := ms[(a, b)].id;
    if rest != [] {
      ReplaceAllStep(done, rest, a, b, c);
      if |rest| > 1 && rest[0] == a && rest[1] == b {
        MidPassMerge(ms, done, rest, a, b);
        PassIsReference(ms, done + [c], rest[2..], a, b);
      } else {
        MidPassSkip(ms, done, rest, a, b);
        PassIsReference(ms, done + [rest[0]], rest[1..], a, b);
      }
    }
  }

  /** With a layered table the rescan gives the reference's ids. */
  lemma {:induction false} RescanIsReference(ms: Merges, w: seq<int>)
    requires Ranked(ms) && Layered(ms)
    ensures Rescanned(ms, w) == Reference(ms, w)
    decreases |w|
  {
    var p := Best(ms, w);
    if p >= 0 {
      var a, b := w[p], w[p + 1];
      assert w[..p] + w[p..] == w;
      assert MidPass(ms, w[..p], w[p..], a, b) by {
        forall q | MergesAt(ms, w, q)
          ensures ms[(a, b)].rank <= RuleAt(ms, w, q).rank && (q < p ==> (w[q], w[q + 1]) != (a, b))
        {}
      }
      PassIsReference(ms, w[..p], w[p..], a, b);
      assert w[p..][2..] == w[p + 2..];
      assert w[..p] + ReplaceAll(w[p..], a, b, ms[(a, b)].id) == Pass(ms, w, p);
      RescanIsReference(ms, Pass(ms, w, p));
    }
  }

  const UNLAYERED: Merges := map[(3, 1) := Rule(0, 4), (1, 2) := Rule(1, 3)]

  /** Without the rank order the two differ: on `a b a b` (ids 1 2 1 2), where
      (ab, a) -> aba ranks before (a, b) -> ab, the rescan stops at `ab ab` and
      the reference at `aba b`. */
  lemma UnlayeredRescan()
    ensures Ranked(UNLAYERED) && !Layered(UNLAYERED)
    ensures Rescanned(UNLAYERED, [1, 2, 1, 2]) == [3, 3]
  {
    assert (1, 2) in UNLAYERED && (3, 1) in UNLAYERED;
    var w := [1, 2, 1, 2];
    assert MergesAt(UNLAYERED, w, 0);
    BestIsUnique(UNLAYERED, w, 0);
    assert w[2..] == [1, 2];
    assert Pass(UNLAYERED, w, 0) == [3, 3];
    assert Best(UNLAYERED, [3, 3]) < 0;
  }

  lemma UnlayeredReference()
    ensures Reference(UNLAYERED, [1, 2, 1, 2]) == [4, 2]
  {
    var w, v := [1, 2, 1, 2], [3, 1, 2];
    assert MergesAt(UNLAYERED, w, 0);
    BestIsUnique(UNLAYERED, w, 0);
    assert MergeAt(UNLAYERED, w, 0) == v;
    assert MergesAt(UNLAYERED, v, 0);
    BestIsUnique(UNLAYERED, v, 0);
    assert MergeAt(UNLAYERED, v, 0) == [4, 2];
    assert Best(UNLAYERED, [4, 2]) < 0;
  }

  /** One pass of the loop for short words: every occurrence of the pair at
      `best`, from there on. */
  method RescanPass(ms: Merges, sym: seq<int>, best: int) returns (out: seq<int>)
    requires MergesAt(ms, sym, best)
    ensures out == Pass(ms, sym, best)
  {
    var a, b, c := sym[best], sym[best + 1], RuleAt(ms, sym, best).id;
    out := sym[..best];
    var p := best;
    while p < |sym|
      invariant best <= p <= |sym|
      invariant out + ReplaceAll(sym[p..], a, b, c) == sym[..best] + ReplaceAll(sym[best..], a, b, c)
    {
      ReplaceAllStep(out, sym[p..], a, b, c);
      if p < |sym| - 1 && sym[p] == a && sym[p + 1] == b {
        assert sym[p..][2..] == sym[p + 2..];
        out, p := out + [c], p + 2;
      } else {
        assert sym[p..][1..] == sym[p + 1..];
        out, p := out + [sym[p]], p + 1;
      }
    }
    assert sym[best..][2..] == sym[best + 2..];
  }

  /** The inner scan for the best pair. */
  method FindBest(ms: Merges, w: seq<int>) returns (best: int)
    requires Ranked(ms) && |w| > 1
    ensures best == Best(ms, w)
  {
    best := -1;
    var bestRank := NO_RANK;
    for p := 0 to |w| - 1
      invariant best == BestBefore(ms, w, p)
      invariant bestRank == if best < 0 then NO_RANK else RuleAt(ms, w, best).rank
    {
      if (w[p], w[p + 1]) in ms && ms[(w[p], w[p + 1])].rank < bestRank {
        best, bestRank := p, ms[(w[p], w[p + 1])].rank;
      }
    }
    assert BestBefore(ms, w, |w|) == BestBefore(ms, w, |w| - 1);
  }

  /** The loop for short words. */
  method Rescan(ms: Merges, w: seq<int>) returns (r: seq<int>)
    requires Ranked(ms)
    ensures r == Rescanned(ms, w)
  {
    r := w;
    while |r| > 1
      invariant Rescanned(ms, r) == Rescanned(ms, w)
      decreases |r|
    {
      hide Ranked, Best, Pass;
      var best := FindBest(ms, r);
      if best < 0 {
        return;
      }
      r := RescanPass(ms, r, best);
    }
  }

  // ----- the heap over a doubly linked list, for longer words -----

  /** A candidate merge: the pair that starts at `pos`, with its rule when it was pushed. */
  datatype Entry = Entry(rank: nat, pos: nat, id: int)

  /** The order of Python's tuples. */
  predicate Before(e: Entry, f: Entry) {
    || e.rank < f.rank
    || (e.rank == f.rank && e.pos < f.pos)
    || (e.rank == f.rank && e.pos == f.pos && e.id <= f.id)
  }

  /** The entry of a pair, if it merges. */
  function Candidate(ms: Merges, a: int, b: int, pos: nat): seq<Entry> {
    if (a, b) in ms then [Entry(ms[(a, b)].rank, pos, ms[(a, b)].id)] else []
  }

  function Unlink(at: seq<nat>, j: nat): seq<nat>
    requires j + 1 < |at|
  {
    at[..j + 1] + at[j + 2..]
  }

  /** The entries a merge at pair j pushes. */
  function Pushed(ms: Merges, v: seq<int>, at: seq<nat>, j: nat): seq<Entry>
    requires |v| == |at| && j < |at|
  {
    (if j > 0 then Candidate(ms, v[j - 1], v[j], at[j - 1]) else []) +
    (if j + 1 < |at| then Candidate(ms, v[j], v[j + 1], at[j]) else [])
  }

  // ----- the heap loop on values -----

  /** What the heap loop works on: the word on the list, the positions of its
      symbols, and the heap. */
  datatype Heaped = Heaped(w: seq<int>, at: seq<nat>, heap: seq<Entry>)

  ghost predicate Increasing(at: seq<nat>) {
    forall i, k :: 0 <= i < k < |at| ==> at[i] < at[k]
  }

  /** The place of the least entry among the first k. */
  function LeastOf(heap: seq<Entry>, k: nat): (i: nat)
    requires 0 < k <= |heap|
    ensures i < k && forall m :: 0 <= m < k ==> Before(heap[i], heap[m])
  {
    if k == 1 then 0
    else
      var i := LeastOf(heap, k - 1);
      if Before(heap[i], heap[k - 1]) then i else k - 1
  }

  function Least(heap: seq<Entry>): (e: Entry)
    requires heap != []
    ensures e in heap && forall f :: f in heap ==> Before(e, f)
  {
    heap[LeastOf(heap, |heap|)]
  }

  function Popped(heap: seq<Entry>): (rest: seq<Entry>)
    requires heap != []
    ensures |rest| == |heap| - 1
  {
    var i := LeastOf(heap, |heap|);
    heap[..i] + heap[i + 1..]
  }

  lemma PoppedAre(heap: seq<Entry>, f: Entry)
    requires heap != []
    ensures f in Popped(heap) ==> f in heap
    ensures f in heap ==> f == Least(heap) || f in Popped(heap)
  {
    var i := LeastOf(heap, |heap|);
    if f in heap {
      var k :| 0 <= k < |heap| && heap[k] == f;
      if k < i {
        assert Popped(heap)[k] == f;
      } else if k > i {
        assert Popped(heap)[k - 1] == f;
      }
    }
  }

  /** Which symbol stands at a position; |at| when none does. */
  function Slot(at: seq<nat>, pos: nat): (j: nat)
    ensures j <= |at| && (j < |at| ==> at[j] == pos)
    ensures forall i :: 0 <= i < j ==> at[i] != pos
  {
    if at == [] || at[0] == pos then 0 else 1 + Slot(at[1..], pos)
  }

  /** One turn: the least entry is taken off, and its pair merged when the pair
      at its position still makes the entry's token. */
  function Turn(ms: Merges, s: Heaped): (t: Heaped)
    requires |s.w| == |s.at| && s.heap != []
    ensures |t.w| == |t.at| && 3 * |t.w| + |t.heap| < 3 * |s.w| + |s.heap|
  {
    var e, rest, j := Least(s.heap), Popped(s.heap), Slot(s.at, Least(s.heap).pos);
    if MergesAt(ms, s.w, j) && RuleAt(ms, s.w, j).id == e.id then
      var v, b := MergeAt(ms, s.w, j), Unlink(s.at, j);
      Heaped(v, b, rest + Pushed(ms, v, b, j))
    else Heaped(s.w, s.at, rest)
  }

  /** Turns until the heap is empty. */
  function HeapRun(ms: Merges, s: Heaped): seq<int>
    requires |s.w| == |s.at|
    decreases 3 * |s.w| + |s.heap|
  {
    if s.heap == [] then s.w else HeapRun(ms, Turn(ms, s))
  }

  /** The heap's first entries, for the pairs that start before position k. */
  function FirstEntries(ms: Merges, w: seq<int>, k: nat): seq<Entry>
    requires k < |w|
  {
    if k == 0 then [] else FirstEntries(ms, w, k - 1) + Candidate(ms, w[k - 1], w[k], k - 1)
  }

  function FirstPositions(n: nat): (at: seq<nat>)
    ensures |at| == n && forall i :: 0 <= i < n ==> at[i] == i
  {
    seq(n, i => i)
  }

  /** Before the first turn. */
  function FirstState(ms: Merges, w: seq<int>): (s: Heaped)
    ensures |s.w| == |s.at| && s.w == w
  {
    Heaped(w, FirstPositions(|w|), if w == [] then [] else FirstEntries(ms, w, |w| - 1))
  }

  /** What the branch for long words returns. */
  function HeapMerged(ms: Merges, w: seq<int>): seq<int> {
    HeapRun(ms, FirstState(ms, w))
  }

  // ----- why it is the reference -----

  /** Every pair that merges has its entry. */
  ghost predicate Complete(ms: Merges, w: seq<int>, at: seq<nat>, heap: seq<Entry>)
    requires |w| == |at|
  {
    forall j :: MergesAt(ms, w, j) ==> Entry(RuleAt(ms, w, j).rank, at[j], RuleAt(ms, w, j).id) in heap
  }

  /** An entry is current, or the pair at its position has outgrown the token it would make. */
  ghost predicate CurrentOrOutgrown(ms: Merges, length: int -> int, w: seq<int>, at: seq<nat>, e: Entry)
    requires |w| == |at|
  {
    forall j :: 0 <= j && j + 1 < |w| && at[j] == e.pos ==>
      || (MergesAt(ms, w, j) && RuleAt(ms, w, j) == Rule(e.rank, e.id))
      || length(w[j]) + length(w[j + 1]) > length(e.id)
  }

  ghost predicate Timely(ms: Merges, length: int -> int, w: seq<int>, at: seq<nat>, heap: seq<Entry>)
    requires |w| == |at|
  {
    forall e :: e in heap ==> CurrentOrOutgrown(ms, length, w, at, e)
  }

  /** Between two turns: every pair that merges has its entry, and no entry is misleading. */
  ghost predicate Ready(ms: Merges, length: int -> int, s: Heaped) {
    && |s.w| == |s.at| && Increasing(s.at)
    && Complete(ms, s.w, s.at, s.heap) && Timely(ms, length, s.w, s.at, s.heap)
  }

  /** A popped entry whose token is the one the pair at its position makes now
      is the reference's next merge. */
  lemma PoppedIsBest(ms: Merges, length: int -> int, w: seq<int>, at: seq<nat>, heap: seq<Entry>, e: Entry, j: int)
    requires Graded(ms, length) && |w| == |at|
    requires Increasing(at)
    requires Complete(ms, w, at, heap) && CurrentOrOutgrown(ms, length, w, at, e)
    requires forall f :: f in heap ==> Before(e, f)
    requires MergesAt(ms, w, j) && at[j] == e.pos && RuleAt(ms, w, j).id == e.id
    ensures RuleAt(ms, w, j) == Rule(e.rank, e.id) && IsBest(ms, w, j)
  {
    assert (w[j], w[j + 1]) in ms;
    forall q | MergesAt(ms, w, q)
      ensures || RuleAt(ms, w, j).rank < RuleAt(ms, w, q).rank
              || (RuleAt(ms, w, j).rank == RuleAt(ms, w, q).rank && j <= q)
    {
      assert Before(e, Entry(RuleAt(ms, w, q).rank, at[q], RuleAt(ms, w, q).id));
    }
  }

  /** When an entry is not current the word does not merge there by it, and it
      may be dropped. */
  lemma StaleMayGo(ms: Merges, w: seq<int>, at: seq<nat>, heap: seq<Entry>, rest: seq<Entry>, e: Entry)
    requires |w| == |at| && Complete(ms, w, at, heap)
    requires forall f :: f in heap ==> f == e || f in rest
    requires forall j :: MergesAt(ms, w, j) && at[j] == e.pos ==> RuleAt(ms, w, j).id != e.id
    ensures Complete(ms, w, at, rest)
  {
  }

  /** The entries that a merge at pair j must add: the pairs it made. */
  ghost predicate Refreshed(ms: Merges, v: seq<int>, at: seq<nat>, j: nat, heap: seq<Entry>)
    requires |v| == |at|
  {
    forall i :: MergesAt(ms, v, i) && (i == j - 1 || i == j) ==>
      Entry(RuleAt(ms, v, i).rank, at[i], RuleAt(ms, v, i).id) in heap
  }

  lemma MergeKeepsComplete(ms: Merges, w: seq<int>, at: seq<nat>, heap: seq<Entry>, e: Entry, j: nat, heap': seq<Entry>)
    requires |w| == |at| && Complete(ms, w, at, heap)
    requires Increasing(at)
    requires MergesAt(ms, w, j) && at[j] == e.pos
    requires forall f :: f in heap ==> f == e || f in heap'
    requires Refreshed(ms, MergeAt(ms, w, j), Unlink(at, j), j, heap')
    ensures Complete(ms, MergeAt(ms, w, j), Unlink(at, j), heap')
  {
    var v, b := MergeAt(ms, w, j), Unlink(at, j);
    forall i | MergesAt(ms, v, i)
      ensures Entry(RuleAt(ms, v, i).rank, b[i], RuleAt(ms, v, i).id) in heap'
    {
      var o := if i < j then i else i + 1;
      if i != j - 1 && i != j {
        assert v[i] == w[o] && v[i + 1] == w[o + 1] && b[i] == at[o];
        assert MergesAt(ms, w, o);
      }
    }
  }

  lemma NoEmptyToken(ms: Merges, length: int -> int, i: int)
    requires Graded(ms, length)
    ensures length(i) > 0
  {
  }

  lemma MergeKeepsTimely(ms: Merges, length: int -> int, w: seq<int>, at: seq<nat>, e: Entry, j: nat)
    requires Graded(ms, length) && |w| == |at|
    requires Increasing(at)
    requires MergesAt(ms, w, j) && CurrentOrOutgrown(ms, length, w, at, e)
    ensures CurrentOrOutgrown(ms, length, MergeAt(ms, w, j), Unlink(at, j), e)
  {
    var v, b := MergeAt(ms, w, j), Unlink(at, j);
    assert length(v[j]) == length(w[j]) + length(w[j + 1]) by { assert (w[j], w[j + 1]) in ms; }
    forall i | 0 <= i && i + 1 < |v| && b[i] == e.pos
      ensures || (MergesAt(ms, v, i) && RuleAt(ms, v, i) == Rule(e.rank, e.id))
              || length(v[i]) + length(v[i + 1]) > length(e.id)
    {
      var o := if i <= j then i else i + 1;
      assert b[i] == at[o];
      if i == j {
        NoEmptyToken(ms, length, v[i + 1]);
        assert MergesAt(ms, w, o) && RuleAt(ms, w, o) == Rule(e.rank, e.id) ==> length(v[j]) == length(e.id);
      } else if i + 1 == j {
        assert v[i] == w[o] && v[j] == RuleAt(ms, w, j).id;
        assert MergesAt(ms, w, o) ==> length(RuleAt(ms, w, o).id) == length(w[o]) + length(w[j]) by {
          if MergesAt(ms, w, o) { assert (w[o], w[j]) in ms; }
        }
        NoEmptyToken(ms, length, w[j + 1]);
      } else {
        assert v[i] == w[o] && v[i + 1] == w[o + 1];
      }
    }
  }

  lemma NewIsTimely(ms: Merges, length: int -> int, v: seq<int>, at: seq<nat>, i: nat)
    requires |v| == |at| && MergesAt(ms, v, i)
    requires Increasing(at)
    ensures CurrentOrOutgrown(ms, length, v, at, Entry(RuleAt(ms, v, i).rank, at[i], RuleAt(ms, v, i).id))
  {
  }

  lemma PushedRefreshes(ms: Merges, v: seq<int>, at: seq<nat>, j: nat, rest: seq<Entry>)
    requires |v| == |at| && j < |at|
    ensures Refreshed(ms, v, at, j, rest + Pushed(ms, v, at, j))
  {
    forall i | MergesAt(ms, v, i) && (i == j - 1 || i == j)
      ensures Entry(RuleAt(ms, v, i).rank, at[i], RuleAt(ms, v, i).id) in Pushed(ms, v, at, j)
    {
      assert Entry(RuleAt(ms, v, i).rank, at[i], RuleAt(ms, v, i).id) in Candidate(ms, v[i], v[i + 1], at[i]);
    }
  }

  lemma PushedIsTimely(ms: Merges, length: int -> int, v: seq<int>, at: seq<nat>, j: nat, f: Entry)
    requires |v| == |at| && j < |at|
    requires Increasing(at)
    requires f in Pushed(ms, v, at, j)
    ensures f.pos in at && CurrentOrOutgrown(ms, length, v, at, f)
  {
    if j > 0 && f in Candidate(ms, v[j - 1], v[j], at[j - 1]) {
      NewIsTimely(ms, length, v, at, j - 1);
    } else {
      NewIsTimely(ms, length, v, at, j);
    }
  }

  lemma UnlinkedIncrease(at: seq<nat>, j: nat)
    requires Increasing(at) && j + 1 < |at|
    ensures Increasing(Unlink(at, j))
  {
  }

  /** A current entry's merge keeps the heap ready. */
  lemma TakeCurrent(ms: Merges, length: int -> int, w: seq<int>, at: seq<nat>, heap: seq<Entry>, j: nat)
    requires Graded(ms, length) && Ready(ms, length, Heaped(w, at, heap)) && heap != []
    requires MergesAt(ms, w, j) && at[j] == Least(heap).pos
    ensures var v, b := MergeAt(ms, w, j), Unlink(at, j);
            Ready(ms, length, Heaped(v, b, Popped(heap) + Pushed(ms, v, b, j)))
  {
    var v, b, rest := MergeAt(ms, w, j), Unlink(at, j), Popped(heap);
    UnlinkedIncrease(at, j);
    PushedRefreshes(ms, v, b, j, rest);
    forall f | f in heap ensures f == Least(heap) || f in rest + Pushed(ms, v, b, j) {
      PoppedAre(heap, f);
    }
    MergeKeepsComplete(ms, w, at, heap, Least(heap), j, rest + Pushed(ms, v, b, j));
    forall f | f in rest + Pushed(ms, v, b, j)
      ensures CurrentOrOutgrown(ms, length, v, b, f)
    {
      PoppedAre(heap, f);
      if f in rest {
        MergeKeepsTimely(ms, length, w, at, f, j);
      } else {
        PushedIsTimely(ms, length, v, b, j, f);
      }
    }
  }

  /** An expired entry may be dropped. */
  lemma DropStale(ms: Merges, length: int -> int, w: seq<int>, at: seq<nat>, heap: seq<Entry>)
    requires Ready(ms, length, Heaped(w, at, heap)) && heap != []
    requires forall j :: MergesAt(ms, w, j) && at[j] == Least(heap).pos ==> RuleAt(ms, w, j).id != Least(heap).id
    ensures Ready(ms, length, Heaped(w, at, Popped(heap)))
  {
    forall f: Entry ensures (f in Popped(heap) ==> f in heap) && (f in heap ==> f == Least(heap) || f in Popped(heap)) {
      PoppedAre(heap, f);
    }
    StaleMayGo(ms, w, at, heap, Popped(heap), Least(heap));
  }

  lemma SlotIsOnly(at: seq<nat>, pos: nat, j: nat)
    requires Increasing(at) && j < |at| && at[j] == pos
    ensures Slot(at, pos) == j
  {
  }

  /** A turn takes the reference's next step, or none. */
  lemma TurnIsReference(ms: Merges, length: int -> int, s: Heaped)
    requires Graded(ms, length) && Ready(ms, length, s) && s.heap != []
    ensures Ready(ms, length, Turn(ms, s)) && Reference(ms, Turn(ms, s).w) == Reference(ms, s.w)
  {
    var e, j := Least(s.heap), Slot(s.at, Least(s.heap).pos);
    if MergesAt(ms, s.w, j) && RuleAt(ms, s.w, j).id == e.id {
      PoppedIsBest(ms, length, s.w, s.at, s.heap, e, j);
      BestIsUnique(ms, s.w, j);
      TakeCurrent(ms, length, s.w, s.at, s.heap, j);
    } else {
      forall i | MergesAt(ms, s.w, i) && s.at[i] == e.pos ensures RuleAt(ms, s.w, i).id != e.id {
        SlotIsOnly(s.at, e.pos, i);
      }
      DropStale(ms, length, s.w, s.at, s.heap);
    }
  }

  lemma EmptyHeap(ms: Merges, w: seq<int>, at: seq<nat>)
    requires |w| == |at| && Complete(ms, w, at, [])
    ensures Reference(ms, w) == w
  {
    assert Best(ms, w) < 0;
  }

  lemma {:induction false} RunIsReference(ms: Merges, length: int -> int, s: Heaped)
    requires Graded(ms, length) && Ready(ms, length, s)
    ensures HeapRun(ms, s) == Reference(ms, s.w)
    decreases 3 * |s.w| + |s.heap|
  {
    if s.heap == [] {
      EmptyHeap(ms, s.w, s.at);
    } else {
      TurnIsReference(ms, length, s);
      RunIsReference(ms, length, Turn(ms, s));
    }
  }

  lemma {:induction false} FirstEntriesAre(ms: Merges, length: int -> int, w: seq<int>, k: nat)
    requires k < |w|
    ensures Timely(ms, length, w, FirstPositions(|w|), FirstEntries(ms, w, k))
    ensures forall j :: j < k && MergesAt(ms, w, j) ==>
              Entry(RuleAt(ms, w, j).rank, j, RuleAt(ms, w, j).id) in FirstEntries(ms, w, k)
  {
    if k > 0 {
      FirstEntriesAre(ms, length, w, k - 1);
      hide CurrentOrOutgrown;
      if MergesAt(ms, w, k - 1) {
        NewIsTimely(ms, length, w, FirstPositions(|w|), k - 1);
      }
    }
  }

  /** The branch for long words returns the reference's ids, for every graded table and every word. */
  lemma HeapIsReference(ms: Merges, length: int -> int, w: seq<int>)
    requires Graded(ms, length)
    ensures HeapMerged(ms, w) == Reference(ms, w)
  {
    if w != [] {
      FirstEntriesAre(ms, length, w, |w| - 1);
    }
    RunIsReference(ms, length, FirstState(ms, w));
  }

  /** The word of `UnlayeredRescan` again: the heap loop merges it as the reference does. */
  lemma UnlayeredHeap()
    ensures HeapMerged(UNLAYERED, [1, 2, 1, 2]) == [4, 2]
  {
    var length: int -> int := i => if i == 3 then 2 else if i == 4 then 3 else 1;
    assert Graded(UNLAYERED, length);
    HeapIsReference(UNLAYERED, length, [1, 2, 1, 2]);
    UnlayeredReference();
  }

  // ----- the heap loop in place -----

  /** Positions below n, in order, from 0 on. */
  ghost predicate Positions(at: seq<nat>, n: nat) {
    && |at| >= 1 && at[0] == 0
    && (forall j :: 0 <= j < |at| ==> at[j] < n)
    && (forall i, j :: 0 <= i < j < |at| ==> at[i] < at[j])
  }

  function Succ(at: seq<nat>, n: nat, j: nat): int
    requires j < |at|
  {
    if j + 1 < |at| then at[j + 1] else n
  }

  function Pred(at: seq<nat>, j: nat): int
    requires j < |at|
  {
    if j > 0 then at[j - 1] else -1
  }

  ghost predicate Forward(at: seq<nat>, nxt: seq<int>) {
    && Positions(at, |nxt|)
    && forall j :: 0 <= j < |at| ==> nxt[at[j]] == Succ(at, |nxt|, j)
  }

  ghost predicate Backward(at: seq<nat>, prv: seq<int>) {
    && Positions(at, |prv|)
    && forall j :: 0 <= j < |at| ==> prv[at[j]] == Pred(at, j)
  }

  ghost predicate Marked(at: seq<nat>, alive: seq<bool>) {
    && Positions(at, |alive|)
    && forall p :: 0 <= p < |alive| ==> (alive[p] <==> p in at)
  }

  /** `at` are the live positions in order; nxt, prv and alive say the same. */
  ghost predicate Linked(at: seq<nat>, nxt: seq<int>, prv: seq<int>, alive: seq<bool>) {
    |nxt| == |prv| == |alive| && Forward(at, nxt) && Backward(at, prv) && Marked(at, alive)
  }

  /** The word the list spells. */
  function Spelled(sym: seq<int>, at: seq<nat>): (w: seq<int>)
    requires forall j :: 0 <= j < |at| ==> at[j] < |sym|
    ensures |w| == |at| && forall j :: 0 <= j < |at| ==> w[j] == sym[at[j]]
  {
    seq(|at|, j requires 0 <= j < |at| => sym[at[j]])
  }

  lemma UnlinkPositions(at: seq<nat>, n: nat, j: nat)
    requires Positions(at, n) && j + 1 < |at|
    ensures Positions(Unlink(at, j), n)
    ensures forall i :: 0 <= i < |at| - 1 ==> Unlink(at, j)[i] == at[if i <= j then i else i + 1]
  {
  }

  lemma UnlinkForward(at: seq<nat>, nxt: seq<int>, j: nat)
    requires Forward(at, nxt) && j + 1 < |at|
    ensures Forward(Unlink(at, j), nxt[at[j] := nxt[at[j + 1]]])
  {
    UnlinkPositions(at, |nxt|, j);
    forall i | 0 <= i < |at| - 1
      ensures nxt[at[j] := nxt[at[j + 1]]][Unlink(at, j)[i]] == Succ(Unlink(at, j), |nxt|, i)
    {
      UnlinkForwardAt(at, nxt, j, i);
    }
  }

  lemma UnlinkForwardAt(at: seq<nat>, nxt: seq<int>, j: nat, i: nat)
    requires Forward(at, nxt) && j + 1 < |at| && i < |at| - 1
    ensures Unlink(at, j)[i] < |nxt|
    ensures nxt[at[j] := nxt[at[j + 1]]][Unlink(at, j)[i]] == Succ(Unlink(at, j), |nxt|, i)
  {
    UnlinkPositions(at, |nxt|, j);
    if i == j {
      assert nxt[at[j + 1]] == Succ(at, |nxt|, j + 1);
    } else {
      var o := if i <= j then i else i + 1;
      assert at[o] != at[j] && nxt[at[o]] == Succ(at, |nxt|, o);
    }
  }

  lemma UnlinkBackward(at: seq<nat>, prv: seq<int>, j: nat)
    requires Backward(at, prv) && j + 1 < |at|
    ensures Backward(Unlink(at, j), if j + 2 < |at| then prv[at[j + 2] := at[j]] else prv)
  {
    UnlinkPositions(at, |prv|, j);
    forall i | 0 <= i < |at| - 1
      ensures (if j + 2 < |at| then prv[at[j + 2] := at[j]] else prv)[Unlink(at, j)[i]] == Pred(Unlink(at, j), i)
    {
      UnlinkBackwardAt(at, prv, j, i);
    }
  }

  lemma UnlinkBackwardAt(at: seq<nat>, prv: seq<int>, j: nat, i: nat)
    requires Backward(at, prv) && j + 1 < |at| && i < |at| - 1
    ensures Unlink(at, j)[i] < |prv|
    ensures (if j + 2 < |at| then prv[at[j + 2] := at[j]] else prv)[Unlink(at, j)[i]] == Pred(Unlink(at, j), i)
  {
    UnlinkPositions(at, |prv|, j);
    if i != j + 1 {
      var o := if i <= j then i else i + 1;
      assert j + 2 < |at| ==> at[o] != at[j + 2];
      assert prv[at[o]] == Pred(at, o);
    }
  }

  lemma UnlinkMarked(at: seq<nat>, alive: seq<bool>, j: nat)
    requires Marked(at, alive) && j + 1 < |at|
    ensures Marked(Unlink(at, j), alive[at[j + 1] := false])
  {
    var b, alive' := Unlink(at, j), alive[at[j + 1] := false];
    forall p | 0 <= p < |alive|
      ensures alive'[p] <==> p in b
    {
      if p in at {
        var i :| 0 <= i < |at| && at[i] == p;
        if i <= j {
          assert b[i] == p;
        } else if i > j + 1 {
          assert b[i - 1] == p;
        }
      }
    }
  }

  /** The word after the merge at pair j. */
  lemma UnlinkSpells(ms: Merges, sym: seq<int>, at: seq<nat>, j: nat)
    requires forall i :: 0 <= i < |at| ==> at[i] < |sym|
    requires forall i, k :: 0 <= i < k < |at| ==> at[i] < at[k]
    requires MergesAt(ms, Spelled(sym, at), j)
    ensures var c := RuleAt(ms, Spelled(sym, at), j).id;
            forall i :: 0 <= i < |Unlink(at, j)| ==> Unlink(at, j)[i] < |sym|
    ensures var c := RuleAt(ms, Spelled(sym, at), j).id;
            Spelled(sym[at[j] := c], Unlink(at, j)) == MergeAt(ms, Spelled(sym, at), j)
  {
  }

  /** A live position with a successor is a pair of the word. */
  lemma PairAt(sym: seq<int>, nxt: seq<int>, prv: seq<int>, alive: seq<bool>, at: seq<nat>, p: nat) returns (j: nat)
    requires |sym| == |nxt| && Linked(at, nxt, prv, alive)
    requires p < |alive| && alive[p]
    ensures j < |at| && at[j] == p
    ensures nxt[p] >= |alive| <==> j + 1 == |at|
    ensures j + 1 < |at| ==> nxt[p] == at[j + 1]
  {
    j :| 0 <= j < |at| && at[j] == p;
    assert nxt[at[j]] == Succ(at, |nxt|, j);
  }

  /** Pops the least entry. */
  method PopLeast(heap: seq<Entry>) returns (e: Entry, rest: seq<Entry>)
    requires heap != []
    ensures e == Least(heap) && rest == Popped(heap)
  {
    var least := 0;
    for i := 1 to |heap|
      invariant least == LeastOf(heap, i)
    {
      if !Before(heap[least], heap[i]) {
        least := i;
      }
    }
    e, rest := heap[least], heap[..least] + heap[least + 1..];
  }

  /** The arrays hold the word of s, and the heap points into them. */
  ghost predicate Holds(s: Heaped, sym: seq<int>, nxt: seq<int>, prv: seq<int>, alive: seq<bool>) {
    && |sym| == |nxt| && Linked(s.at, nxt, prv, alive) && s.w == Spelled(sym, s.at)
    && forall e :: e in s.heap ==> e.pos < |sym|
  }

  /** The heap's first entries: every pair of the word that merges. */
  method FirstHeap(ms: Merges, w: seq<int>) returns (heap: seq<Entry>)
    requires w != []
    ensures heap == FirstEntries(ms, w, |w| - 1) && forall e :: e in heap ==> e.pos < |w|
  {
    heap := [];
    for p := 0 to |w| - 1
      invariant heap == FirstEntries(ms, w, p) && forall e :: e in heap ==> e.pos < |w|
    {
      heap := heap + Candidate(ms, w[p], w[p + 1], p);
    }
  }

  lemma FullList(at: seq<nat>, nxt: seq<int>, prv: seq<int>, alive: seq<bool>)
    requires at != [] && at == seq(|at|, i => i) && |nxt| == |prv| == |alive| == |at|
    requires forall i :: 0 <= i < |at| ==> nxt[i] == i + 1 && prv[i] == i - 1 && alive[i]
    ensures Linked(at, nxt, prv, alive)
  {
    assert Positions(at, |at|);
    forall p | 0 <= p < |at|
      ensures p in at
    {
      assert at[p] == p;
    }
  }

  /** The live symbols, in order. */
  function Kept(sym: seq<int>, alive: seq<bool>, k: nat): seq<int>
    requires k <= |sym| == |alive|
  {
    if k == 0 then [] else Kept(sym, alive, k - 1) + (if alive[k - 1] then [sym[k - 1]] else [])
  }

  /** What is left to collect from position k on, when m positions of `at` are below k. */
  lemma {:induction false} KeptIsSpelled(sym: seq<int>, alive: seq<bool>, at: seq<nat>, k: nat) returns (m: nat)
    requires Marked(at, alive) && |sym| == |alive| && k <= |sym|
    ensures m <= |at| && (forall j :: 0 <= j < m ==> at[j] < k) && (forall j :: m <= j < |at| ==> at[j] >= k)
    ensures Kept(sym, alive, k) == Spelled(sym, at)[..m]
  {
    m := 0;
    if k > 0 {
      m := KeptIsSpelled(sym, alive, at, k - 1);
      if alive[k - 1] {
        assert k - 1 in at;
        var j :| 0 <= j < |at| && at[j] == k - 1;
        assert j >= m && at[m] >= k - 1;
        assert Spelled(sym, at)[..m + 1] == Spelled(sym, at)[..m] + [sym[k - 1]];
        m := m + 1;
      } else {
        forall i | m <= i < |at|
          ensures at[i] >= k
        {
          assert at[i] in at;
        }
      }
    }
  }

  method LiveSymbols(sym: array<int>, alive: array<bool>, ghost at: seq<nat>) returns (r: seq<int>)
    requires sym.Length == alive.Length && Marked(at, alive[..])
    ensures r == Spelled(sym[..], at)
  {
    r := [];
    for k := 0 to sym.Length
      invariant r == Kept(sym[..], alive[..], k)
    {
      if alive[k] {
        r := r + [sym[k]];
      }
    }
    ghost var m := KeptIsSpelled(sym[..], alive[..], at, sym.Length);
    assert at[|at| - 1] < sym.Length;
    assert Spelled(sym[..], at)[..|at|] == Spelled(sym[..], at);
  }

  /** The arrays and the heap before the first turn. */
  method Prepare(ms: Merges, w: seq<int>)
    returns (sym: array<int>, nxt: array<int>, prv: array<int>, alive: array<bool>, heap: seq<Entry>)
    requires w != []
    ensures fresh(sym) && fresh(nxt) && fresh(prv) && fresh(alive) && sym != nxt && nxt != prv && sym != prv
    ensures sym.Length == nxt.Length == prv.Length == alive.Length && heap == FirstState(ms, w).heap
    ensures Holds(FirstState(ms, w), sym[..], nxt[..], prv[..], alive[..])
  {
    var n := |w|;
    sym, nxt := new int[n](i requires 0 <= i < n => w[i]), new int[n](i => i + 1);
    prv, alive := new int[n]((i: nat) => i as int - 1), new bool[n](_ => true);
    heap := FirstHeap(ms, w);
    assert sym[..] == w;
    FullList(FirstPositions(n), nxt[..], prv[..], alive[..]);
    FullHolds(FirstState(ms, w), sym[..], nxt[..], prv[..], alive[..]);
  }

  lemma FullHolds(s: Heaped, sym: seq<int>, nxt: seq<int>, prv: seq<int>, alive: seq<bool>)
    requires s.w == sym && |sym| == |nxt| && s.at == FirstPositions(|sym|) && Linked(s.at, nxt, prv, alive)
    requires forall e :: e in s.heap ==> e.pos < |sym|
    ensures Holds(s, sym, nxt, prv, alive)
  {
    hide Linked;
    assert Spelled(sym, s.at) == sym;
  }

  /** The loop for long words. */
  method HeapMerge(ms: Merges, w: seq<int>) returns (r: seq<int>)
    ensures r == HeapMerged(ms, w)
  {
    if w == [] {
      return [];
    }
    hide Holds, Spelled, Marked, FirstState, HeapRun;
    var sym, nxt, prv, alive, heap := Prepare(ms, w);
    ghost var s := HeapLoop(ms, sym, nxt, prv, alive, FirstState(ms, w), heap);
    r := LiveSymbols(sym, alive, s.at);
  }

  /** The heap loop proper: it ends with the word of the run on the list. */
  method HeapLoop(ms: Merges, sym: array<int>, nxt: array<int>, prv: array<int>, alive: array<bool>,
                  ghost s0: Heaped, heap0: seq<Entry>)
    returns (ghost s: Heaped)
    requires sym != nxt && nxt != prv && sym != prv && s0.heap == heap0
    requires sym.Length == nxt.Length == prv.Length == alive.Length
    requires Holds(s0, sym[..], nxt[..], prv[..], alive[..])
    modifies sym, nxt, prv, alive
    ensures Marked(s.at, alive[..]) && Spelled(sym[..], s.at) == HeapRun(ms, s0)
  {
    s := s0;
    var heap := heap0;
    while heap != []
      invariant Holds(s, sym[..], nxt[..], prv[..], alive[..]) && s.heap == heap
      invariant HeapRun(ms, s) == HeapRun(ms, s0)
      decreases 3 * |s.w| + |s.heap|
    {
      s, heap := HeapStep(ms, sym, nxt, prv, alive, s, heap);
    }
  }

  /** One turn of the loop: the least entry, merged if it is current. */
  method HeapStep(ms: Merges, sym: array<int>, nxt: array<int>, prv: array<int>, alive: array<bool>,
                  ghost s: Heaped, heap: seq<Entry>)
    returns (ghost t: Heaped, heap': seq<Entry>)
    requires sym != nxt && nxt != prv && sym != prv && heap != [] && s.heap == heap
    requires sym.Length == nxt.Length == prv.Length == alive.Length
    requires Holds(s, sym[..], nxt[..], prv[..], alive[..])
    modifies sym, nxt, prv, alive
    ensures t == Turn(ms, s) && t.heap == heap' && Holds(t, sym[..], nxt[..], prv[..], alive[..])
    ensures 3 * |t.w| + |t.heap| < 3 * |s.w| + |s.heap|
  {
    var n := sym.Length;
    var e, rest := PopLeast(heap);
    var p := e.pos;
    forall f | f in rest ensures f.pos < n { PoppedAre(heap, f); }
    t, heap' := Heaped(s.w, s.at, rest), rest;
    if !alive[p] || nxt[p] >= n {
      NoPairAt(ms, s, sym[..], nxt[..], prv[..], alive[..], p);
      return;
    }
    ghost var j := PairAt(sym[..], nxt[..], prv[..], alive[..], s.at, p);
    SlotIsOnly(s.at, p, j);
    var q := nxt[p];
    if (sym[p], sym[q]) !in ms || ms[(sym[p], sym[q])].id != e.id {
      return;
    }
    t, heap' := MergeCurrent(ms, sym, nxt, prv, alive, s, heap, rest, e, j);
  }

  /** The turn that merges: the pair at j, the popped entry being current. */
  method MergeCurrent(ms: Merges, sym: array<int>, nxt: array<int>, prv: array<int>, alive: array<bool>,
                      ghost s: Heaped, ghost heap: seq<Entry>, rest: seq<Entry>, e: Entry, ghost j: nat)
    returns (ghost t: Heaped, heap': seq<Entry>)
    requires sym != nxt && nxt != prv && sym != prv && heap != [] && s.heap == heap
    requires e == Least(heap) && rest == Popped(heap) && forall f :: f in rest ==> f.pos < sym.Length
    requires sym.Length == nxt.Length == prv.Length == alive.Length
    requires Holds(s, sym[..], nxt[..], prv[..], alive[..])
    requires j == Slot(s.at, e.pos) && MergesAt(ms, s.w, j) && RuleAt(ms, s.w, j).id == e.id
    modifies sym, nxt, prv, alive
    ensures t == Turn(ms, s) && t.heap == heap' && Holds(t, sym[..], nxt[..], prv[..], alive[..])
  {
    UnlinkSpells(ms, sym[..], s.at, j);
    UnlinkMarked(s.at, alive[..], j);
    UnlinkForward(s.at, nxt[..], j);
    UnlinkBackward(s.at, prv[..], j);
    hide Forward, Backward, Marked, Slot, Least, Popped, Pushed;
    heap' := MergeInPlace(ms, sym, nxt, prv, alive, s.at, e, rest, j);
    t := Turn(ms, s);
    PushedAreInside(ms, t.w, t.at, j, sym.Length);
  }

  lemma NoPairAt(ms: Merges, s: Heaped, sym: seq<int>, nxt: seq<int>, prv: seq<int>, alive: seq<bool>, p: nat)
    requires Holds(s, sym, nxt, prv, alive) && p < |sym| && (!alive[p] || nxt[p] >= |sym|)
    ensures !MergesAt(ms, s.w, Slot(s.at, p))
  {
    var j := Slot(s.at, p);
    assert j < |s.at| ==> s.at[j] in s.at;
  }

  lemma PushedAreInside(ms: Merges, v: seq<int>, at: seq<nat>, j: nat, n: nat)
    requires |v| == |at| && j < |at| && Positions(at, n)
    ensures forall e :: e in Pushed(ms, v, at, j) ==> e.pos < n
  {
  }

  /** What a merge pushes, read off the links. */
  lemma PushedByLinks(ms: Merges, sym: seq<int>, at: seq<nat>, nxt: seq<int>, prv: seq<int>, j: nat)
    requires |sym| == |nxt| == |prv| && Forward(at, nxt) && Backward(at, prv) && j < |at|
    ensures var p := at[j];
            && prv[p] < |sym| && nxt[p] >= 0
            && Pushed(ms, Spelled(sym, at), at, j) ==
               (if prv[p] >= 0 then Candidate(ms, sym[prv[p]], sym[p], prv[p]) else []) +
               (if nxt[p] < |sym| then Candidate(ms, sym[p], sym[nxt[p]], p) else [])
  {
    assert nxt[at[j]] == Succ(at, |sym|, j) && prv[at[j]] == Pred(at, j);
  }

  /** One merge, in place: p takes the token, q leaves the list, the pairs of
      the two new neighbours are pushed. */
  method MergeInPlace(ms: Merges, sym: array<int>, nxt: array<int>, prv: array<int>, alive: array<bool>,
                      ghost at: seq<nat>, e: Entry, rest: seq<Entry>, ghost j: nat) returns (heap: seq<Entry>)
    requires sym != nxt && nxt != prv && sym != prv
    requires sym.Length == nxt.Length == prv.Length == alive.Length
    requires Forward(at, nxt[..]) && Backward(at, prv[..])
    requires j + 1 < |at| && at[j] == e.pos
    modifies sym, nxt, prv, alive
    ensures Positions(Unlink(at, j), sym.Length)
    ensures sym[..] == old(sym[..])[at[j] := e.id]
    ensures nxt[..] == old(nxt[..])[at[j] := old(nxt[..])[at[j + 1]]]
    ensures prv[..] == if j + 2 < |at| then old(prv[..])[at[j + 2] := at[j]] else old(prv[..])
    ensures alive[..] == old(alive[..])[at[j + 1] := false]
    ensures heap == rest + Pushed(ms, Spelled(sym[..], Unlink(at, j)), Unlink(at, j), j)
  {
    var n, p := sym.Length, e.pos;
    UnlinkForward(at, nxt[..], j);
    UnlinkBackward(at, prv[..], j);
    assert nxt[..][at[j]] == Succ(at, n, j) && nxt[..][at[j + 1]] == Succ(at, n, j + 1);
    var q := nxt[p];
    sym[p] := e.id;
    alive[q] := false;
    nxt[p] := nxt[q];
    if nxt[q] < n {
      prv[nxt[q]] := p;
    }
    heap := PushNeighbours(ms, sym, nxt, prv, Unlink(at, j), j, p, rest);
  }

  method PushNeighbours(ms: Merges, sym: array<int>, nxt: array<int>, prv: array<int>, ghost at: seq<nat>,
                        ghost j: nat, p: nat, rest: seq<Entry>) returns (heap: seq<Entry>)
    requires sym.Length == nxt.Length == prv.Length
    requires Forward(at, nxt[..]) && Backward(at, prv[..]) && j < |at| && p == at[j]
    ensures heap == rest + Pushed(ms, Spelled(sym[..], at), at, j)
  {
    PushedByLinks(ms, sym[..], at, nxt[..], prv[..], j);
    var left := if prv[p] >= 0 then Candidate(ms, sym[prv[p]], sym[p], prv[p]) else [];
    var right := if nxt[p] < sym.Length then Candidate(ms, sym[p], sym[nxt[p]], p) else [];
    heap := rest + (left + right);
  }

  // ----- both branches -----

  /** What `_merge` returns: the rescan's word up to NAIVE symbols, the heap's above. */
  function Merged(ms: Merges, sym: seq<int>): seq<int> {
    if |sym| <= NAIVE then Rescanned(ms, sym) else HeapMerged(ms, sym)
  }

  method Merge(ms: Merges, sym: seq<int>) returns (r: seq<int>)
    requires Ranked(ms)
    ensures r == Merged(ms, sym)
    ensures if |sym| <= 24 then r == Rescanned(ms, sym) else r == HeapMerged(ms, sym)
  {
    if |sym| <= NAIVE {
      r := Rescan(ms, sym);
    } else {
      r := HeapMerge(ms, sym);
    }
  }

  /** Crossing NAIVE symbols changes no result. */
  lemma MergedIsReference(ms: Merges, length: int -> int, sym: seq<int>)
    requires Ranked(ms) && Layered(ms) && Graded(ms, length)
    ensures Merged(ms, sym) == Reference(ms, sym)
  {
    RescanIsReference(ms, sym);
    HeapIsReference(ms, length, sym);
  }

  // ----- what a merge keeps: the concatenated token strings -----

  ghost predicate Concatenates<T>(ms: Merges, name: int -> seq<T>) {
    forall p :: p in ms ==> name(ms[p].id) == name(p.0) + name(p.1)
  }

  function Text<T>(name: int -> seq<T>, w: seq<int>): seq<T> {
    if w == [] then [] else name(w[0]) + Text(name, w[1..])
  }

  lemma Regrouped<T>(a: seq<T>, b: seq<T>, c: seq<T>)
    ensures a + (b + c) == (a + b) + c
  {
  }

  lemma {:induction false} TextConcat<T>(name: int -> seq<T>, v: seq<int>, w: seq<int>)
    ensures Text(name, v + w) == Text(name, v) + Text(name, w)
  {
    if v == [] {
      assert v + w == w;
    } else {
      assert (v + w)[0] == v[0] && (v + w)[1..] == v[1..] + w;
      assert Text(name, v + w) == name(v[0]) + Text(name, v[1..] + w);
      assert Text(name, v) == name(v[0]) + Text(name, v[1..]);
      hide Text;
      TextConcat(name, v[1..], w);
      Regrouped(name(v[0]), Text(name, v[1..]), Text(name, w));
    }
  }

  lemma TextPair<T>(ms: Merges, name: int -> seq<T>, a: int, b: int)
    requires Concatenates(ms, name) && (a, b) in ms
    ensures Text(name, [a, b]) == name(ms[(a, b)].id) == Text(name, [ms[(a, b)].id])
  {
    assert [a, b][1..] == [b];
    assert Text(name, [b]) == name(b) + Text(name, []);
  }

  lemma MergeKeepsText<T>(ms: Merges, name: int -> seq<T>, w: seq<int>, p: nat)
    requires Concatenates(ms, name) && MergesAt(ms, w, p)
    ensures Text(name, MergeAt(ms, w, p)) == Text(name, w)
  {
    assert w == w[..p] + ([w[p], w[p + 1]] + w[p + 2..]);
    assert MergeAt(ms, w, p) == w[..p] + ([RuleAt(ms, w, p).id] + w[p + 2..]);
    SpliceKeepsText(ms, name, w[..p], w[p], w[p + 1], w[p + 2..], w[p + 2..]);
  }

  lemma SpliceKeepsText<T>(ms: Merges, name: int -> seq<T>, v: seq<int>, a: int, b: int, x: seq<int>, y: seq<int>)
    requires Concatenates(ms, name) && (a, b) in ms && Text(name, x) == Text(name, y)
    ensures Text(name, v + ([a, b] + x)) == Text(name, v + ([ms[(a, b)].id] + y))
  {
    TextPair(ms, name, a, b);
    TextConcat(name, [a, b], x);
    TextConcat(name, [ms[(a, b)].id], y);
    TextConcat(name, v, [a, b] + x);
    TextConcat(name, v, [ms[(a, b)].id] + y);
  }

  lemma {:induction false} ReplaceAllKeepsText<T>(ms: Merges, name: int -> seq<T>, w: seq<int>, a: int, b: int)
    requires Concatenates(ms, name) && (a, b) in ms
    ensures Text(name, ReplaceAll(w, a, b, ms[(a, b)].id)) == Text(name, w)
    decreases |w|
  {
    var c := ms[(a, b)].id;
    if w == [] {
    } else if |w| > 1 && w[0] == a && w[1] == b {
      ReplaceAllKeepsText(ms, name, w[2..], a, b);
      SpliceKeepsText(ms, name, [], a, b, w[2..], ReplaceAll(w[2..], a, b, c));
      assert w == [] + ([a, b] + w[2..]);
      assert ReplaceAll(w, a, b, c) == [] + ([c] + ReplaceAll(w[2..], a, b, c));
    } else {
      ReplaceAllKeepsText(ms, name, w[1..], a, b);
      assert ReplaceAll(w, a, b, c)[1..] == ReplaceAll(w[1..], a, b, c);
    }
  }

  lemma {:induction false} RescanKeepsText<T>(ms: Merges, name: int -> seq<T>, w: seq<int>)
    requires Concatenates(ms, name)
    ensures Text(name, Rescanned(ms, w)) == Text(name, w)
    decreases |w|
  {
    var p := Best(ms, w);
    if p >= 0 {
      var a, b, c := w[p], w[p + 1], RuleAt(ms, w, p).id;
      RescanKeepsText(ms, name, Pass(ms, w, p));
      ReplaceAllKeepsText(ms, name, w[p + 2..], a, b);
      SpliceKeepsText(ms, name, w[..p], a, b, w[p + 2..], ReplaceAll(w[p + 2..], a, b, c));
      assert w == w[..p] + ([a, b] + w[p + 2..]);
    }
  }

  lemma {:induction false} HeapKeepsText<T>(ms: Merges, name: int -> seq<T>, s: Heaped)
    requires Concatenates(ms, name) && |s.w| == |s.at|
    ensures Text(name, HeapRun(ms, s)) == Text(name, s.w)
    decreases 3 * |s.w| + |s.heap|
  {
    if s.heap != [] {
      HeapKeepsText(ms, name, Turn(ms, s));
      var j := Slot(s.at, Least(s.heap).pos);
      if MergesAt(ms, s.w, j) && RuleAt(ms, s.w, j).id == Least(s.heap).id {
        MergeKeepsText(ms, name, s.w, j);
      }
    }
  }

  /** Either branch keeps the concatenated token strings, whatever the table's ranks. */
  lemma MergedKeepsText<T>(ms: Merges, name: int -> seq<T>, w: seq<int>)
    requires Concatenates(ms, name)
    ensures Text(name, Merged(ms, w)) == Text(name, w)
  {
    hide Text, Rescanned, HeapRun, Concatenates;
    HeapKeepsText(ms, name, FirstState(ms, w));
    RescanKeepsText(ms, name, w);
  }

  // ----- the table, from the vocabulary and the merge list -----

  /** The table after the first k merges of the list; None when one names a
      token outside the vocabulary. */
  function Table(vocab: map<string, int>, merges: seq<(string, string)>, cut: nat, k: nat): Option<Merges>
    requires k <= |merges|
  {
    if k == 0 then Some(map[])
    else
      var t := Table(vocab, merges, cut, k - 1);
      var (a, b) := merges[k - 1];
      var c := a + b[if cut <= |b| then cut else |b|..];
      if t.None? || a !in vocab || b !in vocab || c !in vocab then None
      else Some(t.value[(vocab[a], vocab[b]) := Rule(k - 1, vocab[c])])
  }

  method BuildTable(vocab: map<string, int>, merges: seq<(string, string)>, cut: nat) returns (t: Option<Merges>)
    ensures t == Table(vocab, merges, cut, |merges|)
    ensures t.Some? <==> forall j :: 0 <= j < |merges| ==> Readable(vocab, merges[j], cut)
    ensures t.Some? ==> IsTheList(vocab, merges, cut, |merges|, t.value)
  {
    TableIsTheList(vocab, merges, cut, |merges|);
    hide Readable, IsTheList;
    var ms: Merges := map[];
    for rank := 0 to |merges|
      invariant Table(vocab, merges, cut, rank) == Some(ms)
    {
      var (a, b) := merges[rank];
      var c := a + b[if cut <= |b| then cut else |b|..];
      if a !in vocab || b !in vocab || c !in vocab {
        TableFails(vocab, merges, cut, rank + 1, |merges|);
        return None;
      }
      ms := ms[(vocab[a], vocab[b]) := Rule(rank, vocab[c])];
    }
    t := Some(ms);
  }

  lemma {:induction false} TableFails(vocab: map<string, int>, merges: seq<(string, string)>, cut: nat, j: nat, k: nat)
    requires j <= k <= |merges| && Table(vocab, merges, cut, j).None?
    ensures Table(vocab, merges, cut, k).None?
  {
    if j < k {
      TableFails(vocab, merges, cut, j, k - 1);
    }
  }

  /** Each rule of the table comes from one line of the list. */
  lemma {:induction false} TableRules(vocab: map<string, int>, merges: seq<(string, string)>, cut: nat, k: nat)
    requires k <= |merges| && Table(vocab, merges, cut, k).Some?
    ensures var ms := Table(vocab, merges, cut, k).value;
            forall p :: p in ms ==>
              && ms[p].rank < k
              && var (a, b) := merges[ms[p].rank];
                 && a in vocab && b in vocab && p == (vocab[a], vocab[b])
                 && var c := a + b[if cut <= |b| then cut else |b|..]; c in vocab && ms[p].id == vocab[c]
  {
    if k > 0 {
      TableRules(vocab, merges, cut, k - 1);
    }
  }

  /** The token a merge line makes: the right half loses the subword prefix. */
  function Made(line: (string, string), cut: nat): string {
    line.0 + line.1[if cut <= |line.1| then cut else |line.1|..]
  }

  /** The vocabulary has the line's tokens. */
  predicate Readable(vocab: map<string, int>, line: (string, string), cut: nat) {
    line.0 in vocab && line.1 in vocab && Made(line, cut) in vocab
  }

  function PairOf(vocab: map<string, int>, line: (string, string), cut: nat): (int, int)
    requires Readable(vocab, line, cut)
  {
    (vocab[line.0], vocab[line.1])
  }

  /** The last of the first k lines for the pair p is line i. */
  ghost predicate LastFor(vocab: map<string, int>, merges: seq<(string, string)>, cut: nat, k: nat, p: (int, int),
                          i: nat)
    requires k <= |merges| && forall j :: 0 <= j < k ==> Readable(vocab, merges[j], cut)
  {
    && i < k && p == PairOf(vocab, merges[i], cut)
    && forall j :: i < j < k ==> p != PairOf(vocab, merges[j], cut)
  }

  /** The table is the list: a pair has a rule exactly when some line is for it, the rule is that
      of the last such line, its rank is the line's place and its token the one the line makes. */
  ghost predicate IsTheList(vocab: map<string, int>, merges: seq<(string, string)>, cut: nat, k: nat, ms: Merges)
    requires k <= |merges| && forall j :: 0 <= j < k ==> Readable(vocab, merges[j], cut)
  {
    && (forall p :: p in ms ==>
          LastFor(vocab, merges, cut, k, p, ms[p].rank) && ms[p].id == vocab[Made(merges[ms[p].rank], cut)])
    && (forall j :: 0 <= j < k ==> PairOf(vocab, merges[j], cut) in ms)
  }

  /** There is a table exactly when the vocabulary has every token of every line, and then it is the list. */
  lemma {:induction false} TableIsTheList(vocab: map<string, int>, merges: seq<(string, string)>, cut: nat, k: nat)
    requires k <= |merges|
    ensures Table(vocab, merges, cut, k).Some? <==> forall j :: 0 <= j < k ==> Readable(vocab, merges[j], cut)
    ensures Table(vocab, merges, cut, k).Some? ==>
              IsTheList(vocab, merges, cut, k, Table(vocab, merges, cut, k).value)
  {
    if k > 0 {
      TableIsTheList(vocab, merges, cut, k - 1);
      if Table(vocab, merges, cut, k).Some? {
        OneMoreLine(vocab, merges, cut, k - 1, Table(vocab, merges, cut, k - 1).value);
      }
    }
  }

  lemma OneMoreLine(vocab: map<string, int>, merges: seq<(string, string)>, cut: nat, k: nat, ms: Merges)
    requires k < |merges| && forall j :: 0 <= j <= k ==> Readable(vocab, merges[j], cut)
    requires IsTheList(vocab, merges, cut, k, ms)
    ensures IsTheList(vocab, merges, cut, k + 1,
                      ms[PairOf(vocab, merges[k], cut) := Rule(k, vocab[Made(merges[k], cut)])])
  {
  }

  ghost predicate NamesThem(name: int -> string, vocab: map<string, int>) {
    forall s :: s in vocab ==> name(vocab[s]) == s
  }

  /** Every table has one rank per rule; without a subword prefix a merged id
      names the concatenation of its pair. */
  lemma TableIsSound(vocab: map<string, int>, merges: seq<(string, string)>, cut: nat, name: int -> string)
    requires |merges| < NO_RANK && NamesThem(name, vocab)
    requires Table(vocab, merges, cut, |merges|).Some?
    ensures Ranked(Table(vocab, merges, cut, |merges|).value)
    ensures cut == 0 ==> Concatenates(Table(vocab, merges, cut, |merges|).value, name)
  {
    var ms := Table(vocab, merges, cut, |merges|).value;
    TableRules(vocab, merges, cut, |merges|);
    if cut == 0 {
      forall p | p in ms
        ensures name(ms[p].id) == name(p.0) + name(p.1)
      {
        var (a, b) := merges[ms[p].rank];
        assert b[0..] == b;
        assert name(vocab[a]) == a && name(vocab[b]) == b && name(vocab[a + b]) == a + b;
      }
    }
  }

  /** A token's length without the subword prefix. */
  function Bare(prefix: string, t: string): nat {
    if prefix <= t then |t| - |prefix| else |t|
  }

  /** A merge whose right half carries the prefix, whose result carries it only if
      its left half does, and whose halves hold something besides it. */
  predicate Formed(prefix: string, a: string, b: string) {
    && prefix <= b && (prefix <= a + b[|prefix|..] ==> prefix <= a)
    && Bare(prefix, a) > 0 && Bare(prefix, b) > 0
  }

  lemma FormedAdds(prefix: string, a: string, b: string)
    requires Formed(prefix, a, b)
    ensures Bare(prefix, a + b[|prefix|..]) == Bare(prefix, a) + Bare(prefix, b)
  {
    var c := a + b[|prefix|..];
    if prefix <= a {
      assert c[..|prefix|] == a[..|prefix|];
    }
  }

  /** The same, and 1 for a token that is nothing besides the prefix. */
  function Weight(prefix: string, t: string): nat {
    if Bare(prefix, t) == 0 then 1 else Bare(prefix, t)
  }

  lemma WeighsSomething(prefix: string, t: string)
    ensures Weight(prefix, t) > 0
  {
  }

  lemma RuleIsGraded(vocab: map<string, int>, merges: seq<(string, string)>, prefix: string, name: int -> string,
                     p: (int, int))
    requires NamesThem(name, vocab) && Table(vocab, merges, |prefix|, |merges|).Some?
    requires forall k :: 0 <= k < |merges| ==> Formed(prefix, merges[k].0, merges[k].1)
    requires p in Table(vocab, merges, |prefix|, |merges|).value
    ensures Weight(prefix, name(Table(vocab, merges, |prefix|, |merges|).value[p].id)) ==
            Weight(prefix, name(p.0)) + Weight(prefix, name(p.1))
  {
    var ms := Table(vocab, merges, |prefix|, |merges|).value;
    TableRules(vocab, merges, |prefix|, |merges|);
    var (a, b) := merges[ms[p].rank];
    hide Table, Bare;
    assert Formed(prefix, a, b);
    FormedAdds(prefix, a, b);
    assert name(vocab[a]) == a && name(vocab[b]) == b && name(ms[p].id) == a + b[|prefix|..];
  }

  /** Tables of well-formed merges are graded, by the length without the prefix; with no
      prefix that asks only that no merge uses the empty token. */
  lemma TableIsGraded(vocab: map<string, int>, merges: seq<(string, string)>, prefix: string, name: int -> string)
    requires NamesThem(name, vocab) && Table(vocab, merges, |prefix|, |merges|).Some?
    requires forall k :: 0 <= k < |merges| ==> Formed(prefix, merges[k].0, merges[k].1)
    ensures Graded(Table(vocab, merges, |prefix|, |merges|).value, i => Weight(prefix, name(i)))
  {
    hide Table, Bare, NamesThem, Weight, Formed;
    var ms := Table(vocab, merges, |prefix|, |merges|).value;
    var length: int -> int := i => Weight(prefix, name(i));
    forall p | p in ms
      ensures length(ms[p].id) == length(p.0) + length(p.1)
    {
      RuleIsGraded(vocab, merges, prefix, name, p);
    }
    forall i: int
      ensures length(i) > 0
    {
      WeighsSomething(prefix, name(i));
    }
  }
}
