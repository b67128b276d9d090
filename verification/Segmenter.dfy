/** The speech segmenter over 20 ms frames; the voice activity verdict is a
    function of the audio up to and including the frame. */
module Segmenter {
  import opened Wrappers

  const FRAME: nat := 320

  /** The segmenter's settings; maxSamples is max_s * RATE. */
  datatype Settings = Settings(onset: nat, hangover: nat, tail: nat, preroll: nat, minSpeech: nat, maxSamples: real)

  datatype Reason = End | Max

  // ----- the segmenter over verdicts alone -----

  /** Frames first .. last - 1, of which `speech` are speech, closed after frame closed - 1. */
  datatype Span = Span(first: nat, last: nat, speech: nat, reason: Reason, closed: nat)

  /** After k frames: no frame before `since` may be used again; a segment is
      open from frame `open.value` on. */
  datatype State = State(k: nat, since: nat, open: Option<nat>)

  const START: State := State(0, 0, None)

  function Count(v: seq<bool>, a: nat, b: nat): (n: nat)
    requires a <= b <= |v|
    ensures n <= b - a
    decreases b
  {
    if a == b then 0 else Count(v, a, b - 1) + if v[b - 1] then 1 else 0
  }

  /** The silent frames at the end of the first k. */
  function Silent(v: seq<bool>, k: nat): (n: nat)
    requires k <= |v|
    ensures n <= k
  {
    if k == 0 || v[k - 1] then 0 else 1 + Silent(v, k - 1)
  }

  function RingSize(p: Settings): nat {
    p.preroll + p.onset + 1
  }

  function Max2(a: int, b: int): int {
    if a < b then b else a
  }

  /** The oldest frame of the ring after k frames. */
  function RingFrom(p: Settings, st: State): (lo: nat)
    requires st.since <= st.k
    ensures st.since <= lo <= st.k
  {
    Max2(st.since, st.k - RingSize(p))
  }

  /** Frame k opens a segment: it is speech, and with it there are `onset` speech
      frames among the last onset + 1 of the ring. */
  predicate Opens(p: Settings, v: seq<bool>, st: State)
    requires st.since <= st.k < |v|
  {
    var after := st.(k := st.k + 1);
    v[st.k] && Count(v, Max2(RingFrom(p, after), st.k - p.onset), st.k + 1) >= p.onset
  }

  /** A segment from frame `first`, closed after k frames with `drop` of them cut off. */
  function Closed(v: seq<bool>, first: nat, k: nat, drop: int, reason: Reason): Span
    requires first <= k <= |v| && drop <= k
  {
    Span(first, if drop > 0 then k - drop else k, Count(v, first, k), reason, k)
  }

  /** Frame k. */
  function Step(p: Settings, v: seq<bool>, st: State): (State, Option<Span>)
    requires st.since <= st.k < |v| && (st.open.Some? ==> st.open.value <= st.k)
  {
    var k := st.k + 1;
    match st.open
    case None =>
      if Opens(p, v, st) then (State(k, st.since, Some(RingFrom(p, st.(k := k)))), None)
      else (st.(k := k), None)
    case Some(first) =>
      if Silent(v, k) >= p.hangover then
        (State(k, k, None), Some(Closed(v, first, k, Silent(v, k) - p.tail, End)))
      else if ((k - first) * FRAME) as real >= p.maxSamples then
        (State(k, k, None), Some(Closed(v, first, k, 0, Max)))
      else (st.(k := k), None)
  }

  /** The spans that are given out: those with enough speech. */
  function Enough(p: Settings, s: Option<Span>): seq<Span> {
    if s.Some? && s.value.speech >= p.minSpeech then [s.value] else []
  }

  ghost predicate Sane(v: seq<bool>, st: State) {
    st.since <= st.k <= |v| && (st.open.Some? ==> st.since <= st.open.value < st.k && Count(v, st.open.value, st.k) > 0)
  }

  lemma StepIsSane(p: Settings, v: seq<bool>, st: State)
    requires Sane(v, st) && st.k < |v|
    ensures Sane(v, Step(p, v, st).0) && Step(p, v, st).0.k == st.k + 1
  {
    if st.open.None? && Opens(p, v, st) {
      assert Count(v, RingFrom(p, st.(k := st.k + 1)), st.k + 1) >= 1;
    }
  }

  /** The first k frames. */
  function Run(p: Settings, v: seq<bool>, k: nat): (r: (State, seq<Span>))
    requires k <= |v|
    ensures Sane(v, r.0) && r.0.k == k
  {
    if k == 0 then (START, [])
    else
      var (st, spans) := Run(p, v, k - 1);
      StepIsSane(p, v, st);
      var (st', s) := Step(p, v, st);
      (st', spans + Enough(p, s))
  }

  /** flush: the open segment, if any. */
  function Flushed(p: Settings, v: seq<bool>, st: State): Option<Span>
    requires Sane(v, st)
  {
    if st.open.None? then None
    else Some(Closed(v, st.open.value, st.k, Max2(Silent(v, st.k) - p.tail, 0), End))
  }

  /** ... after which nothing of the open segment may be used again. */
  function AfterFlush(st: State): State {
    if st.open.None? then st else State(st.k, st.k, None)
  }

  // ----- what the spans are -----

  /** While a segment is open it has not met a reason to close. */
  ghost predicate OpenIsShort(p: Settings, v: seq<bool>, st: State)
    requires Sane(v, st)
  {
    st.open.Some? ==>
      && Silent(v, st.k) < st.k - st.open.value
      && (p.hangover > 0 ==> Silent(v, st.k) < p.hangover)
      && (st.k - st.open.value > RingSize(p) ==> ((st.k - st.open.value) * FRAME) as real < p.maxSamples)
  }

  /** A span given out: its speech count is exact and large enough, its length
      is within the cap, and one closed by silence ends in the tail. */
  ghost predicate Right(p: Settings, v: seq<bool>, s: Span) {
    && s.first < s.last <= s.closed <= |v|
    && s.speech == Count(v, s.first, s.last) >= p.minSpeech
    && (s.closed - s.first - 1 > RingSize(p) ==> ((s.closed - s.first - 1) * FRAME) as real < p.maxSamples)
    && (s.reason == Max ==> s.last == s.closed && ((s.last - s.first) * FRAME) as real >= p.maxSamples)
    && (s.reason == End ==>
          && s.last == s.closed - Max2(Silent(v, s.closed) - p.tail, 0)
          && Silent(v, s.last) == if Silent(v, s.closed) < p.tail then Silent(v, s.closed) else p.tail)
  }

  lemma {:induction false} SilentCountsNothing(v: seq<bool>, a: nat, k: nat, d: nat)
    requires k <= |v| && a <= k - d && d <= Silent(v, k)
    ensures Count(v, a, k) == Count(v, a, k - d)
    ensures Silent(v, k - d) == Silent(v, k) - d
  {
    if d > 0 {
      SilentCountsNothing(v, a, k - 1, d - 1);
    }
  }

  lemma {:induction false} SpeechEndsSilence(v: seq<bool>, a: nat, k: nat)
    requires a <= k <= |v| && Count(v, a, k) > 0
    ensures Silent(v, k) < k - a
  {
    if !v[k - 1] {
      SpeechEndsSilence(v, a, k - 1);
    }
  }

  /** A segment closed by silence or by flush is right. */
  lemma EndedIsRight(p: Settings, v: seq<bool>, first: nat, k: nat, drop: int)
    requires first < k <= |v| && Silent(v, k) < k - first && drop <= k
    requires Max2(drop, 0) == Max2(Silent(v, k) - p.tail, 0)
    requires Count(v, first, k) >= p.minSpeech
    requires k - first - 1 > RingSize(p) ==> ((k - first - 1) * FRAME) as real < p.maxSamples
    ensures Right(p, v, Closed(v, first, k, drop, End))
  {
    SilentCountsNothing(v, first, k, Max2(Silent(v, k) - p.tail, 0));
  }

  lemma StepIsRight(p: Settings, v: seq<bool>, st: State)
    requires Sane(v, st) && OpenIsShort(p, v, st) && st.k < |v|
    ensures Sane(v, Step(p, v, st).0) && OpenIsShort(p, v, Step(p, v, st).0)
    ensures forall s :: s in Enough(p, Step(p, v, st).1) ==>
              && Right(p, v, s) && st.since <= s.first && s.closed == st.k + 1 == Step(p, v, st).0.since
              && (s.reason == End && p.hangover > 0 ==> Silent(v, s.closed) == p.hangover)
  {
    var k := st.k + 1;
    StepIsSane(p, v, st);
    if st.open.None? {
      if Opens(p, v, st) {
        assert Silent(v, k) == 0;
      }
    } else {
      var first := st.open.value;
      if Silent(v, k) >= p.hangover && Count(v, first, k) >= p.minSpeech {
        EndedIsRight(p, v, first, k, Silent(v, k) - p.tail);
      }
    }
  }

  /** The spans in order, disjoint, and all right. */
  ghost predicate AllRight(p: Settings, v: seq<bool>, spans: seq<Span>, since: nat) {
    && (forall i :: 0 <= i < |spans| ==> Right(p, v, spans[i]) && spans[i].closed <= since)
    && (forall i, j :: 0 <= i < j < |spans| ==> spans[i].closed <= spans[j].first)
    && (p.hangover > 0 ==>
          forall i :: 0 <= i < |spans| && spans[i].reason == End ==> Silent(v, spans[i].closed) == p.hangover)
  }

  lemma OneMoreRight(p: Settings, v: seq<bool>, spans: seq<Span>, since: nat, more: seq<Span>, since': nat)
    requires AllRight(p, v, spans, since) && since <= since' && |more| <= 1
    requires forall s :: s in more ==>
               && Right(p, v, s) && since <= s.first && s.closed <= since'
               && (s.reason == End && p.hangover > 0 ==> Silent(v, s.closed) == p.hangover)
    ensures AllRight(p, v, spans + more, since')
  {
    var all := spans + more;
    if more != [] {
      assert more[0] in more && all[|spans|] == more[0];
      assert forall i :: 0 <= i < |spans| ==> all[i] == spans[i];
    } else {
      assert all == spans;
    }
  }

  lemma StartIsRight(p: Settings, v: seq<bool>)
    ensures OpenIsShort(p, v, START) && AllRight(p, v, [], 0)
  {
  }

  /** Whatever the verdicts: every span a run gives out is right, and they are
      disjoint and in order. */
  lemma {:induction false} RunIsRight(p: Settings, v: seq<bool>, k: nat)
    requires k <= |v|
    ensures var (st, spans) := Run(p, v, k); OpenIsShort(p, v, st) && AllRight(p, v, spans, st.since)
  {
    hide OpenIsShort, AllRight, Count, Silent, Opens;
    if k == 0 {
      StartIsRight(p, v);
    } else {
      RunIsRight(p, v, k - 1);
      var (st, spans) := Run(p, v, k - 1);
      StepIsRight(p, v, st);
      var (st', s) := Step(p, v, st);
      OneMoreRight(p, v, spans, st.since, Enough(p, s), st'.since);
    }
  }

  /** ... and so is what flush gives out, after them. */
  lemma FlushIsRight(p: Settings, v: seq<bool>, k: nat)
    requires k <= |v|
    ensures var (st, spans) := Run(p, v, k);
            forall s :: s in Enough(p, Flushed(p, v, st)) ==>
              Right(p, v, s) && s.closed == k && forall i :: 0 <= i < |spans| ==> spans[i].closed <= s.first
  {
    RunIsRight(p, v, k);
    var (st, spans) := Run(p, v, k);
    if st.open.Some? && Count(v, st.open.value, k) >= p.minSpeech {
      EndedIsRight(p, v, st.open.value, k, Max2(Silent(v, k) - p.tail, 0));
    }
  }

  // ----- which segments there are -----

  /** How many of the frames lo .. hi - 1 are speech. */
  ghost function Speech(v: seq<bool>, lo: int, hi: nat): set<int>
    requires 0 <= lo && hi <= |v|
  {
    set i | lo <= i < hi && v[i]
  }

  lemma {:induction false} CountIsSpeech(v: seq<bool>, a: nat, b: nat)
    requires a <= b <= |v|
    ensures Count(v, a, b) == |Speech(v, a, b)|
    decreases b
  {
    if a == b {
      assert Speech(v, a, b) == {};
    } else {
      CountIsSpeech(v, a, b - 1);
      assert Speech(v, a, b) == Speech(v, a, b - 1) + if v[b - 1] then {b - 1} else {};
    }
  }

  lemma {:induction false} SilentIs(v: seq<bool>, k: nat)
    requires k <= |v|
    ensures var n := Silent(v, k);
            (forall i :: k - n <= i < k ==> !v[i]) && (n == k || v[k - n - 1])
  {
    if k > 0 && !v[k - 1] {
      SilentIs(v, k - 1);
    }
  }

  /** A segment: no frame before `since` is used, frame `onset` opens it, it reaches
      back to frame `first`, and after `closed` frames it is closed. */
  datatype Course = Course(since: nat, onset: nat, first: nat, closed: nat)

  /** Frame o is speech, and with it at least `onset` of the last onset + 1 frames since `since` are. */
  ghost predicate Onsets(p: Settings, v: seq<bool>, since: nat, o: nat) {
    since <= o < |v| && v[o] && |Speech(v, Max2(since, o - p.onset), o + 1)| >= p.onset
  }

  ghost predicate FirstOnset(p: Settings, v: seq<bool>, since: nat, o: nat) {
    Onsets(p, v, since, o) && forall j :: since <= j < o ==> !Onsets(p, v, since, j)
  }

  /** After c frames the silence is long enough, or the segment is. */
  predicate Ends(p: Settings, v: seq<bool>, first: nat, c: nat)
    requires c <= |v|
  {
    Silent(v, c) >= p.hangover || ((c - first) * FRAME) as real >= p.maxSamples
  }

  /** No frame after the one that opened it has ended the segment before `c` frames. */
  ghost predicate RunsTo(p: Settings, v: seq<bool>, first: nat, onset: nat, c: nat)
    requires c <= |v| + 1
  {
    forall d :: onset + 1 < d < c ==> !Ends(p, v, first, d)
  }

  /** It opens with the first onset, reaches back over the pre-roll and the onset frames, but not
      before `since`, and closes as soon as it ends. */
  ghost predicate IsCourse(p: Settings, v: seq<bool>, s: Course) {
    && FirstOnset(p, v, s.since, s.onset)
    && s.first == Max2(s.since, s.onset - p.onset - p.preroll)
    && s.onset + 1 < s.closed <= |v| && Ends(p, v, s.first, s.closed)
    && RunsTo(p, v, s.first, s.onset, s.closed)
  }

  /** One after the other, each from where the one before it closed. */
  ghost predicate InTurn(p: Settings, v: seq<bool>, cs: seq<Course>) {
    forall i :: 0 <= i < |cs| ==> IsCourse(p, v, cs[i]) && cs[i].since == SinceOf(cs[..i])
  }

  /** Where the frames after the segments begin. */
  function SinceOf(cs: seq<Course>): nat {
    if cs == [] then 0 else cs[|cs| - 1].closed
  }

  /** What is given out of it: with enough speech, the frames up to its end, of the silence that
      ended it no more than the tail. */
  function Gives(p: Settings, v: seq<bool>, s: Course): seq<Span>
    requires s.first <= s.closed <= |v|
  {
    var n, speech := Silent(v, s.closed), Count(v, s.first, s.closed);
    if speech < p.minSpeech then []
    else if n >= p.hangover then [Span(s.first, s.closed - Max2(n - p.tail, 0), speech, End, s.closed)]
    else [Span(s.first, s.closed, speech, Max, s.closed)]
  }

  ghost predicate Given(p: Settings, v: seq<bool>, cs: seq<Course>, spans: seq<Span>)
    decreases |cs|
  {
    if cs == [] then spans == []
    else
      var n, s := |cs| - 1, cs[|cs| - 1];
      && s.first <= s.closed <= |v|
      && exists before :: Given(p, v, cs[..n], before) && spans == before + Gives(p, v, s)
  }

  /** Nothing has opened since, or the open segment has not ended. */
  ghost predicate Stands(p: Settings, v: seq<bool>, k: nat, since: nat, open: Option<nat>)
    requires k <= |v|
  {
    match open
    case None => forall j :: since <= j < k ==> !Onsets(p, v, since, j)
    case Some(first) => exists o: nat :: OpenFrom(p, v, k, since, first, o)
  }

  ghost predicate OpenFrom(p: Settings, v: seq<bool>, k: nat, since: nat, first: nat, o: nat)
    requires k <= |v|
  {
    && o < k && FirstOnset(p, v, since, o)
    && first == Max2(since, o - p.onset - p.preroll) && RunsTo(p, v, first, o, k + 1)
  }

  lemma OpensIsOnset(p: Settings, v: seq<bool>, st: State)
    requires st.since <= st.k < |v|
    ensures Opens(p, v, st) <==> Onsets(p, v, st.since, st.k)
    ensures RingFrom(p, st.(k := st.k + 1)) == Max2(st.since, st.k - p.onset - p.preroll)
  {
    CountIsSpeech(v, Max2(st.since, st.k - p.onset), st.k + 1);
  }

  /** One frame while none is open. */
  lemma IdleStands(p: Settings, v: seq<bool>, st: State)
    requires Sane(v, st) && st.k < |v| && st.open.None? && Stands(p, v, st.k, st.since, st.open)
    ensures var (t, s) := Step(p, v, st);
            s.None? && t.since == st.since && t.k == st.k + 1 && Stands(p, v, st.k + 1, t.since, t.open)
  {
    hide Onsets, Speech, Count;
    OpensIsOnset(p, v, st);
    if Opens(p, v, st) {
      var o: nat := st.k;
      assert OpenFrom(p, v, st.k + 1, st.since, RingFrom(p, st.(k := st.k + 1)), o);
    }
  }

  /** One frame while a segment is open: it ends, or stays open. */
  lemma OpenStands(p: Settings, v: seq<bool>, st: State, o: nat)
    requires Sane(v, st) && st.k < |v| && st.open.Some? && OpenFrom(p, v, st.k, st.since, st.open.value, o)
    ensures var (t, s) := Step(p, v, st);
            var first, k := st.open.value, st.k + 1;
            && t.k == k
            && if Ends(p, v, first, k) then
                 var c := Course(st.since, o, first, k);
                 && IsCourse(p, v, c) && Enough(p, s) == Gives(p, v, c) && t == State(k, k, None)
               else s.None? && t == st.(k := k) && OpenFrom(p, v, k, st.since, first, o)
  {
    hide FirstOnset, Silent, Count;
  }

  lemma OneMoreCourse(p: Settings, v: seq<bool>, cs: seq<Course>, spans: seq<Span>, c: Course)
    requires InTurn(p, v, cs) && Given(p, v, cs, spans) && IsCourse(p, v, c) && c.since == SinceOf(cs)
    requires c.first <= c.closed <= |v|
    ensures InTurn(p, v, cs + [c]) && Given(p, v, cs + [c], spans + Gives(p, v, c)) && SinceOf(cs + [c]) == c.closed
  {
    hide IsCourse, Gives;
    var ds := cs + [c];
    assert ds[..|ds| - 1] == cs && ds[|ds| - 1] == c;
    assert Given(p, v, ds[..|ds| - 1], spans);
    assert Given(p, v, ds, spans + Gives(p, v, c));
    assert forall i :: 0 <= i < |cs| ==> ds[i] == cs[i] && ds[..i] == cs[..i];
  }

  /** One frame: a course is added when it closes one, and the state stands as said. */
  lemma StepCourse(p: Settings, v: seq<bool>, st: State, cs: seq<Course>, spans: seq<Span>) returns (ds: seq<Course>)
    requires Sane(v, st) && st.k < |v| && InTurn(p, v, cs) && Given(p, v, cs, spans)
    requires st.since == SinceOf(cs) && Stands(p, v, st.k, st.since, st.open)
    ensures var (t, s) := Step(p, v, st);
            && InTurn(p, v, ds) && Given(p, v, ds, spans + Enough(p, s))
            && t.since == SinceOf(ds) && t.k == st.k + 1 && Stands(p, v, st.k + 1, t.since, t.open)
  {
    hide InTurn, Given, IsCourse, OpenFrom, SinceOf, Onsets, Gives;
    ds := cs;
    assert spans + [] == spans;
    if st.open.None? {
      IdleStands(p, v, st);
    } else {
      var first, k := st.open.value, st.k + 1;
      var o: nat :| OpenFrom(p, v, st.k, st.since, first, o);
      OpenStands(p, v, st, o);
      if Ends(p, v, first, k) {
        OneMoreCourse(p, v, cs, spans, Course(st.since, o, first, k));
        ds := cs + [Course(st.since, o, first, k)];
      }
    }
  }

  lemma NoCourse(p: Settings, v: seq<bool>)
    ensures InTurn(p, v, []) && Given(p, v, [], []) && Stands(p, v, 0, 0, None) && SinceOf([]) == 0
  {
  }

  /** Whatever the verdicts: the spans of a run are those of the segments so defined, in turn and no others. */
  lemma {:induction false} RunIsCourses(p: Settings, v: seq<bool>, k: nat) returns (cs: seq<Course>)
    requires k <= |v|
    ensures var (st, spans) := Run(p, v, k);
            && InTurn(p, v, cs) && Given(p, v, cs, spans)
            && st.since == SinceOf(cs) && Stands(p, v, k, st.since, st.open)
  {
    hide InTurn, Given, Stands, SinceOf, Step, Enough;
    cs := [];
    NoCourse(p, v);
    if k > 0 {
      cs := RunIsCourses(p, v, k - 1);
      var (st, spans) := Run(p, v, k - 1);
      cs := StepCourse(p, v, st, cs, spans);
    }
  }

  // ----- the audio behind the verdicts -----

  /** A segment of the stream. */
  datatype Segment = Segment(start: nat, pcm: seq<int>, speechFrames: nat, reason: Reason)

  function SegmentOf(done: seq<int>, s: Span): Segment
    requires s.first <= s.last && s.last * FRAME <= |done|
  {
    Segment(s.first * FRAME, done[s.first * FRAME..s.last * FRAME], s.speech, s.reason)
  }

  /** The verdicts on the whole frames of some audio. */
  function Verdicts(verdict: seq<int> -> bool, done: seq<int>): (v: seq<bool>)
    ensures |v| == |done| / FRAME
  {
    seq(|done| / FRAME, i requires 0 <= i < |done| / FRAME => verdict(done[..(i + 1) * FRAME]))
  }

  lemma VerdictsSnoc(verdict: seq<int> -> bool, done: seq<int>, fr: seq<int>)
    requires |done| % FRAME == 0 && |fr| == FRAME
    ensures Verdicts(verdict, done + fr) == Verdicts(verdict, done) + [verdict(done + fr)]
  {
    var a, b := Verdicts(verdict, done + fr), Verdicts(verdict, done);
    forall i | 0 <= i < |b|
      ensures a[i] == b[i]
    {
      assert (done + fr)[..(i + 1) * FRAME] == done[..(i + 1) * FRAME];
    }
    assert (done + fr)[..|done| + FRAME] == done + fr;
  }

  lemma {:induction false} CountPrefix(v: seq<bool>, b: bool, lo: nat, k: nat)
    requires lo <= k <= |v|
    ensures Count(v + [b], lo, k) == Count(v, lo, k)
    decreases k
  {
    if lo < k {
      CountPrefix(v, b, lo, k - 1);
    }
  }

  lemma {:induction false} SilentPrefix(v: seq<bool>, b: bool, k: nat)
    requires k <= |v|
    ensures Silent(v + [b], k) == Silent(v, k)
  {
    if k > 0 && !v[k - 1] {
      SilentPrefix(v, b, k - 1);
    }
  }

  lemma StepPrefix(p: Settings, v: seq<bool>, b: bool, st: State)
    requires Sane(v, st) && st.k < |v|
    ensures Step(p, v + [b], st) == Step(p, v, st)
  {
    var k := st.k + 1;
    SilentPrefix(v, b, k);
    if st.open.Some? {
      CountPrefix(v, b, st.open.value, k);
    } else {
      CountPrefix(v, b, Max2(RingFrom(p, st.(k := k)), st.k - p.onset), k);
    }
  }

  /** A run does not look ahead. */
  lemma {:induction false} RunPrefix(p: Settings, v: seq<bool>, b: bool, k: nat)
    requires k <= |v|
    ensures Run(p, v + [b], k) == Run(p, v, k)
  {
    if k > 0 {
      RunPrefix(p, v, b, k - 1);
      StepPrefix(p, v, b, Run(p, v, k - 1).0);
    }
  }

  ghost predicate Within(done: seq<int>, spans: seq<Span>) {
    forall i :: 0 <= i < |spans| ==> spans[i].first <= spans[i].last && spans[i].last * FRAME <= |done|
  }

  function SegmentsOf(done: seq<int>, spans: seq<Span>): (r: seq<Segment>)
    requires Within(done, spans)
    ensures |r| == |spans| && forall i :: 0 <= i < |spans| ==> r[i] == SegmentOf(done, spans[i])
  {
    seq(|spans|, i requires 0 <= i < |spans| => SegmentOf(done, spans[i]))
  }

  lemma SpansAreWithin(p: Settings, verdict: seq<int> -> bool, done: seq<int>)
    ensures var v := Verdicts(verdict, done); Within(done, Run(p, v, |v|).1)
  {
    var v := Verdicts(verdict, done);
    RunIsRight(p, v, |v|);
    var spans := Run(p, v, |v|).1;
    forall i | 0 <= i < |spans|
      ensures spans[i].first <= spans[i].last && spans[i].last * FRAME <= |done|
    {
      assert Right(p, v, spans[i]);
    }
  }

  /** Everything the segmenter gives out while it is fed `done`, however it is cut up. */
  function AllSegments(p: Settings, verdict: seq<int> -> bool, done: seq<int>): seq<Segment> {
    var v := Verdicts(verdict, done);
    SpansAreWithin(p, verdict, done);
    SegmentsOf(done, Run(p, v, |v|).1)
  }

  function FrameAt(done: seq<int>, i: nat): seq<int>
    requires (i + 1) * FRAME <= |done|
  {
    done[i * FRAME..(i + 1) * FRAME]
  }

  /** Frames a .. b - 1. */
  function Frames(done: seq<int>, a: nat, b: nat): (r: seq<seq<int>>)
    requires a <= b && b * FRAME <= |done|
    ensures |r| == b - a && forall i :: 0 <= i < |r| ==> r[i] == FrameAt(done, a + i)
  {
    seq(b - a, i requires 0 <= i < b - a => FrameAt(done, a + i))
  }

  function Concatenate(fs: seq<seq<int>>): seq<int> {
    if fs == [] then [] else Concatenate(fs[..|fs| - 1]) + fs[|fs| - 1]
  }

  lemma {:induction false} FramesAreTheStream(done: seq<int>, a: nat, b: nat)
    requires a <= b && b * FRAME <= |done|
    ensures Concatenate(Frames(done, a, b)) == done[a * FRAME..b * FRAME]
    decreases b - a
  {
    if a < b {
      FramesAreTheStream(done, a, b - 1);
      var fs := Frames(done, a, b);
      assert fs[..|fs| - 1] == Frames(done, a, b - 1);
      assert done[a * FRAME..(b - 1) * FRAME] + done[(b - 1) * FRAME..b * FRAME] == done[a * FRAME..b * FRAME];
    }
  }

  lemma FramesSnoc(done: seq<int>, fr: seq<int>, a: nat, b: nat)
    requires a <= b && b * FRAME == |done| && |fr| == FRAME
    ensures Frames(done + fr, a, b + 1) == Frames(done, a, b) + [fr]
  {
    var r := Frames(done + fr, a, b + 1);
    forall i | 0 <= i < b - a
      ensures r[i] == FrameAt(done, a + i)
    {
      assert (done + fr)[(a + i) * FRAME..(a + i + 1) * FRAME] == done[(a + i) * FRAME..(a + i + 1) * FRAME];
    }
    assert r[b - a] == fr;
  }

  function CountTrue(sp: seq<bool>): nat {
    if sp == [] then 0 else CountTrue(sp[..|sp| - 1]) + if sp[|sp| - 1] then 1 else 0
  }

  lemma {:induction false} CountTrueIs(v: seq<bool>, a: nat, b: nat)
    requires a <= b <= |v|
    ensures CountTrue(v[a..b]) == Count(v, a, b)
    decreases b
  {
    if a < b {
      CountTrueIs(v, a, b - 1);
      assert v[a..b][..b - a - 1] == v[a..b - 1];
    }
  }

  lemma SegmentsOfGrow(done: seq<int>, fr: seq<int>, spans: seq<Span>, more: seq<Span>)
    requires Within(done, spans) && Within(done + fr, spans + more)
    ensures Within(done + fr, more)
    ensures SegmentsOf(done + fr, spans + more) == SegmentsOf(done, spans) + SegmentsOf(done + fr, more)
  {
    var all := spans + more;
    forall i | 0 <= i < |more|
      ensures more[i].first <= more[i].last && more[i].last * FRAME <= |done + fr|
    {
      assert all[|spans| + i] == more[i];
    }
    forall i | 0 <= i < |spans|
      ensures SegmentOf(done + fr, all[i]) == SegmentOf(done, spans[i])
    {
      assert all[i] == spans[i];
      assert (done + fr)[spans[i].first * FRAME..spans[i].last * FRAME] ==
             done[spans[i].first * FRAME..spans[i].last * FRAME];
    }
  }

  /** One more frame: what the next step gives out is added. */
  lemma SegmentsGrow(p: Settings, verdict: seq<int> -> bool, done: seq<int>, fr: seq<int>)
    requires |done| % FRAME == 0 && |fr| == FRAME
    ensures var v := Verdicts(verdict, done);
            var v' := v + [verdict(done + fr)];
            var (st', s) := Step(p, v', Run(p, v, |v|).0);
            && v' == Verdicts(verdict, done + fr)
            && Run(p, v', |v'|).0 == st'
            && Within(done + fr, Enough(p, s))
            && AllSegments(p, verdict, done + fr) == AllSegments(p, verdict, done) + SegmentsOf(done + fr, Enough(p, s))
  {
    var v := Verdicts(verdict, done);
    VerdictsSnoc(verdict, done, fr);
    RunPrefix(p, v, verdict(done + fr), |v|);
    SpansAreWithin(p, verdict, done);
    SpansAreWithin(p, verdict, done + fr);
    var s := Step(p, v + [verdict(done + fr)], Run(p, v, |v|).0).1;
    SegmentsOfGrow(done, fr, Run(p, v, |v|).1, Enough(p, s));
  }

  // ----- the class -----

  /** One element of the ring. */
  datatype Entry = Entry(frame: seq<int>, speech: bool, start: nat)

  function Entries(done: seq<int>, v: seq<bool>, a: nat, b: nat): (r: seq<Entry>)
    requires a <= b <= |v| && b * FRAME <= |done|
    ensures |r| == b - a && forall i :: 0 <= i < |r| ==> r[i] == Entry(FrameAt(done, a + i), v[a + i], (a + i) * FRAME)
  {
    seq(b - a, i requires 0 <= i < b - a => Entry(FrameAt(done, a + i), v[a + i], (a + i) * FRAME))
  }

  function FramesOf(ring: seq<Entry>): seq<seq<int>> {
    seq(|ring|, i requires 0 <= i < |ring| => ring[i].frame)
  }

  function SpeechOf(ring: seq<Entry>): seq<bool> {
    seq(|ring|, i requires 0 <= i < |ring| => ring[i].speech)
  }

  lemma EntriesAre(done: seq<int>, v: seq<bool>, a: nat, b: nat)
    requires a <= b <= |v| && b * FRAME <= |done|
    ensures FramesOf(Entries(done, v, a, b)) == Frames(done, a, b)
    ensures SpeechOf(Entries(done, v, a, b)) == v[a..b]
    ensures forall c :: a <= c <= b ==> Entries(done, v, a, b)[c - a..] == Entries(done, v, c, b)
  {
  }

  lemma EntriesSnoc(done: seq<int>, v: seq<bool>, fr: seq<int>, sp: bool, a: nat)
    requires a <= |v| && |v| * FRAME == |done| && |fr| == FRAME
    ensures Entries(done + fr, v + [sp], a, |v| + 1) == Entries(done, v, a, |v|) + [Entry(fr, sp, |done|)]
  {
    FramesSnoc(done, fr, a, |v|);
    var r := Entries(done + fr, v + [sp], a, |v| + 1);
    var fs := Frames(done + fr, a, |v| + 1);
    forall i | 0 <= i < |r|
      ensures r[i] == (Entries(done, v, a, |v|) + [Entry(fr, sp, |done|)])[i]
    {
      assert r[i].frame == fs[i] == (Frames(done, a, |v|) + [fr])[i];
    }
  }

  /** The last onset + 1. */
  function Recent(sps: seq<bool>, onset: nat): seq<bool> {
    if |sps| > onset + 1 then sps[|sps| - (onset + 1)..] else sps
  }

  lemma RecentIs(v: seq<bool>, from: nat, onset: nat)
    requires from < |v|
    ensures CountTrue(Recent(v[from..|v|], onset)) == Count(v, Max2(from, |v| - 1 - onset), |v|)
  {
    var lo := Max2(from, |v| - 1 - onset);
    hide CountTrue, Count;
    if |v| - from > onset + 1 {
      assert v[from..|v|][|v| - from - (onset + 1)..] == v[lo..|v|];
    }
    CountTrueIs(v, lo, |v|);
  }

  /** What the fields hold after the frames of `done`. */
  ghost predicate Represents(p: Settings, done: seq<int>, v: seq<bool>, st: State, pos: nat, ring: seq<Entry>,
                             cur: Option<seq<seq<int>>>, curStart: nat, curSpeech: nat, silent: nat)
  {
    && |v| * FRAME == |done| == pos && Sane(v, st) && st.k == |v|
    && match st.open
       case None => cur == None && ring == Entries(done, v, RingFrom(p, st), |v|)
       case Some(first) =>
         && cur == Some(Frames(done, first, |v|)) && ring == []
         && curStart == first * FRAME && curSpeech == Count(v, first, |v|) && silent == Silent(v, |v|)
  }

  lemma NextSlice(before: seq<int>, x: seq<int>, i: nat, j: nat)
    requires i <= j <= |x|
    ensures (before + x[..i]) + x[i..j] == before + x[..j]
  {
  }

  class Segmenter {
    const p: Settings
    const verdict: seq<int> -> bool
    var pos: nat
    var ring: seq<Entry>
    var cur: Option<seq<seq<int>>>
    var curStart: nat
    var curSpeech: nat
    var silent: nat
    var buf: seq<int>
    var done: seq<int>                     // the frames consumed: what the VAD has heard

    ghost predicate Valid()
      reads this
    {
      && |buf| < FRAME
      && var v := Verdicts(verdict, done);
         Represents(p, done, v, Run(p, v, |v|).0, pos, ring, cur, curStart, curSpeech, silent)
    }

    constructor (p: Settings, verdict: seq<int> -> bool)
      ensures Valid() && this.p == p && this.verdict == verdict && done == buf == []
    {
      this.p, this.verdict := p, verdict;
      pos, ring, cur, curStart, curSpeech, silent, buf, done := 0, [], None, 0, 0, 0, [], [];
    }

    /** ring.append: the oldest frame falls out of a full ring. */
    method Remember(fr: seq<int>, sp: bool, ghost v: seq<bool>, ghost st: State)
      requires |fr| == FRAME && st.since <= st.k == |v| && |v| * FRAME == |done| == pos
      requires ring == Entries(done, v, RingFrom(p, st), |v|)
      modifies this`ring
      ensures var next := st.(k := st.k + 1);
              ring == Entries(done + fr, v + [sp], RingFrom(p, next), next.k)
    {
      EntriesSnoc(done, v, fr, sp, RingFrom(p, st));
      EntriesAre(done + fr, v + [sp], RingFrom(p, st), st.k + 1);
      ring := ring + [Entry(fr, sp, pos)];
      if |ring| > RingSize(p) {
        ring := ring[1..];
      }
    }

    /** _frame while no segment is open. */
    method Idle(fr: seq<int>, sp: bool, ghost v: seq<bool>, ghost st: State)
      requires |fr| == FRAME && st.open.None?
      requires Represents(p, done, v, st, pos, ring, cur, curStart, curSpeech, silent)
      modifies this
      ensures Represents(p, done, v + [sp], Step(p, v + [sp], st).0, pos, ring, cur, curStart, curSpeech, silent)
      ensures done == old(done) + fr && buf == old(buf)
    {
      ghost var w, next := v + [sp], st.(k := st.k + 1);
      Remember(fr, sp, v, st);
      done, pos := done + fr, pos + FRAME;
      EntriesAre(done, w, RingFrom(p, next), next.k);
      var opens := Onset(sp, w, st);
      StepIsSane(p, w, st);
      if opens {
        Open(w, RingFrom(p, next));
      }
    }

    /** Whether the frame just remembered opens a segment. */
    method Onset(sp: bool, ghost v: seq<bool>, ghost st: State) returns (opens: bool)
      requires st.since <= st.k && |v| == st.k + 1 && v[st.k] == sp
      requires SpeechOf(ring) == v[RingFrom(p, st.(k := st.k + 1))..|v|]
      ensures opens <==> Opens(p, v, st)
    {
      hide Count, CountTrue, Recent;
      RecentIs(v, RingFrom(p, st.(k := st.k + 1)), p.onset);
      opens := sp && CountTrue(Recent(SpeechOf(ring), p.onset)) >= p.onset;
    }

    /** A segment opens with the whole ring. */
    method Open(ghost v: seq<bool>, ghost from: nat)
      requires from < |v| && |v| * FRAME == |done| && ring == Entries(done, v, from, |v|) && v[|v| - 1]
      modifies this`ring, this`cur, this`curStart, this`curSpeech, this`silent
      ensures ring == [] && cur == Some(Frames(done, from, |v|)) && curStart == from * FRAME
      ensures curSpeech == Count(v, from, |v|) && silent == Silent(v, |v|)
    {
      EntriesAre(done, v, from, |v|);
      CountTrueIs(v, from, |v|);
      cur, curStart, curSpeech, silent := Some(FramesOf(ring)), ring[0].start, CountTrue(SpeechOf(ring)), 0;
      ring := [];
    }

    /** _close. */
    method Close(reason: Reason, drop: int, ghost v: seq<bool>, ghost first: nat) returns (seg: Option<Segment>)
      requires first < |v| && |v| * FRAME == |done| && cur == Some(Frames(done, first, |v|))
      requires curStart == first * FRAME && curSpeech == Count(v, first, |v|) && drop <= |v| - first
      modifies this`cur, this`silent
      ensures cur == None && silent == 0
      ensures var s := Closed(v, first, |v|, drop, reason);
              seg == if s.speech >= p.minSpeech then Some(SegmentOf(done, s)) else None
    {
      var frames := cur.value;
      ghost var last := if drop > 0 then |v| - drop else |v|;
      if drop > 0 {
        frames := frames[..|frames| - drop];
        assert frames == Frames(done, first, last);
      }
      FramesAreTheStream(done, first, last);
      cur, silent := None, 0;
      seg := if curSpeech >= p.minSpeech then Some(Segment(curStart, Concatenate(frames), curSpeech, reason)) else None;
    }

    /** _frame while a segment is open. */
    method Go(fr: seq<int>, sp: bool, ghost v: seq<bool>, ghost st: State) returns (seg: Option<Segment>)
      requires |fr| == FRAME && st.open.Some?
      requires Represents(p, done, v, st, pos, ring, cur, curStart, curSpeech, silent) && OpenIsShort(p, v, st)
      modifies this
      ensures Represents(p, done, v + [sp], Step(p, v + [sp], st).0, pos, ring, cur, curStart, curSpeech, silent)
      ensures done == old(done) + fr && buf == old(buf)
      ensures var s := Step(p, v + [sp], st).1;
              && (s.Some? ==> s.value.first <= s.value.last && s.value.last * FRAME <= |done|)
              && seg == if s.Some? && s.value.speech >= p.minSpeech then Some(SegmentOf(done, s.value)) else None
    {
      ghost var w, first := v + [sp], st.open.value;
      FramesSnoc(done, fr, first, |v|);
      SilentPrefix(v, sp, |v|);
      CountPrefix(v, sp, first, |v|);
      StepIsSane(p, w, st);
      done, pos := done + fr, pos + FRAME;
      cur := Some(cur.value + [fr]);
      if sp {
        curSpeech, silent := curSpeech + 1, 0;
      } else {
        silent := silent + 1;
      }
      if silent >= p.hangover {
        seg := Close(End, silent - p.tail, w, first);
      } else if (|cur.value| * FRAME) as real >= p.maxSamples {
        seg := Close(Max, 0, w, first);
      } else {
        seg := None;
      }
    }

    /** _frame. */
    method Frame(fr: seq<int>) returns (seg: Option<Segment>)
      requires Valid() && |fr| == FRAME
      modifies this
      ensures Valid() && done == old(done) + fr && buf == old(buf)
      ensures AllSegments(p, verdict, done) ==
              old(AllSegments(p, verdict, done)) + if seg.Some? then [seg.value] else []
    {
      ghost var v := Verdicts(verdict, done);
      ghost var st := Run(p, v, |v|).0;
      RunIsRight(p, v, |v|);
      SegmentsGrow(p, verdict, done, fr);
      var sp := verdict(done + fr);
      if cur.None? {
        seg := None;
        Idle(fr, sp, v, st);
      } else {
        seg := Go(fr, sp, v, st);
      }
    }

    /** feed's loop: whole frames. */
    method FeedFrames(x: seq<int>) returns (out: seq<Segment>)
      requires Valid() && |x| % FRAME == 0
      modifies this
      ensures Valid() && done == old(done) + x && buf == old(buf)
      ensures AllSegments(p, verdict, done) == old(AllSegments(p, verdict, done)) + out
    {
      out := [];
      ghost var held, before := buf, done;
      var n := |x| / FRAME;
      assert n * FRAME == |x|;
      for k := 0 to n
        invariant Valid() && buf == held && k * FRAME <= |x| && done == before + x[..k * FRAME]
        invariant AllSegments(p, verdict, done) == AllSegments(p, verdict, before) + out
      {
        var i, j := k * FRAME, (k + 1) * FRAME;
        var seg := Frame(x[i..j]);
        NextSlice(before, x, i, j);
        out := out + if seg.Some? then [seg.value] else [];
      }
      assert x[..|x|] == x;
    }

    /** feed: samples in any number; what comes out in all depends only on what
        went in in all. */
    method Feed(pcm: seq<int>) returns (out: seq<Segment>)
      requires Valid()
      modifies this
      ensures Valid() && done + buf == old(done + buf) + pcm
      ensures AllSegments(p, verdict, done) == old(AllSegments(p, verdict, done)) + out
    {
      hide Represents, AllSegments, Run, Verdicts;
      var x := buf + pcm;
      var n := |x| / FRAME * FRAME;
      buf := x[n..];
      out := FeedFrames(x[..n]);
      assert x[..n] + x[n..] == x;
    }

    /** flush: the open segment, if any; what was in it is not used again. */
    method Flush() returns (seg: Option<Segment>)
      requires Valid()
      modifies this`cur, this`silent
      ensures |buf| < FRAME && cur.None?
      ensures var v := Verdicts(verdict, done);
              var st := Run(p, v, |v|).0;
              var s := Flushed(p, v, st);
              && Represents(p, done, v, AfterFlush(st), pos, ring, cur, curStart, curSpeech, silent)
              && (s.Some? ==> s.value.first <= s.value.last && s.value.last * FRAME <= |done|)
              && seg == if s.Some? && s.value.speech >= p.minSpeech then Some(SegmentOf(done, s.value)) else None
    {
      hide Run, Verdicts, Entries, Count, Silent;
      ghost var v := Verdicts(verdict, done);
      ghost var st := Run(p, v, |v|).0;
      if cur.None? {
        return None;
      }
      SpeechEndsSilence(v, st.open.value, |v|);
      seg := Close(End, if silent > p.tail then silent - p.tail else 0, v, st.open.value);
    }
  }
}
