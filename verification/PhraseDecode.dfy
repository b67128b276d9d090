/** Forced-phrase decoding: the phrase scored as the first tokens, then greedy on
    from it, or the plain greedy transcript when the check fails. */
module PhraseDecode {
  /** A decoder whose step at position p depends only on tokens 0 .. p: `next` is
      its choice after them, the token of the largest logit. */
  datatype Model = Model(next: seq<int> -> int, logit: (seq<int>, int) -> int, bos: int, eos: int)

  predicate NoBetter(m: Model, s: seq<int>, t: int) {
    m.logit(s, t) <= m.logit(s, m.next(s))
  }

  ghost predicate Argmax(m: Model) {
    forall s: seq<int>, t: int :: NoBetter(m, s, t)
  }

  /** The engine: the tokens its cache holds. */
  class Engine {
    const m: Model
    var tokens: seq<int>

    constructor (m: Model)
      ensures this.m == m && tokens == []
    {
      this.m, tokens := m, [];
    }

    method Encode()
      modifies this
      ensures tokens == []
    {
      tokens := [];
    }

    /** Writes position p, over what was there, and forgets what came after. */
    method Step(t: int, p: nat) returns (a: int)
      requires p <= |tokens|
      modifies this
      ensures tokens == old(tokens)[..p] + [t] && a == m.next(tokens)
    {
      tokens := tokens[..p] + [t];
      a := m.next(tokens);
    }

    /** Of the last step. */
    method Logits(want: int, a: int) returns (lw: int, la: int)
      ensures lw == m.logit(tokens, want) && la == m.logit(tokens, a)
    {
      lw, la := m.logit(tokens, want), m.logit(tokens, a);
    }
  }

  datatype Phrase = Phrase(ids: seq<int>, wordStart: seq<bool>)

  // ----- what the decoder would say -----

  /** The model's token after ids. */
  function Next(m: Model, ids: seq<int>): int {
    m.next([m.bos] + ids)
  }

  /** Greedy on from ids, to the end token or `limit` tokens. */
  function Greedy(m: Model, ids: seq<int>, limit: nat): seq<int>
    decreases limit - |ids|
  {
    if |ids| >= limit || Next(m, ids) == m.eos then ids else Greedy(m, ids + [Next(m, ids)], limit)
  }

  /** The forced run: the tokens so far, how many of them the phrase has given,
      the punctuation tokens since, and the margin. */
  datatype Forced = Forced(ids: seq<int>, j: nat, run: nat, margin: int)

  /** The model's own punctuation goes before a word of the phrase. */
  predicate Punctuates(m: Model, ph: Phrase, punct: set<int>, f: Forced)
    requires f.j < |ph.ids| == |ph.wordStart|
  {
    var a := Next(m, f.ids);
    a != ph.ids[f.j] && f.j > 0 && ph.wordStart[f.j] && a in punct && f.run < 2
  }

  function Loss(m: Model, ids: seq<int>, want: int): int {
    var a := Next(m, ids);
    if a == want then 0 else m.logit([m.bos] + ids, want) - m.logit([m.bos] + ids, a)
  }

  function ForceOne(m: Model, ph: Phrase, punct: set<int>, f: Forced): Forced
    requires f.j < |ph.ids| == |ph.wordStart|
  {
    if Punctuates(m, ph, punct, f) then Forced(f.ids + [Next(m, f.ids)], f.j, f.run + 1, f.margin)
    else Forced(f.ids + [ph.ids[f.j]], f.j + 1, 0, f.margin + Loss(m, f.ids, ph.ids[f.j]))
  }

  /** The whole run, with the margin of every phrase token. */
  function Force(m: Model, ph: Phrase, punct: set<int>, f: Forced, limit: nat): Forced
    requires |ph.ids| == |ph.wordStart|
    decreases limit - |f.ids|
  {
    if f.j >= |ph.ids| || |f.ids| >= limit then f
    else Force(m, ph, punct, ForceOne(m, ph, punct, f), limit)
  }

  const UNFORCED: Forced := Forced([], 0, 0, 0)

  /** The check's verdict, with the margin summed to the end. */
  predicate Passes(m: Model, ph: Phrase, punct: set<int>, limit: nat, scale: real, minMargin: real)
    requires |ph.ids| == |ph.wordStart|
  {
    var f := Force(m, ph, punct, UNFORCED, limit);
    f.j >= |ph.ids| && Reaches(f.margin, scale, minMargin)
  }

  // ----- the margin only falls -----

  lemma LossIsNoGain(m: Model, ids: seq<int>, want: int)
    requires Argmax(m)
    ensures Loss(m, ids, want) <= 0
  {
    assert NoBetter(m, [m.bos] + ids, want);
  }

  lemma {:induction false} MarginFalls(m: Model, ph: Phrase, punct: set<int>, f: Forced, limit: nat)
    requires Argmax(m) && |ph.ids| == |ph.wordStart|
    ensures Force(m, ph, punct, f, limit).margin <= f.margin
    decreases limit - |f.ids|
  {
    if f.j < |ph.ids| && |f.ids| < limit {
      LossIsNoGain(m, f.ids, ph.ids[f.j]);
      MarginFalls(m, ph, punct, ForceOne(m, ph, punct, f), limit);
    }
  }

  /** The margin in nats reaches the threshold. */
  predicate Reaches(margin: int, scale: real, minMargin: real) {
    margin as real * scale >= minMargin
  }

  lemma LessReachesLess(a: int, b: int, scale: real, minMargin: real)
    requires a <= b && scale > 0.0 && !Reaches(b, scale, minMargin)
    ensures !Reaches(a, scale, minMargin)
  {
    assert (b - a) as real * scale >= 0.0;
    assert b as real * scale == a as real * scale + (b - a) as real * scale;
  }

  /** A margin that is too low stays too low: stopping there never changes the verdict. */
  lemma TooLowStays(m: Model, ph: Phrase, punct: set<int>, f: Forced, low: int, limit: nat, scale: real,
                    minMargin: real)
    requires Argmax(m) && |ph.ids| == |ph.wordStart| && scale > 0.0
    requires Force(m, ph, punct, f, limit) == Force(m, ph, punct, UNFORCED, limit)
    requires f.j < |ph.ids| && !Punctuates(m, ph, punct, f) && |f.ids| < limit
    requires low == f.margin + Loss(m, f.ids, ph.ids[f.j]) && !Reaches(low, scale, minMargin)
    ensures !Passes(m, ph, punct, limit, scale, minMargin)
  {
    var g := ForceOne(m, ph, punct, f);
    MarginFalls(m, ph, punct, g, limit);
    LessReachesLess(Force(m, ph, punct, g, limit).margin, low, scale, minMargin);
  }

  // ----- what a forced run spells -----

  /** After ids the model would write punctuation before phrase token i, which starts a word. */
  predicate May(m: Model, ph: Phrase, punct: set<int>, ids: seq<int>, i: nat)
    requires |ph.ids| == |ph.wordStart|
  {
    0 < i < |ph.ids| && ph.wordStart[i] && Next(m, ids) in punct && Next(m, ids) != ph.ids[i]
  }

  /** Tokens lo .. hi, two at most, are the model's own punctuation before phrase token i. */
  predicate Pause(m: Model, ph: Phrase, punct: set<int>, ids: seq<int>, i: nat, lo: nat, hi: nat)
    requires |ph.ids| == |ph.wordStart| && hi <= |ids|
  {
    lo <= hi <= lo + 2 && forall k :: lo <= k < hi ==> ids[k] == Next(m, ids[..k]) && May(m, ph, punct, ids[..k], i)
  }

  /** Where the pause before phrase token i starts. */
  function From(at: seq<nat>, i: nat): nat
    requires i <= |at|
  {
    if i == 0 then 0 else at[i - 1] + 1
  }

  /** Phrase token i stands at at[i]: after a pause that is full, or as the model writes no more punctuation. */
  predicate Gives(m: Model, ph: Phrase, punct: set<int>, ids: seq<int>, at: seq<nat>, i: nat)
    requires |ph.ids| == |ph.wordStart| && i < |at| <= |ph.ids|
  {
    && at[i] < |ids| && ids[at[i]] == ph.ids[i]
    && Pause(m, ph, punct, ids, i, From(at, i), at[i])
    && (at[i] == From(at, i) + 2 || !May(m, ph, punct, ids[..at[i]], i))
  }

  predicate Inside(at: seq<nat>, n: nat) {
    forall i :: 0 <= i < |at| ==> at[i] < n
  }

  /** What the phrase tokens at `at` cost against the model's own choices. */
  function Cost(m: Model, ph: Phrase, ids: seq<int>, at: seq<nat>): int
    requires |at| <= |ph.ids| && Inside(at, |ids|)
  {
    if at == [] then 0
    else
      var i := |at| - 1;
      var s := ids[..at[i]];
      Cost(m, ph, ids, at[..i]) + m.logit([m.bos] + s, Next(m, s)) - m.logit([m.bos] + s, ph.ids[i])
  }

  /** The run is the first phrase tokens in order, each after its pause; a pause
      ends it; the margin is what the phrase tokens cost. */
  ghost predicate Spells(m: Model, ph: Phrase, punct: set<int>, f: Forced, at: seq<nat>)
    requires |ph.ids| == |ph.wordStart|
  {
    && f.j == |at| <= |ph.ids|
    && Inside(at, |f.ids|) && (forall i :: 0 <= i < |at| ==> Gives(m, ph, punct, f.ids, at, i))
    && Pause(m, ph, punct, f.ids, |at|, From(at, |at|), |f.ids|) && f.run == |f.ids| - From(at, |at|)
    && f.margin == -Cost(m, ph, f.ids, at)
  }

  lemma GivesOn(m: Model, ph: Phrase, punct: set<int>, ids: seq<int>, t: int, at: seq<nat>, more: seq<nat>, i: nat)
    requires |ph.ids| == |ph.wordStart| && i < |at| && |at + more| <= |ph.ids|
    requires Gives(m, ph, punct, ids, at, i)
    ensures Gives(m, ph, punct, ids + [t], at + more, i)
  {
    hide May, Next;
    PauseOn(m, ph, punct, ids, t, i, From(at, i), at[i]);
    assert (ids + [t])[..at[i]] == ids[..at[i]];
    assert From(at + more, i) == From(at, i);
  }

  lemma PauseOn(m: Model, ph: Phrase, punct: set<int>, ids: seq<int>, t: int, i: nat, lo: nat, hi: nat)
    requires |ph.ids| == |ph.wordStart| && hi <= |ids| && Pause(m, ph, punct, ids, i, lo, hi)
    ensures Pause(m, ph, punct, ids + [t], i, lo, hi)
  {
    hide May, Next;
    forall k | lo <= k < hi
      ensures (ids + [t])[k] == Next(m, (ids + [t])[..k]) && May(m, ph, punct, (ids + [t])[..k], i)
    {
      assert (ids + [t])[..k] == ids[..k];
    }
  }

  lemma {:induction false} CostOn(m: Model, ph: Phrase, ids: seq<int>, t: int, at: seq<nat>)
    requires |at| <= |ph.ids| && Inside(at, |ids|)
    ensures Cost(m, ph, ids + [t], at) == Cost(m, ph, ids, at)
    decreases |at|
  {
    if at != [] {
      assert (ids + [t])[..at[|at| - 1]] == ids[..at[|at| - 1]];
      CostOn(m, ph, ids, t, at[..|at| - 1]);
    }
  }

  lemma PauseLasts(m: Model, ph: Phrase, punct: set<int>, f: Forced, at: seq<nat>)
    requires |ph.ids| == |ph.wordStart| && Spells(m, ph, punct, f, at)
    requires f.j < |ph.ids| && Punctuates(m, ph, punct, f)
    ensures Spells(m, ph, punct, ForceOne(m, ph, punct, f), at)
  {
    var t := Next(m, f.ids);
    forall i | 0 <= i < |at| ensures Gives(m, ph, punct, f.ids + [t], at, i) {
      GivesOn(m, ph, punct, f.ids, t, at, [], i);
      assert at + [] == at;
    }
    assert (f.ids + [t])[..|f.ids|] == f.ids;
    PauseOn(m, ph, punct, f.ids, t, |at|, From(at, |at|), |f.ids|);
    CostOn(m, ph, f.ids, t, at);
  }

  lemma LastGives(m: Model, ph: Phrase, punct: set<int>, f: Forced, at: seq<nat>)
    requires |ph.ids| == |ph.wordStart| && Spells(m, ph, punct, f, at)
    requires f.j < |ph.ids| && !Punctuates(m, ph, punct, f)
    ensures Gives(m, ph, punct, f.ids + [ph.ids[f.j]], at + [|f.ids|], |at|)
  {
    hide Cost;
    var t, n := ph.ids[f.j], |f.ids|;
    assert (f.ids + [t])[..n] == f.ids;
    PauseOn(m, ph, punct, f.ids, t, |at|, From(at, |at|), n);
    assert From(at + [n], |at|) == From(at, |at|);
  }

  lemma PhraseGoesOn(m: Model, ph: Phrase, punct: set<int>, f: Forced, at: seq<nat>)
    requires |ph.ids| == |ph.wordStart| && Spells(m, ph, punct, f, at)
    requires f.j < |ph.ids| && !Punctuates(m, ph, punct, f)
    ensures Spells(m, ph, punct, ForceOne(m, ph, punct, f), at + [|f.ids|])
  {
    var t, n := ph.ids[f.j], |f.ids|;
    forall i | 0 <= i < |at| ensures Gives(m, ph, punct, f.ids + [t], at + [n], i) {
      GivesOn(m, ph, punct, f.ids, t, at, [n], i);
    }
    LastGives(m, ph, punct, f, at);
    CostOn(m, ph, f.ids, t, at);
    assert (at + [n])[..|at|] == at && (f.ids + [t])[..n] == f.ids;
  }

  /** What the run spells, which ends with the phrase or at the limit. */
  lemma {:induction false} ForceSpells(m: Model, ph: Phrase, punct: set<int>, f: Forced, at: seq<nat>, limit: nat)
    returns (all: seq<nat>)
    requires |ph.ids| == |ph.wordStart| && Spells(m, ph, punct, f, at)
    ensures var g := Force(m, ph, punct, f, limit);
            Spells(m, ph, punct, g, all) && (|all| == |ph.ids| || |g.ids| >= limit)
    decreases limit - |f.ids|
  {
    hide Spells, Punctuates;
    assert f.j <= |ph.ids| && f.j == |at| by {
      SpellsShort(m, ph, punct, f, at);
    }
    if f.j >= |ph.ids| || |f.ids| >= limit {
      all := at;
    } else if Punctuates(m, ph, punct, f) {
      PauseLasts(m, ph, punct, f, at);
      all := ForceSpells(m, ph, punct, ForceOne(m, ph, punct, f), at, limit);
    } else {
      PhraseGoesOn(m, ph, punct, f, at);
      all := ForceSpells(m, ph, punct, ForceOne(m, ph, punct, f), at + [|f.ids|], limit);
    }
  }

  lemma SpellsShort(m: Model, ph: Phrase, punct: set<int>, f: Forced, at: seq<nat>)
    requires |ph.ids| == |ph.wordStart| && Spells(m, ph, punct, f, at)
    ensures f.j == |at| <= |ph.ids|
  {
  }

  /** The greedy tokens: the model's choice after those before it, up to the end token or the limit. */
  lemma {:induction false} GreedyIs(m: Model, ids: seq<int>, limit: nat)
    ensures var g := Greedy(m, ids, limit);
            && ids <= g && (|g| <= limit || g == ids)
            && (forall k :: |ids| <= k < |g| ==> g[k] == Next(m, g[..k]) && g[k] != m.eos)
            && (|g| >= limit || Next(m, g) == m.eos)
    decreases limit - |ids|
  {
    hide Next;
    if |ids| < limit && Next(m, ids) != m.eos {
      GreedyIs(m, ids + [Next(m, ids)], limit);
      var g := Greedy(m, ids, limit);
      assert g[..|ids|] == ids;
    }
  }

  // ----- the decoder -----

  /** phrase_decode over `limit` = max_steps positions; nothing without a
      position or a phrase. */
  method Decode(eng: Engine, ph: Phrase, limit: nat, scale: real, minMargin: real, punct: set<int>)
    returns (ids: seq<int>, passed: bool, complete: bool)
    requires |ph.ids| == |ph.wordStart| && scale > 0.0 && Argmax(eng.m)
    modifies eng
    ensures limit < 1 || ph.ids == [] ==> ids == [] && !passed && !complete
    ensures limit >= 1 && ph.ids != [] ==>
              var f := Force(eng.m, ph, punct, UNFORCED, limit);
              passed <==> f.j == |ph.ids| && f.margin as real * scale >= minMargin
    ensures limit >= 1 && ph.ids != [] && !passed ==> ids == Greedy(eng.m, [], limit)
    ensures passed ==>
              var f := Force(eng.m, ph, punct, UNFORCED, limit);
              && complete && (exists at :: |at| == |ph.ids| && Spells(eng.m, ph, punct, f, at))
              && ids == Greedy(eng.m, f.ids, limit)
  {
    if limit < 1 || ph.ids == [] {
      return [], false, false;
    }
    eng.Encode();
    var first := eng.Step(eng.m.bos, 0);
    assert [eng.m.bos] + [] == [eng.m.bos];
    var f, a, low := ForcePhrase(eng, ph, limit, scale, minMargin, punct, first);
    complete := f.j == |ph.ids|;
    passed := complete && Reaches(f.margin, scale, minMargin);
    ghost var at := ForceSpells(eng.m, ph, punct, UNFORCED, [], limit);
    if passed {
      ids := GoOn(eng, f.ids, a, limit);
    } else {
      ids := GoOn(eng, [], first, limit);
    }
  }

  /** The phrase loop: the run so far, the model's token after it, and whether it
      stopped because the margin was too low. */
  method ForcePhrase(eng: Engine, ph: Phrase, limit: nat, scale: real, minMargin: real, punct: set<int>, first: int)
    returns (f: Forced, a: int, low: bool)
    requires |ph.ids| == |ph.wordStart| && scale > 0.0 && Argmax(eng.m) && limit >= 1 && ph.ids != []
    requires eng.tokens == [eng.m.bos] && first == Next(eng.m, [])
    modifies eng
    ensures eng.tokens != [] && eng.tokens[0] == eng.m.bos
    ensures low ==> f.j < |ph.ids| && !Passes(eng.m, ph, punct, limit, scale, minMargin)
    ensures !low ==> f == Force(eng.m, ph, punct, UNFORCED, limit)
    ensures !low && |f.ids| < limit ==> eng.tokens == [eng.m.bos] + f.ids && a == Next(eng.m, f.ids)
  {
    f, a, low := UNFORCED, first, false;
    assert [eng.m.bos] + f.ids == [eng.m.bos];
    while f.j < |ph.ids|
      invariant f.j <= |ph.ids| && |f.ids| < limit
      invariant eng.tokens == [eng.m.bos] + f.ids && a == Next(eng.m, f.ids)
      invariant Force(eng.m, ph, punct, f, limit) == Force(eng.m, ph, punct, UNFORCED, limit)
      decreases limit - |f.ids|
    {
      var want := ph.ids[f.j];
      ghost var before := f;
      if a != want && f.j > 0 && ph.wordStart[f.j] && a in punct && f.run < 2 {
        f := f.(ids := f.ids + [a], run := f.run + 1);
      } else {
        var margin := f.margin;
        if a != want {
          var lw, la := eng.Logits(want, a);
          margin := margin + (lw - la);
          if !Reaches(margin, scale, minMargin) {
            TooLowStays(eng.m, ph, punct, f, margin, limit, scale, minMargin);
            f, low := f.(margin := margin), true;
            return;
          }
        }
        f := Forced(f.ids + [want], f.j + 1, 0, margin);
      }
      assert f == ForceOne(eng.m, ph, punct, before);
      if |f.ids| >= limit {
        return;
      }
      var t := f.ids[|f.ids| - 1];
      a := eng.Step(t, |f.ids|);
      assert ([eng.m.bos] + before.ids) + [t] == [eng.m.bos] + f.ids;
    }
  }

  /** The greedy loop, from ids and the model's token after them; the cache may
      hold anything past the tokens it rewrites. */
  method GoOn(eng: Engine, ids0: seq<int>, a0: int, limit: nat) returns (ids: seq<int>)
    requires |ids0| < limit ==> |eng.tokens| > |ids0| && eng.tokens[..|ids0| + 1] == [eng.m.bos] + ids0
    requires |ids0| < limit ==> a0 == Next(eng.m, ids0)
    modifies eng
    ensures ids == Greedy(eng.m, ids0, limit)
  {
    ids := ids0;
    var a := a0;
    while |ids| < limit && a != eng.m.eos
      invariant |ids| < limit ==> |eng.tokens| > |ids| && eng.tokens[..|ids| + 1] == [eng.m.bos] + ids
      invariant |ids| < limit ==> a == Next(eng.m, ids)
      invariant Greedy(eng.m, ids, limit) == Greedy(eng.m, ids0, limit)
      decreases limit - |ids|
    {
      ghost var before := ids;
      ids := ids + [a];
      if |ids| >= limit {
        break;
      }
      var t := a;
      a := eng.Step(t, |ids|);
      assert ([eng.m.bos] + before) + [t] == [eng.m.bos] + ids;
    }
  }
}
