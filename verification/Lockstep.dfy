/** The streams in lock step, token by token: the loops of `add` and `flush`, and
    that feeding a part now and the rest later is feeding it all. */
module Lockstep {
  import opened Wrappers
  import opened StripText
  import opened Decoders
  import opened Chain

  // ----- a list fed in two parts -----

  lemma {:induction false} StreamedConcat(g: Stage, st: State, a: seq<string>, b: seq<string>)
    ensures var p := PushAll(g, st, a);
            PushAll(g, st, a + b) == Out(PushAll(g, p.st, b).st, p.items + PushAll(g, p.st, b).items)
    decreases |a|
  {
    hide Push;
    if a == [] {
      assert a + b == b;
    } else {
      assert (a + b)[0] == a[0] && (a + b)[1..] == a[1..] + b;
      StreamedConcat(g, Push(g, st, a[0]).st, a[1..], b);
    }
  }

  lemma StreamedApart(g: Stage, st: State, a: seq<string>, b: seq<string>)
    ensures var p := PushAll(g, st, a); Streamed(g, st, a + b) == p.items + Streamed(g, p.st, b)
  {
    hide PushAll, Flush;
    StreamedConcat(g, st, a, b);
  }

  /** Feeding a part in lock step and running the rest is running the whole. */
  lemma {:induction false} FeedThenRun(stages: seq<Stage>, states: seq<State>, a: seq<string>, b: seq<string>)
    requires |states| == |stages|
    ensures var f := Feed(stages, states, a);
            Run(stages, states, a + b) == f.items + Run(stages, f.states, b)
    decreases |stages|
  {
    if stages != [] {
      hide PushAll, Streamed;
      var g := stages[0];
      var p := PushAll(g, states[0], a);
      var later := Streamed(g, p.st, b);
      StreamedApart(g, states[0], a, b);
      FeedThenRun(stages[1..], states[1..], p.items, later);
    }
  }

  // ----- the loops of the steps -----

  lemma FallbackNext(toks: seq<string>, k: nat, run: seq<byte>)
    requires k < |toks|
    ensures var b := FallbackByte(toks[k]);
            Fallback(toks[k..], run) ==
            if b >= 0 then Fallback(toks[k + 1..], run + [b])
            else (RunText(run) + [toks[k]]) + Fallback(toks[k + 1..], [])
  {
    hide RunText, FallbackByte;
    assert toks[k..][0] == toks[k] && toks[k..][1..] == toks[k + 1..];
  }

  /** _ByteFallbackDec.batch(). */
  method FallbackBatch(toks: seq<string>) returns (out: seq<string>)
    ensures out == Fallback(toks, [])
  {
    hide RunText, FallbackByte;
    out := [];
    var run: seq<byte> := [];
    for k := 0 to |toks|
      invariant out + Fallback(toks[k..], run) == Fallback(toks, [])
    {
      FallbackNext(toks, k, run);
      hide Fallback;
      var b := FallbackByte(toks[k]);
      if b >= 0 {
        run := run + [b];
      } else {
        assert out + ((RunText(run) + [toks[k]]) + Fallback(toks[k + 1..], [])) ==
               out + RunText(run) + [toks[k]] + Fallback(toks[k + 1..], []);
        out, run := out + RunText(run) + [toks[k]], [];
      }
    }
    assert Fallback(toks[|toks|..], run) == RunText(run);
    out := out + RunText(run);
  }

  method StripTokens(toks: seq<string>, c: string, start: nat, stop: nat) returns (out: seq<string>)
    ensures out == Strips(toks, c, start, stop)
  {
    hide Stripped;
    out := [];
    for k := 0 to |toks|
      invariant out + Strips(toks[k..], c, start, stop) == Strips(toks, c, start, stop)
    {
      assert toks[k..][0] == toks[k] && toks[k..][1..] == toks[k + 1..];
      var t := StripToken(toks[k], c, start, stop);
      out := out + [t];
    }
  }

  /** A step's batch(). */
  method RunBatch(g: Stage, toks: seq<string>, cont: bool) returns (out: seq<string>)
    ensures out == Batch(g, toks, cont)
  {
    match g.step
    case ByteFallback => out := FallbackBatch(toks);
    case Strip(c, start, stop) => out := StripTokens(toks, c, if cont && g.fused then 0 else start, stop);
    case _ => out := Batch(g, toks, cont);
  }

  /** A stream's push(). */
  method RunPush(g: Stage, st: State, s: string) returns (out: Out)
    ensures out == Push(g, st, s)
  {
    if g.step.Strip? && g.fused {
      var p := CutChunk(g.step.content, g.step.stop, st.lead, st.held, s);
      out := Out(st.(lead := p.lead, held := p.held), [p.out]);
    } else if g.step.Strip? {
      var t := StripToken(s, g.step.content, g.step.start, g.step.stop);
      out := Out(st, [t]);
    } else {
      out := Push(g, st, s);
    }
  }

  // ----- the loops over the steps -----

  lemma PushNext(g: Stage, st: State, items: seq<string>, k: nat)
    requires k < |items|
    ensures var a := Push(g, st, items[k]);
            var b := PushAll(g, a.st, items[k + 1..]);
            PushAll(g, st, items[k..]) == Out(b.st, a.items + b.items)
  {
    hide Push;
    assert items[k..][0] == items[k] && items[k..][1..] == items[k + 1..];
  }

  method PushItems(g: Stage, st0: State, items: seq<string>) returns (st: State, out: seq<string>)
    ensures Out(st, out) == PushAll(g, st0, items)
  {
    st, out := st0, [];
    for k := 0 to |items|
      invariant PushAll(g, st0, items) ==
                Out(PushAll(g, st, items[k..]).st, out + PushAll(g, st, items[k..]).items)
    {
      PushNext(g, st, items, k);
      hide Push, PushAll;
      var a := RunPush(g, st, items[k]);
      st, out := a.st, out + a.items;
    }
  }

  /** One stage of the chain: its new state in place, its items for the next. */
  lemma FeedStage(stages: seq<Stage>, states: seq<State>, k: nat, items: seq<string>)
    requires k < |stages| == |states|
    ensures var a := PushAll(stages[k], states[k], items);
            var f := Feed(stages[k + 1..], states[k + 1..], a.items);
            Feed(stages[k..], states[k..], items) == Fed([a.st] + f.states, f.items)
  {
    assert stages[k..][1..] == stages[k + 1..] && states[k..][1..] == states[k + 1..];
  }

  lemma {:induction false} FeedNothing(stages: seq<Stage>, states: seq<State>)
    requires |states| == |stages|
    ensures Feed(stages, states, []) == Fed(states, [])
    decreases |stages|
  {
    if stages != [] {
      FeedNothing(stages[1..], states[1..]);
    }
  }

  method FeedChain(stages: seq<Stage>, states0: seq<State>, items0: seq<string>)
    returns (states: seq<State>, items: seq<string>)
    requires |states0| == |stages|
    ensures Fed(states, items) == Feed(stages, states0, items0)
  {
    hide Feed, PushAll;
    states, items := [], items0;
    var k := 0;
    assert stages[0..] == stages && states0[0..] == states0;
    while k < |stages|
      invariant k == |states| <= |stages|
      invariant var f := Feed(stages[k..], states0[k..], items);
                Feed(stages, states0, items0) == Fed(states + f.states, f.items)
    {
      FeedStage(stages, states0, k, items);
      var st, out := PushItems(stages[k], states0[k], items);
      ghost var later := Feed(stages[k + 1..], states0[k + 1..], out).states;
      assert states + ([st] + later) == states + [st] + later;
      states, items := states + [st], out;
      k := k + 1;
      if items == [] {
        break;
      }
    }
    FeedRest(stages, states0, k, items);
    states := states + states0[k..];
  }

  /** Once there is nothing to pass on, or no stage to pass it to, the later stages stay. */
  lemma FeedRest(stages: seq<Stage>, states: seq<State>, k: nat, items: seq<string>)
    requires k <= |stages| == |states| && (k == |stages| || items == [])
    ensures Feed(stages[k..], states[k..], items) == Fed(states[k..], items)
  {
    if k < |stages| {
      FeedNothing(stages[k..], states[k..]);
    }
  }

  /** What a stage is after its flush. */
  function Ended(g: Stage, st: State): State {
    if Buffers(g) then st
    else match g.step
      case ByteFallback => st.(bytes := [])
      case Strip(_, _, _) => if g.fused then st.(held := "") else st
      case Bytes => st.(bytes := [])
      case Suffix(_) => st.(buf := [])
      case _ => st
  }

  /** A stage holds text back exactly when its flush has something to drop or to show. */
  lemma PendingIs(g: Stage, st: State)
    ensures Pending(g, st) <==> if Buffers(g) then st.buf != [] else Ended(g, st) != st
  {
  }

  function EndAll(stages: seq<Stage>, states: seq<State>, items: seq<string>): (r: seq<State>)
    requires |states| == |stages|
    ensures |r| == |stages|
  {
    if stages == [] then []
    else
      var p := PushAll(stages[0], states[0], items);
      [Ended(stages[0], p.st)] + EndAll(stages[1..], states[1..], p.items + Flush(stages[0], p.st))
  }

  lemma RunStage(stages: seq<Stage>, states: seq<State>, k: nat, items: seq<string>)
    requires k < |stages| == |states|
    ensures var p := PushAll(stages[k], states[k], items);
            var next := p.items + Flush(stages[k], p.st);
            && Run(stages[k..], states[k..], items) == Run(stages[k + 1..], states[k + 1..], next)
            && EndAll(stages[k..], states[k..], items) ==
               [Ended(stages[k], p.st)] + EndAll(stages[k + 1..], states[k + 1..], next)
  {
    hide PushAll, Flush, Ended;
    assert stages[k..][1..] == stages[k + 1..] && states[k..][1..] == states[k + 1..];
  }

  method FlushChain(stages: seq<Stage>, states0: seq<State>) returns (ended: seq<State>, shown: seq<string>)
    requires |states0| == |stages|
    ensures Fed(ended, shown) == Fed(EndAll(stages, states0, []), Run(stages, states0, []))
  {
    hide Run, EndAll, PushAll, Flush, Ended;
    ended, shown := [], [];
    assert stages[0..] == stages && states0[0..] == states0;
    for k := 0 to |stages|
      invariant |ended| == k
      invariant Run(stages[k..], states0[k..], shown) == Run(stages, states0, [])
      invariant ended + EndAll(stages[k..], states0[k..], shown) == EndAll(stages, states0, [])
    {
      RunStage(stages, states0, k, shown);
      var st, out := PushItems(stages[k], states0[k], shown);
      shown := out + Flush(stages[k], st);
      assert ended + ([Ended(stages[k], st)] + EndAll(stages[k + 1..], states0[k + 1..], shown)) ==
             ended + [Ended(stages[k], st)] + EndAll(stages[k + 1..], states0[k + 1..], shown);
      ended := ended + [Ended(stages[k], st)];
    }
    RunEnd(stages[|stages|..], states0[|stages|..], shown);
  }

  lemma RunEnd(stages: seq<Stage>, states: seq<State>, items: seq<string>)
    requires |states| == |stages| == 0
    ensures Run(stages, states, items) == items && EndAll(stages, states, items) == []
  {
  }
}
