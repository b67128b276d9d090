/** The decoder steps one after the other: the whole list through each stream in
    turn, against the batch decoder; and a part of the list through all of them. */
module Chain {
  import opened Decoders
  import opened Streams
  import opened Agreement

  /** Each stage knows whether a step before it fuses. */
  predicate Chained(stages: seq<Stage>, fused: bool) {
    stages == [] || (stages[0].fused == fused && Chained(stages[1..], fused || Fuses(stages[0].step)))
  }

  /** Every step after a fuse agrees with its batch on the chunks it can see: after a
      step that waits for the whole text at most one, after ByteLevel at least one. */
  predicate Sound(stages: seq<Stage>, sole: bool, some: bool) {
    stages == []
    || (var g := stages[0];
        && (g.fused ==> Agrees(g.step, sole, some))
        && Sound(stages[1..], sole || Buffers(g), some || (g.step.Bytes? && !g.fused)))
  }

  /** A condition that makes every chain sound on every token list: after a fuse only
      one-character Metaspace replacements, and no join. */
  predicate Simple(stages: seq<Stage>) {
    stages == []
    || (var g := stages[0];
        && (g.fused ==> (g.step.Metaspace? ==> |g.step.repl| == 1) && !g.step.Spaced?)
        && Simple(stages[1..]))
  }

  lemma {:induction false} SimpleIsSound(stages: seq<Stage>, sole: bool, some: bool)
    requires Simple(stages)
    ensures Sound(stages, sole, some)
  {
    if stages != [] {
      var g := stages[0];
      SimpleIsSound(stages[1..], sole || Buffers(g), some || (g.step.Bytes? && !g.fused));
    }
  }

  function Marked(steps: seq<Step>, fused: bool): (stages: seq<Stage>)
    ensures Chained(stages, fused) && |stages| == |steps|
  {
    if steps == [] then [] else [Stage(steps[0], fused)] + Marked(steps[1..], fused || Fuses(steps[0]))
  }

  function Starts(stages: seq<Stage>, cont: bool): (states: seq<State>)
    ensures |states| == |stages|
  {
    if stages == [] then [] else [Start(stages[0], cont)] + Starts(stages[1..], cont)
  }

  /** The chain fed a whole list and flushed, step by step. */
  function Run(stages: seq<Stage>, states: seq<State>, items: seq<string>): seq<string>
    requires |states| == |stages|
  {
    if stages == [] then items else Run(stages[1..], states[1..], Streamed(stages[0], states[0], items))
  }

  datatype Fed = Fed(states: seq<State>, items: seq<string>)

  /** The chain fed some items in lock step. */
  function Feed(stages: seq<Stage>, states: seq<State>, items: seq<string>): (f: Fed)
    requires |states| == |stages|
    ensures |f.states| == |stages|
  {
    if stages == [] then Fed([], items)
    else
      var a := PushAll(stages[0], states[0], items);
      var f := Feed(stages[1..], states[1..], a.items);
      Fed([a.st] + f.states, f.items)
  }

  // ----- against the batch decoder -----

  /** After a fuse: chunks of one string against the string. */
  lemma {:induction false} FusedRun(stages: seq<Stage>, chunks: seq<string>, cont: bool, sole: bool, some: bool)
    requires Chained(stages, true) && Sound(stages, sole, some) && Comes(chunks, sole, some)
    ensures Joined(Run(stages, Starts(stages, cont), chunks)) == Joined(DecodeList(stages, [Joined(chunks)], cont))
    decreases |stages|
  {
    if stages == [] {
      JoinedOne(Joined(chunks));
    } else {
      var g := stages[0];
      FusedAgrees(g, chunks, cont, sole, some);
      ChunksAfter(g, Start(g, cont), chunks);
      FusedRun(stages[1..], Streamed(g, Start(g, cont), chunks), cont, sole || Buffers(g), some);
    }
  }

  /** For every chain, every token list and both modes: the streamed text is the decoded text. */
  lemma {:induction false} RunDecodes(stages: seq<Stage>, toks: seq<string>, cont: bool)
    requires Chained(stages, false) && Sound(stages, false, toks != [])
    ensures Joined(Run(stages, Starts(stages, cont), toks)) == Joined(DecodeList(stages, toks, cont))
    decreases |stages|
  {
    if stages != [] {
      var g := stages[0];
      var r := Streamed(g, Start(g, cont), toks);
      UnfusedAgrees(g, toks, cont);
      SoundLater(stages[1..], false, toks != [] || g.step.Bytes?, r != []);
      if Fuses(g.step) {
        FusedRun(stages[1..], r, cont, false, r != []);
      } else {
        RunDecodes(stages[1..], r, cont);
      }
    }
  }

  lemma {:induction false} SoundLater(stages: seq<Stage>, sole: bool, some: bool, now: bool)
    requires Sound(stages, sole, some) && (some ==> now)
    ensures Sound(stages, sole, now)
  {
    if stages != [] {
      var g := stages[0];
      var later := g.step.Bytes? && !g.fused;
      SoundLater(stages[1..], sole || Buffers(g), some || later, now || later);
    }
  }

  // ----- what is pending -----

  /** A stage holds text back. */
  predicate Pending(g: Stage, st: State) {
    if Buffers(g) then st.buf != []
    else match g.step
      case ByteFallback => st.bytes != []
      case Strip(_, _, _) => g.fused && st.held != ""
      case Bytes => st.bytes != []
      case Suffix(_) => st.buf != []
      case _ => false
  }

  predicate AnyPending(stages: seq<Stage>, states: seq<State>)
    requires |states| == |stages|
  {
    stages != [] && (Pending(stages[0], states[0]) || AnyPending(stages[1..], states[1..]))
  }

  lemma NoneFromOne(g: Stage, st: State, chunks: seq<string>)
    requires g.fused && Agrees(g.step, false, false) && !Pending(g, st) && Joined(chunks) == ""
    ensures Joined(Streamed(g, st, chunks)) == ""
  {
    if Buffers(g) {
      BufferChunks(g, st, chunks);
      EmptyWhole(g);
      assert st.buf + chunks == chunks;
      JoinedOne("");
    } else {
      match g.step
      case Literal(_, _) => LiteralChunks(g, st, chunks);
      case Metaspace(_, _) => MetaspaceChunks(g, st, chunks);
      case Fuse => FuseStreams(g, st, chunks);
      case Strip(_, _, _) => StripChunks(g, st, chunks);
    }
  }

  /** With nothing pending, the flush shows nothing. */
  lemma {:induction false} DoneShowsNothing(stages: seq<Stage>, states: seq<State>, items: seq<string>, fused: bool)
    requires |states| == |stages| && Chained(stages, fused) && Simple(stages)
    requires !AnyPending(stages, states) && (if fused then Joined(items) == "" else items == [])
    ensures Joined(Run(stages, states, items)) == ""
    decreases |stages|
  {
    if stages != [] {
      var g, st := stages[0], states[0];
      if fused {
        NoneFromOne(g, st, items);
      } else if g.step.Bytes? {
        JoinedOne("");
      }
      DoneShowsNothing(stages[1..], states[1..], Streamed(g, st, items), fused || Fuses(g.step));
    }
  }
}
