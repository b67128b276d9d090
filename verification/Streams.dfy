/** Each decoder step's stream against its batch: before a fuse the same list,
    after a fuse the same text in other chunks. */
module Streams {
  import opened Wrappers
  import opened Utf8
  import ByteLevel
  import opened StripText
  import opened Decoders

  // ----- one step: the stream against the batch -----

  lemma {:induction false} FallbackStreams(g: Stage, st: State, toks: seq<string>)
    requires g.step.ByteFallback? && !g.fused
    ensures Streamed(g, st, toks) == Fallback(toks, st.bytes)
    decreases |toks|
  {
    if toks != [] {
      StreamedStep(g, st, toks);
      hide PushAll, Streamed, RunText, FallbackByte;
      FallbackStreams(g, Push(g, st, toks[0]).st, toks[1..]);
    }
  }

  lemma {:induction false} EachStreams(g: Stage, f: string -> string, st: State, toks: seq<string>)
    requires g.step.Literal? || g.step.Pattern?
    requires !Buffers(g) && forall s :: Push(g, st, s) == Out(st, [f(s)])
    ensures Streamed(g, st, toks) == Each(f, toks)
    decreases |toks|
  {
    if toks != [] {
      EachStreams(g, f, st, toks[1..]);
    }
  }

  lemma {:induction false} StripStreams(g: Stage, st: State, toks: seq<string>)
    requires g.step.Strip? && !g.fused
    ensures Streamed(g, st, toks) == Strips(toks, g.step.content, g.step.start, g.step.stop)
    decreases |toks|
  {
    if toks != [] {
      StripStreams(g, st, toks[1..]);
    }
  }

  lemma {:induction false} MetaspaceStreams(g: Stage, st: State, toks: seq<string>)
    requires g.step.Metaspace? && !g.fused && !st.first
    ensures Streamed(g, st, toks) == Each(t => Respaced(t, g.step.repl, false), toks)
    decreases |toks|
  {
    if toks != [] {
      MetaspaceStreams(g, st, toks[1..]);
    }
  }

  lemma {:induction false} SuffixStreams(g: Stage, st: State, toks: seq<string>)
    requires g.step.Suffix? && !g.fused && |st.buf| <= 1
    ensures Streamed(g, st, toks) == Suffixed(st.buf + toks, g.step.suffix)
    decreases |toks|
  {
    if toks == [] {
      assert st.buf + toks == st.buf;
    } else {
      SuffixStreams(g, Push(g, st, toks[0]).st, toks[1..]);
      StreamedStep(g, st, toks);
      assert [toks[0]] + toks[1..] == toks;
      if st.buf == [] {
        assert st.buf + toks == toks;
      } else {
        assert (st.buf + toks)[1..] == toks && st.buf + toks != [];
      }
    }
  }

  lemma BytesPush(st: State, s: string)
    ensures var p := Read(st.bytes + ByteLevel.TokenBytes(s));
            Push(Stage(Bytes, false), st, s) == Out(st.(bytes := p.kept), [p.text])
  {
  }

  /** Decoding one more token's bytes. */
  lemma DecodeMore(kept: seq<byte>, now: seq<byte>, later: seq<byte>)
    ensures Decode(kept + (now + later)) == Read(kept + now).text + Decode(Read(kept + now).kept + later)
  {
    hide Decode, Read;
    ReadThenDecode(kept + now, later);
    assert kept + (now + later) == (kept + now) + later;
  }

  lemma {:induction false} BytesStream(st: State, toks: seq<string>)
    ensures Joined(Streamed(Stage(Bytes, false), st, toks)) == Decode(st.bytes + BytesOf(toks))
    decreases |toks|
  {
    if toks == [] {
      assert st.bytes + BytesOf(toks) == st.bytes;
      JoinedOne(Decode(st.bytes));
    } else {
      BytesPush(st, toks[0]);
      StreamedStep(Stage(Bytes, false), st, toks);
      hide Streamed, PushAll, Flush, Push, Decode, Read, ByteLevel.TokenBytes;
      var p := Read(st.bytes + ByteLevel.TokenBytes(toks[0]));
      BytesStream(st.(bytes := p.kept), toks[1..]);
      DecodeMore(st.bytes, ByteLevel.TokenBytes(toks[0]), BytesOf(toks[1..]));
      JoinedCons(p.text, Streamed(Stage(Bytes, false), st.(bytes := p.kept), toks[1..]));
    }
  }

  lemma {:induction false} FuseStreams(g: Stage, st: State, toks: seq<string>)
    requires g.step.Fuse?
    ensures Streamed(g, st, toks) == toks
    decreases |toks|
  {
    if toks != [] {
      FuseStreams(g, st, toks[1..]);
      assert [toks[0]] + toks[1..] == toks;
    }
  }

  lemma WithoutSpace(a: string, b: string)
    ensures (" " + a + b)[1..] == a + b
  {
  }

  lemma SpacedNothing(g: Stage, st: State)
    requires g.step.Spaced?
    ensures Joined(Streamed(g, st, [])) == ""
  {
  }

  lemma SpacedStep(g: Stage, st: State, toks: seq<string>)
    requires g.step.Spaced? && toks != []
    ensures Streamed(g, st, toks) ==
            [if st.first then toks[0] else " " + toks[0]] + Streamed(g, st.(first := false), toks[1..])
  {
    StreamedStep(g, st, toks);
  }

  lemma {:induction false} SpacedStreams(g: Stage, st: State, toks: seq<string>)
    requires g.step.Spaced?
    ensures Joined(Streamed(g, st, toks)) ==
            var s := WithSpaces(toks); if !st.first || s == "" then s else s[1..]
    decreases |toks|
  {
    hide Streamed, Joined;
    if toks == [] {
      SpacedNothing(g, st);
    } else {
      var shown := if st.first then toks[0] else " " + toks[0];
      SpacedStep(g, st, toks);
      SpacedStreams(g, st.(first := false), toks[1..]);
      JoinedCons(shown, Streamed(g, st.(first := false), toks[1..]));
      WithoutSpace(toks[0], WithSpaces(toks[1..]));
    }
  }

  // ----- one step after a fuse: the same text, in other chunks -----

  lemma {:induction false} LiteralChunks(g: Stage, st: State, chunks: seq<string>)
    requires g.step.Literal? && g.fused && |g.step.pat| == 1
    ensures Joined(Streamed(g, st, chunks)) == Replaced(Joined(chunks), g.step.pat, g.step.put)
    decreases |chunks|
  {
    if chunks != [] {
      LiteralChunks(g, st, chunks[1..]);
      StreamedStep(g, st, chunks);
      JoinedCons(Replaced(chunks[0], g.step.pat, g.step.put), Streamed(g, st, chunks[1..]));
      ReplacedConcat(chunks[0], Joined(chunks[1..]), g.step.pat, g.step.put);
    }
  }

  lemma {:induction false} MetaspaceChunks(g: Stage, st: State, chunks: seq<string>)
    requires g.step.Metaspace? && g.fused && |g.step.repl| == 1
    ensures Joined(Streamed(g, st, chunks)) == Respaced(Joined(chunks), g.step.repl, st.first && !g.step.never)
    decreases |chunks|
  {
    if chunks != [] {
      var drop := st.first && !g.step.never;
      MetaspaceChunks(g, st, chunks[1..]);
      StreamedStep(g, st, chunks);
      JoinedCons(Respaced(chunks[0], g.step.repl, drop), Streamed(g, st, chunks[1..]));
      ReplacedConcat(chunks[0], Joined(chunks[1..]), g.step.repl, if drop then "" else " ");
    }
  }

  lemma BufferStep(g: Stage, st: State, chunks: seq<string>)
    requires Buffers(g) && chunks != []
    ensures Streamed(g, st, chunks) == Streamed(g, st.(buf := st.buf + [chunks[0]]), chunks[1..])
  {
    hide Buffers, Flush;
  }

  lemma BufferEnd(g: Stage, st: State)
    requires Buffers(g)
    ensures Streamed(g, st, []) == if st.buf == [] then [] else [Whole(g.step, Joined(st.buf))]
  {
    hide Buffers, Whole;
  }

  lemma {:induction false} BufferChunks(g: Stage, st: State, chunks: seq<string>)
    requires Buffers(g)
    ensures Streamed(g, st, chunks) == if st.buf + chunks == [] then [] else [Whole(g.step, Joined(st.buf + chunks))]
    decreases |chunks|
  {
    hide Streamed, Whole, Buffers, Joined;
    if chunks == [] {
      BufferEnd(g, st);
      assert st.buf + chunks == st.buf;
    } else {
      BufferStep(g, st, chunks);
      BufferChunks(g, st.(buf := st.buf + [chunks[0]]), chunks[1..]);
      assert (st.buf + [chunks[0]]) + chunks[1..] == st.buf + chunks;
    }
  }

  // ----- Strip after a fuse -----

  lemma StripNothing(g: Stage, st: State)
    requires g.step.Strip? && g.fused && CutTail(st.held, g.step.content, g.step.stop) == ""
    ensures Joined(Streamed(g, st, [])) == Rest(g.step.content, g.step.stop, st.lead, st.held, "")
  {
    assert st.held + "" == st.held;
  }

  lemma StripStep(g: Stage, st: State, chunks: seq<string>)
    requires g.step.Strip? && g.fused && chunks != []
    ensures var a := StripPush(g.step.content, g.step.stop, st, chunks[0]);
            Streamed(g, st, chunks) == a.items + Streamed(g, a.st, chunks[1..])
  {
    StreamedStep(g, st, chunks);
  }

  lemma {:induction false} StripChunks(g: Stage, st: State, chunks: seq<string>)
    requires g.step.Strip? && g.fused && CutTail(st.held, g.step.content, g.step.stop) == ""
    ensures Joined(Streamed(g, st, chunks)) == Rest(g.step.content, g.step.stop, st.lead, st.held, Joined(chunks))
    decreases |chunks|
  {
    hide Streamed, CutTail, Rest, Cut;
    var c, stop := g.step.content, g.step.stop;
    if chunks == [] {
      StripNothing(g, st);
    } else {
      StripStep(g, st, chunks);
      var a := StripPush(c, stop, st, chunks[0]);
      CutIs(c, stop, st.lead, st.held, chunks[0]);
      StripChunks(g, a.st, chunks[1..]);
      CutMore(c, stop, st.lead, st.held, chunks[0], Joined(chunks[1..]));
      JoinedCons(a.items[0], Streamed(g, a.st, chunks[1..]));
    }
  }
}
