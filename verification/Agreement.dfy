/** Where the stream of a step and its batch agree: always before a fuse, and
    after a fuse for exactly the kinds of step named here. */
module Agreement {
  import opened Wrappers
  import opened Utf8
  import ByteLevel
  import opened StripText
  import opened Decoders
  import opened Streams

  // ----- where stream and batch agree -----

  /** The steps whose stream agrees with their batch after a fuse, when at most one
      chunk comes (`sole`) and when at least one does (`some`). */
  predicate Agrees(step: Step, sole: bool, some: bool) {
    match step
    case Metaspace(repl, _) => |repl| == 1 || (sole && (some || repl != ""))
    case Spaced => sole && some
    case _ => true
  }

  /** How many chunks come. */
  predicate Comes(chunks: seq<string>, sole: bool, some: bool) {
    (sole ==> |chunks| <= 1) && (some ==> chunks != [])
  }

  lemma {:induction false} FallbackShows(toks: seq<string>, run: seq<byte>)
    requires toks != [] || run != []
    ensures Fallback(toks, run) != []
    decreases |toks|
  {
    if toks != [] && FallbackByte(toks[0]) >= 0 {
      FallbackShows(toks[1..], run + [FallbackByte(toks[0])]);
    }
  }

  /** Before any fuse the streamed list is the batch's list; a step that fuses gives its one string in chunks. */
  lemma UnfusedAgrees(g: Stage, toks: seq<string>, cont: bool)
    requires !g.fused
    ensures var r := Streamed(g, Start(g, cont), toks);
            && Batch(g, toks, cont) == (if Fuses(g.step) then [Joined(r)] else r)
            && (toks != [] || g.step.Bytes? ==> r != [])
  {
    var st := Start(g, cont);
    match g.step
    case Literal(pat, put) => EachStreams(g, t => Replaced(t, pat, put), st, toks);
    case Pattern(sub) => EachStreams(g, sub, st, toks);
    case ByteFallback =>
      FallbackStreams(g, st, toks);
      if toks != [] {
        FallbackShows(toks, []);
      }
    case Fuse => FuseStreams(g, st, toks);
    case Strip(c, start, stop) =>
      StripStreams(g, st, toks);
    case Metaspace(repl, never) =>
      if toks != [] {
        StreamedStep(g, st, toks);
        MetaspaceStreams(g, Push(g, st, toks[0]).st, toks[1..]);
      }
    case Bytes =>
      BytesStream(st, toks);
      assert st.bytes + BytesOf(toks) == BytesOf(toks);
    case Suffix(suffix) =>
      SuffixStreams(g, st, toks);
      assert st.buf + toks == toks;
    case Spaced => SpacedStreams(g, st, toks);
  }

  function Text(g: Stage, cont: bool, chunks: seq<string>): string {
    Joined(Streamed(g, Start(g, cont), chunks))
  }

  lemma OneFallback(s: string)
    ensures |Fallback([s], [])| == 1
  {
    var b := FallbackByte(s);
    assert [s][1..] == [];
    if b >= 0 {
      assert Marks(1) == [[REPLACEMENT]] + Marks(0);
      assert [] + [b] == [b];
      assert Fallback([s], []) == Fallback([], [b]);
    } else {
      assert Fallback([s], []) == RunText([]) + [s] + Fallback([], []);
    }
  }

  lemma BatchOfOne(g: Stage, s: string, cont: bool)
    requires g.fused && !g.step.Spaced?
    ensures |Batch(g, [s], cont)| == 1
    ensures Buffers(g) ==> Batch(g, [s], cont)[0] == Whole(g.step, s)
  {
    assert [s][1..] == [];
    match g.step
    case ByteFallback =>
      OneFallback(s);
      JoinedOne(Fallback([s], [])[0]);
      assert Fallback([s], []) == [Fallback([s], [])[0]];
    case Bytes =>
      assert BytesOf([s]) == ByteLevel.TokenBytes(s) + BytesOf([]) == ByteLevel.TokenBytes(s);
    case Suffix(suffix) =>
      assert Suffixed([s], suffix) == [Replaced(s, suffix, "")] + Suffixed([], suffix);
    case Strip(c, start, stop) =>
      assert Strips([], c, if cont then 0 else start, stop) == [];
    case _ =>
  }

  /** Nothing in, nothing out. */
  lemma EmptyWhole(g: Stage)
    requires Buffers(g)
    ensures Whole(g.step, "") == ""
  {
    if g.step.ByteFallback? {
      assert Fallback([""], []) == RunText([]) + [""] + RunText([]);
      JoinedOne("");
    }
  }

  lemma FusedStep(g: Stage, st: State, s: string)
    requires g.fused && !Buffers(g)
    ensures |Push(g, st, s).items| == 1 && Flush(g, st) == []
  {
  }

  /** A step after a fuse makes as many chunks as come, or one of them all. */
  lemma {:induction false} ChunksAfter(g: Stage, st: State, chunks: seq<string>)
    requires g.fused && (Buffers(g) ==> st.buf == [])
    ensures var r := Streamed(g, st, chunks);
            && (chunks != [] <==> r != []) && (|chunks| <= 1 || Buffers(g) ==> |r| <= 1)
    ensures !Buffers(g) ==> |Streamed(g, st, chunks)| == |chunks|
    decreases |chunks|
  {
    if Buffers(g) {
      BufferChunks(g, st, chunks);
      assert st.buf + chunks == chunks;
    } else {
      if chunks == [] {
        FusedStep(g, st, "");
      } else {
        FusedStep(g, st, chunks[0]);
        StreamedStep(g, st, chunks);
        hide Push, Flush, Streamed;
        ChunksAfter(g, Push(g, st, chunks[0]).st, chunks[1..]);
      }
    }
  }

  /** A sole chunk: a Metaspace of any replacement, and the join, treat it as the whole. */
  lemma SoleAgrees(g: Stage, chunks: seq<string>, cont: bool, some: bool)
    requires g.fused && (g.step.Metaspace? || g.step.Spaced?)
    requires Agrees(g.step, true, some) && Comes(chunks, true, some) && (g.step.Metaspace? ==> |g.step.repl| != 1)
    ensures Batch(g, [Joined(chunks)], cont) == [Text(g, cont, chunks)]
  {
    if chunks == [] {
      assert Streamed(g, Start(g, cont), []) == [];
      assert [""][1..] == [];
    } else {
      var s, st := chunks[0], Start(g, cont);
      assert chunks == [s] && [s][1..] == [];
      StreamedStep(g, st, [s]);
      FusedStep(g, Push(g, st, s).st, "");
      assert Streamed(g, Push(g, st, s).st, []) == [];
      assert Streamed(g, st, [s]) == [Push(g, st, s).items[0]];
      JoinedOne(s);
      JoinedOne(Push(g, st, s).items[0]);
      assert WithSpaces([s]) == " " + s + WithSpaces([]) == " " + s;
    }
  }

  /** After a fuse: the streamed chunks make up the batch's one string. */
  lemma FusedAgrees(g: Stage, chunks: seq<string>, cont: bool, sole: bool, some: bool)
    requires g.fused && Agrees(g.step, sole, some) && Comes(chunks, sole, some)
    ensures Batch(g, [Joined(chunks)], cont) == [Text(g, cont, chunks)]
  {
    var st, s := Start(g, cont), Joined(chunks);
    if Buffers(g) {
      BatchOfOne(g, s, cont);
      BufferChunks(g, st, chunks);
      assert st.buf + chunks == chunks;
      if chunks == [] {
        EmptyWhole(g);
      } else {
        JoinedOne(Whole(g.step, s));
      }
    } else if g.step.Spaced? || (g.step.Metaspace? && |g.step.repl| != 1) {
      SoleAgrees(g, chunks, cont, some);
    } else {
      BatchOfOne(g, s, cont);
      match g.step
      case Literal(_, _) => LiteralChunks(g, st, chunks);
      case Metaspace(_, _) => MetaspaceChunks(g, st, chunks);
      case Fuse =>
        FuseStreams(g, st, chunks);
        JoinedOne(s);
      case Strip(c, _, stop) =>
        StripChunks(g, st, chunks);
        assert st.held + s[Leading(s, c, st.lead)..] == s[Leading(s, c, st.lead)..];
    }
  }

  lemma {:induction false} ReplacedShort(s: string, pat: string, put: string)
    requires |s| < |pat|
    ensures Replaced(s, pat, put) == s
  {
    if s != "" {
      ReplacedShort(s[1..], pat, put);
      assert [s[0]] + s[1..] == s;
    }
  }

  lemma TextOfTwo(g: Stage, cont: bool, a: string, b: string)
    requires g.fused && (g.step.Metaspace? || g.step.Spaced?)
    ensures var p := Push(g, Start(g, cont), a);
            Text(g, cont, [a, b]) == p.items[0] + Push(g, p.st, b).items[0]
  {
    var p := Push(g, Start(g, cont), a);
    var q := Push(g, p.st, b);
    StreamedStep(g, Start(g, cont), [a, b]);
    assert [a, b][1..] == [b];
    StreamedStep(g, p.st, [b]);
    assert [b][1..] == [];
    assert Streamed(g, q.st, []) == [];
    assert p.items == [p.items[0]] && q.items + [] == [q.items[0]];
    hide Streamed, PushAll, Flush;
    JoinedCons(p.items[0], [q.items[0]]);
    JoinedOne(q.items[0]);
  }

  /** A replacement that is not one character, split over two chunks. */
  lemma MetaspaceDisagrees(g: Stage) returns (a: string, b: string)
    requires g.fused && g.step.Metaspace? && |g.step.repl| != 1
    ensures Batch(g, [Joined([a, b])], true) != [Text(g, true, [a, b])]
  {
    var repl := g.step.repl;
    a, b := if repl == "" then "a" else repl[..1], if repl == "" then "b" else repl[1..];
    TextOfTwo(g, true, a, b);
    JoinedCons(a, [b]);
    JoinedOne(b);
    assert Text(g, true, [a, b]) == Replaced(a, repl, " ") + Replaced(b, repl, " ");
    assert Batch(g, [Joined([a, b])], true) == [Replaced(a + b, repl, " ")];
    if repl == "" {
      SpacedOut();
    } else {
      ReplacedShort(a, repl, " ");
      ReplacedShort(b, repl, " ");
      assert a + b == repl && repl[|repl|..] == "";
      assert Replaced(repl, repl, " ") == " " + Replaced("", repl, " ");
    }
  }

  lemma SpacedOut()
    ensures Replaced("ab", "", " ") == " a b " && Replaced("a", "", " ") == " a " && Replaced("b", "", " ") == " b "
  {
    assert "ab"[1..] == "b" && "a"[1..] == "" && "b"[1..] == "";
    assert Replaced("", "", " ") == " ";
    assert Replaced("b", "", " ") == " b ";
  }

  lemma SpacedDisagrees(g: Stage)
    requires g.fused && g.step.Spaced?
    ensures Batch(g, [Joined(["a", "b"])], false) != [Text(g, false, ["a", "b"])]
  {
    TextOfTwo(g, false, "a", "b");
    JoinedCons("a", ["b"]);
    JoinedOne("b");
    assert WithSpaces(["ab"]) == " " + "ab" + WithSpaces([]);
  }

  /** With no chunk: a join, or a Metaspace of the empty text, makes a space of nothing. */
  lemma NothingDisagrees(g: Stage)
    requires g.fused && (g.step.Spaced? || (g.step.Metaspace? && g.step.repl == ""))
    ensures Batch(g, [Joined([])], true) != [Text(g, true, [])]
  {
    assert Streamed(g, Start(g, true), []) == [];
    assert [""][1..] == [];
    if g.step.Spaced? {
      assert WithSpaces([""]) == " " + "" + WithSpaces([]);
    } else {
      assert Respaced("", "", false) == " ";
    }
  }

  ghost predicate AgreesOn(g: Stage, chunks: seq<string>, cont: bool) {
    Batch(g, [Joined(chunks)], cont) == [Text(g, cont, chunks)]
  }

  /** Exactly the steps that Agrees names stream as they batch after a fuse. */
  lemma AgreesExactly(g: Stage, sole: bool, some: bool)
    requires g.fused
    ensures Agrees(g.step, sole, some) <==>
            forall chunks, cont :: Comes(chunks, sole, some) ==> AgreesOn(g, chunks, cont)
  {
    if Agrees(g.step, sole, some) {
      forall chunks, cont | Comes(chunks, sole, some) ensures AgreesOn(g, chunks, cont) {
        FusedAgrees(g, chunks, cont, sole, some);
      }
    } else if sole {
      NothingDisagrees(g);
      assert Comes([], sole, some) && !AgreesOn(g, [], true);
    } else if g.step.Spaced? {
      SpacedDisagrees(g);
      assert Comes(["a", "b"], sole, some) && !AgreesOn(g, ["a", "b"], false);
    } else {
      var a, b := MetaspaceDisagrees(g);
      assert Comes([a, b], sole, some) && !AgreesOn(g, [a, b], true);
    }
  }
}
