/** What a decoder step makes of a list of tokens, said without the functions that
    batch and stream share: where a pattern is replaced and by what, what is
    stripped, how byte tokens read, and which token is treated how. */
module Batches {
  import opened Wrappers
  import opened Utf8
  import opened StripText
  import ByteLevel
  import opened Decoders

  // ----- replacing -----

  /** x.join(gaps). */
  function With(gaps: seq<string>, x: string): string
    requires gaps != []
  {
    if |gaps| == 1 then gaps[0] else gaps[0] + x + With(gaps[1..], x)
  }

  predicate Stands(t: string, pat: string, j: nat) {
    j + |pat| <= |t| && t[j..j + |pat|] == pat
  }

  /** pat stands nowhere in t before place n. */
  ghost predicate NoneBefore(t: string, pat: string, n: nat) {
    forall j: nat :: j < n ==> !Stands(t, pat, j)
  }

  /** s.split(pat): pat stands after every gap but the last, there for the first time since
      the pat before it, and no more after that. */
  ghost predicate Cuts(s: string, pat: string, gaps: seq<string>) {
    && gaps != [] && s == With(gaps, pat)
    && (forall i :: 0 <= i < |gaps| - 1 ==> NoneBefore(gaps[i] + pat, pat, |gaps[i]|))
    && NoneBefore(gaps[|gaps| - 1], pat, |gaps[|gaps| - 1]|)
  }

  /** The gaps around and between single characters. */
  function Everywhere(s: string): (gaps: seq<string>)
    ensures gaps != []
  {
    [""] + seq(|s|, i requires 0 <= i < |s| => [s[i]]) + [""]
  }

  /** r is s with put for every pat. */
  ghost predicate Substitutes(s: string, pat: string, put: string, r: string) {
    if pat == "" then r == With(Everywhere(s), put)
    else exists gaps :: Cuts(s, pat, gaps) && r == With(gaps, put)
  }

  lemma WithCons(g: string, gaps: seq<string>, x: string)
    requires gaps != []
    ensures With([g] + gaps, x) == g + x + With(gaps, x)
  {
    assert ([g] + gaps)[1..] == gaps;
  }

  /** A character before the first gap. */
  lemma WithLonger(c: char, gaps: seq<string>, x: string)
    requires gaps != []
    ensures With([[c] + gaps[0]] + gaps[1..], x) == [c] + With(gaps, x)
  {
    if |gaps| > 1 {
      assert ([[c] + gaps[0]] + gaps[1..])[1..] == gaps[1..];
      assert [c] + gaps[0] + x + With(gaps[1..], x) == [c] + (gaps[0] + x + With(gaps[1..], x));
    }
  }

  lemma CutsAgain(s: string, pat: string, gaps: seq<string>)
    requires pat != "" && pat <= s && Cuts(s[|pat|..], pat, gaps)
    ensures Cuts(s, pat, [""] + gaps)
  {
    WithCons("", gaps, pat);
    assert s == "" + pat + s[|pat|..];
  }

  /** What the first gap and the pat after it are in the text. */
  lemma FirstGap(gaps: seq<string>, pat: string)
    requires gaps != []
    ensures (if |gaps| == 1 then gaps[0] else gaps[0] + pat) <= With(gaps, pat)
  {
    if |gaps| > 1 {
      assert With(gaps, pat) == (gaps[0] + pat) + With(gaps[1..], pat);
    }
  }

  lemma CutsLonger(s: string, pat: string, gaps: seq<string>)
    requires pat != "" && s != "" && !(pat <= s) && Cuts(s[1..], pat, gaps)
    ensures Cuts(s, pat, [[s[0]] + gaps[0]] + gaps[1..])
  {
    hide Stands, NoneBefore;
    WithLonger(s[0], gaps, pat);
    FirstGap(gaps, pat);
    var all := [[s[0]] + gaps[0]] + gaps[1..];
    assert s == [s[0]] + s[1..];
    if |gaps| == 1 {
      NotAtFront(s, pat, gaps[0], gaps[0]);
    } else {
      NotAtFront(s, pat, gaps[0] + pat, gaps[0]);
      assert [s[0]] + (gaps[0] + pat) == all[0] + pat;
    }
  }

  lemma NotAtFront(s: string, pat: string, t: string, g: string)
    requires pat != "" && s != "" && !(pat <= s) && t <= s[1..] && NoneBefore(t, pat, |g|)
    ensures NoneBefore([s[0]] + t, pat, |g| + 1)
  {
    var u := [s[0]] + t;
    assert u <= s;
    forall j: nat | j < |g| + 1
      ensures !Stands(u, pat, j)
    {
      if Stands(u, pat, j) {
        if j == 0 {
          StandsFirst(u, s, pat);
        } else {
          StandsBehind(s[0], t, pat, j);
        }
      }
    }
  }

  lemma StandsFirst(u: string, s: string, pat: string)
    requires u <= s && Stands(u, pat, 0)
    ensures pat <= s
  {
    assert u[..|pat|] == s[..|pat|];
  }

  lemma StandsBehind(c: char, t: string, pat: string, j: nat)
    requires j > 0
    ensures Stands([c] + t, pat, j) <==> Stands(t, pat, j - 1)
  {
    if j + |pat| <= |t| + 1 {
      assert ([c] + t)[j..j + |pat|] == t[j - 1..j - 1 + |pat|];
    }
  }

  /** The replaced text keeps the gaps and has `put` for every pat between them. */
  lemma {:induction false} ReplacedIs(s: string, pat: string, put: string) returns (gaps: seq<string>)
    requires pat != ""
    ensures Cuts(s, pat, gaps) && Replaced(s, pat, put) == With(gaps, put)
    decreases |s|
  {
    if s == "" {
      gaps := [""];
    } else if pat <= s {
      gaps := ReplacedIs(s[|pat|..], pat, put);
      CutsAgain(s, pat, gaps);
      WithCons("", gaps, put);
      gaps := [""] + gaps;
    } else {
      gaps := ReplacedIs(s[1..], pat, put);
      CutsLonger(s, pat, gaps);
      WithLonger(s[0], gaps, put);
      gaps := [[s[0]] + gaps[0]] + gaps[1..];
    }
  }

  lemma {:induction false} ReplacedEverywhere(s: string, put: string)
    ensures Replaced(s, "", put) == With(Everywhere(s), put)
    decreases |s|
  {
    if s == "" {
      assert Everywhere(s) == ["", ""] && ["", ""][1..] == [""];
    } else {
      ReplacedEverywhere(s[1..], put);
      var e := Everywhere(s[1..]);
      assert Everywhere(s) == [""] + ([[s[0]]] + e[1..]);
      WithCons("", [[s[0]]] + e[1..], put);
      WithCons([s[0]], e[1..], put);
      WithCons("", e[1..], put);
    }
  }

  lemma ReplacedSubstitutes(s: string, pat: string, put: string)
    ensures Substitutes(s, pat, put, Replaced(s, pat, put))
  {
    if pat == "" {
      ReplacedEverywhere(s, put);
    } else {
      var gaps := ReplacedIs(s, pat, put);
    }
  }

  /** The gaps are the only ones. */
  lemma {:induction false} CutsOnce(s: string, pat: string, a: seq<string>, b: seq<string>)
    requires pat != "" && Cuts(s, pat, a) && Cuts(s, pat, b)
    ensures a == b
    decreases |a|
  {
    FirstGap(a, pat);
    FirstGap(b, pat);
    if |a| == 1 || |b| == 1 {
      LastGap(s, pat, a, b);
    } else {
      SameGap(s, pat, a[0], b[0]);
      var n := |a[0]| + |pat|;
      assert s == (a[0] + pat) + With(a[1..], pat) && s == (b[0] + pat) + With(b[1..], pat);
      assert s[n..] == With(a[1..], pat) && s[n..] == With(b[1..], pat);
      CutsOnce(s[n..], pat, a[1..], b[1..]);
      assert a == [a[0]] + a[1..] && b == [b[0]] + b[1..];
    }
  }

  lemma StandsInPrefix(u: string, s: string, pat: string, j: nat)
    requires u <= s && j + |pat| <= |u|
    ensures Stands(u, pat, j) <==> Stands(s, pat, j)
  {
    assert u[j..j + |pat|] == s[j..j + |pat|];
  }

  /** Two first places of pat are the same place. */
  lemma SameGap(s: string, pat: string, g: string, h: string)
    requires pat != "" && g + pat <= s && h + pat <= s
    requires NoneBefore(g + pat, pat, |g|) && NoneBefore(h + pat, pat, |h|)
    ensures g == h
  {
    assert Stands(g + pat, pat, |g|) && Stands(h + pat, pat, |h|);
    if |g| < |h| {
      StandsInPrefix(g + pat, s, pat, |g|);
      StandsInPrefix(h + pat, s, pat, |g|);
    } else if |h| < |g| {
      StandsInPrefix(h + pat, s, pat, |h|);
      StandsInPrefix(g + pat, s, pat, |h|);
    }
    assert (g + pat)[..|g|] == s[..|g|] && (h + pat)[..|h|] == s[..|h|];
  }

  lemma LastGap(s: string, pat: string, a: seq<string>, b: seq<string>)
    requires pat != "" && Cuts(s, pat, a) && Cuts(s, pat, b) && (|a| == 1 || |b| == 1)
    ensures a == b
  {
    var one, other := if |a| == 1 then a else b, if |a| == 1 then b else a;
    if |other| > 1 {
      PatAfterGap(other, pat);
      assert false;
    }
  }

  lemma PatAfterGap(gaps: seq<string>, pat: string)
    requires pat != "" && |gaps| > 1
    ensures Stands(With(gaps, pat), pat, |gaps[0]|) && |gaps[0]| < |With(gaps, pat)|
  {
    FirstGap(gaps, pat);
    StandsInPrefix(gaps[0] + pat, With(gaps, pat), pat, |gaps[0]|);
  }

  /** The same text for the same gaps, so there is one result. */
  lemma SubstitutesOnce(s: string, pat: string, put: string, r: string)
    ensures Substitutes(s, pat, put, r) <==> r == Replaced(s, pat, put)
  {
    if pat == "" {
      ReplacedEverywhere(s, put);
    } else {
      var gaps := ReplacedIs(s, pat, put);
      forall other | Cuts(s, pat, other) ensures other == gaps {
        CutsOnce(s, pat, other, gaps);
      }
    }
  }

  // ----- stripping -----

  predicate All(t: string, c: string) {
    forall i :: 0 <= i < |t| ==> [t[i]] == c
  }

  /** r is t without at most `start` c's at its start and at most `stop` at its end, as many as there are. */
  ghost predicate Strips(t: string, c: string, start: nat, stop: nat, r: string) {
    exists a, b :: StripsAt(t, c, start, stop, a, b) && r == t[a..b]
  }

  ghost predicate StripsAt(t: string, c: string, start: nat, stop: nat, a: int, b: int) {
    && 0 <= a <= b <= |t|
    && a <= start && All(t[..a], c) && (a == start || a == |t| || [t[a]] != c)
    && |t| - b <= stop && All(t[b..], c) && (|t| - b == stop || b == a || [t[b - 1]] != c)
  }

  lemma {:induction false} LeadingIs(t: string, c: string, most: nat)
    ensures var k := Leading(t, c, most); All(t[..k], c) && (k == most || k == |t| || [t[k]] != c)
    decreases |t|
  {
    if most > 0 && t != "" && [t[0]] == c {
      LeadingIs(t[1..], c, most - 1);
      var k := Leading(t[1..], c, most - 1);
      assert t[..k + 1] == [t[0]] + t[1..][..k];
    }
  }

  lemma {:induction false} TrailingIs(t: string, c: string, most: nat)
    ensures var b := |t| - Trailing(t, c, most); All(t[b..], c) && (|t| - b == most || b == 0 || [t[b - 1]] != c)
    decreases |t|
  {
    if most > 0 && t != "" && [t[|t| - 1]] == c {
      var u := t[..|t| - 1];
      TrailingIs(u, c, most - 1);
      var b := |u| - Trailing(u, c, most - 1);
      assert t[b..] == u[b..] + [t[|t| - 1]];
    }
  }

  lemma StrippedStrips(t: string, c: string, start: nat, stop: nat)
    ensures Strips(t, c, start, stop, Stripped(t, c, start, stop))
  {
    var a := Leading(t, c, start);
    var u := t[a..];
    var b := a + |u| - Trailing(u, c, stop);
    LeadingIs(t, c, start);
    TrailingIs(u, c, stop);
    assert t[b..] == u[b - a..] && t[a..b] == u[..b - a];
    assert StripsAt(t, c, start, stop, a, b);
  }

  // ----- byte tokens -----

  /** A token that stands for a byte: "<0x", two hexadecimal digits or "+" and one, ">". */
  ghost predicate StandsFor(t: string, b: int) {
    exists x: string, h: nat, l: nat :: DigitIs(x, h, l) && t == "<0x" + x + ">" && b == h * 16 + l
  }

  ghost predicate DigitIs(x: string, h: nat, l: nat) {
    && h < 16 && l < 16 && |x| == 2
    && (x[1] == "0123456789ABCDEF"[l] || x[1] == "0123456789abcdef"[l])
    && (x[0] == "0123456789ABCDEF"[h] || x[0] == "0123456789abcdef"[h] || (x[0] == '+' && h == 0))
  }

  lemma DigitOf(c: char, d: nat)
    requires d < 16
    ensures Decoders.Digit(c) == d <==> c == "0123456789ABCDEF"[d] || c == "0123456789abcdef"[d]
  {
  }

  lemma FallbackByteIs(t: string)
    ensures forall b :: StandsFor(t, b) <==> b == FallbackByte(t) >= 0
  {
    forall x: string, h: nat, l: nat | DigitIs(x, h, l) && t == "<0x" + x + ">"
      ensures FallbackByte(t) == h * 16 + l
    {
      assert t[3] == x[0] && t[4] == x[1] && t[..3] == "<0x";
      DigitOf(x[0], h);
      DigitOf(x[1], l);
    }
    if FallbackByte(t) >= 0 {
      var l: nat, h: nat := Decoders.Digit(t[4]), if t[3] == '+' then 0 else Decoders.Digit(t[3]);
      DigitOf(t[4], l);
      DigitOf(t[3], h);
      assert t == "<0x" + t[3..5] + ">";
      assert DigitIs(t[3..5], h, l);
    }
  }

  ghost predicate IsRun(toks: seq<string>, bs: seq<byte>) {
    |toks| == |bs| && forall i :: 0 <= i < |toks| ==> StandsFor(toks[i], bs[i])
  }

  /** A run of bytes shows the text it encodes, or a U+FFFD for each byte. */
  ghost predicate RunShows(run: seq<byte>, shown: seq<string>) {
    if run == [] then shown == []
    else if exists text :: Encode(text) == run then |shown| == 1 && Encode(shown[0]) == run
    else |shown| == |run| && forall i :: 0 <= i < |run| ==> shown[i] == [REPLACEMENT]
  }

  /** Up to the first token that stands for no byte, a run; then that token and the rest. */
  ghost predicate FallsBack(toks: seq<string>, out: seq<string>)
    decreases |toks|
  {
    exists n: nat, bs, shown :: RunAt(toks, n, bs, shown) &&
      if n == |toks| then out == shown
      else exists more :: FallsBack(toks[n + 1..], more) && out == shown + [toks[n]] + more
  }

  ghost predicate RunAt(toks: seq<string>, n: nat, bs: seq<byte>, shown: seq<string>) {
    && n <= |toks| && IsRun(toks[..n], bs) && RunShows(bs, shown)
    && (n < |toks| ==> forall b: byte :: !StandsFor(toks[n], b))
  }

  lemma {:induction false} MarksAre(n: nat)
    ensures |Marks(n)| == n && forall i :: 0 <= i < n ==> Marks(n)[i] == [REPLACEMENT]
  {
    if n > 0 {
      MarksAre(n - 1);
    }
  }

  lemma RunTextShows(run: seq<byte>)
    ensures RunShows(run, RunText(run))
  {
    if run != [] {
      if Strict(run).Well? {
        EncodeDecoded(run);
        assert Encode(Strict(run).text) == run;
      } else {
        MarksAre(|run|);
        forall text ensures Encode(text) != run {
          DecodeEncoded(text);
        }
      }
    }
  }

  lemma {:induction false} FallbackRun(toks: seq<string>, bs: seq<byte>, rest: seq<string>, run: seq<byte>)
    requires IsRun(toks, bs)
    ensures Fallback(toks + rest, run) == Fallback(rest, run + bs)
    decreases |toks|
  {
    if toks == [] {
      assert toks + rest == rest && run + bs == run;
    } else {
      FallbackByteIs(toks[0]);
      assert (toks + rest)[1..] == toks[1..] + rest;
      FallbackRun(toks[1..], bs[1..], rest, run + [bs[0]]);
      assert run + [bs[0]] + bs[1..] == run + bs;
    }
  }

  /** The first run of a list. */
  lemma {:induction false} RunOf(toks: seq<string>) returns (n: nat, bs: seq<byte>)
    ensures n <= |toks| && IsRun(toks[..n], bs) && (n < |toks| ==> forall b: byte :: !StandsFor(toks[n], b))
  {
    n, bs := 0, [];
    if toks != [] {
      FallbackByteIs(toks[0]);
      var b := FallbackByte(toks[0]);
      if b >= 0 {
        n, bs := RunOf(toks[1..]);
        assert toks[..n + 1] == [toks[0]] + toks[1..][..n];
        n, bs := n + 1, [b] + bs;
      }
    }
  }

  lemma {:induction false} FallbackFallsBack(toks: seq<string>)
    ensures FallsBack(toks, Fallback(toks, []))
    decreases |toks|
  {
    hide RunAt, RunText, Fallback;
    var n, bs := FirstRun(toks);
    if n < |toks| {
      FallbackFallsBack(toks[n + 1..]);
    }
  }

  lemma FirstRun(toks: seq<string>) returns (n: nat, bs: seq<byte>)
    ensures RunAt(toks, n, bs, RunText(bs)) && n <= |toks|
    ensures Fallback(toks, []) ==
            if n == |toks| then RunText(bs) else RunText(bs) + [toks[n]] + Fallback(toks[n + 1..], [])
  {
    hide RunText, RunShows, IsRun, StandsFor;
    n, bs := RunOf(toks);
    RunTextShows(bs);
    FallbackRun(toks[..n], bs, toks[n..], []);
    assert toks == toks[..n] + toks[n..] && [] + bs == bs;
    if n < |toks| {
      var t := toks[n];
      FallbackByteIs(t);
      var b := FallbackByte(t);
      assert b < 0 || StandsFor(t, b);
      assert toks[n..][1..] == toks[n + 1..];
    }
  }

  // ----- the steps -----

  /** The bytes of a token: those it spells in the alphabet, or its UTF-8. */
  ghost predicate BytesAre(t: string, bs: seq<byte>) {
    if exists x :: ByteLevel.Spell(x) == t then ByteLevel.Spell(bs) == t else bs == Encode(t)
  }

  function Flat(parts: seq<seq<byte>>): seq<byte> {
    if parts == [] then [] else parts[0] + Flat(parts[1..])
  }

  ghost predicate BytesOfAll(toks: seq<string>, parts: seq<seq<byte>>) {
    |parts| == |toks| && forall k :: 0 <= k < |toks| ==> BytesAre(toks[k], parts[k])
  }

  function Together(toks: seq<string>, x: string): string {
    if toks == [] then "" else With(toks, x)
  }

  /** r is what the step makes of the tokens. */
  ghost predicate Does(g: Stage, toks: seq<string>, cont: bool, r: seq<string>) {
    match g.step
    case Literal(pat, put) =>
      |r| == |toks| && forall k :: 0 <= k < |r| ==> Substitutes(toks[k], pat, put, r[k])
    case Pattern(sub) => |r| == |toks| && forall k :: 0 <= k < |r| ==> r[k] == sub(toks[k])
    case ByteFallback => FallsBack(toks, r)
    case Fuse => r == [Together(toks, "")]
    case Strip(c, start, stop) =>
      && |r| == |toks|
      && forall k :: 0 <= k < |r| ==> Strips(toks[k], c, if cont && g.fused then 0 else start, stop, r[k])
    case Metaspace(repl, never) =>
      && |r| == |toks|
      && forall k :: 0 <= k < |r| ==>
           Substitutes(toks[k], repl, if k == 0 && !cont && !never then "" else " ", r[k])
    case Bytes => exists parts :: BytesOfAll(toks, parts) && r == [Decode(Flat(parts))]
    case Suffix(suffix) =>
      && |r| == |toks|
      && forall k :: 0 <= k < |r| ==> Substitutes(toks[k], suffix, if k == |r| - 1 then "" else " ", r[k])
    case Spaced => r == [(if cont && toks != [] then " " else "") + Together(toks, " ")]
  }

  lemma {:induction false} EachIs<A, B>(f: A -> B, items: seq<A>, k: nat)
    requires k < |items|
    ensures Each(f, items)[k] == f(items[k])
  {
    if k > 0 {
      EachIs(f, items[1..], k - 1);
    }
  }

  lemma {:induction false} SuffixedIs(toks: seq<string>, suffix: string)
    ensures |Suffixed(toks, suffix)| == |toks|
    ensures forall k :: 0 <= k < |toks| ==>
              Suffixed(toks, suffix)[k] == Replaced(toks[k], suffix, if k == |toks| - 1 then "" else " ")
  {
    if toks != [] {
      SuffixedIs(toks[1..], suffix);
    }
  }

  lemma {:induction false} StripsAre(toks: seq<string>, c: string, start: nat, stop: nat)
    ensures |Decoders.Strips(toks, c, start, stop)| == |toks|
    ensures forall k :: 0 <= k < |toks| ==>
              Decoders.Strips(toks, c, start, stop)[k] == Stripped(toks[k], c, start, stop)
  {
    if toks != [] {
      StripsAre(toks[1..], c, start, stop);
    }
  }

  lemma {:induction false} JoinedIs(toks: seq<string>)
    ensures Joined(toks) == Together(toks, "")
  {
    if |toks| == 1 {
      JoinedOne(toks[0]);
      assert toks == [toks[0]];
    } else if toks != [] {
      JoinedIs(toks[1..]);
      assert toks[0] + "" + Joined(toks[1..]) == toks[0] + Joined(toks[1..]);
    }
  }

  lemma {:induction false} WithSpacesIs(toks: seq<string>)
    ensures WithSpaces(toks) == if toks == [] then "" else " " + With(toks, " ")
  {
    if |toks| == 1 {
      assert toks[1..] == [] && WithSpaces(toks) == " " + toks[0] + "";
    } else if toks != [] {
      WithSpacesIs(toks[1..]);
      assert " " + toks[0] + (" " + With(toks[1..], " ")) == " " + (toks[0] + " " + With(toks[1..], " "));
    }
  }

  lemma {:induction false} BytesOfIs(toks: seq<string>) returns (parts: seq<seq<byte>>)
    ensures BytesOfAll(toks, parts) && BytesOf(toks) == Flat(parts)
  {
    parts := [];
    if toks != [] {
      parts := BytesOfIs(toks[1..]);
      ByteLevel.TokenBytesAre(toks[0]);
      parts := [ByteLevel.TokenBytes(toks[0])] + parts;
    }
  }

  /** Every step does that, on every list of tokens, in both modes. */
  lemma BatchDoes(g: Stage, toks: seq<string>, cont: bool)
    ensures Does(g, toks, cont, Batch(g, toks, cont))
  {
    var r := Batch(g, toks, cont);
    match g.step
    case Literal(pat, put) =>
      forall k | 0 <= k < |r| ensures Substitutes(toks[k], pat, put, r[k]) {
        EachIs(t => Replaced(t, pat, put), toks, k);
        ReplacedSubstitutes(toks[k], pat, put);
      }
    case Pattern(sub) =>
      forall k | 0 <= k < |r| ensures r[k] == sub(toks[k]) {
        EachIs(sub, toks, k);
      }
    case ByteFallback => FallbackFallsBack(toks);
    case Fuse => JoinedIs(toks);
    case Strip(c, start, stop) =>
      var lead := if cont && g.fused then 0 else start;
      StripsAre(toks, c, lead, stop);
      forall k | 0 <= k < |r| ensures Strips(toks[k], c, lead, stop, r[k]) {
        StrippedStrips(toks[k], c, lead, stop);
      }
    case Metaspace(repl, never) =>
      forall k | 0 <= k < |r|
        ensures Substitutes(toks[k], repl, if k == 0 && !cont && !never then "" else " ", r[k])
      {
        if k > 0 {
          EachIs(t => Respaced(t, repl, false), toks[1..], k - 1);
        }
        ReplacedSubstitutes(toks[k], repl, if k == 0 && !cont && !never then "" else " ");
      }
    case Bytes => var parts := BytesOfIs(toks);
    case Suffix(suffix) =>
      SuffixedIs(toks, suffix);
      forall k | 0 <= k < |r|
        ensures Substitutes(toks[k], suffix, if k == |r| - 1 then "" else " ", r[k])
      {
        ReplacedSubstitutes(toks[k], suffix, if k == |r| - 1 then "" else " ");
      }
    case Spaced =>
      WithSpacesIs(toks);
      assert "" + Together(toks, " ") == Together(toks, " ");
  }

  /** The steps are done one after the other, all of them. */
  lemma {:induction false} StepsInTurn(a: seq<Stage>, b: seq<Stage>, toks: seq<string>, cont: bool)
    ensures DecodeList(a + b, toks, cont) == DecodeList(b, DecodeList(a, toks, cont), cont)
    ensures DecodeList([], toks, cont) == toks
    ensures a != [] ==> DecodeList([a[0]], toks, cont) == Batch(a[0], toks, cont)
    decreases |a|
  {
    if a == [] {
      assert a + b == b;
    } else {
      assert (a + b)[1..] == a[1..] + b;
      StepsInTurn(a[1..], b, Batch(a[0], toks, cont), cont);
    }
  }
}
