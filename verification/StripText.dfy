/** Stripping a character from both ends of a text: at once, or chunk by chunk
    with a count of what may still go at the start and a tail held back. */
module StripText {
  function Leading(t: string, c: string, most: nat): (k: nat)
    ensures k <= |t| && k <= most
  {
    if most == 0 || t == "" || [t[0]] != c then 0 else 1 + Leading(t[1..], c, most - 1)
  }

  function Trailing(t: string, c: string, most: nat): (k: nat)
    ensures k <= |t| && k <= most
  {
    if most == 0 || t == "" || [t[|t| - 1]] != c then 0 else 1 + Trailing(t[..|t| - 1], c, most - 1)
  }

  function CutTail(t: string, c: string, most: nat): (v: string)
    ensures |v| <= |t|
  {
    t[..|t| - Trailing(t, c, most)]
  }

  function Stripped(t: string, c: string, start: nat, stop: nat): string {
    CutTail(t[Leading(t, c, start)..], c, stop)
  }

  /** What is left to strip at the start, the tail held back, and what goes out. */
  datatype Piece = Piece(lead: nat, held: string, out: string)

  /** One more chunk. */
  function Cut(c: string, stop: nat, lead: nat, held: string, s: string): Piece {
    var k := Leading(s, c, lead);
    var lead' := if k < |s| then 0 else lead - k;
    if stop == 0 then Piece(lead', held, s[k..])
    else
      var t := held + s[k..];
      Piece(lead', t[|CutTail(t, c, stop)|..], CutTail(t, c, stop))
  }

  /** What the chunks still give for the text to come. */
  function Rest(c: string, stop: nat, lead: nat, held: string, text: string): string {
    CutTail(held + text[Leading(text, c, lead)..], c, stop)
  }

  // ----- the loops -----

  method LeadingRun(t: string, c: string, most: nat) returns (k: nat)
    ensures k == Leading(t, c, most)
  {
    k := 0;
    while k < |t| && k < most && [t[k]] == c
      invariant k <= |t| && k <= most && k + Leading(t[k..], c, most - k) == Leading(t, c, most)
    {
      assert t[k..][1..] == t[k + 1..];
      k := k + 1;
    }
  }

  method TrailingRun(t: string, c: string, most: nat) returns (k: nat)
    ensures k == Trailing(t, c, most)
  {
    k := 0;
    assert t[..|t|] == t;
    while k < most && k < |t| && [t[|t| - 1 - k]] == c
      invariant k <= |t| && k <= most && k + Trailing(t[..|t| - k], c, most - k) == Trailing(t, c, most)
    {
      assert t[..|t| - k][..|t| - k - 1] == t[..|t| - k - 1];
      k := k + 1;
    }
  }

  /** _StripDec.one(). */
  method StripToken(t: string, c: string, start: nat, stop: nat) returns (r: string)
    ensures r == Stripped(t, c, start, stop)
  {
    var a := LeadingRun(t, c, start);
    var b := TrailingRun(t[a..], c, stop);
    r := t[a..][..|t| - a - b];
  }

  /** Strip's push() after a fuse. */
  method CutChunk(c: string, stop: nat, lead0: nat, held: string, s: string) returns (p: Piece)
    ensures p == Cut(c, stop, lead0, held, s)
  {
    var lead, rest := lead0, s;
    if lead > 0 {
      var k := LeadingRun(s, c, lead);
      lead := if k < |s| then 0 else lead - k;
      rest := s[k..];
    } else {
      assert s[0..] == s;
    }
    if stop == 0 {
      return Piece(lead, held, rest);
    }
    var t := held + rest;
    var k := TrailingRun(t, c, stop);
    p := Piece(lead, t[|t| - k..], t[..|t| - k]);
  }

  // ----- runs at the ends of joined texts -----

  lemma {:induction false} LeadingConcat(s: string, t: string, c: string, most: nat)
    ensures Leading(s + t, c, most) ==
            var k := Leading(s, c, most); if k < |s| then k else k + Leading(t, c, most - k)
    decreases |s|
  {
    if s == "" {
      assert s + t == t;
    } else if most > 0 && [s[0]] == c {
      assert (s + t)[1..] == s[1..] + t;
      LeadingConcat(s[1..], t, c, most - 1);
    }
  }

  lemma {:induction false} LeadingCut(t: string, c: string, k: nat)
    requires t != "" && k > 0
    ensures Leading(t, c, k) == k ==> Leading(t[..|t| - 1], c, k - 1) == k - 1
    decreases k
  {
    if k > 1 && |t| > 1 {
      LeadingCut(t[1..], c, k - 1);
      assert t[..|t| - 1][1..] == t[1..][..|t[1..]| - 1];
    }
  }

  /** A run at the end does not reach past a text that ends otherwise or is followed by a full run. */
  lemma {:induction false} TrailingConcat(v: string, t: string, c: string, most: nat, k: nat)
    requires most <= k && (v == "" || [v[|v| - 1]] != c || Leading(t, c, k) == k)
    ensures Trailing(v + t, c, most) == Trailing(t, c, most)
    decreases |t|
  {
    if most == 0 {
    } else if t == "" {
      assert v + t == v;
    } else if [t[|t| - 1]] == c {
      assert (v + t)[..|v + t| - 1] == v + t[..|t| - 1];
      LeadingCut(t, c, k);
      TrailingConcat(v, t[..|t| - 1], c, most - 1, k - 1);
    }
  }

  lemma {:induction false} TailIsRun(t: string, c: string, most: nat, k: nat)
    requires Trailing(t, c, most) <= k
    ensures Leading(t[|CutTail(t, c, most)|..], c, k) == Trailing(t, c, most)
    decreases |t|
  {
    if most > 0 && t != "" && [t[|t| - 1]] == c {
      var t0 := t[..|t| - 1];
      var tail := t0[|CutTail(t0, c, most - 1)|..];
      TailIsRun(t0, c, most - 1, k);
      LeadingConcat(tail, c, c, k);
      assert t[|CutTail(t, c, most)|..] == tail + c;
    }
  }

  lemma {:induction false} CutEndsOff(t: string, c: string, most: nat)
    requires Trailing(t, c, most) < most
    ensures var v := CutTail(t, c, most); v == "" || [v[|v| - 1]] != c
    decreases |t|
  {
    if t != "" && [t[|t| - 1]] == c {
      CutEndsOff(t[..|t| - 1], c, most - 1);
    }
  }

  lemma LeadLater(s: string, t: string, c: string, lead: nat)
    ensures var k := Leading(s, c, lead);
            (s + t)[Leading(s + t, c, lead)..] == s[k..] + t[Leading(t, c, if k < |s| then 0 else lead - k)..]
  {
    LeadingConcat(s, t, c, lead);
  }

  // ----- cutting later -----

  lemma CutNothing(t: string, c: string)
    ensures CutTail(t, c, 0) == t
  {
  }

  lemma UncutPiece(c: string, lead: nat, s: string)
    ensures var k := Leading(s, c, lead);
            Cut(c, 0, lead, "", s) == Piece(if k < |s| then 0 else lead - k, "", s[k..])
  {
    hide Leading;
  }

  /** What a chunk gives, the end stripped or not. */
  lemma CutIs(c: string, stop: nat, lead: nat, held: string, s: string)
    requires CutTail(held, c, stop) == ""
    ensures var k := Leading(s, c, lead);
            var t := held + s[k..];
            Cut(c, stop, lead, held, s) ==
            Piece(if k < |s| then 0 else lead - k, t[|CutTail(t, c, stop)|..], CutTail(t, c, stop))
    ensures CutTail(Cut(c, stop, lead, held, s).held, c, stop) == ""
  {
    hide Leading, CutTail;
    var t := held + s[Leading(s, c, lead)..];
    HeldIsTail(t, c, stop);
    if stop == 0 {
      hide Cut;
      CutNothing(held, c);
      CutNothing(t, c);
      UncutPiece(c, lead, s);
      assert t == s[Leading(s, c, lead)..];
    }
  }

  /** What a chunk gives and what the rest gives is what the text gives. */
  lemma CutMore(c: string, stop: nat, lead: nat, held: string, s: string, text: string)
    requires CutTail(held, c, stop) == ""
    ensures Rest(c, stop, lead, held, s + text) ==
            var p := Cut(c, stop, lead, held, s); p.out + Rest(c, stop, p.lead, p.held, text)
  {
    hide Cut, CutTail, Leading;
    var k := Leading(s, c, lead);
    var t, x := held + s[k..], text[Leading(text, c, if k < |s| then 0 else lead - k)..];
    CutIs(c, stop, lead, held, s);
    LeadLater(s, text, c, lead);
    CutLater(t, c, stop, x);
    assert held + (s[k..] + x) == t + x;
  }

  lemma HeldIsTail(t: string, c: string, most: nat)
    ensures CutTail(t[|CutTail(t, c, most)|..], c, most) == ""
  {
    hide CutTail;
    var v := CutTail(t, c, most);
    CutLater(t, c, most, "");
    assert t + "" == t && t[|v|..] + "" == t[|v|..];
  }

  /** The tail held back, with whatever follows: cutting it later is cutting the whole later. */
  lemma CutLater(t: string, c: string, most: nat, x: string)
    ensures var v := CutTail(t, c, most); CutTail(t + x, c, most) == v + CutTail(t[|v|..] + x, c, most)
  {
    var v := CutTail(t, c, most);
    var held := t[|v|..];
    TailIsRun(t, c, most, most);
    LeadingConcat(held, x, c, most);
    if Trailing(t, c, most) < most {
      CutEndsOff(t, c, most);
    }
    CutTailConcat(v, held + x, c, most);
    assert t + x == v + (held + x);
  }

  /** What is not held back cannot become part of the stripped tail. */
  lemma CutTailConcat(v: string, t: string, c: string, most: nat)
    requires v == "" || [v[|v| - 1]] != c || Leading(t, c, most) == most
    ensures CutTail(v + t, c, most) == v + CutTail(t, c, most)
  {
    TrailingConcat(v, t, c, most, most);
    assert v + t[..|t| - Trailing(t, c, most)] == (v + t)[..|v| + |t| - Trailing(t, c, most)];
  }
}
