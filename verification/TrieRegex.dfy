/** `_trie_regex`: the added tokens as a trie, the trie as a regex, and what a
    backtracking matcher makes of it. */
module TrieRegex {
  /** A node of the nested dict: whether a string ends here (the "" key), and the
      children by character. */
  datatype Trie = Node(ends: bool, kids: map<char, Trie>)

  const EMPTY: Trie := Node(false, map[])

  /** The strings of a trie. */
  predicate Holds(t: Trie, s: string) {
    if s == "" then t.ends else s[0] in t.kids && Holds(t.kids[s[0]], s[1..])
  }

  /** node.setdefault(ch, {}) along s, then node[""] = True. */
  function Insert(t: Trie, s: string): Trie
    decreases |s|
  {
    if s == "" then t.(ends := true)
    else t.(kids := t.kids[s[0] := Insert(if s[0] in t.kids then t.kids[s[0]] else EMPTY, s[1..])])
  }

  lemma {:induction false} InsertHolds(t: Trie, s: string, r: string)
    ensures Holds(Insert(t, s), r) <==> Holds(t, r) || r == s
    decreases |s|
  {
    if s == "" {
    } else if r != "" && r[0] == s[0] {
      InsertHolds(if s[0] in t.kids then t.kids[s[0]] else EMPTY, s[1..], r[1..]);
      assert r == [r[0]] + r[1..] && s == [s[0]] + s[1..];
    }
  }

  /** The trie of the strings, added one by one. */
  function TrieOf(strings: seq<string>): Trie {
    if strings == [] then EMPTY else Insert(TrieOf(strings[..|strings| - 1]), strings[|strings| - 1])
  }

  method BuildTrie(strings: seq<string>) returns (t: Trie)
    ensures t == TrieOf(strings)
  {
    t := EMPTY;
    for i := 0 to |strings|
      invariant t == TrieOf(strings[..i])
    {
      assert strings[..i + 1][..i] == strings[..i];
      t := Insert(t, strings[i]);
    }
    assert strings[..|strings|] == strings;
  }

  lemma {:induction false} TrieHolds(strings: seq<string>, r: string)
    ensures Holds(TrieOf(strings), r) <==> r in strings
  {
    if strings != [] {
      var n := |strings| - 1;
      TrieHolds(strings[..n], r);
      InsertHolds(TrieOf(strings[..n]), strings[n], r);
      assert strings == strings[..n] + [strings[n]];
    }
  }

  /** No dead ends: every node ends a string or goes on. */
  predicate Grown(t: Trie) {
    (t.ends || t.kids != map[]) && GrownBelow(t)
  }

  predicate GrownBelow(t: Trie) {
    forall c :: c in t.kids ==> (t.kids[c].ends || t.kids[c].kids != map[]) && GrownBelow(t.kids[c])
  }

  lemma {:induction false} InsertGrows(t: Trie, s: string)
    requires GrownBelow(t)
    ensures Grown(Insert(t, s))
    decreases |s|
  {
    if s != "" {
      var kid := if s[0] in t.kids then t.kids[s[0]] else EMPTY;
      InsertGrows(kid, s[1..]);
      var r := Insert(t, s);
      assert r.kids == t.kids[s[0] := Insert(kid, s[1..])] && s[0] in r.kids;
    }
  }

  lemma {:induction false} TrieGrows(strings: seq<string>)
    ensures GrownBelow(TrieOf(strings)) && (strings != [] ==> Grown(TrieOf(strings)))
  {
    if strings != [] {
      TrieGrows(strings[..|strings| - 1]);
      InsertGrows(TrieOf(strings[..|strings| - 1]), strings[|strings| - 1]);
    }
  }

  // ----- regular expressions, matched with backtracking -----

  datatype Regex = Nothing | Lit(c: char) | Cat(a: Regex, b: Regex) | Alt(alts: seq<Regex>) | Opt(r: Regex)

  /** Where a match that starts at i can end, in the order in which a
      backtracking matcher tries: alternatives left to right, an optional group
      taken before it is skipped. */
  function Matches(r: Regex, s: string, i: nat): seq<nat>
    decreases r, 0
  {
    match r
    case Nothing => [i]
    case Lit(c) => if i < |s| && s[i] == c then [i + 1] else []
    case Cat(a, b) => MatchesFrom(b, s, Matches(a, s, i))
    case Alt(alts) => MatchesAny(alts, s, i)
    case Opt(q) => Matches(q, s, i) + [i]
  }

  /** r, from each of the positions in turn. */
  function MatchesFrom(r: Regex, s: string, from: seq<nat>): seq<nat>
    decreases r, 1, |from|
  {
    if from == [] then [] else Matches(r, s, from[0]) + MatchesFrom(r, s, from[1..])
  }

  function MatchesAny(alts: seq<Regex>, s: string, i: nat): seq<nat>
    decreases alts, 0
  {
    if alts == [] then [] else Matches(alts[0], s, i) + MatchesAny(alts[1..], s, i)
  }

  /** The end the matcher settles on, or none. */
  datatype Found = NoMatch | EndsAt(end: nat)

  function FirstMatch(r: Regex, s: string, i: nat): Found {
    var es := Matches(r, s, i);
    if es == [] then NoMatch else EndsAt(es[0])
  }

  // ----- the compiler -----

  /** `sorted` of a node's characters. */
  ghost function Sorted(cs: set<char>): (r: seq<char>)
    ensures forall c :: c in r <==> c in cs
    ensures forall i, j :: 0 <= i < j < |r| ==> r[i] < r[j]
    decreases cs
  {
    if cs == {} then [] else
      LeastExists(cs);
      var c :| c in cs && forall d :: d in cs ==> c <= d;
      [c] + Sorted(cs - {c})
  }

  lemma {:induction false} LeastExists(cs: set<char>)
    requires cs != {}
    ensures exists c :: c in cs && forall d :: d in cs ==> c <= d
  {
    var c :| c in cs;
    if cs != {c} {
      LeastExists(cs - {c});
      var e :| e in cs - {c} && forall d :: d in cs - {c} ==> e <= d;
      var least := if c < e then c else e;
      assert forall d :: d in cs ==> d == c || d in cs - {c};
      assert least in cs && forall d :: d in cs ==> least <= d;
    }
  }

  /** build(node). */
  ghost function Build(t: Trie): Regex
    decreases t, 1, 0
  {
    var alts := BuildAlts(t, Sorted(t.kids.Keys));
    if alts == [] then Nothing
    else
      if t.ends then Opt(Body(alts)) else Body(alts)
  }

  ghost function BuildAlts(t: Trie, cs: seq<char>): (r: seq<Regex>)
    requires forall c :: c in cs ==> c in t.kids
    ensures |r| == |cs|
    decreases t, 0, |cs|
  {
    if cs == [] then [] else [Cat(Lit(cs[0]), Build(t.kids[cs[0]]))] + BuildAlts(t, cs[1..])
  }

  // ----- what it matches -----

  /** The ends of the strings of t that stand at i, the longest first. */
  function LongestFirst(t: Trie, s: string, i: nat): seq<nat>
    requires i <= |s|
    decreases |s| - i
  {
    (if i < |s| && s[i] in t.kids then LongestFirst(t.kids[s[i]], s, i + 1) else []) + (if t.ends then [i] else [])
  }

  lemma LitThen(c: char, b: Regex, s: string, i: nat)
    ensures Matches(Cat(Lit(c), b), s, i) == if i < |s| && s[i] == c then Matches(b, s, i + 1) else []
  {
    if i < |s| && s[i] == c {
      assert [i + 1][1..] == [];
      assert MatchesFrom(b, s, [i + 1]) == Matches(b, s, i + 1) + MatchesFrom(b, s, []);
    }
  }

  lemma {:induction false} AltsMatch(t: Trie, cs: seq<char>, s: string, i: nat)
    requires i <= |s|
    requires (forall c :: c in cs ==> c in t.kids) && forall i, j :: 0 <= i < j < |cs| ==> cs[i] < cs[j]
    requires forall c :: c in cs && i < |s| ==> Matches(Build(t.kids[c]), s, i + 1) == LongestFirst(t.kids[c], s, i + 1)
    ensures MatchesAny(BuildAlts(t, cs), s, i) ==
            if i < |s| && s[i] in cs then LongestFirst(t.kids[s[i]], s, i + 1) else []
  {
    if cs != [] {
      AltsMatch(t, cs[1..], s, i);
      LitThen(cs[0], Build(t.kids[cs[0]]), s, i);
      assert BuildAlts(t, cs)[1..] == BuildAlts(t, cs[1..]);
      assert cs[0] !in cs[1..];
      assert forall c :: c in cs <==> c == cs[0] || c in cs[1..];
    }
  }

  function Body(alts: seq<Regex>): Regex
    requires alts != []
  {
    if |alts| == 1 then alts[0] else Alt(alts)
  }

  lemma BodyMatches(alts: seq<Regex>, s: string, i: nat)
    requires alts != []
    ensures Matches(Body(alts), s, i) == MatchesAny(alts, s, i)
  {
    if |alts| == 1 {
      assert alts[1..] == [];
      assert MatchesAny(alts, s, i) == Matches(alts[0], s, i) + MatchesAny([], s, i);
    }
  }

  /** What build makes of the alternatives. */
  lemma WrappedMatches(t: Trie, s: string, i: nat)
    requires i <= |s| && (t.ends || t.kids != map[])
    requires MatchesAny(BuildAlts(t, Sorted(t.kids.Keys)), s, i) ==
             if i < |s| && s[i] in t.kids then LongestFirst(t.kids[s[i]], s, i + 1) else []
    ensures Matches(Build(t), s, i) == LongestFirst(t, s, i)
  {
    var cs := Sorted(t.kids.Keys);
    var alts := BuildAlts(t, cs);
    if alts == [] {
      assert t.kids.Keys == {} by {
        assert forall c :: c in t.kids.Keys ==> c in cs;
      }
    } else {
      BodyMatches(alts, s, i);
    }
  }

  /** The compiled regex tries exactly the strings that stand at i, longest first. */
  lemma {:induction false} BuildMatches(t: Trie, s: string, i: nat)
    requires Grown(t) && i <= |s|
    ensures Matches(Build(t), s, i) == LongestFirst(t, s, i)
    decreases t
  {
    forall c | c in Sorted(t.kids.Keys) && i < |s|
      ensures Matches(Build(t.kids[c]), s, i + 1) == LongestFirst(t.kids[c], s, i + 1)
    {
      BuildMatches(t.kids[c], s, i + 1);
    }
    AltsMatch(t, Sorted(t.kids.Keys), s, i);
    WrappedMatches(t, s, i);
  }

  lemma {:induction false} LongestFirstAre(t: Trie, s: string, i: nat, e: nat)
    requires i <= |s|
    ensures e in LongestFirst(t, s, i) <==> i <= e <= |s| && Holds(t, s[i..e])
    decreases |s| - i
  {
    if i < |s| && s[i] in t.kids {
      LongestFirstAre(t.kids[s[i]], s, i + 1, e);
      if i < e <= |s| {
        assert s[i..e][0] == s[i] && s[i..e][1..] == s[i + 1..e];
      }
    } else if i < e <= |s| {
      assert s[i..e][0] == s[i];
    }
  }

  lemma {:induction false} LongestFirstDescends(t: Trie, s: string, i: nat)
    requires i <= |s|
    ensures forall j :: 0 <= j < |LongestFirst(t, s, i)| ==> LongestFirst(t, s, i)[j] >= i
    ensures forall j, k :: 0 <= j < k < |LongestFirst(t, s, i)| ==> LongestFirst(t, s, i)[j] > LongestFirst(t, s, i)[k]
    decreases |s| - i
  {
    if i < |s| && s[i] in t.kids {
      LongestFirstDescends(t.kids[s[i]], s, i + 1);
    }
  }

  lemma EndsAre(strings: seq<string>, s: string, i: nat, e: nat)
    requires i <= |s|
    ensures e in LongestFirst(TrieOf(strings), s, i) <==> i <= e <= |s| && s[i..e] in strings
  {
    LongestFirstAre(TrieOf(strings), s, i, e);
    if i <= e <= |s| { TrieHolds(strings, s[i..e]); }
  }

  /** The compiled regex of some strings matches at i the longest of them that
      stands there, and fails exactly when none does. */
  lemma MatchesTheLongest(strings: seq<string>, s: string, i: nat)
    requires strings != [] && i <= |s|
    ensures match FirstMatch(Build(TrieOf(strings)), s, i)
            case NoMatch => forall e :: i <= e <= |s| ==> s[i..e] !in strings
            case EndsAt(end) => && i <= end <= |s| && s[i..end] in strings
                                && forall e :: end < e <= |s| ==> s[i..e] !in strings
  {
    hide Matches, Build, TrieOf, LongestFirst;
    var es := LongestFirst(TrieOf(strings), s, i);
    TrieGrows(strings);
    BuildMatches(TrieOf(strings), s, i);
    LongestFirstDescends(TrieOf(strings), s, i);
    if es != [] {
      EndsAre(strings, s, i, es[0]);
    }
    forall e | i <= e <= |s| && (es == [] || es[0] < e)
      ensures s[i..e] !in strings
    {
      EndsAre(strings, s, i, e);
    }
  }

  /** Why no strings at all are never compiled: it would match "" everywhere. */
  lemma NoStringsMatchNothing(s: string, i: nat)
    requires i <= |s|
    ensures FirstMatch(Build(TrieOf([])), s, i) == EndsAt(i)
  {
    assert Sorted(EMPTY.kids.Keys) == [] by {
      assert forall c :: c !in Sorted(EMPTY.kids.Keys);
    }
  }
}
