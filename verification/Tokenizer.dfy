/** The BPE model of a word: its symbols, the merge, the bounded word cache; and
    the byte-level tokenizer's round trip from text to ids and back. */
module Tokenizer {
  import opened Wrappers
  import opened Utf8
  import ByteLevel
  import opened BpeMerge
  import Decoders
  import Pipeline

  /** The model's settings; "" is no prefix, no suffix. */
  datatype Model = Model(vocab: map<string, int>, merges: Merges, unk: Option<string>, byteFallback: bool,
                         fuseUnk: bool, ignoreMerges: bool, prefix: string, suffix: string)

  // ----- the symbols of a word -----

  function HexDigit(d: nat): char
    requires d < 16
  {
    if d < 10 then '0' + d as char else 'A' + (d - 10) as char
  }

  /** "<0x%02X>" % b. */
  function ByteToken(b: byte): string {
    "<0x" + [HexDigit(b / 16), HexDigit(b % 16)] + ">"
  }

  function ByteTokens(bs: seq<byte>): (s: seq<string>)
    ensures |s| == |bs|
  {
    if bs == [] then [] else [ByteToken(bs[0])] + ByteTokens(bs[1..])
  }

  predicate AllKnown(vocab: map<string, int>, toks: seq<string>) {
    forall i :: 0 <= i < |toks| ==> toks[i] in vocab
  }

  function IdsOf(vocab: map<string, int>, toks: seq<string>): (ids: seq<int>)
    requires AllKnown(vocab, toks)
    ensures |ids| == |toks|
  {
    seq(|toks|, i requires 0 <= i < |toks| => vocab[toks[i]])
  }

  /** What the vocabulary has for a character: its token, its bytes' tokens, nothing. */
  datatype Found = Known(id: int) | Spelled(ids: seq<int>) | Unknown

  function Look(m: Model, s: string): Found {
    if s in m.vocab then Known(m.vocab[s])
    else if m.byteFallback && AllKnown(m.vocab, ByteTokens(Encode(s))) then
      Spelled(IdsOf(m.vocab, ByteTokens(Encode(s))))
    else Unknown
  }

  /** A character of a word with the subword prefix and the end-of-word suffix. */
  function Affixed(m: Model, w: string, k: nat): string
    requires k < |w|
  {
    (if k > 0 then m.prefix else "") + [w[k]] + (if k == |w| - 1 then m.suffix else "")
  }

  /** The symbols from the k-th character on, an unknown pending or not; None
      when the unknown token is needed and is not in the vocabulary. */
  function SymbolsFrom(m: Model, w: string, k: nat, pending: bool): Option<seq<int>>
    requires k <= |w| && (pending ==> m.unk.Some? && m.unk.value in m.vocab)
    decreases |w| - k
  {
    var u := if pending then [m.vocab[m.unk.value]] else [];
    if k == |w| then Some(u)
    else match Look(m, Affixed(m, w, k))
      case Known(i) => After(u + [i], SymbolsFrom(m, w, k + 1, false))
      case Spelled(ids) => After(ids, SymbolsFrom(m, w, k + 1, pending))
      case Unknown =>
        if m.unk.None? then SymbolsFrom(m, w, k + 1, pending)
        else if m.unk.value !in m.vocab then None
        else After(if m.fuseUnk then [] else u, SymbolsFrom(m, w, k + 1, true))
  }

  function After(ids: seq<int>, rest: Option<seq<int>>): Option<seq<int>> {
    if rest.None? then None else Some(ids + rest.value)
  }

  /** Neither affix, byte fallback nor unknown token. */
  predicate Plain(m: Model) {
    m.prefix == "" && m.suffix == "" && !m.byteFallback && (m.unk.None? || m.unk.value == "")
  }

  function Kept(vocab: map<string, int>, w: string): seq<int> {
    if w == "" then []
    else (if [w[0]] in vocab then [vocab[[w[0]]]] else []) + Kept(vocab, w[1..])
  }

  function Symbols(m: Model, w: string): Option<seq<int>> {
    if Plain(m) then Some(Kept(m.vocab, w)) else SymbolsFrom(m, w, 0, false)
  }

  /** The short cut changes nothing, unless the unknown token is the empty string: then a model without
      affixes and fallback drops what it does not know. */
  lemma ShortCutIsRight(m: Model, w: string)
    ensures m.unk != Some("") ==> Symbols(m, w) == SymbolsFrom(m, w, 0, false)
    ensures m.unk == Some("") ==>
              Symbols(m, w) == if m.prefix == "" && m.suffix == "" && !m.byteFallback then Some(Kept(m.vocab, w))
                               else SymbolsFrom(m, w, 0, false)
  {
    if Plain(m) && m.unk.None? {
      PlainIsGeneral(m, w, 0);
      assert w[0..] == w;
    }
  }

  /** The short cut for plain models drops what the general loop drops. */
  lemma {:induction false} PlainIsGeneral(m: Model, w: string, k: nat)
    requires Plain(m) && m.unk.None? && k <= |w|
    ensures SymbolsFrom(m, w, k, false) == Some(Kept(m.vocab, w[k..]))
    decreases |w| - k
  {
    if k < |w| {
      PlainIsGeneral(m, w, k + 1);
      assert w[k..][1..] == w[k + 1..];
      assert Affixed(m, w, k) == [w[k]] && w[k..][0] == w[k];
      SymbolsStep(m, w, k);
      assert [] + Kept(m.vocab, w[k + 1..]) == Kept(m.vocab, w[k + 1..]);
    }
  }

  /** The symbols from a character on, no unknown pending. */
  lemma SymbolsStep(m: Model, w: string, k: nat)
    requires k < |w|
    ensures var rest, found := SymbolsFrom(m, w, k + 1, false), Look(m, Affixed(m, w, k));
            && (found.Known? ==> SymbolsFrom(m, w, k, false) == After([found.id], rest))
            && (found.Spelled? ==> SymbolsFrom(m, w, k, false) == After(found.ids, rest))
            && (found.Unknown? && m.unk.None? ==> SymbolsFrom(m, w, k, false) == rest)
  {
    hide Look, Affixed;
    var u: seq<int> := [];
    if Look(m, Affixed(m, w, k)).Known? {
      assert u + [Look(m, Affixed(m, w, k)).id] == [Look(m, Affixed(m, w, k)).id];
    }
  }

  lemma AfterBoth(a: seq<int>, b: seq<int>, rest: Option<seq<int>>)
    ensures After(a, After(b, rest)) == After(a + b, rest)
  {
    if rest.Some? {
      assert a + (b + rest.value) == a + b + rest.value;
    }
  }

  lemma AfterNothing(rest: Option<seq<int>>)
    ensures After([], rest) == rest
  {
    if rest.Some? {
      assert [] + rest.value == rest.value;
    }
  }

  /** The loop of _symbols. */
  method ReadSymbols(m: Model, w: string) returns (r: Option<seq<int>>)
    ensures r == Symbols(m, w)
  {
    if Plain(m) {
      return Some(Kept(m.vocab, w));
    }
    var sym: seq<int> := [];
    var unk: Option<int> := None;
    AfterNothing(SymbolsFrom(m, w, 0, false));
    for k := 0 to |w|
      invariant unk.Some? ==> m.unk.Some? && m.unk.value in m.vocab && unk.value == m.vocab[m.unk.value]
      invariant Symbols(m, w) == After(sym, SymbolsFrom(m, w, k, unk.Some?))
    {
      hide Affixed, Symbols;
      var found := Look(m, Affixed(m, w, k));
      hide Look;
      var before := if unk.Some? then [unk.value] else [];
      match found
      case Known(i) =>
        AfterBoth(sym, before + [i], SymbolsFrom(m, w, k + 1, false));
        sym, unk := sym + (before + [i]), None;
      case Spelled(ids) =>
        AfterBoth(sym, ids, SymbolsFrom(m, w, k + 1, unk.Some?));
        sym := sym + ids;
      case Unknown =>
        if m.unk.Some? {
          if m.unk.value !in m.vocab {
            return None;
          }
          if unk.Some? && !m.fuseUnk {
            AfterBoth(sym, before, SymbolsFrom(m, w, k + 1, true));
            sym := sym + before;
          } else {
            AfterNothing(SymbolsFrom(m, w, k + 1, true));
          }
          unk := Some(m.vocab[m.unk.value]);
        }
    }
    if unk.Some? {
      sym := sym + [unk.value];
    }
    assert sym + [] == sym;
    r := Some(sym);
  }

  // ----- which symbols, and where the unknown ones go -----

  /** What the vocabulary has for the k-th character. */
  function FoundAt(m: Model, w: string, k: nat): Found
    requires k < |w|
  {
    Look(m, Affixed(m, w, k))
  }

  /** An unknown character before the k-th has not been written: no known one came after it. */
  ghost predicate Waits(m: Model, w: string, k: nat)
    requires k <= |w|
  {
    m.unk.Some? && exists j :: 0 <= j < k && UnknownSince(m, w, j, k)
  }

  ghost predicate UnknownSince(m: Model, w: string, j: nat, k: nat)
    requires j < k <= |w|
  {
    FoundAt(m, w, j).Unknown? && forall i :: j < i < k ==> !FoundAt(m, w, i).Known?
  }

  /** The k-th character cannot be read: it is unknown, and so is the unknown token. */
  predicate Unreadable(m: Model, w: string, k: nat)
    requires k < |w|
  {
    FoundAt(m, w, k).Unknown? && m.unk.Some? && m.unk.value !in m.vocab
  }

  /** What is written at the k-th character, the end of the word included: a waiting unknown token before a known
      character, before another unknown one unless they are fused, and at the end, but behind characters
      spelled in bytes; then the character's own tokens. */
  ghost function Written(m: Model, w: string, k: nat): seq<int>
    requires k <= |w|
  {
    var u := if Waits(m, w, k) && m.unk.value in m.vocab then [m.vocab[m.unk.value]] else [];
    if k == |w| then u
    else match FoundAt(m, w, k)
      case Known(i) => u + [i]
      case Spelled(ids) => ids
      case Unknown => if m.fuseUnk then [] else u
  }

  ghost function WrittenFrom(m: Model, w: string, k: nat): seq<int>
    requires k <= |w|
    decreases |w| - k
  {
    Written(m, w, k) + if k == |w| then [] else WrittenFrom(m, w, k + 1)
  }

  lemma WaitsOn(m: Model, w: string, k: nat)
    requires k < |w|
    ensures Waits(m, w, k + 1) <==>
            m.unk.Some? && (FoundAt(m, w, k).Unknown? || (FoundAt(m, w, k).Spelled? && Waits(m, w, k)))
  {
    hide FoundAt;
    if m.unk.Some? && FoundAt(m, w, k).Unknown? {
      assert UnknownSince(m, w, k, k + 1);
    }
    if Waits(m, w, k) && FoundAt(m, w, k).Spelled? {
      var j :| 0 <= j < k && UnknownSince(m, w, j, k);
      assert UnknownSince(m, w, j, k + 1);
    }
    if Waits(m, w, k + 1) && !FoundAt(m, w, k).Unknown? {
      var j :| 0 <= j < k + 1 && UnknownSince(m, w, j, k + 1);
      assert UnknownSince(m, w, j, k);
    }
  }

  /** The symbols from the k-th character on, an unknown pending exactly when one waits: what is written
      there and after it, unless a character cannot be read. */
  lemma {:induction false} SymbolsAreWritten(m: Model, w: string, k: nat, pending: bool)
    requires k <= |w| && (pending <==> Waits(m, w, k)) && (pending ==> m.unk.Some? && m.unk.value in m.vocab)
    ensures SymbolsFrom(m, w, k, pending).None? <==> exists i :: k <= i < |w| && Unreadable(m, w, i)
    ensures SymbolsFrom(m, w, k, pending).Some? ==> SymbolsFrom(m, w, k, pending).value == WrittenFrom(m, w, k)
    decreases |w| - k
  {
    if k == |w| {
      assert Written(m, w, k) + [] == Written(m, w, k);
    } else if !Unreadable(m, w, k) {
      WaitsOn(m, w, k);
      var found := FoundAt(m, w, k);
      var later := m.unk.Some? && (found.Unknown? || (found.Spelled? && pending));
      SymbolsAreWritten(m, w, k + 1, later);
      hide Look, Affixed, Waits, Unreadable, WrittenFrom;
      WrittenNext(m, w, k);
      SymbolsNext(m, w, k, pending);
      assert forall i :: k <= i < |w| && Unreadable(m, w, i) ==> i != k;
    }
  }

  lemma WrittenNext(m: Model, w: string, k: nat)
    requires k < |w|
    ensures WrittenFrom(m, w, k) == Written(m, w, k) + WrittenFrom(m, w, k + 1)
  {
  }

  /** One turn, for a character that can be read. */
  lemma SymbolsNext(m: Model, w: string, k: nat, pending: bool)
    requires k < |w| && (pending <==> Waits(m, w, k)) && (pending ==> m.unk.Some? && m.unk.value in m.vocab)
    requires !Unreadable(m, w, k)
    ensures var found := FoundAt(m, w, k);
            var later := m.unk.Some? && (found.Unknown? || (found.Spelled? && pending));
            SymbolsFrom(m, w, k, pending) == After(Written(m, w, k), SymbolsFrom(m, w, k + 1, later))
  {
    hide Look, Affixed, Waits;
    var found := FoundAt(m, w, k);
    if found.Unknown? && m.unk.None? {
      AfterNothing(SymbolsFrom(m, w, k + 1, false));
    }
  }

  /** How many tokens the k-th character has. */
  function TokensOf(m: Model, w: string, k: nat): nat
    requires k < |w|
  {
    match FoundAt(m, w, k)
    case Known(_) => 1
    case Spelled(ids) => |ids|
    case Unknown => if m.unk.Some? then 1 else 0
  }

  function TokensFrom(m: Model, w: string, k: nat): nat
    requires k <= |w|
    decreases |w| - k
  {
    if k == |w| then 0 else TokensOf(m, w, k) + TokensFrom(m, w, k + 1)
  }

  /** Unknown tokens that are not fused: none is lost and none is added. */
  lemma {:induction false} SymbolsAreCounted(m: Model, w: string, k: nat, pending: bool)
    requires k <= |w| && !m.fuseUnk && (pending ==> m.unk.Some? && m.unk.value in m.vocab)
    ensures SymbolsFrom(m, w, k, pending).Some? ==>
              |SymbolsFrom(m, w, k, pending).value| == TokensFrom(m, w, k) + if pending then 1 else 0
    decreases |w| - k
  {
    if k < |w| {
      hide Look, Affixed;
      SymbolsAreCounted(m, w, k + 1, false);
      if m.unk.Some? && m.unk.value in m.vocab {
        SymbolsAreCounted(m, w, k + 1, true);
      }
    }
  }

  /** A character's token without the subword prefix before it. */
  function Bared(m: Model, w: string, k: nat): string
    requires k < |w|
  {
    Affixed(m, w, k)[if k > 0 then |m.prefix| else 0..]
  }

  function BaredFrom(m: Model, w: string, k: nat): string
    requires k <= |w|
    decreases |w| - k
  {
    if k == |w| then "" else Bared(m, w, k) + BaredFrom(m, w, k + 1)
  }

  /** Every character but the first carries the prefix; without it the tokens spell the word and the suffix. */
  lemma {:induction false} AffixesSpell(m: Model, w: string, k: nat)
    requires k < |w|
    ensures forall i :: k <= i < |w| && i > 0 ==> m.prefix <= Affixed(m, w, i)
    ensures BaredFrom(m, w, k) == w[k..] + m.suffix
    decreases |w| - k
  {
    hide Affixed;
    AffixedIs(m, w, k);
    if k < |w| - 1 {
      AffixesSpell(m, w, k + 1);
      assert BaredFrom(m, w, k) == [w[k]] + (w[k + 1..] + m.suffix);
      assert w[k..] == [w[k]] + w[k + 1..];
    } else {
      assert w[k..] == [w[k]] && BaredFrom(m, w, k) == Bared(m, w, k) + "";
    }
  }

  lemma AffixedIs(m: Model, w: string, k: nat)
    requires k < |w|
    ensures k > 0 ==> m.prefix <= Affixed(m, w, k)
    ensures Bared(m, w, k) == [w[k]] + if k == |w| - 1 then m.suffix else ""
  {
    var rest := [w[k]] + if k == |w| - 1 then m.suffix else "";
    assert Affixed(m, w, k) == (if k > 0 then m.prefix else "") + rest;
  }

  // ----- the symbols spell the word -----

  /** Every character of w has a token. */
  predicate Covered(vocab: map<string, int>, w: string) {
    forall i :: 0 <= i < |w| ==> [w[i]] in vocab
  }

  lemma {:induction false} KeptSpells(vocab: map<string, int>, name: int -> string, w: string)
    requires NamesThem(name, vocab) && Covered(vocab, w)
    ensures Text(name, Kept(vocab, w)) == w
  {
    if w != "" {
      assert [w[0]] in vocab;
      KeptSpells(vocab, name, w[1..]);
      assert Kept(vocab, w)[1..] == Kept(vocab, w[1..]);
      assert [w[0]] + w[1..] == w;
    }
  }

  lemma ByteTokenReads(b: byte)
    ensures Decoders.FallbackByte(ByteToken(b)) == b
  {
    var t := ByteToken(b);
    assert |t| == 6 && t[..3] == "<0x" && t[5] == '>' && t[3] == HexDigit(b / 16) && t[4] == HexDigit(b % 16);
  }

  lemma {:induction false} NamesOfConcat(name: int -> string, a: seq<int>, b: seq<int>)
    ensures Decoders.Each(name, a + b) == Decoders.Each(name, a) + Decoders.Each(name, b)
  {
    if a == [] {
      assert a + b == b;
    } else {
      assert (a + b)[1..] == a[1..] + b;
      NamesOfConcat(name, a[1..], b);
    }
  }

  lemma {:induction false} NamesOfIds(vocab: map<string, int>, name: int -> string, toks: seq<string>)
    requires NamesThem(name, vocab) && AllKnown(vocab, toks)
    ensures Decoders.Each(name, IdsOf(vocab, toks)) == toks
  {
    if toks != [] {
      assert toks[0] in vocab;
      NamesOfIds(vocab, name, toks[1..]);
      assert IdsOf(vocab, toks)[1..] == IdsOf(vocab, toks[1..]);
      assert [toks[0]] + toks[1..] == toks;
    }
  }

  /** Byte tokens join the run. */
  lemma {:induction false} RunGrows(bs: seq<byte>, rest: seq<string>, run: seq<byte>)
    ensures Decoders.Fallback(ByteTokens(bs) + rest, run) == Decoders.Fallback(rest, run + bs)
    decreases |bs|
  {
    if bs == [] {
      assert ByteTokens(bs) + rest == rest && run + bs == run;
    } else {
      ByteTokenReads(bs[0]);
      assert (ByteTokens(bs) + rest)[1..] == ByteTokens(bs[1..]) + rest;
      RunGrows(bs[1..], rest, run + [bs[0]]);
      assert run + [bs[0]] + bs[1..] == run + bs;
    }
  }

  lemma RunIsText(p: string)
    ensures Decoders.Joined(Decoders.RunText(Encode(p))) == p
  {
    DecodeEncoded(p);
    Decoders.JoinedOne(p);
    if Encode(p) == [] {
      assert p == "";
    }
  }

  lemma NameAndRest(name: int -> string, id: int, rest: seq<int>)
    ensures Decoders.Each(name, [id] + rest) == [name(id)] + Decoders.Each(name, rest)
  {
    assert ([id] + rest)[1..] == rest;
  }

  lemma KnownEndsRun(c: string, toks: seq<string>, run: seq<byte>)
    requires |c| == 1
    ensures Decoders.Fallback([c] + toks, run) == Decoders.RunText(run) + [c] + Decoders.Fallback(toks, [])
  {
    assert ([c] + toks)[1..] == toks;
  }

  /** A token that is a character ends the run and stands for itself. */
  lemma KnownShows(name: int -> string, id: int, c: string, rest: seq<int>, p: string)
    requires name(id) == c && |c| == 1
    ensures Decoders.Joined(Decoders.Fallback(Decoders.Each(name, [id] + rest), Encode(p))) ==
            p + (c + Decoders.Joined(Decoders.Fallback(Decoders.Each(name, rest), [])))
  {
    hide Decoders.RunText, Decoders.Joined, Decoders.Fallback, Decoders.FallbackByte, Decoders.Each, Encode;
    var toks := Decoders.Each(name, rest);
    NameAndRest(name, id, rest);
    RunIsText(p);
    KnownEndsRun(c, toks, Encode(p));
    ShownAfter(Encode(p), c, Decoders.Fallback(toks, []));
    assert p + c + Decoders.Joined(Decoders.Fallback(toks, [])) ==
           p + (c + Decoders.Joined(Decoders.Fallback(toks, [])));
  }

  /** A character spelled in byte tokens joins the run. */
  lemma SpelledShows(vocab: map<string, int>, name: int -> string, c: string, rest: seq<int>, p: string)
    requires NamesThem(name, vocab) && AllKnown(vocab, ByteTokens(Encode(c)))
    ensures Decoders.Fallback(Decoders.Each(name, IdsOf(vocab, ByteTokens(Encode(c))) + rest), Encode(p)) ==
            Decoders.Fallback(Decoders.Each(name, rest), Encode(p + c))
  {
    hide Decoders.Fallback, Decoders.Each, ByteTokens, Encode;
    NamesOfConcat(name, IdsOf(vocab, ByteTokens(Encode(c))), rest);
    NamesOfIds(vocab, name, ByteTokens(Encode(c)));
    RunGrows(Encode(c), Decoders.Each(name, rest), Encode(p));
    EncodeConcat(p, c);
  }

  /** From the k-th character on, after a run of p's bytes, the symbols decode to p and the rest of the word. */
  ghost predicate ReadsOn(m: Model, name: int -> string, w: string, k: nat, p: string)
    requires k <= |w|
  {
    var ids := SymbolsFrom(m, w, k, false);
    ids.Some? && Decoders.Joined(Decoders.Fallback(Decoders.Each(name, ids.value), Encode(p))) == p + w[k..]
  }

  lemma KnownReadsOn(m: Model, name: int -> string, w: string, k: nat, p: string)
    requires k < |w| && Affixed(m, w, k) == [w[k]] && [w[k]] in m.vocab && name(m.vocab[[w[k]]]) == [w[k]]
    requires ReadsOn(m, name, w, k + 1, "")
    ensures ReadsOn(m, name, w, k, p)
  {
    hide SymbolsFrom, Decoders.Joined, Decoders.Fallback, Decoders.Each, Encode, Affixed;
    SymbolsStep(m, w, k);
    NoBytes();
    KnownShows(name, m.vocab[[w[k]]], [w[k]], SymbolsFrom(m, w, k + 1, false).value, p);
    assert "" + w[k + 1..] == w[k + 1..];
    assert [w[k]] + w[k + 1..] == w[k..];
  }

  lemma SpelledIs(m: Model, c: string)
    requires c !in m.vocab && m.byteFallback && AllKnown(m.vocab, ByteTokens(Encode(c)))
    ensures Look(m, c) == Spelled(IdsOf(m.vocab, ByteTokens(Encode(c))))
  {
  }

  lemma SpelledReadsOn(m: Model, name: int -> string, w: string, k: nat, p: string)
    requires k < |w| && Affixed(m, w, k) == [w[k]] && [w[k]] !in m.vocab && m.byteFallback
    requires NamesThem(name, m.vocab) && AllKnown(m.vocab, ByteTokens(Encode([w[k]])))
    requires ReadsOn(m, name, w, k + 1, p + [w[k]])
    ensures ReadsOn(m, name, w, k, p)
  {
    hide SymbolsFrom, Decoders.Joined, Decoders.Fallback, Decoders.Each, Encode, ByteTokens, Affixed, NamesThem,
         AllKnown;
    SpelledIs(m, [w[k]]);
    hide Look;
    SymbolsStep(m, w, k);
    SpelledShows(m.vocab, name, [w[k]], SymbolsFrom(m, w, k + 1, false).value, p);
    assert p + [w[k]] + w[k + 1..] == p + w[k..];
  }

  /** Byte fallback loses nothing: decoding the symbols' tokens gives the word back. */
  lemma {:induction false} FallbackRoundTrip(m: Model, name: int -> string, w: string, k: nat, p: string)
    requires m.prefix == "" && m.suffix == "" && m.byteFallback && NamesThem(name, m.vocab)
    requires forall b: byte :: ByteToken(b) in m.vocab
    requires k <= |w|
    ensures ReadsOn(m, name, w, k, p)
    decreases |w| - k
  {
    if k == |w| {
      RunIsText(p);
      assert p + w[k..] == p;
    } else {
      assert Affixed(m, w, k) == [w[k]];
      hide ReadsOn, Affixed;
      if [w[k]] in m.vocab {
        FallbackRoundTrip(m, name, w, k + 1, "");
        KnownReadsOn(m, name, w, k, p);
      } else {
        BytesKnown(m, Encode([w[k]]));
        FallbackRoundTrip(m, name, w, k + 1, p + [w[k]]);
        SpelledReadsOn(m, name, w, k, p);
      }
    }
  }

  lemma NoBytes()
    ensures Encode("") == []
  {
  }

  lemma BytesKnown(m: Model, bs: seq<byte>)
    requires forall b: byte :: ByteToken(b) in m.vocab
    ensures AllKnown(m.vocab, ByteTokens(bs))
  {
    forall i | 0 <= i < |bs| ensures ByteTokens(bs)[i] in m.vocab {
      ByteTokenAt(bs, i);
    }
  }

  lemma {:induction false} ByteTokenAt(bs: seq<byte>, i: nat)
    requires i < |bs|
    ensures ByteTokens(bs)[i] == ByteToken(bs[i])
  {
    if i > 0 {
      ByteTokenAt(bs[1..], i - 1);
    }
  }

  lemma ShownAfter(run: seq<byte>, t: string, rest: seq<string>)
    ensures Decoders.Joined(Decoders.RunText(run) + [t] + rest) ==
            Decoders.Joined(Decoders.RunText(run)) + t + Decoders.Joined(rest)
  {
    Decoders.JoinedConcat(Decoders.RunText(run) + [t], rest);
    Decoders.JoinedConcat(Decoders.RunText(run), [t]);
    Decoders.JoinedOne(t);
  }

  // ----- a word's tokens -----

  /** What tokenize() returns, cache or not; None when the symbols cannot be read. */
  function Tokenized(m: Model, w: string): Option<seq<int>> {
    if m.ignoreMerges && w in m.vocab then Some([m.vocab[w]])
    else
      var s := Symbols(m, w);
      if s.None? then None else Some(Merged(m.merges, s.value))
  }

  /** Longer words are not cached. */
  const CACHED_LENGTH: nat := 256

  /** The words of the cache after one more, oldest first. */
  function Queued(order: seq<string>, w: string, most: nat): seq<string> {
    if |order| + 1 > most then (order + [w])[1..] else order + [w]
  }

  /** The cache keeps the words added last, w among them, as many as it may. */
  lemma QueuedAreLatest(order: seq<string>, w: string, most: nat)
    requires |order| <= most && most > 0
    ensures var q := Queued(order, w, most);
            && |q| == (if |order| < most then |order| + 1 else most)
            && q == (order + [w])[|order| + 1 - |q|..] && q[|q| - 1] == w
  {
  }

  predicate Cacheable(m: Model, w: string, most: nat) {
    !(m.ignoreMerges && w in m.vocab) && Tokenized(m, w).Some? && most > 0 && |w| < CACHED_LENGTH
  }

  ghost predicate NoRepeats(order: seq<string>) {
    forall i, j :: 0 <= i < j < |order| ==> order[i] != order[j]
  }

  lemma Oldest(order: seq<string>, x: string)
    requires NoRepeats(order) && order != []
    ensures x in order[1..] <==> x in order && x != order[0]
  {
    if x in order && x != order[0] {
      var i :| 0 <= i < |order| && order[i] == x;
      assert order[1..][i - 1] == x;
    }
  }

  /** The BPE model and its cache, a dictionary in insertion order. */
  class Bpe {
    const m: Model
    const most: nat
    var cache: map<string, seq<int>>
    var order: seq<string>

    ghost predicate Valid()
      reads this
    {
      && Ranked(m.merges)
      && |order| <= most && NoRepeats(order)
      && (forall w :: w in cache <==> w in order)
      && (forall w :: w in cache ==> Cacheable(m, w, most) && Tokenized(m, w) == Some(cache[w]))
    }

    constructor (m: Model, most: nat)
      requires Ranked(m.merges)
      ensures Valid() && this.m == m && this.most == most && order == []
    {
      this.m, this.most := m, most;
      cache, order := map[], [];
    }

    /** tokenize(): the same tokens whatever the cache holds, and never more than `most` words in it. */
    method Tokenize(w: string) returns (r: Option<seq<int>>)
      requires Valid()
      modifies this
      ensures Valid()
      ensures r == Tokenized(m, w)
      ensures m.ignoreMerges && w in m.vocab ==> r == Some([m.vocab[w]])
      ensures order == if Cacheable(m, w, most) && w !in old(order) then Queued(old(order), w, most) else old(order)
    {
      if m.ignoreMerges && w in m.vocab {
        return Some([m.vocab[w]]);
      }
      if w in cache {
        return Some(cache[w]);
      }
      var sym := ReadSymbols(m, w);
      if sym.None? {
        return None;
      }
      var ids := Merge(m.merges, sym.value);
      if most > 0 && |w| < CACHED_LENGTH {
        Remember(w, ids);
      }
      r := Some(ids);
    }

    method Remember(w: string, ids: seq<int>)
      requires Valid() && w !in order && Cacheable(m, w, most) && Tokenized(m, w) == Some(ids)
      modifies this
      ensures Valid() && order == Queued(old(order), w, most)
    {
      hide Tokenized, Ranked;
      cache, order := cache[w := ids], order + [w];
      if |order| > most {
        ghost var was := order;
        cache, order := cache - {order[0]}, order[1..];
        forall x ensures x in cache <==> x in order {
          Oldest(was, x);
        }
      }
    }
  }

  // ----- the byte-level round trip -----

  /** What a token id stands for; "" for none. */
  function NameIn(names: seq<Option<string>>, i: int): string {
    if 0 <= i < |names| && names[i].Some? then names[i].value else ""
  }

  /** A byte-level model: no affix, no fallback, no unknown token, a token for every byte's
      character, and merges that name concatenations. */
  ghost predicate ByteLevelModel(m: Model, names: seq<Option<string>>) {
    && Plain(m)
    && NamesThem(i => NameIn(names, i), m.vocab)
    && (forall b: byte :: [ByteLevel.CharOf(b)] in m.vocab)
    && Concatenates(m.merges, i => NameIn(names, i))
  }

  lemma {:induction false} SpelledIsCovered(vocab: map<string, int>, bs: seq<byte>)
    requires forall b: byte :: [ByteLevel.CharOf(b)] in vocab
    ensures Covered(vocab, ByteLevel.Spell(bs))
  {
    if bs != [] {
      SpelledIsCovered(vocab, bs[1..]);
      var s := ByteLevel.Spell(bs);
      forall i | 0 <= i < |s| ensures [s[i]] in vocab {
        if i > 0 {
          assert s[i] == ByteLevel.Spell(bs[1..])[i - 1];
        }
      }
    }
  }

  /** Whatever the branch of the merge and ignore_merges: the tokens of a word spell the word. */
  lemma WordIsKept(m: Model, names: seq<Option<string>>, bs: seq<byte>)
    requires ByteLevelModel(m, names)
    ensures Tokenized(m, ByteLevel.Spell(bs)).Some?
    ensures Text(i => NameIn(names, i), Tokenized(m, ByteLevel.Spell(bs)).value) == ByteLevel.Spell(bs)
  {
    var w, name := ByteLevel.Spell(bs), i => NameIn(names, i);
    if m.ignoreMerges && w in m.vocab {
      assert name(m.vocab[w]) == w;
      assert [m.vocab[w]][1..] == [];
      assert Text(name, [m.vocab[w]]) == name(m.vocab[w]) + Text(name, []);
    } else {
      SpelledIsCovered(m.vocab, bs);
      KeptSpells(m.vocab, name, w);
      MergedKeepsText(m.merges, name, Kept(m.vocab, w));
    }
  }

  /** The words of a text: each pre-tokenizer piece's bytes in the alphabet. */
  function Words(pieces: seq<string>): seq<string> {
    if pieces == [] then [] else [ByteLevel.Spell(Encode(pieces[0]))] + Words(pieces[1..])
  }

  function TokenizedAll(m: Model, words: seq<string>): Option<seq<int>> {
    if words == [] then Some([])
    else
      var a, b := Tokenized(m, words[0]), TokenizedAll(m, words[1..]);
      if a.None? || b.None? then None else Some(a.value + b.value)
  }

  /** encode() without added tokens, normalizer or post-processor. */
  function Encoded(m: Model, split: string -> seq<string>, text: string): Option<seq<int>> {
    if text == "" then Some([]) else TokenizedAll(m, Words(split(text)))
  }

  method EncodeText(bpe: Bpe, split: string -> seq<string>, text: string) returns (ids: Option<seq<int>>)
    requires bpe.Valid()
    modifies bpe
    ensures bpe.Valid()
    ensures ids == Encoded(bpe.m, split, text)
  {
    if text == "" {
      return Some([]);
    }
    var words := Words(split(text));
    var out: seq<int> := [];
    assert words[0..] == words;
    AfterNothing(TokenizedAll(bpe.m, words));
    for k := 0 to |words|
      invariant bpe.Valid()
      invariant TokenizedAll(bpe.m, words) == After(out, TokenizedAll(bpe.m, words[k..]))
    {
      assert words[k..][0] == words[k] && words[k..][1..] == words[k + 1..];
      var r := bpe.Tokenize(words[k]);
      if r.None? {
        return None;
      }
      AfterBoth(out, r.value, TokenizedAll(bpe.m, words[k + 1..]));
      out := out + r.value;
    }
    assert out + [] == out;
    ids := Some(out);
  }

  lemma {:induction false} WordsAreKept(m: Model, names: seq<Option<string>>, pieces: seq<string>)
    requires ByteLevelModel(m, names)
    ensures TokenizedAll(m, Words(pieces)).Some?
    ensures Text(i => NameIn(names, i), TokenizedAll(m, Words(pieces)).value) ==
            ByteLevel.Spell(Encode(Decoders.Joined(pieces)))
    decreases |pieces|
  {
    if pieces != [] {
      hide Tokenized, ByteLevelModel, Encode, ByteLevel.Spell;
      var name, p, rest := i => NameIn(names, i), pieces[0], pieces[1..];
      WordIsKept(m, names, Encode(p));
      WordsAreKept(m, names, rest);
      assert Words(pieces)[1..] == Words(rest);
      TextConcat(name, Tokenized(m, Words(pieces)[0]).value, TokenizedAll(m, Words(rest)).value);
      EncodeConcat(p, Decoders.Joined(rest));
      ByteLevel.SpellConcat(Encode(p), Encode(Decoders.Joined(rest)));
    }
  }

  lemma {:induction false} StringsText(names: seq<Option<string>>, ids: seq<int>)
    ensures Decoders.Joined(Pipeline.Strings(names, {}, ids)) == Text(i => NameIn(names, i), ids)
    decreases |ids|
  {
    if ids != [] {
      StringsText(names, ids[1..]);
      var s, rest := Pipeline.TokenOf(names, {}, ids[0]), Pipeline.Strings(names, {}, ids[1..]);
      if s.Some? {
        Decoders.JoinedCons(s.value, rest);
      } else {
        assert [] + rest == rest;
      }
    }
  }

  lemma {:induction false} BytesOfSpelled(toks: seq<string>)
    requires ByteLevel.InAlphabet(Decoders.Joined(toks))
    ensures Decoders.BytesOf(toks) == ByteLevel.Unspell(Decoders.Joined(toks))
    decreases |toks|
  {
    if toks != [] {
      ByteLevel.TokensUnspell(toks[0], Decoders.Joined(toks[1..]));
      BytesOfSpelled(toks[1..]);
    }
  }

  /** decode(encode(text)) == text: every text, both merge branches, with ignore_merges or not,
      whatever pieces the pre-tokenizer cuts it into. */
  lemma RoundTrip(m: Model, names: seq<Option<string>>, split: string -> seq<string>, text: string, cont: bool)
    requires ByteLevelModel(m, names) && Decoders.Joined(split(text)) == text
    ensures Encoded(m, split, text).Some?
    ensures Pipeline.Decoded([Decoders.Stage(Decoders.Bytes, false)], names, {},
                             Encoded(m, split, text).value, cont) == text
  {
    hide ByteLevelModel;
    WordsAreKept(m, names, split(text));
    var ids := Encoded(m, split, text).value;
    NoBytes();
    var toks := Pipeline.Strings(names, {}, ids);
    StringsText(names, ids);
    ByteLevel.UnspellSpelled(Encode(text));
    BytesOfSpelled(toks);
    DecodeEncoded(text);
    Pipeline.ByteLevelDecodes([Decoders.Stage(Decoders.Bytes, false)], toks, cont);
  }
}
