/** The byte-level alphabet: every byte has a printable character, so a text's
    bytes are spelled as a string and read back. */
module ByteLevel {
  import opened Wrappers
  import opened Utf8

  /** Bytes that stand for themselves. */
  predicate Printed(b: nat) {
    33 <= b < 127 || 161 <= b < 173 || 174 <= b < 256
  }

  /** How many bytes below k need another character. */
  function Others(k: nat): (n: nat)
    ensures n <= k
  {
    if k == 0 then 0 else Others(k - 1) + if Printed(k - 1) then 0 else 1
  }

  function CharOf(b: byte): char {
    if Printed(b) then b as char else (256 + Others(b)) as char
  }

  lemma {:induction false} OthersGrow(j: nat, k: nat)
    requires j <= k
    ensures Others(j) <= Others(k) && (j < k && !Printed(j) ==> Others(j) < Others(k))
  {
    if j < k {
      OthersGrow(j, k - 1);
    }
  }

  /** No two bytes share a character. */
  lemma CharsDiffer(a: byte, b: byte)
    requires CharOf(a) == CharOf(b)
    ensures a == b
  {
    if a < b {
      OthersGrow(a, b);
    } else if b < a {
      OthersGrow(b, a);
    }
  }

  method Range(a: nat, b: nat) returns (r: seq<byte>)
    requires a <= b <= 256
    ensures forall k: byte :: k in r <==> a <= k < b
  {
    r := [];
    for k := a to b
      invariant forall j: byte :: j in r <==> a <= j < k
    {
      r := r + [k];
    }
  }

  method Visible() returns (bs: seq<byte>)
    ensures forall k: byte :: k in bs <==> Printed(k)
  {
    var low := Range(33, 127);
    var mid := Range(161, 173);
    var high := Range(174, 256);
    bs := low + mid + high;
  }

  lemma PrintedStands(b: byte)
    requires Printed(b)
    ensures CharOf(b) as int == b
  {
  }

  lemma NoOthers()
    ensures Others(0) == 0
  {
  }

  lemma NextOther(b: byte)
    ensures Others(b + 1) == Others(b) + if Printed(b) then 0 else 1
    ensures !Printed(b) ==> CharOf(b) as int == 256 + Others(b)
  {
  }

  /** The bytes in the order the alphabet takes them, and their characters' codes. */
  method Codes() returns (bs: seq<byte>, cs: seq<int>)
    ensures |cs| == |bs| && (forall b: byte :: b in bs)
    ensures forall i :: 0 <= i < |bs| ==> cs[i] == CharOf(bs[i]) as int
  {
    hide CharOf, Others, Printed;
    bs := Visible();
    forall b | b in bs ensures CharOf(b) as int == b as int {
      PrintedStands(b);
    }
    NoOthers();
    cs := seq(|bs|, i requires 0 <= i < |bs| => bs[i] as int);
    var n := 0;
    for b := 0 to 256
      invariant n == Others(b) && |cs| == |bs|
      invariant forall k: byte :: k in bs <==> Printed(k) || k < b
      invariant forall i :: 0 <= i < |bs| ==> cs[i] == CharOf(bs[i]) as int
    {
      NextOther(b);
      if b !in bs {
        bs, cs, n := bs + [b], cs + [256 + n], n + 1;
      }
    }
  }

  /** bytes_to_unicode(). */
  method BytesToUnicode() returns (m: map<byte, char>)
    ensures forall b: byte :: b in m && m[b] == CharOf(b)
  {
    var bs, cs := Codes();
    m := map[];
    for i := 0 to |bs|
      invariant forall j :: 0 <= j < i ==> bs[j] in m
      invariant forall k :: k in m ==> m[k] == CharOf(k)
    {
      assert cs[i] == CharOf(bs[i]) as int;
      m := m[bs[i] := cs[i] as char];
    }
    forall b: byte ensures b in m {
      assert b in bs;
    }
  }

  /** The byte a character stands for, from k on; -1 outside the alphabet. */
  function ByteFrom(c: char, k: nat): (r: int)
    requires k <= 256
    ensures -1 <= r < 256 && (r >= 0 ==> k <= r && CharOf(r) == c)
    decreases 256 - k
  {
    if k == 256 then -1 else if CharOf(k) == c then k else ByteFrom(c, k + 1)
  }

  lemma {:induction false} ByteOfChar(b: byte, k: nat)
    requires k <= b
    ensures ByteFrom(CharOf(b), k) == b
    decreases b - k
  {
    if CharOf(k) == CharOf(b) {
      CharsDiffer(k, b);
    } else {
      ByteOfChar(b, k + 1);
    }
  }

  /** Bytes as alphabet characters. */
  function Spell(bs: seq<byte>): (s: string)
    ensures |s| == |bs|
  {
    if bs == [] then "" else [CharOf(bs[0])] + Spell(bs[1..])
  }

  predicate InAlphabet(s: string) {
    s == "" || (ByteFrom(s[0], 0) >= 0 && InAlphabet(s[1..]))
  }

  function Unspell(s: string): seq<byte>
    requires InAlphabet(s)
  {
    if s == "" then [] else [ByteFrom(s[0], 0) as byte] + Unspell(s[1..])
  }

  /** _bl_bytes: a token's characters as bytes when all are in the alphabet, else its UTF-8. */
  function TokenBytes(t: string): seq<byte> {
    if InAlphabet(t) then Unspell(t) else Encode(t)
  }

  lemma {:induction false} UnspellSpelled(bs: seq<byte>)
    ensures InAlphabet(Spell(bs)) && Unspell(Spell(bs)) == bs
  {
    if bs != [] {
      ByteOfChar(bs[0], 0);
      assert Spell(bs)[1..] == Spell(bs[1..]);
      UnspellSpelled(bs[1..]);
    }
  }

  lemma {:induction false} SpellConcat(a: seq<byte>, b: seq<byte>)
    ensures Spell(a + b) == Spell(a) + Spell(b)
  {
    if a == [] {
      assert a + b == b;
    } else {
      assert (a + b)[1..] == a[1..] + b;
      SpellConcat(a[1..], b);
    }
  }

  /** Tokens that spell a string in the alphabet together are each in it, and their bytes join. */
  lemma {:induction false} TokensUnspell(s: string, t: string)
    requires InAlphabet(s + t)
    ensures InAlphabet(s) && InAlphabet(t) && Unspell(s + t) == Unspell(s) + Unspell(t)
  {
    if s == "" {
      assert s + t == t;
    } else {
      assert (s + t)[1..] == s[1..] + t;
      TokensUnspell(s[1..], t);
    }
  }

  lemma {:induction false} SpelledUnspelled(s: string)
    requires InAlphabet(s)
    ensures Spell(Unspell(s)) == s
  {
    if s != "" {
      SpelledUnspelled(s[1..]);
      assert Unspell(s)[1..] == Unspell(s[1..]);
      assert [s[0]] + s[1..] == s;
    }
  }

  /** A token that spells some bytes stands for them, any other for its UTF-8. */
  lemma TokenBytesAre(t: string)
    ensures if exists bs :: Spell(bs) == t then Spell(TokenBytes(t)) == t else TokenBytes(t) == Encode(t)
    ensures forall bs :: Spell(bs) == t ==> TokenBytes(t) == bs
  {
    forall bs | Spell(bs) == t ensures InAlphabet(t) && Unspell(t) == bs {
      UnspellSpelled(bs);
    }
    if InAlphabet(t) {
      SpelledUnspelled(t);
    }
  }

  /** The alphabet, byte by byte: the space is U+0120, the line feed U+010A, the soft hyphen U+0143. */
  lemma AlphabetIs(b: byte)
    ensures CharOf(b) as int == if b < 33 || b == 173 then (if b == 173 then 0x143 else 0x100 + b)
                                else if 127 <= b < 161 then 0xA2 + b else b
  {
    OthersIs(b);
  }

  lemma {:induction false} OthersIs(k: nat)
    requires k <= 256
    ensures Others(k) == if k <= 33 then k else if k <= 127 then 33 else if k <= 161 then k - 94
                         else if k <= 173 then 67 else 68
  {
    if k > 0 {
      OthersIs(k - 1);
    }
  }
}
