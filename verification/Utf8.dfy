/** UTF-8 (section 3 of RFC 3629): encoding, strict decoding, and decoding with
    U+FFFD for each ill-formed stretch, at once or in pieces. */
module Utf8 {
  import opened Wrappers

  const REPLACEMENT: char := 0xFFFD as char

  /** How many bytes a character with this first byte has; 0 when none starts so. */
  function Need(lead: byte): nat {
    if lead < 0x80 then 1
    else if 0xC2 <= lead < 0xE0 then 2
    else if 0xE0 <= lead < 0xF0 then 3
    else if 0xF0 <= lead < 0xF5 then 4
    else 0
  }

  predicate Continues(b: byte) {
    0x80 <= b < 0xC0
  }

  /** The second byte's range, which shuts out overlong forms, surrogates and codes over 10FFFF. */
  predicate Second(lead: byte, b: byte) {
    && Continues(b)
    && (lead == 0xE0 ==> b >= 0xA0)
    && (lead == 0xED ==> b < 0xA0)
    && (lead == 0xF0 ==> b >= 0x90)
    && (lead == 0xF4 ==> b < 0x90)
  }

  /** What the bytes start with: a character, an ill-formed stretch, or a
      character that more bytes might complete. */
  datatype Unit = Char(size: nat, c: char) | Bad(size: nat) | Short

  function Char2(b: seq<byte>): char
    requires |b| >= 2 && Need(b[0]) == 2 && Second(b[0], b[1])
  {
    ((b[0] as int - 0xC0) * 64 + (b[1] as int - 0x80)) as char
  }

  function Char3(b: seq<byte>): char
    requires |b| >= 3 && Need(b[0]) == 3 && Second(b[0], b[1]) && Continues(b[2])
  {
    ((b[0] as int - 0xE0) * 4096 + (b[1] as int - 0x80) * 64 + (b[2] as int - 0x80)) as char
  }

  function Char4(b: seq<byte>): char
    requires |b| >= 4 && Need(b[0]) == 4 && Second(b[0], b[1]) && Continues(b[2]) && Continues(b[3])
  {
    ((b[0] as int - 0xF0) * 262144 + (b[1] as int - 0x80) * 4096 + (b[2] as int - 0x80) * 64 +
      (b[3] as int - 0x80)) as char
  }

  function NextUnit(b: seq<byte>): (u: Unit)
    requires b != []
    ensures !u.Short? ==> 0 < u.size <= |b|
  {
    var n := Need(b[0]);
    if n == 0 then Bad(1)
    else if n == 1 then Char(1, b[0] as char)
    else if |b| == 1 then Short
    else if !Second(b[0], b[1]) then Bad(1)
    else if n == 2 then Char(2, Char2(b))
    else if |b| == 2 then Short
    else if !Continues(b[2]) then Bad(2)
    else if n == 3 then Char(3, Char3(b))
    else if |b| == 3 then Short
    else if !Continues(b[3]) then Bad(3)
    else Char(4, Char4(b))
  }

  function Shown(u: Unit): char {
    if u.Char? then u.c else REPLACEMENT
  }

  /** b.decode("utf-8", "replace"). */
  function Decode(b: seq<byte>): string
    decreases |b|
  {
    if b == [] then ""
    else
      var u := NextUnit(b);
      [Shown(u)] + if u.Short? then "" else Decode(b[u.size..])
  }

  /** b.decode("utf-8"), or nothing when it fails. */
  datatype Reading = Ill | Well(text: string)

  function Strict(b: seq<byte>): Reading
    decreases |b|
  {
    if b == [] then Well("")
    else
      var u := NextUnit(b);
      if !u.Char? then Ill
      else
        var t := Strict(b[u.size..]);
        if t.Ill? then Ill else Well([u.c] + t.text)
  }

  /** Decoding so far: the text, and the bytes kept for the next piece. */
  datatype Progress = Progress(text: string, kept: seq<byte>)

  function Read(b: seq<byte>): Progress
    decreases |b|
  {
    if b == [] then Progress("", [])
    else
      var u := NextUnit(b);
      if u.Short? then Progress("", b)
      else
        var p := Read(b[u.size..]);
        Progress([Shown(u)] + p.text, p.kept)
  }

  // ----- decoding in pieces -----

  lemma UnitIsStable(b: seq<byte>, c: seq<byte>)
    requires b != [] && !NextUnit(b).Short?
    ensures NextUnit(b + c) == NextUnit(b)
  {
  }

  /** What a piece shows and what it keeps make up the text with any continuation. */
  lemma {:induction false} ReadThenDecode(b: seq<byte>, c: seq<byte>)
    ensures Decode(b + c) == Read(b).text + Decode(Read(b).kept + c)
    decreases |b|
  {
    if b == [] {
      assert b + c == c;
    } else if !NextUnit(b).Short? {
      var n := NextUnit(b).size;
      UnitIsStable(b, c);
      assert (b + c)[n..] == b[n..] + c;
      ReadThenDecode(b[n..], c);
    }
  }

  // ----- encoding -----

  function EncodeChar(c: char): (b: seq<byte>)
    ensures b != []
  {
    var n := c as int;
    var m, l := n / 64, n / 64 / 64;
    if n < 0x80 then [n]
    else if n < 0x800 then [0xC0 + m, 0x80 + n % 64]
    else if n < 0x10000 then [0xE0 + l, 0x80 + m % 64, 0x80 + n % 64]
    else [0xF0 + l / 64, 0x80 + l % 64, 0x80 + m % 64, 0x80 + n % 64]
  }

  function Encode(s: string): seq<byte> {
    if s == "" then [] else EncodeChar(s[0]) + Encode(s[1..])
  }

  lemma UnitOfCharAlone(c: char)
    ensures NextUnit(EncodeChar(c)) == Char(|EncodeChar(c)|, c)
  {
    var n := c as int;
    var m, l := n / 64, n / 64 / 64;
    assert n == m * 64 + n % 64 && m == l * 64 + m % 64 && l == (l / 64) * 64 + l % 64;
  }

  lemma UnitOfChar(c: char, rest: seq<byte>)
    ensures NextUnit(EncodeChar(c) + rest) == Char(|EncodeChar(c)|, c)
  {
    UnitOfCharAlone(c);
    UnitIsStable(EncodeChar(c), rest);
  }

  /** Encoding and decoding again gives every text back. */
  lemma {:induction false} DecodeEncoded(s: string)
    ensures Decode(Encode(s)) == s && Strict(Encode(s)) == Well(s)
  {
    if s != "" {
      var b := EncodeChar(s[0]) + Encode(s[1..]);
      UnitOfChar(s[0], Encode(s[1..]));
      assert b[|EncodeChar(s[0])|..] == Encode(s[1..]);
      DecodeEncoded(s[1..]);
    }
  }

  lemma Digit(q: int, r: int)
    requires 0 <= r < 64
    ensures (q * 64 + r) / 64 == q && (q * 64 + r) % 64 == r
  {
  }

  lemma CharOf2(b: seq<byte>)
    requires |b| >= 2 && Need(b[0]) == 2 && Second(b[0], b[1])
    ensures EncodeChar(Char2(b)) == b[..2]
  {
    Digit(b[0] as int - 0xC0, b[1] as int - 0x80);
  }

  lemma CharOf3(b: seq<byte>)
    requires |b| >= 3 && Need(b[0]) == 3 && Second(b[0], b[1]) && Continues(b[2])
    ensures EncodeChar(Char3(b)) == b[..3]
  {
    Digit(b[0] as int - 0xE0, b[1] as int - 0x80);
    Digit((b[0] as int - 0xE0) * 64 + (b[1] as int - 0x80), b[2] as int - 0x80);
  }

  lemma CharOf4(b: seq<byte>)
    requires |b| >= 4 && Need(b[0]) == 4 && Second(b[0], b[1]) && Continues(b[2]) && Continues(b[3])
    ensures EncodeChar(Char4(b)) == b[..4]
  {
    Digit(b[0] as int - 0xF0, b[1] as int - 0x80);
    Digit((b[0] as int - 0xF0) * 64 + (b[1] as int - 0x80), b[2] as int - 0x80);
    Digit((b[0] as int - 0xF0) * 4096 + (b[1] as int - 0x80) * 64 + (b[2] as int - 0x80), b[3] as int - 0x80);
  }

  lemma CharOfUnit(b: seq<byte>)
    requires b != [] && NextUnit(b).Char?
    ensures EncodeChar(NextUnit(b).c) == b[..NextUnit(b).size]
  {
    if NextUnit(b).size == 2 {
      CharOf2(b);
    } else if NextUnit(b).size == 3 {
      CharOf3(b);
    } else if NextUnit(b).size == 4 {
      CharOf4(b);
    }
  }

  /** Only the encoding of a text decodes strictly. */
  lemma {:induction false} EncodeDecoded(b: seq<byte>)
    requires Strict(b).Well?
    ensures Encode(Strict(b).text) == b
    decreases |b|
  {
    hide NextUnit, EncodeChar;
    if b != [] {
      var u := NextUnit(b);
      CharOfUnit(b);
      EncodeDecoded(b[u.size..]);
      var rest := Strict(b[u.size..]).text;
      assert ([u.c] + rest)[1..] == rest;
      assert b == b[..u.size] + b[u.size..];
    }
  }

  lemma {:induction false} EncodeConcat(s: string, t: string)
    ensures Encode(s + t) == Encode(s) + Encode(t)
  {
    if s == "" {
      assert s + t == t;
    } else {
      assert (s + t)[1..] == s[1..] + t;
      EncodeConcat(s[1..], t);
    }
  }

  // ----- what is ill-formed, and what is only incomplete -----

  /** The bytes that complete a character in the lowest way. */
  function Fill(b: seq<byte>): seq<byte>
    requires b != [] && NextUnit(b).Short?
  {
    var second: byte := if b[0] == 0xE0 then 0xA0 else if b[0] == 0xF0 then 0x90 else 0x80;
    (if |b| == 1 then [second] else []) + [0x80, 0x80, 0x80]
  }

  /** What is kept is the beginning of some character. */
  lemma ShortIsBeginning(b: seq<byte>) returns (c: char)
    requires b != [] && NextUnit(b).Short?
    ensures b <= EncodeChar(c) && |b| < |EncodeChar(c)| <= 4
  {
    var w := b + Fill(b);
    assert NextUnit(w).Char? && NextUnit(w).size == Need(b[0]);
    CharOfUnit(w);
    c := NextUnit(w).c;
    assert w[..Need(b[0])][..|b|] == b;
  }

  lemma BeginningIsNotBad(x: seq<byte>, c: char)
    requires x != [] && x <= EncodeChar(c)
    ensures !NextUnit(x).Bad?
  {
    UnitOfCharAlone(c);
    if !NextUnit(x).Short? {
      assert x + EncodeChar(c)[|x|..] == EncodeChar(c);
      UnitIsStable(x, EncodeChar(c)[|x|..]);
    }
  }

  /** One U+FFFD stands for a maximal stretch: it begins some character, unless it is one byte,
      and with the byte after it, it begins none. */
  lemma BadIsMaximal(b: seq<byte>, c: char)
    requires b != [] && NextUnit(b).Bad?
    ensures var n := NextUnit(b).size;
            && (n > 1 ==> NextUnit(b[..n]).Short?)
            && !(b[..if n < |b| then n + 1 else n] <= EncodeChar(c))
  {
    var n := NextUnit(b).size;
    var x := b[..if n < |b| then n + 1 else n];
    assert NextUnit(x).Bad?;
    if x <= EncodeChar(c) {
      BeginningIsNotBad(x, c);
    }
  }

  /** The first n bytes of b are a maximal stretch of no character: no character starts there,
      the stretch begins one (or is one byte), and with its next byte it does not. */
  ghost predicate IllFormed(b: seq<byte>, n: nat) {
    && 0 < n <= |b|
    && (forall c :: !(EncodeChar(c) <= b))
    && (n == 1 || exists c :: b[..n] <= EncodeChar(c))
    && (n == |b| || forall c :: !(b[..n + 1] <= EncodeChar(c)))
  }

  /** The text has a character for each encoded one and a U+FFFD for each maximal ill-formed stretch. */
  ghost predicate DecodesTo(b: seq<byte>, text: string)
    decreases |b|
  {
    if b == [] then text == ""
    else
      && text != ""
      && exists n :: 0 < n <= |b| && DecodesTo(b[n..], text[1..]) && UnitReads(b, n, text[0])
  }

  ghost predicate UnitReads(b: seq<byte>, n: nat, c: char)
    requires n <= |b|
  {
    b[..n] == EncodeChar(c) || (c == REPLACEMENT && IllFormed(b, n))
  }

  lemma CharStarts(b: seq<byte>, c: char)
    requires b != [] && EncodeChar(c) <= b
    ensures NextUnit(b) == Char(|EncodeChar(c)|, c)
  {
    UnitOfChar(c, b[|EncodeChar(c)|..]);
    assert EncodeChar(c) + b[|EncodeChar(c)|..] == b;
  }

  lemma BadIsIllFormed(b: seq<byte>)
    requires b != [] && NextUnit(b).Bad?
    ensures IllFormed(b, NextUnit(b).size)
  {
    var n := NextUnit(b).size;
    forall c ensures !(EncodeChar(c) <= b) {
      if EncodeChar(c) <= b {
        CharStarts(b, c);
      }
    }
    if n < |b| {
      forall c ensures !(b[..n + 1] <= EncodeChar(c)) {
        BadIsMaximal(b, c);
      }
    }
    if n > 1 {
      BadIsMaximal(b, 'a');
      var c := ShortIsBeginning(b[..n]);
    }
  }

  lemma ShortIsIllFormed(b: seq<byte>)
    requires b != [] && NextUnit(b).Short?
    ensures IllFormed(b, |b|)
  {
    var c := ShortIsBeginning(b);
    assert b[..|b|] == b;
    forall c ensures !(EncodeChar(c) <= b) {
      if EncodeChar(c) <= b {
        CharStarts(b, c);
      }
    }
  }

  /** Decoding with replacement is that text. */
  lemma {:induction false} DecodeReads(b: seq<byte>)
    ensures DecodesTo(b, Decode(b))
    decreases |b|
  {
    if b != [] {
      var u := NextUnit(b);
      var n := if u.Short? then |b| else u.size;
      assert Decode(b) == [Shown(u)] + Decode(b[n..]);
      DecodeReads(b[n..]);
      UnitIsRead(b);
      assert Decode(b)[1..] == Decode(b[n..]);
    }
  }

  lemma UnitIsRead(b: seq<byte>)
    requires b != []
    ensures var u := NextUnit(b); UnitReads(b, if u.Short? then |b| else u.size, Shown(u))
  {
    match NextUnit(b)
    case Char(_, _) => CharOfUnit(b);
    case Bad(_) => BadIsIllFormed(b);
    case Short => ShortIsIllFormed(b);
  }
}
