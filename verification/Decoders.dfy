/** Decoding token strings to text: the steps of a decoder run over the whole
    token list, and the same steps as stateful streams run token by token in
    lock step.  The streamed pieces concatenate to the text of the whole list. */
module Decoders {
  import opened Wrappers
  import opened Utf8
  import ByteLevel
  import opened StripText

  // ----- strings -----

  function Joined(items: seq<string>): string {
    if items == [] then "" else items[0] + Joined(items[1..])
  }

  lemma {:induction false} JoinedConcat(a: seq<string>, b: seq<string>)
    ensures Joined(a + b) == Joined(a) + Joined(b)
  {
    if a == [] {
      assert a + b == b;
    } else {
      assert (a + b)[1..] == a[1..] + b;
      JoinedConcat(a[1..], b);
      assert (a[0] + Joined(a[1..])) + Joined(b) == a[0] + (Joined(a[1..]) + Joined(b));
    }
  }

  lemma JoinedOne(s: string)
    ensures Joined([s]) == s
  {
    assert Joined([s]) == s + Joined([]);
  }

  lemma JoinedCons(s: string, items: seq<string>)
    ensures Joined([s] + items) == s + Joined(items)
  {
  }

  function Each<A, B>(f: A -> B, items: seq<A>): (r: seq<B>)
    ensures |r| == |items|
  {
    if items == [] then [] else [f(items[0])] + Each(f, items[1..])
  }

  /** s.replace(pat, put). */
  function Replaced(s: string, pat: string, put: string): string
    decreases |s|
  {
    if s == "" then (if pat == "" then put else "")
    else if pat == "" then put + [s[0]] + Replaced(s[1..], pat, put)
    else if pat <= s then put + Replaced(s[|pat|..], pat, put)
    else [s[0]] + Replaced(s[1..], pat, put)
  }

  /** A one-character pattern is replaced piece by piece. */
  lemma {:induction false} ReplacedConcat(s: string, t: string, pat: string, put: string)
    requires |pat| == 1
    ensures Replaced(s + t, pat, put) == Replaced(s, pat, put) + Replaced(t, pat, put)
    decreases |s|
  {
    if s == "" {
      assert s + t == t;
    } else {
      assert (s + t)[1..] == s[1..] + t;
      assert pat <= s <==> pat <= s + t by {
        assert s[..1] == (s + t)[..1];
      }
      ReplacedConcat(s[1..], t, pat, put);
    }
  }

  // ----- the steps -----

  /** A Replace's string pattern: an empty one is refused. */
  type Needle = s: string | s != "" witness "x"

  /** A Replace's regular expression, as its substitution: an empty text has no match. */
  type Substitution = f: string -> string | f("") == "" witness (s: string) => s

  /** One decoder step.  Spaced joins the tokens with " ". */
  datatype Step =
    | Literal(pat: Needle, put: string)
    | Pattern(sub: Substitution)
    | ByteFallback
    | Fuse
    | Strip(content: string, start: nat, stop: nat)
    | Metaspace(repl: string, never: bool)
    | Bytes
    | Suffix(suffix: string)
    | Spaced

  /** A step in its place: fused when an earlier step has made one string of the list. */
  datatype Stage = Stage(step: Step, fused: bool)

  predicate Fuses(step: Step) {
    step.Fuse? || step.Bytes? || step.Spaced?
  }

  function Digit(c: char): (d: int)
    ensures -1 <= d < 16
  {
    if '0' <= c <= '9' then c as int - '0' as int
    else if 'A' <= c <= 'F' then c as int - 'A' as int + 10
    else if 'a' <= c <= 'f' then c as int - 'a' as int + 10
    else -1
  }

  /** "<0xXX>" or "<0x+X>" is a byte; anything else -1. */
  function FallbackByte(t: string): (b: int)
    ensures -1 <= b < 256
  {
    if |t| != 6 || t[..3] != "<0x" || t[5] != '>' || Digit(t[4]) < 0 then -1
    else if t[3] == '+' then Digit(t[4])
    else if Digit(t[3]) < 0 then -1
    else Digit(t[3]) * 16 + Digit(t[4])
  }

  function Marks(n: nat): seq<string> {
    if n == 0 then [] else [[REPLACEMENT]] + Marks(n - 1)
  }

  /** A run of byte tokens: its text, or a U+FFFD per byte. */
  function RunText(run: seq<byte>): seq<string> {
    if run == [] then []
    else match Strict(run)
      case Well(text) => [text]
      case Ill => Marks(|run|)
  }

  function Fallback(toks: seq<string>, run: seq<byte>): seq<string>
    decreases |toks|
  {
    if toks == [] then RunText(run)
    else
      var b := FallbackByte(toks[0]);
      if b >= 0 then Fallback(toks[1..], run + [b]) else RunText(run) + [toks[0]] + Fallback(toks[1..], [])
  }

  function Strips(toks: seq<string>, c: string, start: nat, stop: nat): seq<string> {
    if toks == [] then [] else [Stripped(toks[0], c, start, stop)] + Strips(toks[1..], c, start, stop)
  }

  function Respaced(t: string, repl: string, drop: bool): string {
    Replaced(t, repl, if drop then "" else " ")
  }

  function Suffixed(toks: seq<string>, suffix: string): seq<string> {
    if toks == [] then []
    else [Replaced(toks[0], suffix, if |toks| == 1 then "" else " ")] + Suffixed(toks[1..], suffix)
  }

  function BytesOf(toks: seq<string>): seq<byte> {
    if toks == [] then [] else ByteLevel.TokenBytes(toks[0]) + BytesOf(toks[1..])
  }

  function WithSpaces(toks: seq<string>): string {
    if toks == [] then "" else " " + toks[0] + WithSpaces(toks[1..])
  }

  /** batch(): the step on the whole token list. */
  function Batch(g: Stage, toks: seq<string>, cont: bool): seq<string> {
    match g.step
    case Literal(pat, put) => Each(t => Replaced(t, pat, put), toks)
    case Pattern(sub) => Each(sub, toks)
    case ByteFallback => Fallback(toks, [])
    case Fuse => [Joined(toks)]
    case Strip(c, start, stop) => Strips(toks, c, if cont && g.fused then 0 else start, stop)
    case Metaspace(repl, never) =>
      if toks == [] then []
      else [Respaced(toks[0], repl, !cont && !never)] + Each(t => Respaced(t, repl, false), toks[1..])
    case Bytes => [Decode(BytesOf(toks))]
    case Suffix(suffix) => Suffixed(toks, suffix)
    case Spaced => var s := WithSpaces(toks); [if cont || s == "" then s else s[1..]]
  }

  /** Tokenizer.decode() on token strings. */
  function DecodeList(stages: seq<Stage>, toks: seq<string>, cont: bool): seq<string> {
    if stages == [] then toks else DecodeList(stages[1..], Batch(stages[0], toks, cont), cont)
  }

  // ----- the streams -----

  /** What a stream remembers: tokens held back, bytes held back, the start
      characters still to strip, a strippable tail, whether the text begins. */
  datatype State = State(buf: seq<string>, bytes: seq<byte>, lead: nat, held: string, first: bool)

  datatype Out = Out(st: State, items: seq<string>)

  /** A fused step that needs the whole text. */
  predicate Buffers(g: Stage) {
    g.fused && match g.step
      case Literal(pat, _) => |pat| != 1
      case Pattern(_) => true
      case ByteFallback => true
      case Bytes => true
      case Suffix(_) => true
      case _ => false
  }

  function Start(g: Stage, cont: bool): State {
    var lead := if g.step.Strip? && !cont then g.step.start else 0;
    State([], [], lead, "", (g.step.Metaspace? || g.step.Spaced?) && !cont)
  }

  function StripPush(c: string, stop: nat, st: State, s: string): Out {
    var p := Cut(c, stop, st.lead, st.held, s);
    Out(st.(lead := p.lead, held := p.held), [p.out])
  }

  function Push(g: Stage, st: State, s: string): Out {
    if Buffers(g) then Out(st.(buf := st.buf + [s]), [])
    else match g.step
      case Literal(pat, put) => Out(st, [Replaced(s, pat, put)])
      case Pattern(sub) => Out(st, [sub(s)])
      case ByteFallback =>
        var b := FallbackByte(s);
        if b >= 0 then Out(st.(bytes := st.bytes + [b]), []) else Out(st.(bytes := []), RunText(st.bytes) + [s])
      case Fuse => Out(st, [s])
      case Strip(c, start, stop) =>
        if g.fused then StripPush(c, stop, st, s) else Out(st, [Stripped(s, c, start, stop)])
      case Metaspace(repl, never) =>
        Out(if g.fused then st else st.(first := false), [Respaced(s, repl, st.first && !never)])
      case Bytes =>
        var p := Read(st.bytes + ByteLevel.TokenBytes(s));
        Out(st.(bytes := p.kept), [p.text])
      case Suffix(suffix) =>
        Out(st.(buf := [s]), if st.buf == [] then [] else [Replaced(st.buf[0], suffix, " ")])
      case Spaced => Out(st.(first := false), [if st.first then s else " " + s])
  }

  /** What a buffered step makes of the whole text. */
  function Whole(step: Step, s: string): string {
    match step
    case Literal(pat, put) => Replaced(s, pat, put)
    case Pattern(sub) => sub(s)
    case ByteFallback => Joined(Fallback([s], []))
    case Bytes => Decode(ByteLevel.TokenBytes(s))
    case Suffix(suffix) => Replaced(s, suffix, "")
    case _ => s
  }

  function Flush(g: Stage, st: State): seq<string> {
    if Buffers(g) then (if st.buf == [] then [] else [Whole(g.step, Joined(st.buf))])
    else match g.step
      case ByteFallback => RunText(st.bytes)
      case Bytes => [Decode(st.bytes)]
      case Suffix(suffix) => if st.buf == [] then [] else [Replaced(st.buf[0], suffix, "")]
      case _ => []
  }

  function PushAll(g: Stage, st: State, items: seq<string>): Out
    decreases |items|
  {
    if items == [] then Out(st, [])
    else
      var a := Push(g, st, items[0]);
      var b := PushAll(g, a.st, items[1..]);
      Out(b.st, a.items + b.items)
  }

  /** A stream fed a whole list and flushed. */
  function Streamed(g: Stage, st: State, items: seq<string>): seq<string> {
    var p := PushAll(g, st, items);
    p.items + Flush(g, p.st)
  }

  lemma StreamedStep(g: Stage, st: State, toks: seq<string>)
    requires toks != []
    ensures Streamed(g, st, toks) == Push(g, st, toks[0]).items + Streamed(g, Push(g, st, toks[0]).st, toks[1..])
  {
  }
}
