/** Stop strings: `apply_stop` on a whole text, and `StopStream` on a text that
    comes in pieces. */
module StopStream {
  predicate OccursAt(text: string, s: string, i: int) {
    0 <= i && i + |s| <= |text| && text[i..i + |s|] == s
  }

  /** text.find(s): the first occurrence from i on, or -1. */
  function Find(text: string, s: string, i: nat): (r: int)
    ensures r >= 0 ==> i <= r && OccursAt(text, s, r)
    ensures forall j :: i <= j && OccursAt(text, s, j) ==> 0 <= r <= j
    decreases |text| - i
  {
    if i + |s| > |text| then -1
    else if OccursAt(text, s, i) then i
    else Find(text, s, i + 1)
  }

  /** The earliest occurrence of a stop, or -1. */
  function Earliest(text: string, stops: seq<string>): (r: int)
    ensures r >= 0 ==> r <= |text| && exists s :: s in stops && OccursAt(text, s, r)
    ensures forall s, j :: s in stops && OccursAt(text, s, j) ==> 0 <= r <= j
  {
    if stops == [] then -1
    else
      var a, b := Find(text, stops[0], 0), Earliest(text, stops[1..]);
      if a < 0 || 0 <= b < a then b else a
  }

  predicate Contains(text: string, stops: seq<string>) {
    Earliest(text, stops) >= 0
  }

  lemma NoSuchStop(text: string, stops: seq<string>, s: string, j: int)
    requires !Contains(text, stops) && s in stops
    ensures !OccursAt(text, s, j)
  {
  }

  /** apply_stop: the text before the earliest stop. */
  function ApplyStop(text: string, stops: seq<string>): (r: (string, bool))
    ensures r.1 <==> Contains(text, stops)
  {
    var cut := Earliest(text, stops);
    if cut >= 0 then (text[..cut], true) else (text, false)
  }

  /** The last k characters could begin a stop. */
  ghost predicate MayBegin(text: string, stops: seq<string>, k: nat) {
    k <= |text| && exists s :: s in stops && k < |s| && text[|text| - k..] == s[..k]
  }

  /** The least that must be held back: the longest suffix that is a proper
      prefix of some stop. */
  ghost predicate HoldsBack(text: string, stops: seq<string>, k: nat) {
    && (k > 0 ==> MayBegin(text, stops, k))
    && forall m: nat :: m > k ==> !MayBegin(text, stops, m)
  }

  /** How much must be held back of a text. */
  ghost function Held(text: string, stops: seq<string>): (k: nat)
    ensures k <= |text|
  {
    HeldUpTo(text, stops, |text|)
  }

  ghost function HeldUpTo(text: string, stops: seq<string>, n: nat): (k: nat)
    requires n <= |text|
    ensures k <= n
  {
    if n == 0 || MayBegin(text, stops, n) then n else HeldUpTo(text, stops, n - 1)
  }

  lemma {:induction false} HeldUpToIs(text: string, stops: seq<string>, n: nat)
    requires n <= |text|
    ensures HeldUpTo(text, stops, n) > 0 ==> MayBegin(text, stops, HeldUpTo(text, stops, n))
    ensures forall m: nat :: HeldUpTo(text, stops, n) < m <= n ==> !MayBegin(text, stops, m)
  {
    if !(n == 0 || MayBegin(text, stops, n)) {
      HeldUpToIs(text, stops, n - 1);
    }
  }

  /** It is the longest suffix that is a proper prefix of some stop. */
  lemma HeldIs(text: string, stops: seq<string>, k: nat)
    requires k <= |text|
    ensures Held(text, stops) == k <==> HoldsBack(text, stops, k)
  {
    HeldUpToIs(text, stops, |text|);
  }

  lemma NothingLongerBegins(text: string, stops: seq<string>, m: nat)
    requires Held(text, stops) < m
    ensures !MayBegin(text, stops, m)
  {
    HeldUpToIs(text, stops, |text|);
  }

  ghost predicate Proper(stops: seq<string>) {
    forall s :: s in stops ==> s != ""
  }

  // ----- why the held text is enough -----

  /** A text cut before what was held, and its buffer after one more piece. */
  ghost predicate Buffered(all: string, out: string, buf: string, held: nat, stops: seq<string>) {
    && all == out + buf && held <= |buf|
    && Held(out + buf[..held], stops) == held && !Contains(out + buf[..held], stops)
  }

  /** A stop of the whole text starts in what was held. */
  lemma StopStartsInHeld(all: string, out: string, buf: string, held: nat, stops: seq<string>, s: string, j: int)
    requires Proper(stops) && Buffered(all, out, buf, held, stops)
    requires s in stops && OccursAt(all, s, j)
    ensures j >= |out| && OccursAt(buf, s, j - |out|)
  {
    var fed := out + buf[..held];
    if j < |out| {
      assert all[..|fed|] == fed;
      if j + |s| <= |fed| {
        assert all[j..j + |s|] == fed[j..j + |s|];
        NoSuchStop(fed, stops, s, j);
      } else {
        assert all[j..j + |s|][..|fed| - j] == fed[j..];
        assert MayBegin(fed, stops, |fed| - j);
        NothingLongerBegins(fed, stops, |fed| - j);
      }
    } else {
      assert all[j..j + |s|] == buf[j - |out|..j - |out| + |s|];
    }
  }

  lemma CutOfWhole(all: string, out: string, buf: string, held: nat, stops: seq<string>)
    requires Proper(stops) && Buffered(all, out, buf, held, stops) && Contains(all, stops)
    ensures 0 <= Earliest(buf, stops) <= Earliest(all, stops) - |out|
  {
    var a := Earliest(all, stops);
    var s :| s in stops && OccursAt(all, s, a);
    StopStartsInHeld(all, out, buf, held, stops, s, a);
  }

  lemma CutOfBuffer(all: string, out: string, buf: string, stops: seq<string>)
    requires all == out + buf && Contains(buf, stops)
    ensures 0 <= Earliest(all, stops) <= Earliest(buf, stops) + |out|
  {
    var b := Earliest(buf, stops);
    var s :| s in stops && OccursAt(buf, s, b);
    assert all[|out| + b..|out| + b + |s|] == buf[b..b + |s|];
    assert OccursAt(all, s, |out| + b);
  }

  /** The stop matcher sees in its buffer what apply_stop sees in the whole text. */
  lemma SameCut(all: string, out: string, buf: string, held: nat, stops: seq<string>)
    requires Proper(stops) && Buffered(all, out, buf, held, stops)
    ensures Contains(all, stops) <==> Contains(buf, stops)
    ensures Contains(buf, stops) ==> ApplyStop(all, stops).0 == out + ApplyStop(buf, stops).0
  {
    if Contains(all, stops) {
      CutOfWhole(all, out, buf, held, stops);
    }
    if Contains(buf, stops) {
      CutOfBuffer(all, out, buf, stops);
    }
  }

  /** What begins a stop at the end of the whole text lies in the buffer. */
  lemma BeginsInBuffer(all: string, out: string, buf: string, held: nat, stops: seq<string>, k: nat)
    requires Buffered(all, out, buf, held, stops)
    ensures MayBegin(all, stops, k) <==> MayBegin(buf, stops, k)
  {
    if k <= |buf| {
      assert all[|all| - k..] == buf[|buf| - k..];
    } else if MayBegin(all, stops, k) {
      var s :| s in stops && k < |s| && all[|all| - k..] == s[..k];
      var fed, m := out + buf[..held], k - (|buf| - held);
      assert fed[|fed| - m..] == all[|all| - k..][..m];
      assert MayBegin(fed, stops, m);
      NothingLongerBegins(fed, stops, m);
    }
  }

  /** What must be held back of the whole text is what must be of the buffer. */
  lemma StillHeld(all: string, out: string, buf: string, held: nat, stops: seq<string>)
    requires Buffered(all, out, buf, held, stops)
    ensures Held(all, stops) == Held(buf, stops)
  {
    forall m: nat
      ensures MayBegin(all, stops, m) <==> MayBegin(buf, stops, m)
    {
      BeginsInBuffer(all, out, buf, held, stops, m);
    }
    HeldIs(buf, stops, Held(buf, stops));
    HeldIs(all, stops, Held(buf, stops));
  }

  /** Out and buffer make up what was fed, which holds no stop; what must be
      held back is in the buffer, and no more. */
  ghost predicate Sound(stops: seq<string>, fed: string, out: string, buf: string) {
    fed == out + buf && !Contains(fed, stops) && Held(fed, stops) == |buf|
  }

  lemma NothingFed(stops: seq<string>)
    requires Proper(stops)
    ensures Sound(stops, "", "", "")
  {
  }

  lemma FedBuffered(stops: seq<string>, fed: string, out: string, held: string, piece: string)
    requires Sound(stops, fed, out, held)
    ensures Buffered(fed + piece, out, held + piece, |held|, stops)
  {
    assert (held + piece)[..|held|] == held;
  }

  /** A stop in the buffer is the earliest stop of everything fed. */
  lemma FedToAStop(stops: seq<string>, fed: string, out: string, held: string, piece: string)
    requires Proper(stops) && Sound(stops, fed, out, held) && Contains(held + piece, stops)
    ensures Contains(fed + piece, stops)
    ensures out + ApplyStop(held + piece, stops).0 == ApplyStop(fed + piece, stops).0
  {
    FedBuffered(stops, fed, out, held, piece);
    SameCut(fed + piece, out, held + piece, |held|, stops);
  }

  /** Without a stop, all but what must be held back goes out. */
  lemma FedOn(stops: seq<string>, fed: string, out: string, held: string, piece: string)
    requires Proper(stops) && Sound(stops, fed, out, held) && !Contains(held + piece, stops)
    ensures var buf, keep := held + piece, Held(held + piece, stops);
            Sound(stops, fed + piece, out + buf[..|buf| - keep], buf[|buf| - keep..])
  {
    FedBuffered(stops, fed, out, held, piece);
    SameCut(fed + piece, out, held + piece, |held|, stops);
    StillHeld(fed + piece, out, held + piece, |held|, stops);
  }

  /** A stop that starts with the end of a text without stops is longer than it. */
  lemma StartsMeansBegins(text: string, stops: seq<string>, k: nat)
    requires 0 < k <= |text| && !Contains(text, stops)
    ensures SomeStarts(stops, text[|text| - k..]) <==> MayBegin(text, stops, k)
  {
    var end := text[|text| - k..];
    if SomeStarts(stops, end) {
      var s :| s in stops && end <= s;
      assert OccursAt(text, end, |text| - k);
      if |s| == k { NoSuchStop(text, stops, s, |text| - k); }
    }
  }

  /** Some stop starts with p. */
  predicate SomeStarts(stops: seq<string>, p: string) {
    exists s :: s in stops && p <= s
  }

  function MaxLength(stops: seq<string>): (n: nat)
    ensures forall s :: s in stops ==> |s| <= n
    ensures stops != [] ==> exists s :: s in stops && |s| == n
  {
    if stops == [] then 0
    else
      var m := MaxLength(stops[1..]);
      if |stops[0]| >= m then |stops[0]| else
        assert exists s :: s in stops[1..] && |s| == m;
        m
  }

  function NonEmpty(stops: seq<string>): (r: seq<string>)
    ensures Proper(r) && forall s :: s in r <==> s in stops && s != ""
  {
    if stops == [] then [] else (if stops[0] == "" then [] else [stops[0]]) + NonEmpty(stops[1..])
  }

  lemma HeldIsShort(text: string, stops: seq<string>)
    ensures Held(text, stops) == 0 || Held(text, stops) < MaxLength(stops)
  {
    HeldUpToIs(text, stops, |text|);
  }

  lemma HeldFrom(text: string, stops: seq<string>, k: nat)
    requires 0 < k <= |text| && Held(text, stops) <= k
    ensures MayBegin(text, stops, k) ==> Held(text, stops) == k
    ensures !MayBegin(text, stops, k) ==> Held(text, stops) <= k - 1
  {
    HeldUpToIs(text, stops, |text|);
  }

  // ----- the class -----

  class StopStream {
    const stops: seq<string>
    const hold: int
    var buf: string
    ghost var fed: string                  // everything fed since the last stop
    ghost var out: string                  // everything given out of it

    /** Nothing fed holds a stop, and exactly what must be held back is. */
    ghost predicate Valid()
      reads this
    {
      && Proper(stops) && hold == MaxLength(stops) - 1
      && Sound(stops, fed, out, buf)
    }

    constructor (stops: seq<string>)
      ensures Valid() && this.stops == NonEmpty(stops) && fed == out == ""
    {
      this.stops := NonEmpty(stops);
      hold := MaxLength(NonEmpty(stops)) - 1;
      buf, fed, out := "", "", "";
    }

    method Feed(piece: string) returns (text: string, stopped: bool)
      requires Valid()
      modifies this
      ensures Valid()
      ensures stopped <==> Contains(old(fed) + piece, stops)
      ensures stopped ==> old(out) + text == ApplyStop(old(fed) + piece, stops).0 && fed == out == buf == ""
      ensures !stopped ==> fed == old(fed) + piece && out == old(out) + text
    {
      hide Sound, Held, Contains, Proper, ApplyStop;
      ghost var held := buf;
      buf := buf + piece;
      var cut := ApplyStop(buf, stops);
      if cut.1 {
        FedToAStop(stops, fed, out, held, piece);
        NothingFed(stops);
        buf, fed, out := "", "", "";
        return cut.0, true;
      }
      var keep := Keep();
      FedOn(stops, fed, out, held, piece);
      text, stopped := buf[..|buf| - keep], false;
      buf, fed, out := buf[|buf| - keep..], fed + piece, out + text;
    }

    /** How much of the buffer to hold back: the longest end that some stop starts with. */
    method Keep() returns (k: nat)
      requires Proper(stops) && hold == MaxLength(stops) - 1 && !Contains(buf, stops)
      ensures k == Held(buf, stops)
    {
      hide Held, Contains, Proper, MayBegin, SomeStarts, MaxLength;
      k := if hold < 0 then 0 else if hold < |buf| then hold else |buf|;
      HeldIsShort(buf, stops);
      while k > 0
        invariant Held(buf, stops) <= k <= |buf|
      {
        StartsMeansBegins(buf, stops, k);
        HeldFrom(buf, stops, k);
        if SomeStarts(stops, buf[|buf| - k..]) {
          return;
        }
        k := k - 1;
      }
    }

    method Flush() returns (text: string)
      requires Valid()
      modifies this
      ensures Valid() && old(out) + text == old(fed) && fed == out == buf == ""
    {
      text := buf;
      buf, fed, out := "", "", "";
    }
  }

  // ----- whole runs -----

  /** The text of the first n pieces. */
  function Joined(pieces: seq<string>, n: nat): string
    requires n <= |pieces|
  {
    if n == 0 then "" else Joined(pieces, n - 1) + pieces[n - 1]
  }

  /** None of the texts of fewer than n pieces holds a stop. */
  predicate NoStopBefore(pieces: seq<string>, n: nat, stops: seq<string>)
    requires n <= |pieces|
  {
    n == 0 || (NoStopBefore(pieces, n - 1, stops) && !Contains(Joined(pieces, n - 1), stops))
  }

  /** The feeding of the pieces, up to a stop or the end. */
  method FeedAll(ss: StopStream, pieces: seq<string>) returns (text: string, n: nat, stopped: bool)
    requires ss.Valid() && ss.fed == ss.out == ""
    modifies ss
    ensures ss.Valid() && n <= |pieces|
    ensures NoStopBefore(pieces, n, ss.stops)
    ensures stopped <==> Contains(Joined(pieces, n), ss.stops)
    ensures stopped ==> text == ApplyStop(Joined(pieces, n), ss.stops).0
    ensures !stopped ==> n == |pieces| && ss.fed == Joined(pieces, n) && ss.out == text
  {
    text, n, stopped := "", 0, false;
    while n < |pieces|
      invariant n <= |pieces| && ss.Valid()
      invariant ss.fed == Joined(pieces, n) && ss.out == text
      invariant NoStopBefore(pieces, n, ss.stops)
    {
      var t;
      t, stopped := ss.Feed(pieces[n]);
      text, n := text + t, n + 1;
      if stopped {
        return;
      }
    }
  }

  /** What a reader of the pieces gets, the first n of which hold no stop: the text
      cut at the stop with the first piece that completes one, or all of it. */
  function Heard(stops: seq<string>, pieces: seq<string>, n: nat): (string, bool)
    requires n <= |pieces|
    decreases |pieces| - n
  {
    if n == |pieces| || Contains(Joined(pieces, n), stops) then ApplyStop(Joined(pieces, n), stops)
    else Heard(stops, pieces, n + 1)
  }

  lemma {:induction false} HeardFrom(stops: seq<string>, pieces: seq<string>, k: nat, n: nat)
    requires k <= n <= |pieces| && NoStopBefore(pieces, n, stops)
    ensures Heard(stops, pieces, k) == Heard(stops, pieces, n)
    decreases n - k
  {
    if k < n {
      NotBefore(pieces, k, n, stops);
      HeardFrom(stops, pieces, k + 1, n);
    }
  }

  lemma {:induction false} NotBefore(pieces: seq<string>, k: nat, n: nat, stops: seq<string>)
    requires k < n <= |pieces| && NoStopBefore(pieces, n, stops)
    ensures !Contains(Joined(pieces, k), stops)
  {
    if k < n - 1 {
      NotBefore(pieces, k, n - 1, stops);
    }
  }

  /** A reader that feeds the pieces until a stop or the end, then flushes: for
      every way of cutting a text into pieces it stops with the first piece
      after which the text so far holds a stop, with apply_stop of the text so
      far; without a stop it gives the text out whole. */
  method Read(stops: seq<string>, pieces: seq<string>) returns (text: string, n: nat, stopped: bool)
    ensures n <= |pieces|
    ensures NoStopBefore(pieces, n, NonEmpty(stops))
    ensures stopped <==> Contains(Joined(pieces, n), NonEmpty(stops))
    ensures stopped ==> text == ApplyStop(Joined(pieces, n), NonEmpty(stops)).0
    ensures !stopped ==> n == |pieces| && text == Joined(pieces, n)
    ensures (text, stopped) == Heard(NonEmpty(stops), pieces, 0)
  {
    var ss := new StopStream(stops);
    text, n, stopped := FeedAll(ss, pieces);
    HeardFrom(NonEmpty(stops), pieces, 0, n);
    if !stopped {
      var tail := ss.Flush();
      text := text + tail;
    }
  }

  // ----- when it is apply_stop of the whole text -----

  /** A proper beginning of a stop that holds a stop holds one at its start. */
  ghost predicate Shielded(stops: seq<string>) {
    forall s, k: nat :: s in stops && k < |s| ==> Earliest(s[..k], stops) <= 0
  }

  lemma OccursLater(a: string, b: string, s: string, i: int)
    requires OccursAt(a, s, i)
    ensures OccursAt(a + b, s, i)
  {
    assert (a + b)[i..i + |s|] == a[i..i + |s|];
  }

  lemma OccursInEnd(a: string, e: nat, k: nat, s: string, i: int)
    requires e + k == |a|
    ensures OccursAt(a, s, e + i) && i >= 0 ==> OccursAt(a[e..], s, i)
    ensures OccursAt(a[e..], s, i) ==> OccursAt(a, s, e + i)
  {
    if i >= 0 && i + |s| <= k {
      assert a[e..][i..i + |s|] == a[e + i..e + i + |s|];
    }
  }

  lemma OccursBefore(a: string, b: string, s: string, i: int)
    requires OccursAt(a + b, s, i) && i + |s| <= |a|
    ensures OccursAt(a, s, i)
  {
    assert (a + b)[i..i + |s|] == a[i..i + |s|];
  }

  lemma OccursAcross(a: string, b: string, s: string, i: nat)
    requires OccursAt(a + b, s, i) && i <= |a| < i + |s|
    ensures a[i..] == s[..|a| - i]
  {
    assert (a + b)[i..i + |s|] == a[i..] + b[..i + |s| - |a|];
  }

  lemma Found(text: string, stops: seq<string>) returns (s: string)
    requires Contains(text, stops)
    ensures s in stops && OccursAt(text, s, Earliest(text, stops))
  {
    s :| s in stops && OccursAt(text, s, Earliest(text, stops));
  }

  lemma NotEarlier(text: string, stops: seq<string>, s: string, i: int)
    requires s in stops && OccursAt(text, s, i)
    ensures 0 <= Earliest(text, stops) <= i
  {
  }

  /** What begins before a stop and ends after the text holds a stop at its start. */
  lemma ShieldedStart(stops: seq<string>, a: string, f: nat, e: int, t: string, s: string)
    requires Shielded(stops) && t in stops && OccursAt(a, t, e) && f < e && s in stops
    requires |a| - f < |s| && a[f..] == s[..|a| - f]
    ensures Earliest(a, stops) <= f
  {
    var k: nat := |a| - f;
    assert Earliest(s[..k], stops) <= 0;
    hide Shielded, Earliest, OccursAt;
    OccursInEnd(a, f, k, t, e - f);
    NotEarlier(a[f..], stops, t, e - f);
    var u := Found(a[f..], stops);
    OccursInEnd(a, f, k, u, 0);
    NotEarlier(a, stops, u, f);
  }

  /** Text after a stop does not bring an earlier one. */
  lemma CutStays(stops: seq<string>, a: string, b: string)
    requires Shielded(stops) && Contains(a, stops)
    ensures Earliest(a + b, stops) == Earliest(a, stops)
  {
    hide Shielded, Earliest, OccursAt;
    var e := Earliest(a, stops);
    var t := Found(a, stops);
    OccursLater(a, b, t, e);
    NotEarlier(a + b, stops, t, e);
    var f := Earliest(a + b, stops);
    var s := Found(a + b, stops);
    if f + |s| <= |a| {
      OccursBefore(a, b, s, f);
      NotEarlier(a, stops, s, f);
    } else if f < e {
      Bounds(a, t, e);
      OccursAcross(a, b, s, f);
      ShieldedStart(stops, a, f, e, t, s);
    }
  }

  lemma Bounds(text: string, s: string, i: int)
    requires OccursAt(text, s, i)
    ensures 0 <= i && i + |s| <= |text|
  {
  }

  lemma {:induction false} JoinedGrows(pieces: seq<string>, n: nat, m: nat) returns (rest: string)
    requires n <= m <= |pieces|
    ensures Joined(pieces, m) == Joined(pieces, n) + rest
    decreases m - n
  {
    if n == m {
      rest := "";
    } else {
      rest := JoinedGrows(pieces, n, m - 1);
      assert Joined(pieces, n) + rest + pieces[m - 1] == Joined(pieces, n) + (rest + pieces[m - 1]);
      rest := rest + pieces[m - 1];
    }
  }

  lemma {:induction false} ShieldedHeard(stops: seq<string>, pieces: seq<string>, n: nat)
    requires Shielded(stops) && n <= |pieces|
    ensures Heard(stops, pieces, n) == ApplyStop(Joined(pieces, |pieces|), stops)
    decreases |pieces| - n
  {
    hide Shielded, Earliest;
    if n < |pieces| {
      if Contains(Joined(pieces, n), stops) {
        var rest := JoinedGrows(pieces, n, |pieces|);
        CutStays(stops, Joined(pieces, n), rest);
        var cut := Earliest(Joined(pieces, n), stops);
        assert Joined(pieces, |pieces|)[..cut] == Joined(pieces, n)[..cut];
      } else {
        ShieldedHeard(stops, pieces, n + 1);
      }
    }
  }

  lemma TwoPieces(stops: seq<string>, a: string, b: string)
    requires Proper(stops) && Contains(a, stops)
    ensures Joined([a, b], 2) == a + b && Heard(stops, [a, b], 0) == ApplyStop(a, stops)
  {
    assert Joined([a, b], 0) == "" && !Contains("", stops);
    assert Joined([a, b], 1) == "" + a == a;
  }

  /** The reader of these pieces gets apply_stop of the whole text. */
  predicate HearsTheWhole(stops: seq<string>, pieces: seq<string>) {
    Heard(stops, pieces, 0) == ApplyStop(Joined(pieces, |pieces|), stops)
  }

  lemma CutLength(text: string, stops: seq<string>)
    requires Contains(text, stops)
    ensures |ApplyStop(text, stops).0| == Earliest(text, stops)
  {
  }

  lemma CutMoves(stops: seq<string>, a: string, b: string)
    requires Proper(stops) && Contains(a, stops) && Contains(a + b, stops)
    requires Earliest(a, stops) != Earliest(a + b, stops)
    ensures !HearsTheWhole(stops, [a, b])
  {
    hide Heard, Earliest, Joined, ApplyStop, Contains, Proper;
    TwoPieces(stops, a, b);
    CutLength(a, stops);
    CutLength(a + b, stops);
  }

  /** A stop that brings an earlier cut when it is completed, in two pieces. */
  lemma UnshieldedHeard(stops: seq<string>, s: string, k: nat)
    requires Proper(stops) && s in stops && k < |s| && Earliest(s[..k], stops) > 0
    ensures !HearsTheWhole(stops, [s[..k], s[k..]])
  {
    assert OccursAt(s, s, 0);
    hide HearsTheWhole, Earliest, OccursAt;
    assert s[..k] + s[k..] == s;
    NotEarlier(s, stops, s, 0);
    CutMoves(stops, s[..k], s[k..]);
  }

  /** Whatever the pieces, the reader gets apply_stop of the whole text, if and only if
      the stops are shielded. */
  lemma WholeText(stops: seq<string>)
    requires Proper(stops)
    ensures Shielded(stops) <==> forall pieces :: HearsTheWhole(stops, pieces)
  {
    hide Earliest, Heard;
    if Shielded(stops) {
      forall pieces ensures HearsTheWhole(stops, pieces) {
        ShieldedHeard(stops, pieces, 0);
      }
    } else {
      var s, k: nat :| s in stops && k < |s| && Earliest(s[..k], stops) > 0;
      UnshieldedHeard(stops, s, k);
    }
  }

  /** Stops that are not: with "abcd" and "bc" the pieces "abc", "d" give "a", where
      the whole text gives "". */
  lemma NotTheWholeText()
    ensures var stops, pieces := ["abcd", "bc"], ["abc", "d"];
            && !Shielded(stops)
            && Heard(stops, pieces, 0) == ("a", true)
            && ApplyStop(Joined(pieces, 2), stops) == ("", true)
  {
    var stops := ["abcd", "bc"];
    assert "abc"[1..3] == "bc" && OccursAt("abc", "bc", 1);
    assert !OccursAt("abc", "bc", 0) by { assert "abc"[0..2][0] == 'a'; }
    assert Earliest("abc", stops) == 1;
    assert "abc"[..1] == "a";
    TwoPieces(stops, "abc", "d");
    assert "abcd"[..3] == "abc" && "abcd" in stops;
    assert ("abc" + "d")[0..4] == "abcd" && OccursAt("abc" + "d", "abcd", 0);
    assert Earliest("abc" + "d", stops) == 0;
  }
}
