/** multipart/form-data: the parser's scan, and the forms it reads back
    (section 5.1.1 of RFC 2046).  The part headers go to a header parser that is
    only known by its results. */
module Multipart {
  import opened Wrappers

  const CR: byte := 13
  const LF: byte := 10
  const CRLF: seq<byte> := [CR, LF]
  const DASHES: seq<byte> := [45, 45]
  const BLANK_LINE: seq<byte> := [CR, LF, CR, LF]

  // ----- searching -----

  predicate StartsAt(body: seq<byte>, s: seq<byte>, i: int) {
    0 <= i && i + |s| <= |body| && body[i..i + |s|] == s
  }

  /** body.find(s, from): the first place from there on, or -1. */
  function Find(body: seq<byte>, s: seq<byte>, from: nat): (r: int)
    ensures r >= 0 ==> from <= r <= |body| - |s| && StartsAt(body, s, r)
    decreases |body| - from
  {
    if from + |s| > |body| then -1
    else if StartsAt(body, s, from) then from
    else Find(body, s, from + 1)
  }

  lemma {:induction false} FindIsFirst(body: seq<byte>, s: seq<byte>, from: nat, i: int)
    requires from <= i && StartsAt(body, s, i)
    requires forall k :: from <= k < i ==> !StartsAt(body, s, k)
    ensures Find(body, s, from) == i
    decreases i - from
  {
    if from < i {
      FindIsFirst(body, s, from + 1, i);
    }
  }

  /** Past spaces and tabs. */
  function PastBlanks(body: seq<byte>, k: nat): (r: nat)
    ensures k <= r && (k <= |body| ==> r <= |body|)
    ensures forall i :: k <= i < r && i < |body| ==> body[i] == 32 || body[i] == 9
    decreases |body| - k
  {
    if k < |body| && (body[k] == 32 || body[k] == 9) then PastBlanks(body, k + 1) else k
  }

  /** What may follow a boundary on its line: "--", or blanks and CRLF. */
  predicate EndsLine(body: seq<byte>, j: nat) {
    StartsAt(body, DASHES, j) || StartsAt(body, CRLF, PastBlanks(body, j))
  }

  /** A delimiter line starts at i; `line` is CRLF and the boundary. */
  predicate IsDelimiter(body: seq<byte>, line: seq<byte>, i: nat) {
    StartsAt(body, line, i) && EndsLine(body, i + |line|)
  }

  /** The next delimiter line from `at` on, or -1. */
  function NextDelimiter(body: seq<byte>, line: seq<byte>, at: nat): (r: int)
    ensures r >= 0 ==> at <= r && r + |line| <= |body| && IsDelimiter(body, line, r)
    decreases |body| - at
  {
    if at >= |body| then -1
    else if IsDelimiter(body, line, at) then at
    else NextDelimiter(body, line, at + 1)
  }

  lemma {:induction false} NoDelimiterBetween(body: seq<byte>, line: seq<byte>, at: nat, i: nat)
    requires at <= i && forall k: nat :: at <= k < i ==> !StartsAt(body, line, k)
    ensures NextDelimiter(body, line, at) == NextDelimiter(body, line, i)
    decreases i - at
  {
    if at < i {
      NoDelimiterBetween(body, line, at + 1, i);
      if at >= |body| {
        assert NextDelimiter(body, line, i) == -1;
      }
    }
  }

  lemma {:induction false} FindSkips(body: seq<byte>, s: seq<byte>, from: nat)
    ensures var i := Find(body, s, from);
            forall k: nat :: from <= k && (i < 0 || k < i) ==> !StartsAt(body, s, k)
    decreases |body| - from
  {
    if from + |s| <= |body| && !StartsAt(body, s, from) {
      FindSkips(body, s, from + 1);
    }
  }

  /** One turn of the search. */
  lemma DelimiterSearch(body: seq<byte>, line: seq<byte>, at: nat)
    ensures var i := Find(body, line, at);
            NextDelimiter(body, line, at) ==
            if i < 0 then -1 else if IsDelimiter(body, line, i) then i else NextDelimiter(body, line, i + 1)
  {
    var i := Find(body, line, at);
    FindSkips(body, line, at);
    if i < 0 {
      NoDelimiterBetween(body, line, at, at + |body|);
    } else {
      NoDelimiterBetween(body, line, at, i);
    }
  }

  method SkipBlanks(body: seq<byte>, j: nat) returns (k: nat)
    requires j <= |body|
    ensures k == PastBlanks(body, j)
  {
    k := j;
    while k < |body| && (body[k] == 32 || body[k] == 9)
      invariant j <= k <= |body| && PastBlanks(body, k) == PastBlanks(body, j)
    {
      k := k + 1;
    }
  }

  method LineEnds(body: seq<byte>, j: nat) returns (b: bool)
    requires j <= |body|
    ensures b == EndsLine(body, j)
  {
    var k := SkipBlanks(body, j);
    b := StartsAt(body, DASHES, j) || StartsAt(body, CRLF, k);
  }

  /** One turn of the search: the next boundary, and whether its line is well formed. */
  method NextLook(body: seq<byte>, line: seq<byte>, at: nat) returns (i: int, ends: bool)
    ensures i < 0 ==> NextDelimiter(body, line, at) == -1
    ensures i >= 0 ==> at <= i <= |body| - |line|
    ensures i >= 0 ==> NextDelimiter(body, line, at) == if ends then i else NextDelimiter(body, line, i + 1)
  {
    hide StartsAt, EndsLine;
    DelimiterSearch(body, line, at);
    i := Find(body, line, at);
    ends := false;
    if i >= 0 {
      ends := LineEnds(body, i + |line|);
    }
  }

  /** delimiter(at). */
  method Delimiter(body: seq<byte>, line: seq<byte>, at0: nat) returns (r: int)
    ensures r == NextDelimiter(body, line, at0)
  {
    var at := at0;
    while true
      invariant at0 <= at && NextDelimiter(body, line, at) == NextDelimiter(body, line, at0)
      decreases |body| - at
    {
      var i, ends := NextLook(body, line, at);
      if i < 0 {
        return -1;
      }
      if ends {
        return i;
      }
      at := i + 1;
    }
  }

  // ----- the parser -----

  /** What the header parser finds in a part's header: the field's name, and the
      file name if it has one. */
  datatype Headers = Headers(name: seq<byte> -> Option<seq<byte>>, filename: seq<byte> -> Option<seq<byte>>)

  datatype Field = Field(data: seq<byte>, filename: Option<seq<byte>>)

  type Form = map<seq<byte>, Field>

  function Store(hp: Headers, out: Form, header: seq<byte>, data: seq<byte>): Form {
    var name := hp.name(header);
    if name.Some? && name.value != [] then out[name.value := Field(data, hp.filename(header))] else out
  }

  /** One part: its header block, its data, and where the next boundary's line ends. */
  datatype Part = Part(header: seq<byte>, data: seq<byte>, next: nat)

  /** Where the rest of the boundary's line and the header block end. */
  datatype Head = Head(eol: nat, end: nat)

  predicate Fits(body: seq<byte>, h: Head) {
    h.eol <= h.end && h.end + 4 <= |body|
  }

  function HeadAt(body: seq<byte>, pos: nat): (h: Option<Head>)
    ensures h.Some? ==> pos <= h.value.eol && Fits(body, h.value)
  {
    var eol := Find(body, CRLF, pos);
    var hend := if eol >= 0 then Find(body, BLANK_LINE, eol) else -1;
    if hend < 0 then None else Some(Head(eol, hend))
  }

  function Cut(body: seq<byte>, h: Head, nxt: nat, size: nat): Part
    requires Fits(body, h) && h.end + 2 <= nxt <= |body|
  {
    Part(body[h.eol + 2..h.end + 2] + CRLF, if h.end + 4 <= nxt then body[h.end + 4..nxt] else [], nxt + size)
  }

  /** The part whose boundary ends at pos; None when it is not terminated. */
  function PartAt(body: seq<byte>, line: seq<byte>, pos: nat): (p: Option<Part>)
    ensures p.Some? ==> pos < p.value.next <= |body|
  {
    var h := HeadAt(body, pos);
    if h.None? then None
    else
      var nxt := NextDelimiter(body, line, h.value.end + 2);
      if nxt < 0 then None else Some(Cut(body, h.value, nxt, |line|))
  }

  /** The parts from pos on, just after a boundary. */
  function PartsFrom(body: seq<byte>, line: seq<byte>, hp: Headers, pos: nat, out: Form): Option<Form>
    decreases |body| - pos
  {
    if StartsAt(body, DASHES, pos) then Some(out)
    else
      var p := PartAt(body, line, pos);
      if p.None? then None
      else PartsFrom(body, line, hp, p.value.next, Store(hp, out, p.value.header, p.value.data))
  }

  /** Just past the first boundary, which may stand at the very start; or -1. */
  function AfterFirst(body: seq<byte>, delim: seq<byte>): (r: int)
    ensures r <= |body|
  {
    if StartsAt(body, delim, 0) then |delim|
    else
      var i := NextDelimiter(body, CRLF + delim, 0);
      if i < 0 then -1 else i + 2 + |delim|
  }

  /** parse_multipart, after the content type: None is either of its errors. */
  function Parse(body: seq<byte>, delim: seq<byte>, hp: Headers): Option<Form> {
    var pos := AfterFirst(body, delim);
    if pos < 0 then None else PartsFrom(body, CRLF + delim, hp, pos, map[])
  }

  method ReadPart(body: seq<byte>, line: seq<byte>, pos: nat) returns (p: Option<Part>)
    ensures p == PartAt(body, line, pos)
  {
    var h := HeadAt(body, pos);
    if h.None? {
      return None;
    }
    var nxt := Delimiter(body, line, h.value.end + 2);
    p := if nxt < 0 then None else Some(Cut(body, h.value, nxt, |line|));
  }

  method FirstBoundary(body: seq<byte>, delim: seq<byte>) returns (pos: int)
    ensures pos == AfterFirst(body, delim)
  {
    var starts := StartsAt(body, delim, 0);
    pos := 0;
    if !starts {
      var i := Delimiter(body, CRLF + delim, 0);
      pos := i + 2;
    }
    if pos < 2 && !starts {
      return -1;
    }
    pos := pos + |delim|;
  }

  /** The scan ends on every body. */
  method ParseMultipart(body: seq<byte>, delim: seq<byte>, hp: Headers) returns (form: Option<Form>)
    ensures form == Parse(body, delim, hp)
  {
    var pos := FirstBoundary(body, delim);
    if pos < 0 {
      return None;
    }
    var line := CRLF + delim;
    var out: Form := map[];
    while !StartsAt(body, DASHES, pos)
      invariant 0 <= pos && PartsFrom(body, line, hp, pos, out) == Parse(body, delim, hp)
      decreases |body| - pos
    {
      var p := ReadPart(body, line, pos);
      if p.None? {
        return None;
      }
      out, pos := Store(hp, out, p.value.header, p.value.data), p.value.next;
    }
    form := Some(out);
  }

  // ----- what the parser reads, without its searches -----

  /** The first place of s from `from` on. */
  ghost predicate First(body: seq<byte>, s: seq<byte>, from: nat, i: nat) {
    from <= i && StartsAt(body, s, i) && forall k: nat :: from <= k < i ==> !StartsAt(body, s, k)
  }

  /** The first delimiter line from `from` on. */
  ghost predicate FirstLine(body: seq<byte>, line: seq<byte>, from: nat, i: nat) {
    from <= i && IsDelimiter(body, line, i) && forall k: nat :: from <= k < i ==> !IsDelimiter(body, line, k)
  }

  lemma FindIs(body: seq<byte>, s: seq<byte>, from: nat)
    ensures forall i: nat :: First(body, s, from, i) <==> Find(body, s, from) == i
  {
    hide StartsAt;
    FindSkips(body, s, from);
  }

  lemma {:induction false} LineSkips(body: seq<byte>, line: seq<byte>, from: nat)
    requires line != []
    ensures var i := NextDelimiter(body, line, from);
            forall k: nat :: from <= k && (i < 0 || k < i) ==> !IsDelimiter(body, line, k)
    decreases |body| - from
  {
    if from < |body| && !IsDelimiter(body, line, from) {
      LineSkips(body, line, from + 1);
    }
  }

  lemma LineIs(body: seq<byte>, line: seq<byte>, from: nat)
    requires line != []
    ensures forall i: nat :: FirstLine(body, line, from, i) <==> NextDelimiter(body, line, from) == i
    ensures NextDelimiter(body, line, from) < 0 <==> forall k: nat :: from <= k ==> !IsDelimiter(body, line, k)
  {
    hide IsDelimiter;
    LineSkips(body, line, from);
  }

  /** body[j..k] is spaces and tabs. */
  predicate Blank(body: seq<byte>, j: nat, k: nat) {
    k <= |body| && forall i :: j <= i < k ==> body[i] == 32 || body[i] == 9
  }

  /** A boundary's line ends with "--", or with blanks and CRLF. */
  lemma EndsLineIs(body: seq<byte>, j: nat)
    requires j <= |body|
    ensures EndsLine(body, j) <==>
            || StartsAt(body, DASHES, j)
            || exists k: nat :: j <= k && Blank(body, j, k) && StartsAt(body, CRLF, k)
  {
    hide DASHES;
    if k: nat :| j <= k && Blank(body, j, k) && StartsAt(body, CRLF, k) {
      BlanksEnd(body, j, k);
    }
    if StartsAt(body, CRLF, PastBlanks(body, j)) {
      assert Blank(body, j, PastBlanks(body, j));
    }
  }

  lemma {:induction false} BlanksEnd(body: seq<byte>, j: nat, k: nat)
    requires j <= k && Blank(body, j, k) && StartsAt(body, CRLF, k)
    ensures PastBlanks(body, j) == k
    decreases k - j
  {
    assert body[k] == body[k..k + 2][0];
    if j < k {
      BlanksEnd(body, j + 1, k);
    }
  }

  /** The part whose boundary ends at pos: the headers from the next line to the
      first blank line, the data from there to the first delimiter line. */
  ghost predicate IsPart(body: seq<byte>, line: seq<byte>, pos: nat, eol: nat, end: nat, nxt: nat, p: Part) {
    && First(body, CRLF, pos, eol) && First(body, BLANK_LINE, eol, end) && FirstLine(body, line, end + 2, nxt)
    && end + 4 <= |body| && nxt <= |body| && p.header == body[eol + 2..end + 4]
    && p.data == (if end + 4 <= nxt then body[end + 4..nxt] else []) && p.next == nxt + |line|
  }

  ghost predicate HasPart(body: seq<byte>, line: seq<byte>, pos: nat, p: Part) {
    exists eol: nat, end: nat, nxt: nat :: IsPart(body, line, pos, eol, end, nxt, p)
  }

  lemma CutIs(body: seq<byte>, h: Head, nxt: nat, size: nat)
    requires Fits(body, h) && h.end + 2 <= nxt <= |body| && StartsAt(body, BLANK_LINE, h.end)
    ensures Cut(body, h, nxt, size).header == body[h.eol + 2..h.end + 4]
  {
    assert body[h.end..h.end + 4][2..] == CRLF;
    assert body[h.eol + 2..h.end + 4] == body[h.eol + 2..h.end + 2] + body[h.end + 2..h.end + 4];
  }

  /** A part is read exactly where one stands, and it is that part. */
  lemma PartAtIs(body: seq<byte>, line: seq<byte>, pos: nat, p: Part)
    requires line != []
    ensures PartAt(body, line, pos) == Some(p) <==> HasPart(body, line, pos, p)
  {
    hide StartsAt, IsDelimiter, Find, NextDelimiter, First, FirstLine;
    FindIs(body, CRLF, pos);
    var h := HeadAt(body, pos);
    if h.Some? {
      FindIs(body, BLANK_LINE, h.value.eol);
      LineIs(body, line, h.value.end + 2);
      var nxt := NextDelimiter(body, line, h.value.end + 2);
      if nxt >= 0 {
        CutIs(body, h.value, nxt, |line|);
        assert IsPart(body, line, pos, h.value.eol, h.value.end, nxt, PartAt(body, line, pos).value);
      }
    }
    if eol: nat, end: nat, nxt: nat :| IsPart(body, line, pos, eol, end, nxt, p) {
      FindIs(body, BLANK_LINE, eol);
      LineIs(body, line, end + 2);
      CutIs(body, Head(eol, end), nxt, |line|) by {
        assert StartsAt(body, BLANK_LINE, end) by { FirstStands(body, BLANK_LINE, eol, end); }
      }
    }
  }

  /** Parts one after the other, from pos to last. */
  ghost predicate InARow(body: seq<byte>, line: seq<byte>, parts: seq<Part>, pos: nat, last: nat)
    decreases |parts|
  {
    if parts == [] then last == pos
    else
      && !StartsAt(body, DASHES, pos) && HasPart(body, line, pos, parts[0])
      && InARow(body, line, parts[1..], parts[0].next, last)
  }

  /** The last part of that name. */
  ghost predicate LastNamed(hp: Headers, parts: seq<Part>, name: seq<byte>, i: nat) {
    i < |parts| && Named(hp, parts[i], name) && forall k :: i < k < |parts| ==> !Named(hp, parts[k], name)
  }

  ghost predicate NotNamed(hp: Headers, parts: seq<Part>, name: seq<byte>) {
    forall i :: 0 <= i < |parts| ==> !Named(hp, parts[i], name)
  }

  predicate Named(hp: Headers, p: Part, name: seq<byte>) {
    hp.name(p.header) == Some(name) && name != []
  }

  /** The form holds the last part of every name there is, and what `out` holds of the others. */
  ghost predicate Holds(hp: Headers, out: Form, parts: seq<Part>, form: Form) {
    forall name :: HoldsName(hp, out, parts, form, name)
  }

  ghost predicate HoldsName(hp: Headers, out: Form, parts: seq<Part>, form: Form, name: seq<byte>) {
    && (forall i: nat :: LastNamed(hp, parts, name, i) ==>
          i < |parts| && name in form && form[name] == Field(parts[i].data, hp.filename(parts[i].header)))
    && (NotNamed(hp, parts, name) ==>
          (name in form <==> name in out) && (name in form ==> form[name] == out[name]))
  }

  lemma HoldsMore(hp: Headers, out: Form, parts: seq<Part>, form: Form)
    requires parts != [] && Holds(hp, Store(hp, out, parts[0].header, parts[0].data), parts[1..], form)
    ensures Holds(hp, out, parts, form)
  {
    hide HoldsName;
    forall name ensures HoldsName(hp, out, parts, form, name) {
      HoldsOneMore(hp, out, parts, form, name);
    }
  }

  lemma NamesFirst(hp: Headers, out: Form, p: Part, name: seq<byte>)
    ensures var out' := Store(hp, out, p.header, p.data);
            if Named(hp, p, name) then name in out' && out'[name] == Field(p.data, hp.filename(p.header))
            else (name in out' <==> name in out) && (name in out' ==> out'[name] == out[name])
  {
  }

  lemma LastOfRest(hp: Headers, parts: seq<Part>, name: seq<byte>, i: nat)
    requires parts != [] && LastNamed(hp, parts, name, i)
    ensures if i == 0 then Named(hp, parts[0], name) && NotNamed(hp, parts[1..], name)
            else LastNamed(hp, parts[1..], name, i - 1)
  {
    hide Named;
    var rest := parts[1..];
    forall k | 0 <= k < |rest| && i < k + 1 ensures !Named(hp, rest[k], name) {
      assert rest[k] == parts[k + 1];
    }
  }

  lemma NotNamedRest(hp: Headers, parts: seq<Part>, name: seq<byte>)
    requires parts != [] && NotNamed(hp, parts, name)
    ensures !Named(hp, parts[0], name) && NotNamed(hp, parts[1..], name)
  {
    hide Named;
  }

  lemma HoldsOneMore(hp: Headers, out: Form, parts: seq<Part>, form: Form, name: seq<byte>)
    requires parts != []
    requires HoldsName(hp, Store(hp, out, parts[0].header, parts[0].data), parts[1..], form, name)
    ensures HoldsName(hp, out, parts, form, name)
  {
    hide Store, Named, NotNamed, LastNamed;
    NamesFirst(hp, out, parts[0], name);
    forall i: nat | LastNamed(hp, parts, name, i)
      ensures i < |parts| && name in form && form[name] == Field(parts[i].data, hp.filename(parts[i].header))
    {
      LastOfRest(hp, parts, name, i);
      LastIsPart(hp, parts, name, i);
    }
    if NotNamed(hp, parts, name) {
      NotNamedRest(hp, parts, name);
    }
  }

  lemma LastIsPart(hp: Headers, parts: seq<Part>, name: seq<byte>, i: nat)
    requires LastNamed(hp, parts, name, i)
    ensures i < |parts|
  {
  }

  /** The parts from pos on, and where they end: the body parses exactly when
      that is the closing boundary, and no part stands there otherwise. */
  lemma {:induction false} PartsAre(body: seq<byte>, line: seq<byte>, hp: Headers, pos: nat, out: Form)
    returns (parts: seq<Part>, last: nat)
    requires line != []
    ensures InARow(body, line, parts, pos, last)
    ensures PartsFrom(body, line, hp, pos, out).Some? <==> StartsAt(body, DASHES, last)
    ensures PartsFrom(body, line, hp, pos, out).None? ==> forall p :: !HasPart(body, line, last, p)
    ensures var form := PartsFrom(body, line, hp, pos, out); form.Some? ==> Holds(hp, out, parts, form.value)
    decreases |body| - pos
  {
    hide StartsAt, Holds, Store, HasPart;
    parts, last := [], pos;
    if !StartsAt(body, DASHES, pos) {
      var p := PartAt(body, line, pos);
      forall q ensures p == Some(q) <==> HasPart(body, line, pos, q) {
        PartAtIs(body, line, pos, q);
      }
      if p.Some? {
        var out' := Store(hp, out, p.value.header, p.value.data);
        parts, last := PartsAre(body, line, hp, p.value.next, out');
        parts := [p.value] + parts;
        assert parts[1..] + [] == parts[1..];
        if StartsAt(body, DASHES, last) {
          HoldsMore(hp, out, parts, PartsFrom(body, line, hp, pos, out).value);
        }
      }
    } else {
      HoldsNone(hp, out);
    }
  }

  lemma HoldsNone(hp: Headers, out: Form)
    ensures Holds(hp, out, [], out)
  {
  }

  lemma FirstStands(body: seq<byte>, s: seq<byte>, from: nat, i: nat)
    requires First(body, s, from, i)
    ensures StartsAt(body, s, i)
  {
  }

  /** Where the first boundary of the body ends: at its very start, or after
      whatever stands before its first delimiter line. */
  ghost predicate Begins(body: seq<byte>, delim: seq<byte>, pos: nat) {
    || (StartsAt(body, delim, 0) && pos == |delim|)
    || (!StartsAt(body, delim, 0) && pos >= 2 + |delim| && FirstLine(body, CRLF + delim, 0, pos - 2 - |delim|))
  }

  /** The parser on every body: an error when no boundary stands in it, and
      otherwise the parts in a row after the first; their last of every name if
      they end at the closing boundary, and an error if they do not. */
  lemma ParseIs(body: seq<byte>, delim: seq<byte>, hp: Headers) returns (pos: nat, parts: seq<Part>, last: nat)
    ensures (forall p: nat :: !Begins(body, delim, p)) ==> Parse(body, delim, hp) == None
    ensures (exists p: nat :: Begins(body, delim, p)) ==>
              && Begins(body, delim, pos) && InARow(body, CRLF + delim, parts, pos, last)
              && (Parse(body, delim, hp).Some? <==> StartsAt(body, DASHES, last))
              && (Parse(body, delim, hp).None? ==> forall p :: !HasPart(body, CRLF + delim, last, p))
              && (Parse(body, delim, hp).Some? ==> Holds(hp, map[], parts, Parse(body, delim, hp).value))
  {
    hide StartsAt, Holds, HasPart, InARow, NextDelimiter, PartsFrom, FirstLine;
    LineIs(body, CRLF + delim, 0);
    var first := AfterFirst(body, delim);
    pos, parts, last := 0, [], 0;
    if first >= 0 {
      pos := first;
      assert Begins(body, delim, pos);
      parts, last := PartsAre(body, CRLF + delim, hp, pos, map[]);
    } else {
      forall p: nat ensures !Begins(body, delim, p) {
      }
    }
  }

  // ----- what a client prints -----

  datatype Entry = Entry(header: seq<byte>, data: seq<byte>)

  function PrintEntry(e: Entry, delim: seq<byte>): seq<byte> {
    delim + CRLF + e.header + BLANK_LINE + e.data + CRLF
  }

  function Print(entries: seq<Entry>, delim: seq<byte>): seq<byte> {
    if entries == [] then delim + DASHES + CRLF else PrintEntry(entries[0], delim) + Print(entries[1..], delim)
  }

  /** A boundary within one line. */
  predicate OneLine(delim: seq<byte>) {
    CR !in delim && LF !in delim
  }

  /** The header block ends at the first blank line, not before. */
  predicate GoodHeader(header: seq<byte>) {
    Find(CRLF + header + BLANK_LINE, BLANK_LINE, 0) == 2 + |header|
  }

  /** No delimiter line starts before the payload's end. */
  predicate Clean(data: seq<byte>, line: seq<byte>) {
    var i := NextDelimiter(CRLF + data + CRLF, line, 0);
    i < 0 || 2 + |data| <= i
  }

  // ----- reading a part back -----

  /** A stretch p of a body w, from base on. */
  predicate Stretch(w: seq<byte>, p: seq<byte>, base: nat) {
    base + |p| <= |w| && w[base..base + |p|] == p
  }

  lemma {:induction false} StretchAt(w: seq<byte>, p: seq<byte>, base: nat, i: nat)
    requires Stretch(w, p, base) && i < |p|
    ensures w[base + i] == p[i]
  {
    assert w[base..base + |p|][i] == w[base + i];
  }

  lemma InStretch(w: seq<byte>, p: seq<byte>, base: nat, s: seq<byte>, i: nat)
    requires Stretch(w, p, base) && i + |s| <= |p|
    ensures StartsAt(w, s, base + i) <==> StartsAt(p, s, i)
  {
    var a, b := w[base + i..base + i + |s|], p[i..i + |s|];
    forall k: nat | k < |s| ensures a[k] == b[k] {
      StretchAt(w, p, base, i + k);
    }
    assert a == b;
  }

  lemma {:induction false} FindInStretch(w: seq<byte>, p: seq<byte>, base: nat, s: seq<byte>, i: nat)
    requires Stretch(w, p, base) && Find(p, s, i) >= 0
    ensures Find(w, s, base + i) == base + Find(p, s, i)
    decreases |p| - i
  {
    InStretch(w, p, base, s, i);
    if !StartsAt(p, s, i) {
      FindInStretch(w, p, base, s, i + 1);
    }
  }

  /** Blanks stop at a stretch's last line break. */
  lemma {:induction false} BlanksInStretch(w: seq<byte>, p: seq<byte>, base: nat, k: nat)
    requires Stretch(w, p, base) && k <= |p| - 2 && p[|p| - 2] == CR
    ensures PastBlanks(w, base + k) == base + PastBlanks(p, k) && PastBlanks(p, k) <= |p| - 2
    decreases |p| - k
  {
    StretchAt(w, p, base, k);
    if k < |p| - 2 && (p[k] == 32 || p[k] == 9) {
      BlanksInStretch(w, p, base, k + 1);
    }
  }

  /** CRLF and a boundary within one line. */
  predicate IsLine(line: seq<byte>) {
    |line| >= 2 && line[..2] == CRLF && OneLine(line[2..])
  }

  lemma NoBreakInside(line: seq<byte>, o: nat)
    requires IsLine(line) && 0 < o < |line|
    ensures line[o] != CR
  {
    if o == 1 {
      assert line[..2][1] == LF;
    } else {
      assert line[2..][o - 2] != CR;
    }
  }

  lemma SliceAt(w: seq<byte>, s: seq<byte>, i: nat, o: nat)
    requires StartsAt(w, s, i) && o < |s|
    ensures w[i + o] == s[o]
  {
    assert w[i..i + |s|][o] == w[i + o];
  }

  /** A boundary holds no line break, so one that starts before a line break ends before it. */
  lemma EndsBefore(w: seq<byte>, line: seq<byte>, i: nat, at: nat)
    requires IsLine(line) && StartsAt(w, line, i) && i < at < |w| && w[at] == CR
    ensures i + |line| <= at
  {
    if at < i + |line| {
      SliceAt(w, line, i, at - i);
      NoBreakInside(line, at - i);
    }
  }

  /** What is a delimiter line in the stretch is one in the body, and conversely. */
  lemma DelimiterInStretch(w: seq<byte>, p: seq<byte>, base: nat, line: seq<byte>, i: nat)
    requires IsLine(line) && Stretch(w, p, base) && i < |p| - 2 && p[|p| - 2] == CR
    ensures IsDelimiter(w, line, base + i) <==> IsDelimiter(p, line, i)
  {
    hide StartsAt, EndsLine, IsLine, Stretch;
    LineInStretch(w, p, base, line, i);
    if StartsAt(p, line, i) {
      EndInStretch(w, p, base, i + |line|);
    }
  }

  lemma LineInStretch(w: seq<byte>, p: seq<byte>, base: nat, line: seq<byte>, i: nat)
    requires IsLine(line) && Stretch(w, p, base) && i < |p| - 2 && p[|p| - 2] == CR
    ensures StartsAt(w, line, base + i) <==> StartsAt(p, line, i)
    ensures StartsAt(p, line, i) ==> i + |line| <= |p| - 2
  {
    StretchAt(w, p, base, |p| - 2);
    if StartsAt(w, line, base + i) {
      EndsBefore(w, line, base + i, base + |p| - 2);
      InStretch(w, p, base, line, i);
    } else if StartsAt(p, line, i) {
      EndsBefore(p, line, i, |p| - 2);
      InStretch(w, p, base, line, i);
    }
  }

  lemma EndInStretch(w: seq<byte>, p: seq<byte>, base: nat, j: nat)
    requires Stretch(w, p, base) && j <= |p| - 2 && p[|p| - 2] == CR
    ensures EndsLine(w, base + j) <==> EndsLine(p, j)
  {
    InStretch(w, p, base, DASHES, j);
    BlanksInStretch(w, p, base, j);
    InStretch(w, p, base, CRLF, PastBlanks(p, j));
  }

  /** The scan of the body meets the same delimiter line as the scan of the stretch, if one
      starts before its last line break; otherwise it goes on there. */
  lemma {:induction false} ScanStretch(w: seq<byte>, p: seq<byte>, base: nat, line: seq<byte>, i: nat)
    requires IsLine(line) && Stretch(w, p, base) && i <= |p| - 2 && p[|p| - 2] == CR
    ensures var n := NextDelimiter(p, line, i);
            NextDelimiter(w, line, base + i) ==
            if 0 <= n < |p| - 2 then base + n else NextDelimiter(w, line, base + |p| - 2)
    decreases |p| - i
  {
    if i < |p| - 2 {
      DelimiterInStretch(w, p, base, line, i);
      if !IsDelimiter(p, line, i) {
        ScanStretch(w, p, base, line, i + 1);
      }
    }
  }

  lemma Within(w: seq<byte>, p: seq<byte>, base: nat, before: seq<byte>, q: seq<byte>, after: seq<byte>)
    requires Stretch(w, p, base) && p == before + q + after
    ensures Stretch(w, q, base + |before|)
  {
    InStretch(w, p, base, q, |before|);
    assert p[|before|..|before| + |q|] == q;
  }

  lemma HeadReads(w: seq<byte>, header: seq<byte>, pos: nat)
    requires Stretch(w, CRLF + header + BLANK_LINE, pos) && GoodHeader(header)
    ensures HeadAt(w, pos) == Some(Head(pos, pos + 2 + |header|))
  {
    var q := CRLF + header + BLANK_LINE;
    FindInStretch(w, q, pos, BLANK_LINE, 0);
    InStretch(w, q, pos, CRLF, 0);
    assert q[..2] == CRLF;
  }

  /** The delimiter after a payload is where the client put it exactly when the payload is clean. */
  lemma DataReads(w: seq<byte>, data: seq<byte>, base: nat, line: seq<byte>)
    requires IsLine(line) && Stretch(w, CRLF + data + CRLF, base)
    requires IsDelimiter(w, line, base + 2 + |data|)
    ensures var n := NextDelimiter(w, line, base);
            base <= n <= base + 2 + |data| && (n == base + 2 + |data| <==> Clean(data, line))
  {
    hide StartsAt, EndsLine, IsLine, IsDelimiter, NextDelimiter;
    var p := CRLF + data + CRLF;
    assert |p| == |data| + 4 && p[|p| - 2] == CR;
    ScanStretch(w, p, base, line, 0);
    NextIsHere(w, line, base + 2 + |data|);
  }

  lemma NextIsHere(w: seq<byte>, line: seq<byte>, i: nat)
    requires IsDelimiter(w, line, i) && i < |w|
    ensures NextDelimiter(w, line, i) == i
  {
  }

  function Printed(header: seq<byte>, data: seq<byte>): seq<byte> {
    CRLF + header + BLANK_LINE + data + CRLF
  }

  lemma HeadOfPart(w: seq<byte>, h: seq<byte>, d: seq<byte>, pos: nat)
    requires Stretch(w, Printed(h, d), pos) && GoodHeader(h)
    ensures HeadAt(w, pos) == Some(Head(pos, pos + 2 + |h|))
  {
    assert Printed(h, d) == [] + (CRLF + h + BLANK_LINE) + (d + CRLF);
    Within(w, Printed(h, d), pos, [], CRLF + h + BLANK_LINE, d + CRLF);
    HeadReads(w, h, pos);
  }

  lemma RestOfPart(w: seq<byte>, h: seq<byte>, d: seq<byte>, pos: nat)
    requires Stretch(w, Printed(h, d), pos)
    ensures Stretch(w, CRLF + d + CRLF, pos + 4 + |h|)
  {
    assert Printed(h, d) == (CRLF + h + CRLF) + (CRLF + d + CRLF) + [];
    Within(w, Printed(h, d), pos, CRLF + h + CRLF, CRLF + d + CRLF, []);
  }

  lemma CutReads(w: seq<byte>, h: seq<byte>, d: seq<byte>, pos: nat, size: nat)
    requires Stretch(w, Printed(h, d), pos)
    ensures Cut(w, Head(pos, pos + 2 + |h|), pos + 6 + |h| + |d|, size) ==
            Part(h + BLANK_LINE, d, pos + 6 + |h| + |d| + size)
  {
    var p := Printed(h, d);
    assert p == CRLF + (h + CRLF) + (CRLF + d + CRLF);
    Within(w, p, pos, CRLF, h + CRLF, CRLF + d + CRLF);
    assert p == (CRLF + h + BLANK_LINE) + d + CRLF;
    Within(w, p, pos, CRLF + h + BLANK_LINE, d, CRLF);
    assert h + CRLF + CRLF == h + BLANK_LINE;
  }

  /** A printed part is read back as printed if and only if its payload is clean. */
  lemma PartReads(w: seq<byte>, h: seq<byte>, d: seq<byte>, line: seq<byte>, pos: nat)
    requires IsLine(line) && GoodHeader(h)
    requires Stretch(w, Printed(h, d), pos) && IsDelimiter(w, line, pos + 6 + |h| + |d|)
    ensures PartAt(w, line, pos) == Some(Part(h + BLANK_LINE, d, pos + 6 + |h| + |d| + |line|)) <==> Clean(d, line)
  {
    hide Printed, StartsAt, Stretch, Find, PastBlanks, NextDelimiter, GoodHeader, HeadAt, IsLine;
    HeadOfPart(w, h, d, pos);
    RestOfPart(w, h, d, pos);
    DataReads(w, d, pos + 4 + |h|, line);
    CutReads(w, h, d, pos, |line|);
  }

  lemma EmptyPayloadIsClean(line: seq<byte>)
    requires IsLine(line) && |line| > 2
    ensures Clean([], line)
  {
    var p := CRLF + [] + CRLF;
    assert p == BLANK_LINE;
    NoBreakInside(line, 2);
    if StartsAt(p, line, 0) {
      SliceAt(p, line, 0, 2);
    }
    assert line[0] == line[..2][0] == CR;
  }

  // ----- the round trip -----

  function StoreAll(hp: Headers, out: Form, entries: seq<Entry>): Form
    decreases |entries|
  {
    if entries == [] then out
    else StoreAll(hp, Store(hp, out, entries[0].header + BLANK_LINE, entries[0].data), entries[1..])
  }

  predicate Sendable(entries: seq<Entry>, line: seq<byte>) {
    forall i :: 0 <= i < |entries| ==> GoodHeader(entries[i].header) && Clean(entries[i].data, line)
  }

  /** What follows a printed part is a delimiter line. */
  lemma EndsAfterPart(pre: seq<byte>, entries: seq<Entry>, delim: seq<byte>)
    requires OneLine(delim)
    ensures EndsLine(pre + Print(entries, delim), |pre| + |delim|)
    ensures StartsAt(pre + Print(entries, delim), delim, |pre|)
    ensures StartsAt(pre + Print(entries, delim), DASHES, |pre| + |delim|) <==> entries == []
  {
    hide StartsAt, PastBlanks;
    var w, after := pre + Print(entries, delim), AfterBoundary(entries, delim);
    PrintStarts(entries, delim);
    assert w == pre + delim + after;
    Stands(pre, delim, after);
    LineEnd(w, |pre| + |delim|, after, entries == []);
  }

  /** What follows the first boundary of a printed form. */
  function AfterBoundary(entries: seq<Entry>, delim: seq<byte>): (r: seq<byte>)
    ensures |r| >= 2 && r[..2] == if entries == [] then DASHES else CRLF
  {
    if entries == [] then DASHES + CRLF else Printed(entries[0].header, entries[0].data) + Print(entries[1..], delim)
  }

  lemma EntryStarts(e: Entry, delim: seq<byte>)
    ensures PrintEntry(e, delim) == delim + Printed(e.header, e.data)
  {
  }

  lemma PrintStarts(entries: seq<Entry>, delim: seq<byte>)
    ensures Print(entries, delim) == delim + AfterBoundary(entries, delim)
  {
    hide PrintEntry, Printed;
    if entries == [] {
      assert delim + DASHES + CRLF == delim + (DASHES + CRLF);
    } else {
      EntryStarts(entries[0], delim);
      var a, b := Printed(entries[0].header, entries[0].data), Print(entries[1..], delim);
      assert delim + a + b == delim + (a + b);
    }
  }

  lemma Stands(pre: seq<byte>, s: seq<byte>, after: seq<byte>)
    ensures StartsAt(pre + s + after, s, |pre|)
  {
    assert (pre + s + after)[|pre|..|pre| + |s|] == s;
  }

  lemma LineEnd(w: seq<byte>, j: nat, after: seq<byte>, last: bool)
    requires j + |after| == |w| && w[j..] == after && |after| >= 2 && after[..2] == (if last then DASHES else CRLF)
    ensures EndsLine(w, j) && (StartsAt(w, DASHES, j) <==> last)
  {
    assert w[j..j + 2] == after[..2];
    assert w[j] == after[0];
  }

  lemma PartStands(pre: seq<byte>, e: Entry, after: seq<byte>, delim: seq<byte>)
    ensures Stretch(pre + PrintEntry(e, delim) + after, Printed(e.header, e.data), |pre| + |delim|)
    ensures |PrintEntry(e, delim)| == |delim| + 8 + |e.header| + |e.data|
    ensures var q := pre + PrintEntry(e, delim); q[|q| - 2..] == CRLF
  {
    var p, w := Printed(e.header, e.data), pre + PrintEntry(e, delim) + after;
    assert PrintEntry(e, delim) == delim + p;
    assert w[|pre| + |delim|..|pre| + |delim| + |p|] == p;
  }

  lemma LineStands(pre: seq<byte>, rest: seq<Entry>, delim: seq<byte>)
    requires OneLine(delim) && |pre| >= 2 && pre[|pre| - 2..] == CRLF
    ensures IsDelimiter(pre + Print(rest, delim), CRLF + delim, |pre| - 2)
  {
    hide EndsLine;
    EndsAfterPart(pre, rest, delim);
    var w, line := pre + Print(rest, delim), CRLF + delim;
    assert w[|pre| - 2..|pre|] == pre[|pre| - 2..];
    assert w[|pre| - 2..|pre| + |delim|] == w[|pre| - 2..|pre|] + w[|pre|..|pre| + |delim|];
  }

  lemma NextPart(pre: seq<byte>, e: Entry, rest: seq<Entry>, delim: seq<byte>)
    requires OneLine(delim) && GoodHeader(e.header) && Clean(e.data, CRLF + delim)
    ensures PartAt(pre + PrintEntry(e, delim) + Print(rest, delim), CRLF + delim, |pre| + |delim|) ==
            Some(Part(e.header + BLANK_LINE, e.data, |pre| + |PrintEntry(e, delim)| + |delim|))
  {
    hide StartsAt, EndsLine, Find, NextDelimiter, GoodHeader, PartAt, Print, Printed, PrintEntry, Stretch, Clean;
    PartStands(pre, e, Print(rest, delim), delim);
    LineStands(pre + PrintEntry(e, delim), rest, delim);
    assert (CRLF + delim)[2..] == delim;
    PartReads(pre + PrintEntry(e, delim) + Print(rest, delim), e.header, e.data, CRLF + delim, |pre| + |delim|);
  }

  lemma {:induction false} ReadsBack(hp: Headers, pre: seq<byte>, entries: seq<Entry>, delim: seq<byte>, out: Form)
    requires OneLine(delim) && Sendable(entries, CRLF + delim)
    ensures PartsFrom(pre + Print(entries, delim), CRLF + delim, hp, |pre| + |delim|, out) ==
            Some(StoreAll(hp, out, entries))
    decreases |entries|
  {
    hide StartsAt, EndsLine, Find, NextDelimiter, GoodHeader, PartAt, PrintEntry, Clean, OneLine, Store;
    EndsAfterPart(pre, entries, delim);
    if entries != [] {
      var e, rest := entries[0], entries[1..];
      NextPart(pre, e, rest, delim);
      ReadsBack(hp, pre + PrintEntry(e, delim), rest, delim, Store(hp, out, e.header + BLANK_LINE, e.data));
      assert pre + Print(entries, delim) == pre + PrintEntry(e, delim) + Print(rest, delim);
    }
  }

  /** A printed form is read back: the same names and the same payload bytes. */
  lemma RoundTrip(hp: Headers, entries: seq<Entry>, delim: seq<byte>)
    requires OneLine(delim) && Sendable(entries, CRLF + delim)
    ensures Parse(Print(entries, delim), delim, hp) == Some(StoreAll(hp, map[], entries))
  {
    hide EndsLine, PartsFrom, NextDelimiter, Print, StoreAll, Sendable, OneLine;
    ReadsBack(hp, [], entries, delim, map[]);
    EndsAfterPart([], entries, delim);
    assert [] + Print(entries, delim) == Print(entries, delim);
  }

  predicate Names(hp: Headers, e: Entry, name: seq<byte>) {
    hp.name(e.header + BLANK_LINE) == Some(name) && name != []
  }

  predicate Unnamed(hp: Headers, entries: seq<Entry>, name: seq<byte>) {
    forall k :: 0 <= k < |entries| ==> !Names(hp, entries[k], name)
  }

  lemma {:induction false} OthersStay(hp: Headers, out: Form, entries: seq<Entry>, name: seq<byte>)
    requires Unnamed(hp, entries, name)
    ensures name in StoreAll(hp, out, entries) <==> name in out
    ensures name in out ==> StoreAll(hp, out, entries)[name] == out[name]
    decreases |entries|
  {
    if entries != [] {
      assert !Names(hp, entries[0], name);
      OthersStay(hp, Store(hp, out, entries[0].header + BLANK_LINE, entries[0].data), entries[1..], name);
    }
  }

  /** A name's field is its last entry, byte for byte; other names are not stored. */
  lemma {:induction false} LastOneWins(hp: Headers, out: Form, entries: seq<Entry>, name: seq<byte>, i: nat)
    requires i < |entries| && Names(hp, entries[i], name) && Unnamed(hp, entries[i + 1..], name)
    ensures name in StoreAll(hp, out, entries)
    ensures StoreAll(hp, out, entries)[name] == Field(entries[i].data, hp.filename(entries[i].header + BLANK_LINE))
    decreases |entries|
  {
    var out' := Store(hp, out, entries[0].header + BLANK_LINE, entries[0].data);
    if i == 0 {
      OthersStay(hp, out', entries[1..], name);
    } else {
      assert entries[1..][i..] == entries[i + 1..];
      LastOneWins(hp, out', entries[1..], name, i - 1);
    }
  }
}
