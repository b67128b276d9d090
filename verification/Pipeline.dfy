/** The decoder as a whole: the chain of steps, one token at a time, and the ids
    it decodes.  The pieces that `add` returns and the `flush` concatenate to
    what `decode` makes of the same ids. */
module Pipeline {
  import opened Wrappers
  import opened Utf8
  import ByteLevel
  import opened Decoders
  import opened Chain
  import opened Lockstep

  /** The token a decoder shows for an id. */
  function TokenOf(names: seq<Option<string>>, skip: set<int>, i: int): Option<string> {
    if 0 <= i < |names| && i !in skip then names[i] else None
  }

  function Strings(names: seq<Option<string>>, skip: set<int>, ids: seq<int>): seq<string> {
    if ids == [] then []
    else
      var s := TokenOf(names, skip, ids[0]);
      (if s.Some? then [s.value] else []) + Strings(names, skip, ids[1..])
  }

  /** An id that is not skipped and names a token. */
  predicate Shown(names: seq<Option<string>>, skip: set<int>, i: int) {
    i !in skip && 0 <= i < |names| && names[i].Some?
  }

  /** toks are the tokens of the ids at the places `at`, in order. */
  predicate ShownAt(names: seq<Option<string>>, skip: set<int>, ids: seq<int>, toks: seq<string>, at: seq<nat>) {
    && |at| == |toks|
    && (forall i :: 0 <= i < |at| ==>
          at[i] < |ids| && Shown(names, skip, ids[at[i]]) && names[ids[at[i]]].value == toks[i])
    && forall i, j :: 0 <= i < j < |at| ==> at[i] < at[j]
  }

  /** The tokens decoded are those of the ids shown, all of them and in their order. */
  lemma {:induction false} StringsAre(names: seq<Option<string>>, skip: set<int>, ids: seq<int>) returns (at: seq<nat>)
    ensures ShownAt(names, skip, ids, Strings(names, skip, ids), at)
    ensures forall k :: 0 <= k < |ids| && Shown(names, skip, ids[k]) ==> k in at
    decreases |ids|
  {
    hide Strings;
    if ids == [] {
      at := [];
      NoStrings(names, skip);
    } else {
      var k := |ids| - 1;
      at := StringsAre(names, skip, ids[..k]);
      StringsNext(names, skip, ids, k);
      assert ids[..k + 1] == ids;
      if Shown(names, skip, ids[k]) {
        at := at + [k];
      }
    }
  }

  /** What decode() is: the steps over the tokens, joined. */
  function Decoded(stages: seq<Stage>, names: seq<Option<string>>, skip: set<int>, ids: seq<int>, cont: bool): string {
    Joined(DecodeList(stages, Strings(names, skip, ids), cont))
  }

  /** A lone byte-level step. */
  predicate ByteLevelOnly(stages: seq<Stage>) {
    |stages| == 1 && stages[0].step.Bytes? && !stages[0].fused
  }

  /** The lone byte-level decoder joins token bytes instead. */
  lemma ByteLevelDecodes(stages: seq<Stage>, toks: seq<string>, cont: bool)
    requires ByteLevelOnly(stages)
    ensures Joined(DecodeList(stages, toks, cont)) == Decode(BytesOf(toks))
  {
    assert stages[1..] == [];
    JoinedOne(Decode(BytesOf(toks)));
  }

  lemma BytesOfOne(s: string)
    ensures BytesOf([s]) == ByteLevel.TokenBytes(s)
  {
    assert BytesOf([s]) == ByteLevel.TokenBytes(s) + BytesOf([]);
    assert ByteLevel.TokenBytes(s) + [] == ByteLevel.TokenBytes(s);
  }

  lemma {:induction false} BytesOfConcat(a: seq<string>, b: seq<string>)
    ensures BytesOf(a + b) == BytesOf(a) + BytesOf(b)
  {
    hide ByteLevel.TokenBytes;
    if a == [] {
      assert a + b == b;
    } else {
      assert (a + b)[1..] == a[1..] + b;
      BytesOfConcat(a[1..], b);
      assert BytesOf(a + b) == ByteLevel.TokenBytes(a[0]) + (BytesOf(a[1..]) + BytesOf(b));
    }
  }

  method BatchAll(stages: seq<Stage>, toks0: seq<string>, cont: bool) returns (toks: seq<string>)
    ensures toks == DecodeList(stages, toks0, cont)
  {
    toks := toks0;
    for k := 0 to |stages|
      invariant DecodeList(stages[k..], toks, cont) == DecodeList(stages, toks0, cont)
    {
      assert stages[k..][0] == stages[k] && stages[k..][1..] == stages[k + 1..];
      toks := RunBatch(stages[k], toks, cont);
    }
  }

  lemma StringsNext(names: seq<Option<string>>, skip: set<int>, ids: seq<int>, k: nat)
    requires k < |ids|
    ensures Strings(names, skip, ids[..k + 1]) ==
            Strings(names, skip, ids[..k]) + var s := TokenOf(names, skip, ids[k]); if s.Some? then [s.value] else []
  {
    StringsConcat(names, skip, ids[..k], [ids[k]]);
    assert ids[..k + 1] == ids[..k] + [ids[k]];
    assert [ids[k]][1..] == [];
    assert Strings(names, skip, []) == [];
  }

  lemma {:induction false} StringsConcat(names: seq<Option<string>>, skip: set<int>, a: seq<int>, b: seq<int>)
    ensures Strings(names, skip, a + b) == Strings(names, skip, a) + Strings(names, skip, b)
  {
    if a == [] {
      assert a + b == b;
    } else {
      assert (a + b)[1..] == a[1..] + b;
      StringsConcat(names, skip, a[1..], b);
    }
  }

  /** The byte-level decoder's bytes. */
  method JoinBytes(names: seq<Option<string>>, skip: set<int>, ids: seq<int>) returns (bytes: seq<byte>)
    ensures bytes == BytesOf(Strings(names, skip, ids))
  {
    bytes := [];
    for k := 0 to |ids|
      invariant bytes == BytesOf(Strings(names, skip, ids[..k]))
    {
      StringsNext(names, skip, ids, k);
      var s := TokenOf(names, skip, ids[k]);
      if s.Some? {
        BytesOfConcat(Strings(names, skip, ids[..k]), [s.value]);
        BytesOfOne(s.value);
        bytes := bytes + ByteLevel.TokenBytes(s.value);
      } else {
        assert Strings(names, skip, ids[..k]) + [] == Strings(names, skip, ids[..k]);
      }
    }
    assert ids[..|ids|] == ids;
  }

  /** Tokenizer.decode(). */
  method DecodeIds(stages: seq<Stage>, names: seq<Option<string>>, skip: set<int>, ids: seq<int>, cont: bool)
    returns (text: string)
    ensures text == Decoded(stages, names, skip, ids, cont)
  {
    if ByteLevelOnly(stages) {
      ByteLevelDecodes(stages, Strings(names, skip, ids), cont);
      var bytes := JoinBytes(names, skip, ids);
      text := Decode(bytes);
    } else {
      var toks := BatchAll(stages, Strings(names, skip, ids), cont);
      text := Joined(toks);
    }
  }

  lemma ByteLevelFeeds(stages: seq<Stage>, st: State, s: string)
    requires ByteLevelOnly(stages)
    ensures var p := Read(st.bytes + ByteLevel.TokenBytes(s));
            Feed(stages, [st], [s]) == Fed([st.(bytes := p.kept)], [p.text])
  {
    var g := stages[0];
    assert stages[1..] == [] && [s][1..] == [] && [st][1..] == [];
    assert PushAll(g, Push(g, st, s).st, []) == Out(Push(g, st, s).st, []);
    assert PushAll(g, st, [s]) == Out(Push(g, st, s).st, Push(g, st, s).items + []);
  }

  lemma ByteLevelEnds(stages: seq<Stage>, st: State)
    requires ByteLevelOnly(stages)
    ensures Run(stages, [st], []) == [Decode(st.bytes)] && EndAll(stages, [st], []) == [st.(bytes := [])]
  {
    assert stages[1..] == [] && [st][1..] == [];
    assert Streamed(stages[0], st, []) == [Decode(st.bytes)];
  }

  // ----- the incremental decoder -----

  /** What the chain still shows of ids to come, flush included. */
  ghost function Left(stages: seq<Stage>, states: seq<State>, names: seq<Option<string>>, skip: set<int>,
                      ids: seq<int>): string
    requires |states| == |stages|
  {
    Joined(Run(stages, states, Strings(names, skip, ids)))
  }

  lemma LeftAfter(stages: seq<Stage>, states: seq<State>, names: seq<Option<string>>, skip: set<int>, ids: seq<int>,
                  k: nat)
    requires |states| == |stages| && k < |ids|
    ensures var s := TokenOf(names, skip, ids[k]);
            Left(stages, states, names, skip, ids[k..]) ==
            if s.None? then Left(stages, states, names, skip, ids[k + 1..])
            else var f := Feed(stages, states, [s.value]);
                 Joined(f.items) + Left(stages, f.states, names, skip, ids[k + 1..])
  {
    hide Run, Feed;
    var s, rest := TokenOf(names, skip, ids[k]), Strings(names, skip, ids[k + 1..]);
    assert ids[k..][0] == ids[k] && ids[k..][1..] == ids[k + 1..];
    if s.None? {
      assert [] + rest == rest;
    } else {
      var f := Feed(stages, states, [s.value]);
      FeedThenRun(stages, states, [s.value], rest);
      JoinedConcat(f.items, Run(stages, f.states, rest));
    }
  }

  lemma Appended(a: string, b: string, c: string)
    ensures a + (b + c) == (a + b) + c
  {
  }

  /** IncrementalDecoder: a chain of streams, or one incremental UTF-8 decoder. */
  class IncrementalDecoder {
    const stages: seq<Stage>
    const names: seq<Option<string>>
    const skip: set<int>
    const bl: bool
    var states: seq<State>
    var kept: seq<byte>

    ghost predicate Valid()
      reads this
    {
      bl == ByteLevelOnly(stages) && (!bl ==> |states| == |stages|)
    }

    /** The states of the chain, whichever way they are kept. */
    ghost function Now(): (r: seq<State>)
      requires Valid()
      reads this
      ensures |r| == |stages|
    {
      if bl then [State([], kept, 0, "", false)] else states
    }

    constructor (stages: seq<Stage>, names: seq<Option<string>>, skip: set<int>, cont: bool)
      ensures Valid() && this.stages == stages && this.names == names && this.skip == skip
      ensures Now() == Starts(stages, cont)
    {
      this.stages, this.names, this.skip := stages, names, skip;
      bl := ByteLevelOnly(stages);
      states := if ByteLevelOnly(stages) then [] else Starts(stages, cont);
      kept := [];
      if ByteLevelOnly(stages) {
        assert Starts(stages, cont) == [Start(stages[0], cont)] + Starts(stages[1..], cont);
        assert stages[1..] == [];
      }
    }

    /** The text complete so far. */
    method Add(i: int) returns (text: string)
      requires Valid()
      modifies this
      ensures Valid()
      ensures var s := TokenOf(names, skip, i);
              if s.None? then text == "" && Now() == old(Now())
              else var f := Feed(stages, old(Now()), [s.value]);
                   Now() == f.states && text == Joined(f.items)
    {
      var s := TokenOf(names, skip, i);
      if s.None? {
        return "";
      }
      if bl {
        ByteLevelFeeds(stages, Now()[0], s.value);
        var p := Read(kept + ByteLevel.TokenBytes(s.value));
        text, kept := p.text, p.kept;
        JoinedOne(text);
      } else {
        var items: seq<string>;
        states, items := FeedChain(stages, states, [s.value]);
        text := Joined(items);
      }
    }

    /** add_many(). */
    method AddMany(ids: seq<int>) returns (text: string)
      requires Valid()
      modifies this
      ensures Valid()
      ensures text + Left(stages, Now(), names, skip, []) == Left(stages, old(Now()), names, skip, ids)
    {
      hide Left, Feed, TokenOf, Now;
      text := "";
      ghost var whole := Left(stages, Now(), names, skip, ids);
      assert ids[0..] == ids;
      for k := 0 to |ids|
        invariant Valid()
        invariant text + Left(stages, Now(), names, skip, ids[k..]) == whole
      {
        LeftAfter(stages, Now(), names, skip, ids, k);
        var piece := Add(ids[k]);
        Appended(text, piece, Left(stages, Now(), names, skip, ids[k + 1..]));
        text := text + piece;
      }
      assert ids[|ids|..] == [];
    }

    /** pending: text is held back. */
    predicate HoldsBack()
      requires Valid()
      reads this
      ensures HoldsBack() <==> AnyPending(stages, Now())
    {
      if bl then
        assert AnyPending(stages, Now()) == (Pending(stages[0], Now()[0]) || AnyPending(stages[1..], Now()[1..]));
        kept != []
      else AnyPending(stages, states)
    }

    /** The rest. */
    method Flush() returns (text: string)
      requires Valid()
      modifies this
      ensures Valid()
      ensures text == Joined(Run(stages, old(Now()), [])) && Now() == EndAll(stages, old(Now()), [])
    {
      if bl {
        ByteLevelEnds(stages, Now()[0]);
        text, kept := Decode(kept), [];
        JoinedOne(text);
      } else {
        var items: seq<string>;
        states, items := FlushChain(stages, states);
        text := Joined(items);
      }
    }
  }

  lemma NoStrings(names: seq<Option<string>>, skip: set<int>)
    ensures Strings(names, skip, []) == []
  {
  }

  /** The ids one by one and a flush: the pieces are what decode() makes of the ids. */
  method Stream(stages: seq<Stage>, names: seq<Option<string>>, skip: set<int>, ids: seq<int>, cont: bool)
    returns (text: string)
    requires Chained(stages, false) && Sound(stages, false, Strings(names, skip, ids) != [])
    ensures text == Decoded(stages, names, skip, ids, cont)
  {
    RunDecodes(stages, Strings(names, skip, ids), cont);
    NoStrings(names, skip);
    var decoder := new IncrementalDecoder(stages, names, skip, cont);
    var pieces := decoder.AddMany(ids);
    var rest := decoder.Flush();
    text := pieces + rest;
  }
}
