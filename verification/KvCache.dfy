/** Generation over a KV cache that is kept between requests: the text backend's
    and the image backend's prefill, the decode loop, and every way out of it. */
module KvCache {
  import opened Wrappers
  import StopStream

  /** What one KV position holds: a token, or one row of an image (keyed by the
      image's content). */
  datatype Key = Tok(id: int) | Img(sha: string, row: nat)

  const IMAGE_SEQ: nat := 64

  // ----- prompt keys -----

  function CountTok(ids: seq<int>, tok: int): nat {
    if ids == [] then 0 else CountTok(ids[..|ids| - 1], tok) + if ids[|ids| - 1] == tok then 1 else 0
  }

  /** The c-th image token of a prompt is row c % 64 of image c / 64. */
  function KeyAt(ids: seq<int>, tok: int, images: seq<string>, i: nat): Key
    requires i < |ids|
    requires ids[i] == tok ==> CountTok(ids[..i], tok) / IMAGE_SEQ < |images|
  {
    var c := CountTok(ids[..i], tok);
    if ids[i] == tok then Img(images[c / IMAGE_SEQ], c % IMAGE_SEQ) else Tok(ids[i])
  }

  /** The keys of the first n ids. */
  ghost predicate AreKeys(keys: seq<Key>, ids: seq<int>, tok: int, images: seq<string>, n: nat) {
    && |keys| == n <= |ids|
    && forall i :: 0 <= i < n ==>
         && (ids[i] == tok ==> CountTok(ids[..i], tok) / IMAGE_SEQ < |images|)
         && keys[i] == KeyAt(ids, tok, images, i)
  }

  lemma {:induction false} CountTokGrows(ids: seq<int>, tok: int, i: nat)
    requires i <= |ids|
    ensures CountTok(ids[..i], tok) <= CountTok(ids, tok)
    ensures i < |ids| && ids[i] == tok ==> CountTok(ids[..i], tok) < CountTok(ids, tok)
    decreases |ids|
  {
    if i < |ids| {
      CountTokGrows(ids[..|ids| - 1], tok, i);
      assert ids[..|ids| - 1][..i] == ids[..i];
    } else {
      assert ids[..i] == ids;
    }
  }

  lemma CountTokNext(ids: seq<int>, tok: int, i: nat)
    requires i < |ids|
    ensures CountTok(ids[..i + 1], tok) == CountTok(ids[..i], tok) + if ids[i] == tok then 1 else 0
  {
    assert ids[..i + 1][..i] == ids[..i];
  }

  /** The image counters before position i: image j is the current one, k its next row. */
  ghost predicate AtImage(ids: seq<int>, tok: int, i: nat, j: int, k: int)
    requires i <= |ids|
  {
    0 <= k < IMAGE_SEQ && j >= -1 && CountTok(ids[..i], tok) == IMAGE_SEQ * (if k == 0 then j + 1 else j) + k
  }

  /** The next row of the current image, or of the next one. */
  lemma NextRow(ids: seq<int>, tok: int, images: seq<string>, i: nat, j: int, k: int)
    requires i < |ids| && AtImage(ids, tok, i, j, k) && ids[i] == tok
    ensures var j' := if k == 0 then j + 1 else j;
            && CountTok(ids[..i], tok) / IMAGE_SEQ == j' && CountTok(ids[..i], tok) % IMAGE_SEQ == k
            && AtImage(ids, tok, i + 1, j', (k + 1) % IMAGE_SEQ)
            && (j' >= |images| ==> CountTok(ids, tok) > IMAGE_SEQ * |images|)
  {
    CountTokNext(ids, tok, i);
    CountTokGrows(ids, tok, i);
  }

  lemma FirstKey(ids: seq<int>, tok: int, images: seq<string>)
    ensures AtImage(ids, tok, 0, -1, 0) && AreKeys([], ids, tok, images, 0)
  {
  }

  lemma ImageKey(ids: seq<int>, tok: int, images: seq<string>, i: nat, j: int, k: int, keys: seq<Key>)
    requires i < |ids| && ids[i] == tok && AtImage(ids, tok, i, j, k) && AreKeys(keys, ids, tok, images, i)
    requires 0 <= (if k == 0 then j + 1 else j) < |images|
    ensures AreKeys(keys + [Img(images[if k == 0 then j + 1 else j], k)], ids, tok, images, i + 1)
  {
    NextRow(ids, tok, images, i, j, k);
  }

  lemma TextKey(ids: seq<int>, tok: int, images: seq<string>, i: nat, j: int, k: int, keys: seq<Key>)
    requires i < |ids| && ids[i] != tok && AtImage(ids, tok, i, j, k) && AreKeys(keys, ids, tok, images, i)
    ensures AtImage(ids, tok, i + 1, j, k) && AreKeys(keys + [Tok(ids[i])], ids, tok, images, i + 1)
  {
    CountTokNext(ids, tok, i);
  }

  lemma EnoughImages(ids: seq<int>, tok: int, j: int, k: int, images: seq<string>)
    requires AtImage(ids, tok, |ids|, j, k) && j < |images|
    ensures CountTok(ids, tok) <= IMAGE_SEQ * |images|
  {
    assert ids[..|ids|] == ids;
  }

  /** _prompt_keys (ids: the prompt after the sink): None, an index error,
      exactly when there are more image tokens than 64 for each image. */
  method PromptKeys(ids: seq<int>, tok: int, images: seq<string>) returns (keys: Option<seq<Key>>)
    ensures keys.Some? <==> CountTok(ids, tok) <= IMAGE_SEQ * |images|
    ensures keys.Some? ==> AreKeys(keys.value, ids, tok, images, |ids|)
  {
    hide CountTok, AreKeys;
    var out, k, j := [], 0, -1;
    FirstKey(ids, tok, images);
    for i := 0 to |ids|
      invariant AtImage(ids, tok, i, j, k) && j < |images|
      invariant AreKeys(out, ids, tok, images, i)
    {
      if ids[i] == tok {
        NextRow(ids, tok, images, i, j, k);
        ghost var before := j;
        if k == 0 {
          j := j + 1;
          if j >= |images| {
            return None;
          }
        }
        ImageKey(ids, tok, images, i, before, k, out);
        out := out + [Img(images[j], k)];
        k := (k + 1) % IMAGE_SEQ;
      } else {
        TextKey(ids, tok, images, i, j, k, out);
        out := out + [Tok(ids[i])];
      }
    }
    EnoughImages(ids, tok, j, k, images);
    keys := Some(out);
  }

  // ----- the engine -----

  /** What a call of the library appends: an id below the vocabulary is a token,
      `vocab + row` that row of the encoded image. */
  function Rows(ids: seq<int>, vocab: nat, image: Option<string>): (r: seq<Key>)
    requires forall i :: 0 <= i < |ids| ==> ids[i] < vocab || image.Some?
    ensures |r| == |ids|
  {
    seq(|ids|, i requires 0 <= i < |ids| => if ids[i] < vocab then Tok(ids[i]) else Img(image.value, ids[i] - vocab))
  }

  /** The library: its KV content after the sink, the image it has encoded, and
      the logits after a content, which only the network knows. */
  class Engine<L(!new)> {
    const vocab: nat
    const context: nat
    const logits: seq<Key> -> L
    var kv: seq<Key>
    var image: Option<string>
    ghost var failures: nat                // calls that failed
    ghost var fed: seq<nat>                // how many ids each prefill call was given

    constructor (vocab: nat, context: nat, logits: seq<Key> -> L)
      ensures this.vocab == vocab && this.context == context && this.logits == logits && kv == [] && image == None
    {
      this.vocab, this.context, this.logits, kv, image := vocab, context, logits, [], None;
      failures, fed := 0, [];
    }

    // Each call may fail, and then the library's state is unknown.

    method Position() returns (p: Option<nat>)
      modifies this`failures
      ensures p.Some? ==> p.value == 1 + |kv|
      ensures failures == old(failures) + if p.None? then 1 else 0
    {
      if * {
        failures := failures + 1;
        return None;
      }
      p := Some(1 + |kv|);
    }

    method Truncate(n: nat) returns (ok: bool)
      requires 1 <= n <= 1 + |kv|
      modifies this`kv, this`failures
      ensures ok ==> kv == old(kv)[..n - 1]
      ensures failures == old(failures) + if ok then 0 else 1
    {
      if * {
        failures := failures + 1;
        kv := *;
        return false;
      }
      kv := kv[..n - 1];
      ok := true;
    }

    method Encode(sha: string) returns (ok: bool)
      modifies this`kv, this`image, this`failures
      ensures ok ==> kv == old(kv) && image == Some(sha)
      ensures failures == old(failures) + if ok then 0 else 1
    {
      if * {
        failures := failures + 1;
        kv := *;
        image := *;
        return false;
      }
      image := Some(sha);
      ok := true;
    }

    method Prefill(ids: seq<int>) returns (l: Option<L>)
      requires ids != [] && 1 + |kv| + |ids| <= context
      requires forall i :: 0 <= i < |ids| ==> ids[i] < vocab || (image.Some? && ids[i] < vocab + IMAGE_SEQ)
      modifies this`kv, this`failures, this`fed
      ensures l.Some? ==> kv == old(kv) + Rows(ids, vocab, image) && l.value == logits(kv)
      ensures failures == old(failures) + (if l.None? then 1 else 0) && fed == old(fed) + [|ids|]
    {
      fed := fed + [|ids|];
      if * {
        failures := failures + 1;
        kv := *;
        return None;
      }
      kv := kv + Rows(ids, vocab, image);
      l := Some(logits(kv));
    }

    method Decode(t: int) returns (l: Option<L>)
      requires t < vocab && 1 + |kv| < context
      modifies this`kv, this`failures
      ensures l.Some? ==> kv == old(kv) + [Tok(t)] && l.value == logits(kv)
      ensures failures == old(failures) + if l.None? then 1 else 0
    {
      if * {
        failures := failures + 1;
        kv := *;
        return None;
      }
      kv := kv + [Tok(t)];
      l := Some(logits(kv));
    }
  }

  /** How long two sequences agree. */
  method CommonPrefix(a: seq<Key>, b: seq<Key>) returns (i: nat)
    ensures i <= |a| && i <= |b| && a[..i] == b[..i]
    ensures i < |a| && i < |b| ==> a[i] != b[i]
  {
    var n := if |a| < |b| then |a| else |b|;
    i := 0;
    while i < n && a[i] == b[i]
      invariant i <= n && a[..i] == b[..i]
    {
      i := i + 1;
    }
  }

  // ----- the backends -----

  /** The detokenizer: what the last of some tokens adds to the text, and what is left at the end. */
  datatype Detokenizer = Detokenizer(piece: seq<int> -> string, rest: seq<int> -> string)

  /** A request: its prompt ids (the sink first) and, for the image backend, the
      prompt's images in order; how far the answer may go, its stop strings, and
      how its tokens read. */
  datatype Job = Job(ids: seq<int>, images: seq<string>, maxTokens: Option<nat>, loopGuard: bool,
                     stops: seq<string>, detokenizer: Detokenizer)

  /** How an answer ends: refused before anything is done, its decode loop finished for a reason,
      cancelled, failed in the library, or closed by its reader. */
  datatype Reason = Eos | StopString | Loop | MaxTokens | ContextFull
  datatype Ending = Rejected | Finished(why: Reason) | Cancelled | Failed | Closed

  function Toks(gen: seq<int>): (r: seq<Key>)
    ensures |r| == |gen|
  {
    seq(|gen|, i requires 0 <= i < |gen| => Tok(gen[i]))
  }

  // ----- the loop guard -----

  const LOOP_REPEATS: nat := 3
  const LOOP_MIN_TOKENS: nat := 24
  const LOOP_MAX_PERIOD: nat := 128

  function Span(p: nat): nat {
    if LOOP_REPEATS * p >= LOOP_MIN_TOKENS then LOOP_REPEATS * p else LOOP_MIN_TOKENS
  }

  /** The last Span(p) tokens repeat one block of p. */
  ghost predicate LoopsWith(gen: seq<int>, p: nat) {
    && 1 <= p <= LOOP_MAX_PERIOD && Span(p) <= |gen|
    && forall i :: |gen| - Span(p) + p <= i < |gen| ==> gen[i] == gen[i - p]
  }

  /** loop_period: the least period of a verbatim loop at the end, or 0. */
  method LoopPeriod(gen: seq<int>) returns (period: nat)
    ensures period > 0 ==> LoopsWith(gen, period)
    ensures forall p :: LoopsWith(gen, p) ==> 0 < period <= p
  {
    period := 0;
    if |gen| < LOOP_MIN_TOKENS {
      return;
    }
    var last := gen[|gen| - 1];
    var p := 1;
    while p <= LOOP_MAX_PERIOD && p <= |gen| / LOOP_REPEATS
      invariant 1 <= p
      invariant forall q: nat :: q < p ==> !LoopsWith(gen, q)
    {
      if gen[|gen| - 1 - p] == last {
        if Span(p) > |gen| {
          break;
        }
        var tail := gen[|gen| - Span(p)..];
        if tail[p..] == tail[..|tail| - p] {
          ShiftedTail(gen, p);
          return p;
        }
        ShiftedTail(gen, p);
      }
      p := p + 1;
    }
  }

  lemma ShiftedTail(gen: seq<int>, p: nat)
    requires 1 <= p <= LOOP_MAX_PERIOD && Span(p) <= |gen|
    ensures var tail := gen[|gen| - Span(p)..];
            tail[p..] == tail[..|tail| - p] <==> LoopsWith(gen, p)
  {
    var tail := gen[|gen| - Span(p)..];
    if LoopsWith(gen, p) {
      forall k | 0 <= k < |tail| - p
        ensures tail[p..][k] == tail[..|tail| - p][k]
      {
        assert tail[p..][k] == gen[|gen| - Span(p) + p + k];
      }
    } else if tail[p..] == tail[..|tail| - p] {
      forall i | |gen| - Span(p) + p <= i < |gen|
        ensures gen[i] == gen[i - p]
      {
        assert gen[i] == tail[p..][i - p - (|gen| - Span(p))];
      }
    }
  }

  /** How a prefill ends. */
  datatype Prefilled<L> = Ready(logits: L) | PrefillCancelled | PrefillFailed

  /** Of the answers since `before` only the last may be true, and it is exactly when `yes`. */
  ghost predicate Answered(before: seq<bool>, after: seq<bool>, yes: bool) {
    && |before| <= |after| && after[..|before|] == before
    && (forall i :: |before| <= i < |after| - 1 ==> !after[i])
    && (yes <==> |before| < |after| && after[|after| - 1])
  }

  /** The prefill calls since `before` were given n ids together. */
  ghost predicate Fed(before: seq<nat>, after: seq<nat>, n: int) {
    |before| <= |after| && after[..|before|] == before && Sum(after) == Sum(before) + n
  }

  function Sum(ns: seq<nat>): nat {
    if ns == [] then 0 else Sum(ns[..|ns| - 1]) + ns[|ns| - 1]
  }

  /** None of those calls was given more than a chunk. */
  ghost predicate InChunks(before: seq<nat>, after: seq<nat>, chunk: nat) {
    chunk > 0 ==> forall i :: |before| <= i < |after| ==> after[i] <= chunk
  }

  /** All that the cached and the new keys have in common is reused, but for the last key. */
  ghost predicate Reuses(cached: seq<Key>, keys: seq<Key>, reuse: nat) {
    && reuse <= |cached| && reuse < |keys| && cached[..reuse] == keys[..reuse]
    && (reuse == |cached| || reuse == |keys| - 1 || cached[reuse] != keys[reuse])
  }

  /** Keys the engine can take: token ids in its vocabulary, image rows of an image. */
  ghost predicate Feasible(keys: seq<Key>, vocab: nat) {
    forall i :: 0 <= i < |keys| ==> if keys[i].Tok? then keys[i].id < vocab else keys[i].row < IMAGE_SEQ
  }

  class Backend<L(!new)> {
    const engine: Engine<L>
    const chunk: nat                       // prefill_chunk (0: everything at once)
    const imageTok: Option<int>            // Some: the image backend
    var cached: Option<seq<Key>>
    ghost var asked: seq<bool>             // what the client's cancellation checks answered
    ghost var closed: seq<bool>            // whether the reader went away at each piece of text

    /** What is cached is what the engine holds. */
    ghost predicate Valid()
      reads this`cached, engine`kv
    {
      cached.Some? ==> cached.value == engine.kv && 1 + |cached.value| <= engine.context
    }

    constructor (engine: Engine<L>, chunk: nat, imageTok: Option<int>)
      ensures Valid() && this.engine == engine && this.chunk == chunk && this.imageTok == imageTok && cached == None
    {
      this.engine, this.chunk, this.imageTok, cached := engine, chunk, imageTok, None;
      asked, closed := [], [];
    }

    /** load() and unload(): nothing is known of the KV cache. */
    method Forget()
      modifies this`cached
      ensures Valid() && cached == None
    {
      cached := None;
    }

    /** _prefill of the text backend: position `reuse` on, in chunks. */
    method PrefillText(keys: seq<Key>, reuse: nat) returns (r: Prefilled<L>)
      requires Valid() && reuse < |keys| && cached == Some(keys[..reuse])
      requires 1 + |keys| <= engine.context
      requires forall i :: 0 <= i < |keys| ==> keys[i].Tok? && keys[i].id < engine.vocab
      modifies this`cached, this`asked, engine
      ensures r.Ready? ==> Valid() && cached == Some(keys) && r.logits == engine.logits(keys)
      ensures r.PrefillCancelled? ==> Valid() && cached.Some? && cached.value <= keys
      ensures Answered(old(asked), asked, r.PrefillCancelled?)
      ensures r.PrefillFailed? <==> engine.failures > old(engine.failures)
      ensures engine.failures >= old(engine.failures)
      ensures r.Ready? ==> Fed(old(engine.fed), engine.fed, |keys| - reuse)
      ensures InChunks(old(engine.fed), engine.fed, chunk)
      ensures r.Ready? ==> |asked| - |old(asked)| == |engine.fed| - |old(engine.fed)| - 1
    {
      hide Answered, Fed, Sum, InChunks;
      var tokens := seq(|keys| - reuse, i requires 0 <= i < |keys| - reuse => keys[reuse + i].id);
      var pos := 0;
      r := PrefillFailed;
      AtFirst(asked, engine.fed);
      NoChunks(engine.fed, chunk);
      while pos < |tokens|
        invariant pos <= |tokens|
        invariant Valid() && cached == Some(keys[..reuse + pos])
        invariant pos == |tokens| ==> r.Ready? && r.logits == engine.logits(keys)
        invariant Answered(old(asked), asked, false) && engine.failures == old(engine.failures)
        invariant Fed(old(engine.fed), engine.fed, pos) && InChunks(old(engine.fed), engine.fed, chunk)
        invariant |asked| - |old(asked)| == |engine.fed| - |old(engine.fed)| - if pos > 0 then 1 else 0
      {
        var n := if chunk == 0 || chunk > |tokens| - pos then |tokens| - pos else chunk;
        ghost var was, fed := asked, engine.fed;
        r := FeedChunk(tokens[pos..pos + n], pos > 0);
        ThenAnswered(old(asked), was, asked, r.PrefillCancelled?);
        if !r.PrefillCancelled? {
          FedMore(old(engine.fed), fed, pos, n);
          OneChunk(old(engine.fed), fed, n, chunk);
        }
        if !r.Ready? {
          return;
        }
        TokenRows(keys, reuse, tokens, pos, n, engine.vocab, engine.image);
        pos := pos + n;
        assert keys[..|keys|] == keys;
      }
      assert keys[..|keys|] == keys;
    }

    /** One chunk of token ids. */
    method FeedChunk(ids: seq<int>, ask: bool) returns (r: Prefilled<L>)
      requires Valid() && cached.Some? && ids != [] && 1 + |engine.kv| + |ids| <= engine.context
      requires forall i :: 0 <= i < |ids| ==> ids[i] < engine.vocab
      modifies this`cached, this`asked, engine
      ensures r.Ready? ==> Valid() && cached == Some(old(cached).value + Toks(ids))
      ensures r.Ready? ==> r.logits == engine.logits(cached.value)
      ensures r.PrefillCancelled? ==> Valid() && cached == old(cached)
      ensures asked == if ask then old(asked) + [r.PrefillCancelled?] else old(asked)
      ensures Answered(old(asked), asked, r.PrefillCancelled?) && (r.PrefillCancelled? ==> ask)
      ensures engine.failures == old(engine.failures) + if r.PrefillFailed? then 1 else 0
      ensures engine.fed == if r.PrefillCancelled? then old(engine.fed) else old(engine.fed) + [|ids|]
    {
      if ask {
        var cancelled := Probe();
        if cancelled {
          return PrefillCancelled;
        }
      }
      var l := engine.Prefill(ids);
      if l.None? {
        return PrefillFailed;
      }
      assert Rows(ids, engine.vocab, engine.image) == Toks(ids);
      cached := Some(cached.value + Toks(ids));
      r := Ready(l.value);
    }

    /** _prefill_new of the image backend: segments, each ending with (part of)
        one image's block, that image encoded first. */
    method PrefillImages(keys: seq<Key>, reuse: nat, images: seq<string>) returns (r: Prefilled<L>)
      requires Valid() && reuse < |keys| && cached == Some(keys[..reuse])
      requires 1 + |keys| <= engine.context && Feasible(keys, engine.vocab)
      requires forall i :: 0 <= i < |keys| && keys[i].Img? ==> keys[i].sha in images
      modifies this`cached, this`asked, engine
      ensures r.Ready? ==> Valid() && cached == Some(keys) && r.logits == engine.logits(keys)
      ensures r.PrefillCancelled? ==> Valid() && cached.Some? && cached.value <= keys
      ensures Answered(old(asked), asked, r.PrefillCancelled?)
      ensures r.PrefillFailed? <==> engine.failures > old(engine.failures)
      ensures engine.failures >= old(engine.failures)
      ensures r.Ready? ==> Fed(old(engine.fed), engine.fed, |keys| - reuse)
    {
      hide Answered, Fed, Feasible;
      var pos: nat := reuse;
      var cur: Option<string> := None;
      r := PrefillFailed;
      AtFirst(asked, engine.fed);
      while pos < |keys|
        invariant reuse <= pos <= |keys|
        invariant Valid() && cached == Some(keys[..pos])
        invariant cur.Some? ==> engine.image == cur
        invariant pos == |keys| ==> r.Ready? && r.logits == engine.logits(keys)
        invariant Answered(old(asked), asked, false) && engine.failures == old(engine.failures)
        invariant Fed(old(engine.fed), engine.fed, pos - reuse)
      {
        var end, sha := Segment(keys, pos);
        ghost var was, fed := asked, engine.fed;
        if sha.Some? && sha != cur {
          assert sha.value in images;
          var shown := Show(sha.value, pos > reuse);
          ThenAnswered(old(asked), was, asked, shown == Some(true));
          if shown.Some? {
            return if shown.value then PrefillCancelled else PrefillFailed;
          }
          cur := sha;
        }
        was := asked;
        r := FeedSegment(keys, pos, end, pos > reuse);
        ThenAnswered(old(asked), was, asked, r.PrefillCancelled?);
        if !r.Ready? {
          return;
        }
        FedMore(old(engine.fed), fed, pos - reuse, end - pos);
        pos := end;
        assert keys[..|keys|] == keys;
      }
      assert keys[..|keys|] == keys;
    }

    /** One image: Some(true) when the client went away before it, Some(false) when it failed. */
    method Show(sha: string, ask: bool) returns (r: Option<bool>)
      requires Valid()
      modifies this`asked, engine
      ensures r != Some(false) ==> Valid()
      ensures Answered(old(asked), asked, r == Some(true))
      ensures r.None? ==> engine.image == Some(sha)
      ensures (r == Some(false) <==> engine.failures > old(engine.failures)) && engine.fed == old(engine.fed)
      ensures r != Some(false) ==> engine.failures == old(engine.failures)
    {
      if ask {
        var cancelled := Probe();
        if cancelled {
          return Some(true);
        }
      }
      var ok := engine.Encode(sha);
      r := if ok then None else Some(false);
    }

    /** One segment of the prompt, its image encoded. */
    method FeedSegment(keys: seq<Key>, pos: nat, end: nat, ask: bool) returns (r: Prefilled<L>)
      requires Valid() && pos < end <= |keys| && cached == Some(keys[..pos])
      requires 1 + |keys| <= engine.context && Feasible(keys, engine.vocab) && OneImage(keys, pos, end, engine.image)
      modifies this`cached, this`asked, engine
      ensures r.Ready? ==> Valid() && cached == Some(keys[..end]) && r.logits == engine.logits(keys[..end])
      ensures r.PrefillCancelled? ==> Valid() && cached == old(cached)
      ensures Answered(old(asked), asked, r.PrefillCancelled?) && engine.image == old(engine.image)
      ensures engine.failures == old(engine.failures) + if r.PrefillFailed? then 1 else 0
      ensures r.Ready? ==> engine.fed == old(engine.fed) + [end - pos]
    {
      if ask {
        var cancelled := Probe();
        if cancelled {
          return PrefillCancelled;
        }
      }
      var ids := IdsOf(keys[pos..end], engine.vocab);
      RowsOfIds(keys, pos, end, engine.vocab, engine.image);
      var l := engine.Prefill(ids);
      if l.None? {
        return PrefillFailed;
      }
      cached := Some(cached.value + keys[pos..end]);
      r := Ready(l.value);
    }

    /** The prompt's keys after the sink; None when the images do not match. */
    method Keys(job: Job) returns (keys: Option<seq<Key>>)
      requires |job.ids| >= 2 && forall i :: 0 <= i < |job.ids| ==> job.ids[i] < engine.vocab
      ensures imageTok.None? ==> keys == Some(Toks(job.ids[1..]))
      ensures imageTok.Some? ==> (keys.Some? <==> CountTok(job.ids[1..], imageTok.value) <= IMAGE_SEQ * |job.images|)
      ensures keys.Some? && imageTok.Some? ==>
                AreKeys(keys.value, job.ids[1..], imageTok.value, job.images, |job.ids| - 1)
      ensures keys.Some? ==> |keys.value| == |job.ids| - 1 && Feasible(keys.value, engine.vocab)
      ensures keys.Some? && imageTok.None? ==> forall i :: 0 <= i < |keys.value| ==> keys.value[i].Tok?
      ensures keys.Some? ==> forall i :: 0 <= i < |keys.value| && keys.value[i].Img? ==> keys.value[i].sha in job.images
    {
      if imageTok.None? {
        keys := Some(Toks(job.ids[1..]));
      } else {
        keys := PromptKeys(job.ids[1..], imageTok.value, job.images);
      }
    }

    /** generate, up to the first logits: reuse of the common prefix, truncation,
        prefill. */
    method Prepare(job: Job, keys: seq<Key>) returns (r: Prefilled<L>, ghost reuse: nat)
      requires Valid() && keys != [] && 1 + |keys| <= engine.context && Feasible(keys, engine.vocab)
      requires imageTok.None? ==> forall i :: 0 <= i < |keys| ==> keys[i].Tok?
      requires forall i :: 0 <= i < |keys| && keys[i].Img? ==> keys[i].sha in job.images
      modifies this`cached, this`asked, engine
      ensures Valid()
      ensures r.Ready? ==> cached == Some(keys) && r.logits == engine.logits(keys)
      ensures r.PrefillFailed? ==> cached == None
      ensures r.PrefillCancelled? ==> cached.Some? && cached.value <= keys
      ensures Answered(old(asked), asked, r.PrefillCancelled?)
      ensures r.PrefillFailed? <==> engine.failures > old(engine.failures)
      ensures engine.failures >= old(engine.failures)
      ensures r.Ready? ==> Reuses(if old(cached).Some? then old(cached).value else [], keys, reuse)
      ensures r.Ready? ==> Fed(old(engine.fed), engine.fed, |keys| - reuse)
    {
      reuse := 0;
      var old_ := if cached.Some? then cached.value else [];
      if cached.Some? {
        var p := engine.Position();
        if p.None? {
          cached := None;
          return PrefillFailed, reuse;
        }
        if p.value != 1 + |old_| {
          old_ := [];
        }
      }
      var same := CommonPrefix(old_, keys);
      if same > |keys| - 1 {
        same := |keys| - 1;
      }
      reuse := same;
      ghost var held := engine.kv;
      cached := None;
      var ok := engine.Truncate(1 + same);
      if !ok {
        return PrefillFailed, reuse;
      }
      assert keys[..same] == engine.kv;
      cached := Some(keys[..same]);
      if imageTok.None? {
        r := PrefillText(keys, same);
      } else {
        r := PrefillImages(keys, same, job.images);
      }
      if r.PrefillFailed? {
        cached := None;
      }
    }

    /** generate.  `drawn` are the sampled tokens, `gen` those of the answer and
        `said` the text given to the reader; `seen` are the logits each sampling
        step was given: those of the whole prompt and everything generated before
        it, however much of the cache was reused. */
    method Generate(job: Job, eog: set<int>)
      returns (ending: Ending, ghost keys: seq<Key>, gen: seq<int>, said: string,
               ghost drawn: seq<int>, ghost seen: seq<L>)
      requires Valid() && engine.vocab > 0
      requires |job.ids| >= 2 && forall i :: 0 <= i < |job.ids| ==> job.ids[i] < engine.vocab
      modifies this`cached, this`asked, this`closed, engine
      ensures Valid()
      ensures SawEverything(engine.logits, keys, gen, seen)
      ensures ending == Rejected ==> engine.kv == old(engine.kv) && cached == old(cached)
      ensures ending.Failed? ==> cached == None
      ensures ending.Failed? <==> engine.failures > old(engine.failures)
      ensures Answered(old(asked), asked, ending.Cancelled?)
      ensures Answered(old(closed), closed, ending.Closed?)
      ensures |seen| == |drawn|
      ensures Samples(eog, gen, drawn, ending)
      ensures ending.Finished? ==> EndsAsSaid(job, keys, gen, drawn, ending.why, cached, engine.context)
      ensures WentOn(job, |keys|, gen, if ending.Failed? then |gen| else |drawn| - 1, engine.context)
      ensures ending.Finished? ==> said == Spoken(job, gen) && (ending.why == StopString <==> Stopped(job, gen))
      ensures said <= Text(job.detokenizer, gen) + job.detokenizer.rest(gen)
      ensures ending != Rejected && imageTok.None? ==> keys == Toks(job.ids[1..])
      ensures ending != Rejected && imageTok.Some? ==>
                AreKeys(keys, job.ids[1..], imageTok.value, job.images, |job.ids| - 1)
    {
      hide Answered, WentOn, SawEverything, Samples, EndsAsSaid, Hears, Cut, Text, Stopped, Spoken, AreKeys, Feasible,
           Reuses, Fed;
      keys, gen, said, drawn, seen := [], [], "", [], [];
      NothingSampled(job, eog, engine.logits, asked, closed, engine.context);
      if |job.ids| > engine.context {
        return Rejected, keys, gen, said, drawn, seen;
      }
      var body := Keys(job);
      if body.None? {
        return Rejected, keys, gen, said, drawn, seen;
      }
      keys := body.value;
      NothingYet(job, eog, engine.logits, keys, engine.context, asked, closed);
      OneAnswer(asked, asked, true);
      OneAnswer(asked, asked, false);
      var cancelled := Probe();
      if cancelled {
        return Cancelled, keys, gen, said, drawn, seen;
      }
      ghost var was := asked;
      var first, _ := Prepare(job, body.value);
      ThenAnswered(old(asked), was, asked, first.PrefillCancelled?);
      if !first.Ready? {
        return if first.PrefillFailed? then Failed else Cancelled, keys, gen, said, drawn, seen;
      }
      was := asked;
      ending, gen, said, drawn, seen := Respond(job, eog, body.value, first.logits);
      ThenAnswered(old(asked), was, asked, ending.Cancelled?);
    }

    /** generate, from the first logits on. */
    method Respond(job: Job, eog: set<int>, ghost keys: seq<Key>, first: L)
      returns (ending: Ending, gen: seq<int>, said: string, ghost drawn: seq<int>, ghost seen: seq<L>)
      requires Valid() && engine.vocab > 0 && cached == Some(keys) && first == engine.logits(keys)
      modifies this`cached, this`asked, this`closed, engine
      ensures Valid() && ending != Rejected
      ensures SawEverything(engine.logits, keys, gen, seen)
      ensures ending.Failed? ==> cached == None
      ensures ending.Failed? <==> engine.failures > old(engine.failures)
      ensures Answered(old(asked), asked, ending.Cancelled?)
      ensures Answered(old(closed), closed, ending.Closed?)
      ensures |seen| == |drawn| > 0
      ensures Samples(eog, gen, drawn, ending)
      ensures ending.Finished? ==> EndsAsSaid(job, keys, gen, drawn, ending.why, cached, engine.context)
      ensures WentOn(job, |keys|, gen, if ending.Failed? then |gen| else |drawn| - 1, engine.context)
      ensures ending.Finished? ==> said == Spoken(job, gen) && (ending.why == StopString <==> Stopped(job, gen))
      ensures said <= Text(job.detokenizer, gen) + job.detokenizer.rest(gen)
    {
      hide Answered, WentOn, SawEverything, Samples, EndsAsSaid, Hears, Cut, Text, Stopped, Spoken;
      var ss := new StopStream.StopStream(job.stops);
      HearsNothing(job, ss);
      ending, gen, said, drawn, seen := Answer(job, eog, keys, first, ss);
      BeginsTheText(Text(job.detokenizer, gen), job.detokenizer.rest(gen), said);
      if ending.Finished? {
        ghost var told, why := closed, ending.why;
        ending, said := Finish(job, gen, ending, said, ss);
        ThenAnswered(old(closed), told, closed, ending.Closed?);
        EndsStill(job, eog, keys, gen, drawn, why, ending, cached, engine.context);
      }
    }

    /** generate's decode loop. */
    method Answer(job: Job, eog: set<int>, ghost keys: seq<Key>, first: L, ss: StopStream.StopStream)
      returns (ending: Ending, gen: seq<int>, said: string, ghost drawn: seq<int>, ghost seen: seq<L>)
      requires Valid() && engine.vocab > 0 && cached == Some(keys) && first == engine.logits(keys)
      requires Hears(job, [], "", ss)
      modifies this`cached, this`asked, this`closed, engine, ss
      ensures Valid() && ending != Rejected
      ensures SawEverything(engine.logits, keys, gen, seen)
      ensures ending.Failed? ==> cached == None
      ensures ending.Failed? <==> engine.failures > old(engine.failures)
      ensures Answered(old(asked), asked, ending.Cancelled?)
      ensures Answered(old(closed), closed, ending.Closed?)
      ensures |asked| - |old(asked)| == |drawn| - if ending.Failed? || ending.Cancelled? then 0 else 1
      ensures |seen| == |drawn| > 0
      ensures Samples(eog, gen, drawn, ending)
      ensures ending == Finished(Eos) <==> drawn[|drawn| - 1] in eog
      ensures ending.Finished? ==> EndsAsSaid(job, keys, gen, drawn, ending.why, cached, engine.context)
      ensures WentOn(job, |keys|, gen, if ending.Failed? then |gen| else |drawn| - 1, engine.context)
      ensures ending.Finished? && ending.why != StopString ==> Hears(job, gen, said, ss)
      ensures ending == Finished(StopString) ==> Cut(job, gen, said)
      ensures said <= Text(job.detokenizer, gen)
    {
      hide Answered, WentOn, GoesOn, Limits, Within, SawEverything, Samples, EndsAsSaid, Hears, Cut, Text, NoneIn;
      var logits := first;
      gen, said, drawn, seen := [], "", [], [];
      assert keys + Toks([]) == keys;
      NothingYet(job, eog, engine.logits, keys, engine.context, asked, closed);
      while true
        invariant Valid() && cached == Some(keys + Toks(gen))
        invariant |seen| == |gen| && SawEverything(engine.logits, keys, gen, seen)
        invariant logits == engine.logits(keys + Toks(gen))
        invariant drawn == gen && NoneIn(gen, eog)
        invariant Hears(job, gen, said, ss) && WentOn(job, |keys|, gen, |gen|, engine.context)
        invariant Answered(old(asked), asked, false) && |asked| == |old(asked)| + |gen|
        invariant Answered(old(closed), closed, false) && engine.failures == old(engine.failures)
        decreases engine.context - |gen|
      {
        ghost var held := gen;
        seen := seen + [logits];
        var t :| 0 <= t < engine.vocab;                       // the sampler's draw
        SawOneMore(engine.logits, keys, gen, seen, t);
        drawn := drawn + [t];
        SaidIsBeginning(job, gen, said, ss);
        if t in eog {
          EndsWithEos(job, eog, keys, gen, t, cached, engine.context);
          return Finished(Eos), gen, said, drawn, seen;
        }
        gen := gen + [t];
        OneMoreToken(job, eog, |keys|, held, t, engine.context);
        assert gen[..|gen| - 1] == held;
        var over;
        ghost var told, was := closed, asked;
        over, said := GoOn(job, eog, keys, gen, said, ss);
        ThenAnswered(old(closed), told, closed, over == Some(Closed));
        ThenAnswered(old(asked), was, asked, over == Some(Cancelled));
        if over.Some? {
          return over.value, gen, said, drawn, seen;
        }
        SamplesAll(eog, gen, Failed);
        var l := Next(t);
        if l.None? {
          return Failed, gen, said, drawn, seen;
        }
        logits := l.value;
        assert (keys + Toks(held)) + [Tok(t)] == keys + Toks(gen);
      }
    }

    /** What follows a token of the answer: its text, the guard, the limits, the client; and then the next step. */
    method GoOn(job: Job, eog: set<int>, ghost keys: seq<Key>, gen: seq<int>, said0: string, ss: StopStream.StopStream)
      returns (r: Option<Ending>, said: string)
      requires Valid() && gen != [] && cached == Some(keys + Toks(gen[..|gen| - 1])) && NoneIn(gen, eog)
      requires Hears(job, gen[..|gen| - 1], said0, ss) && WentOn(job, |keys|, gen, |gen| - 1, engine.context)
      modifies this`asked, this`closed, ss
      ensures r.None? || r == Some(Cancelled) ==>
                WentOn(job, |keys|, gen, |gen|, engine.context) && |keys| + |gen| < engine.context
      ensures r.None? ==> Hears(job, gen, said, ss)
      ensures r.Some? ==> r.value != Rejected && r.value != Failed && r.value != Finished(Eos)
      ensures r.Some? ==> Samples(eog, gen, gen, r.value)
      ensures r.Some? && r.value.Finished? ==> EndsAsSaid(job, keys, gen, gen, r.value.why, cached, engine.context)
      ensures r.Some? && r.value.Finished? && r.value.why != StopString ==> Hears(job, gen, said, ss)
      ensures r == Some(Finished(StopString)) ==> Cut(job, gen, said)
      ensures said <= Text(job.detokenizer, gen)
      ensures Answered(old(closed), closed, r == Some(Closed)) && Answered(old(asked), asked, r == Some(Cancelled))
      ensures |asked| == |old(asked)| + if r.None? || r == Some(Cancelled) then 1 else 0
    {
      hide Answered, WentOn, GoesOn, Limits, Within, Samples, EndsAsSaid, Hears, Cut, Text, NoneIn;
      AtFirst(asked, engine.fed);
      OneAnswer(asked, asked, true);
      OneAnswer(asked, asked, false);
      r, said := Say(job, gen, said0, ss);
      if r.Some? {
        EndsWithText(job, eog, keys, gen, said, r.value, cached, engine.context);
        return;
      }
      SaidIsBeginning(job, gen, said, ss);
      r := Over(job, gen);
      if r.Some? && r.value.Finished? {
        EndsAtLimit(job, eog, keys, gen, r.value, cached, engine.context);
        return;
      }
      SamplesAll(eog, gen, Cancelled);
      MayGoOn(job, |keys|, gen, said, ss, engine.context);
    }

    /** The last token's text goes through the stop matcher to the reader. */
    method Say(job: Job, gen: seq<int>, said0: string, ss: StopStream.StopStream)
      returns (r: Option<Ending>, said: string)
      requires gen != [] && Hears(job, gen[..|gen| - 1], said0, ss)
      modifies this`closed, ss
      ensures r.None? ==> Hears(job, gen, said, ss)
      ensures r.Some? ==> r.value == Finished(StopString) || r.value == Closed
      ensures r == Some(Finished(StopString)) ==> Cut(job, gen, said)
      ensures said <= Text(job.detokenizer, gen)
      ensures Answered(old(closed), closed, r == Some(Closed))
    {
      hide StopStream.Contains, StopStream.ApplyStop, StopStream.NonEmpty, StopStream.Sound, StopStream.Proper;
      said := said0;
      var piece := job.detokenizer.piece(gen);
      HeardIsBeginning(job, gen[..|gen| - 1], said, ss);
      if piece == "" {
        return None, said;
      }
      ghost var text := Text(job.detokenizer, gen);
      var out, stopped := ss.Feed(piece);
      said := said + out;
      CutIsBeginning(text, ss.stops);
      if !stopped {
        HeardIsBeginning(job, gen, said, ss);
      }
      if out != "" {
        var gone := Yield();
        if gone {
          return Some(Closed), said;
        }
      }
      r := if stopped then Some(Finished(StopString)) else None;
    }

    /** After the loop: what the detokenizer and the stop matcher still hold, unless a stop was met. */
    method Finish(job: Job, gen: seq<int>, ending0: Ending, said0: string, ss: StopStream.StopStream)
      returns (ending: Ending, said: string)
      requires ending0.Finished?
      requires if ending0.why == StopString then Cut(job, gen, said0) else Hears(job, gen, said0, ss)
      modifies this`closed, ss
      ensures ending == ending0 || ending == Finished(StopString) || ending == Closed
      ensures ending.Finished? ==> said == Spoken(job, gen) && (ending.why == StopString <==> Stopped(job, gen))
      ensures said <= Text(job.detokenizer, gen) + job.detokenizer.rest(gen)
      ensures Answered(old(closed), closed, ending.Closed?)
    {
      hide StopStream.Contains, StopStream.ApplyStop, StopStream.NonEmpty, StopStream.Sound, StopStream.Proper;
      ending, said := ending0, said0;
      ghost var stops := StopStream.NonEmpty(job.stops);
      ghost var text := Text(job.detokenizer, gen);
      CutIsBeginning(text, stops);
      CutIsBeginning(text + job.detokenizer.rest(gen), stops);
      if ending.why == StopString {
        return;
      }
      HeardIsBeginning(job, gen, said, ss);
      var tail, stopped := ss.Feed(job.detokenizer.rest(gen));
      if stopped {
        ending := Finished(StopString);
      } else {
        var last := ss.Flush();
        tail := tail + last;
      }
      said := said + tail;
      if tail != "" {
        var gone := Yield();
        if gone {
          ending := Closed;
        }
      }
    }

    /** Between a token that was said and its decode step: the loop guard, the limits, the client. */
    method Over(job: Job, gen: seq<int>) returns (r: Option<Ending>)
      requires Valid() && cached.Some?
      modifies this`asked
      ensures r.None? || r.value.Cancelled? ==> Within(job, gen) && 1 + |cached.value| < engine.context
      ensures r.None? || r.value.Cancelled? ==> asked == old(asked) + [r.Some?]
      ensures r.Some? ==> r.value.Cancelled? || (asked == old(asked) && r.value.Finished?)
      ensures r.Some? && r.value.Finished? ==> Limits(job, gen, 1 + |cached.value|, engine.context, r.value.why)
    {
      if job.loopGuard {
        var per := LoopPeriod(gen);
        if per > 0 {
          return Some(Finished(Loop));
        }
      }
      if job.maxTokens.Some? && |gen| >= job.maxTokens.value {
        return Some(Finished(MaxTokens));
      }
      if 1 + |cached.value| >= engine.context {
        return Some(Finished(ContextFull));
      }
      var cancelled := Probe();
      if cancelled {
        return Some(Cancelled);
      }
      r := None;
    }

    /** One decode step: unknown until the call succeeds. */
    method Next(t: int) returns (l: Option<L>)
      requires Valid() && cached.Some? && t < engine.vocab && 1 + |cached.value| < engine.context
      modifies this`cached, engine
      ensures Valid()
      ensures l.None? ==> cached == None
      ensures l.Some? ==> cached == Some(old(cached).value + [Tok(t)]) && l.value == engine.logits(cached.value)
      ensures engine.failures == old(engine.failures) + if l.None? then 1 else 0
    {
      var now := cached.value;
      cached := None;
      l := engine.Decode(t);
      if l.Some? {
        cached := Some(now + [Tok(t)]);
      }
    }

    /** A piece of text for the reader, who may go away at it. */
    method Yield() returns (gone: bool)
      modifies this`closed
      ensures closed == old(closed) + [gone]
    {
      gone := *;
      closed := closed + [gone];
    }

    /** cancel.check(): whether the client went away is the client's choice. */
    method Probe() returns (cancelled: bool)
      modifies this`asked
      ensures asked == old(asked) + [cancelled]
    {
      cancelled := *;
      asked := asked + [cancelled];
    }
  }

  lemma TokenRows(keys: seq<Key>, reuse: nat, tokens: seq<int>, pos: nat, n: nat, vocab: nat, image: Option<string>)
    requires reuse <= |keys| && |tokens| == |keys| - reuse && pos + n <= |tokens|
    requires forall i :: 0 <= i < |tokens| ==> keys[reuse + i] == Tok(tokens[i]) && tokens[i] < vocab
    ensures Rows(tokens[pos..pos + n], vocab, image) == keys[reuse + pos..reuse + pos + n]
    ensures Toks(tokens[pos..pos + n]) == keys[reuse + pos..reuse + pos + n]
    ensures keys[..reuse + pos] + keys[reuse + pos..reuse + pos + n] == keys[..reuse + pos + n]
  {
  }

  /** One image at most, and it is `sha`. */
  ghost predicate OneImage(keys: seq<Key>, pos: nat, end: nat, sha: Option<string>)
    requires pos <= end <= |keys|
  {
    forall i :: pos <= i < end && keys[i].Img? ==> sha == Some(keys[i].sha)
  }

  /** The next segment: tokens, then the rows of one image. */
  method Segment(keys: seq<Key>, pos: nat) returns (end: nat, sha: Option<string>)
    requires pos < |keys|
    ensures pos < end <= |keys| && OneImage(keys, pos, end, sha)
    ensures sha.Some? ==> exists i :: pos <= i < end && keys[i].Img? && keys[i].sha == sha.value
    ensures end < |keys| ==> keys[end - 1].Img? && (keys[end].Tok? || keys[end].sha != keys[end - 1].sha)
  {
    end, sha := pos, None;
    while end < |keys| && keys[end].Tok?
      invariant pos <= end <= |keys|
      invariant forall i :: pos <= i < end ==> keys[i].Tok?
    {
      end := end + 1;
    }
    if end < |keys| {
      sha := Some(keys[end].sha);
      ghost var first := end;
      end := end + 1;
      while end < |keys| && keys[end].Img? && keys[end].sha == sha.value
        invariant first < end <= |keys| && OneImage(keys, pos, end, sha)
        invariant keys[end - 1].Img? && keys[end - 1].sha == sha.value
      {
        end := end + 1;
      }
    }
  }

  /** The ids passed for keys: an image row as vocab + row. */
  function IdsOf(keys: seq<Key>, vocab: nat): (r: seq<int>)
    ensures |r| == |keys|
  {
    seq(|keys|, i requires 0 <= i < |keys| => if keys[i].Tok? then keys[i].id else vocab + keys[i].row)
  }

  /** The engine reads a segment's ids back as its keys: its image is the one encoded. */
  lemma RowsOfIds(keys: seq<Key>, pos: nat, end: nat, vocab: nat, image: Option<string>)
    requires pos < end <= |keys| && Feasible(keys, vocab) && OneImage(keys, pos, end, image)
    ensures var ids := IdsOf(keys[pos..end], vocab);
            && (forall i :: 0 <= i < |ids| ==> ids[i] < vocab || (image.Some? && ids[i] < vocab + IMAGE_SEQ))
            && Rows(ids, vocab, image) == keys[pos..end]
    ensures keys[..pos] + keys[pos..end] == keys[..end]
  {
    var ids := IdsOf(keys[pos..end], vocab);
    forall i | 0 <= i < |ids|
      ensures ids[i] < vocab || (image.Some? && ids[i] < vocab + IMAGE_SEQ)
      ensures Rows(ids, vocab, image)[i] == keys[pos + i]
    {
      assert keys[pos..end][i] == keys[pos + i];
    }
  }

  /** Sampling step i was given the logits of the prompt and the i tokens before it. */
  ghost predicate SawEverything<L(!new)>(logits: seq<Key> -> L, keys: seq<Key>, gen: seq<int>, seen: seq<L>) {
    && |gen| <= |seen| <= |gen| + 1
    && forall i :: 0 <= i < |seen| ==> seen[i] == logits(keys + Toks(gen[..i]))
  }

  lemma SawOneMore<L(!new)>(logits: seq<Key> -> L, keys: seq<Key>, gen: seq<int>, seen: seq<L>, t: int)
    requires |seen| == |gen| + 1 && SawEverything(logits, keys, gen, seen[..|gen|])
    requires seen[|gen|] == logits(keys + Toks(gen))
    ensures SawEverything(logits, keys, gen, seen) && SawEverything(logits, keys, gen + [t], seen)
    ensures (gen + [t])[..|gen|] == gen
  {
    assert gen[..|gen|] == gen;
    assert forall i :: 0 <= i < |seen| ==> (gen + [t])[..i] == gen[..i];
    assert forall i :: 0 <= i < |gen| ==> seen[i] == seen[..|gen|][i];
  }

  // ----- the answer -----

  /** The text of some tokens. */
  function Text(d: Detokenizer, gen: seq<int>): string {
    if gen == [] then "" else Text(d, gen[..|gen| - 1]) + d.piece(gen)
  }

  /** The text, with what the detokenizer has left, holds a stop. */
  predicate Stopped(job: Job, gen: seq<int>) {
    var stops := StopStream.NonEmpty(job.stops);
    || StopStream.Contains(Text(job.detokenizer, gen), stops)
    || StopStream.Contains(Text(job.detokenizer, gen) + job.detokenizer.rest(gen), stops)
  }

  /** What a finished answer says: its text, cut before the first stop. */
  function Spoken(job: Job, gen: seq<int>): string {
    var text, stops := Text(job.detokenizer, gen), StopStream.NonEmpty(job.stops);
    if StopStream.Contains(text, stops) then StopStream.ApplyStop(text, stops).0
    else StopStream.ApplyStop(text + job.detokenizer.rest(gen), stops).0
  }

  /** The matcher was fed the text so far, without a stop, and `said` came out. */
  ghost predicate Hears(job: Job, gen: seq<int>, said: string, ss: StopStream.StopStream)
    reads ss
  {
    && ss.Valid() && ss.stops == StopStream.NonEmpty(job.stops)
    && ss.fed == Text(job.detokenizer, gen) && ss.out == said
  }

  /** The text so far holds a stop, and `said` is cut before it. */
  ghost predicate Cut(job: Job, gen: seq<int>, said: string) {
    var text, stops := Text(job.detokenizer, gen), StopStream.NonEmpty(job.stops);
    StopStream.Contains(text, stops) && said == StopStream.ApplyStop(text, stops).0
  }

  lemma HeardIsBeginning(job: Job, gen: seq<int>, said: string, ss: StopStream.StopStream)
    requires Hears(job, gen, said, ss)
    ensures said <= Text(job.detokenizer, gen)
    ensures !StopStream.Contains(Text(job.detokenizer, gen), StopStream.NonEmpty(job.stops))
  {
  }

  lemma CutIsBeginning(text: string, stops: seq<string>)
    ensures StopStream.ApplyStop(text, stops).0 <= text
    ensures !StopStream.Contains(text, stops) ==> StopStream.ApplyStop(text, stops).0 == text
  {
  }

  ghost predicate NoneIn(gen: seq<int>, eog: set<int>) {
    forall t :: t in gen ==> t !in eog
  }

  /** The answer is the sampled tokens, without the end token that ends it. */
  ghost predicate Samples(eog: set<int>, gen: seq<int>, drawn: seq<int>, ending: Ending) {
    && NoneIn(gen, eog)
    && if |drawn| > |gen| then |drawn| == |gen| + 1 && drawn[..|gen|] == gen && drawn[|gen|] in eog
       else drawn == gen && ending != Finished(Eos)
  }

  /** No loop that the guard sees, and fewer tokens than allowed. */
  ghost predicate Within(job: Job, gen: seq<int>) {
    && (job.loopGuard ==> forall p :: !LoopsWith(gen, p))
    && (job.maxTokens.Some? ==> |gen| < job.maxTokens.value)
  }

  /** After the tokens `gen` a decode step may follow. */
  ghost predicate GoesOn(job: Job, prompt: nat, gen: seq<int>, context: nat) {
    && Within(job, gen) && prompt + |gen| < context
    && !StopStream.Contains(Text(job.detokenizer, gen), StopStream.NonEmpty(job.stops))
  }

  /** After each of the first n tokens one could. */
  ghost predicate WentOn(job: Job, prompt: nat, gen: seq<int>, n: int, context: nat) {
    n <= |gen| && forall i :: 0 < i <= n ==> GoesOn(job, prompt, gen[..i], context)
  }

  /** Why the limits end an answer, in the order in which they are looked at. */
  ghost predicate Limits(job: Job, gen: seq<int>, position: nat, context: nat, why: Reason) {
    var loops := job.loopGuard && exists p :: LoopsWith(gen, p);
    var most := job.maxTokens.Some? && |gen| >= job.maxTokens.value;
    match why
    case Loop => loops
    case MaxTokens => !loops && most
    case ContextFull => !loops && !most && position >= context
    case _ => false
  }

  /** What a finished answer leaves: the cache holds the prompt and every token
      but perhaps the last, and the reason is true. */
  ghost predicate EndsAsSaid(job: Job, keys: seq<Key>, gen: seq<int>, drawn: seq<int>, why: Reason,
                             cached: Option<seq<Key>>, context: nat) {
    && cached.Some?
    && (if |drawn| > |gen| then cached.value == keys + Toks(gen)
        else gen != [] && cached.value == keys + Toks(gen[..|gen| - 1]))
    && match why
       case Eos => |drawn| > |gen|
       case StopString => Stopped(job, gen)
       case _ => |drawn| == |gen| && Limits(job, gen, 1 + |cached.value|, context, why)
  }

  lemma NothingYet<L(!new)>(job: Job, eog: set<int>, logits: seq<Key> -> L, keys: seq<Key>, context: nat,
                            asked: seq<bool>, closed: seq<bool>)
    ensures SawEverything(logits, keys, [], []) && NoneIn([], eog) && WentOn(job, |keys|, [], 0, context)
    ensures Answered(asked, asked, false) && Answered(closed, closed, false)
  {
  }

  lemma NothingSampled<L(!new)>(job: Job, eog: set<int>, logits: seq<Key> -> L, asked: seq<bool>, closed: seq<bool>,
                                context: nat)
    ensures SawEverything(logits, [], [], []) && Answered(asked, asked, false) && Answered(closed, closed, false)
    ensures forall ending :: ending != Finished(Eos) ==> Samples(eog, [], [], ending)
    ensures forall prompt: nat, n: int :: n <= 0 ==> WentOn(job, prompt, [], n, context)
    ensures forall keys :: SawEverything(logits, keys, [], [])
  {
  }

  lemma HearsNothing(job: Job, ss: StopStream.StopStream)
    requires ss.Valid() && ss.stops == StopStream.NonEmpty(job.stops) && ss.fed == ss.out == ""
    ensures Hears(job, [], "", ss)
  {
  }

  lemma BeginsTheText(text: string, rest: string, said: string)
    requires said <= text
    ensures said <= text + rest
  {
  }

  /** What is said after the loop may turn the reason into a stop string. */
  lemma EndsStill(job: Job, eog: set<int>, keys: seq<Key>, gen: seq<int>, drawn: seq<int>, why: Reason, ending: Ending,
                  cached: Option<seq<Key>>, context: nat)
    requires Samples(eog, gen, drawn, Finished(why)) && EndsAsSaid(job, keys, gen, drawn, why, cached, context)
    requires ending == Finished(why) || ending == Finished(StopString) || ending == Closed
    requires ending == Finished(StopString) ==> Stopped(job, gen)
    ensures Samples(eog, gen, drawn, ending)
    ensures ending.Finished? ==> EndsAsSaid(job, keys, gen, drawn, ending.why, cached, context)
  {
  }

  lemma SaidIsBeginning(job: Job, gen: seq<int>, said: string, ss: StopStream.StopStream)
    requires Hears(job, gen, said, ss)
    ensures said <= Text(job.detokenizer, gen)
  {
    HeardIsBeginning(job, gen, said, ss);
  }

  lemma EndsWithEos(job: Job, eog: set<int>, keys: seq<Key>, gen: seq<int>, t: int, cached: Option<seq<Key>>,
                    context: nat)
    requires NoneIn(gen, eog) && t in eog && cached == Some(keys + Toks(gen))
    ensures Samples(eog, gen, gen + [t], Finished(Eos)) && EndsAsSaid(job, keys, gen, gen + [t], Eos, cached, context)
  {
  }

  lemma EndsWithText(job: Job, eog: set<int>, keys: seq<Key>, gen: seq<int>, said: string, ending: Ending,
                     cached: Option<seq<Key>>, context: nat)
    requires NoneIn(gen, eog) && gen != [] && cached == Some(keys + Toks(gen[..|gen| - 1]))
    requires ending == Closed || (ending == Finished(StopString) && Cut(job, gen, said))
    ensures Samples(eog, gen, gen, ending)
    ensures ending.Finished? ==> EndsAsSaid(job, keys, gen, gen, ending.why, cached, context)
  {
  }

  lemma EndsAtLimit(job: Job, eog: set<int>, keys: seq<Key>, gen: seq<int>, ending: Ending,
                    cached: Option<seq<Key>>, context: nat)
    requires NoneIn(gen, eog) && gen != [] && cached == Some(keys + Toks(gen[..|gen| - 1]))
    requires ending.Finished? && Limits(job, gen, 1 + |cached.value|, context, ending.why)
    ensures Samples(eog, gen, gen, ending) && EndsAsSaid(job, keys, gen, gen, ending.why, cached, context)
    ensures ending.why != Eos && ending.why != StopString
  {
  }

  lemma SamplesAll(eog: set<int>, gen: seq<int>, ending: Ending)
    requires NoneIn(gen, eog) && ending != Finished(Eos)
    ensures Samples(eog, gen, gen, ending)
  {
  }

  lemma OneMoreToken(job: Job, eog: set<int>, prompt: nat, gen: seq<int>, t: int, context: nat)
    requires NoneIn(gen, eog) && t !in eog && WentOn(job, prompt, gen, |gen|, context)
    ensures NoneIn(gen + [t], eog) && WentOn(job, prompt, gen + [t], |gen|, context)
  {
    assert forall i :: 0 < i <= |gen| ==> (gen + [t])[..i] == gen[..i];
  }

  lemma MayGoOn(job: Job, prompt: nat, gen: seq<int>, said: string, ss: StopStream.StopStream, context: nat)
    requires gen != [] && WentOn(job, prompt, gen, |gen| - 1, context)
    requires Within(job, gen) && prompt + |gen| < context && Hears(job, gen, said, ss)
    ensures WentOn(job, prompt, gen, |gen|, context)
  {
    HeardIsBeginning(job, gen, said, ss);
    assert gen[..|gen|] == gen;
  }

  lemma AtFirst(asked: seq<bool>, fed: seq<nat>)
    ensures Answered(asked, asked, false) && Fed(fed, fed, 0)
  {
  }

  lemma NoChunks(fed: seq<nat>, chunk: nat)
    ensures InChunks(fed, fed, chunk)
  {
  }

  lemma OneChunk(before: seq<nat>, now: seq<nat>, n: nat, chunk: nat)
    requires InChunks(before, now, chunk) && (chunk > 0 ==> n <= chunk) && |before| <= |now|
    ensures InChunks(before, now + [n], chunk)
  {
  }

  lemma FedMore(before: seq<nat>, now: seq<nat>, n: int, k: nat)
    requires Fed(before, now, n)
    ensures Fed(before, now + [k], n + k)
  {
    assert (now + [k])[..|now|] == now;
  }

  lemma OneAnswer(before: seq<bool>, now: seq<bool>, yes: bool)
    requires Answered(before, now, false)
    ensures Answered(before, now + [yes], yes)
  {
  }

  lemma ThenAnswered(before: seq<bool>, now: seq<bool>, after: seq<bool>, yes: bool)
    requires Answered(before, now, false) && Answered(now, after, yes)
    ensures Answered(before, after, yes)
  {
    assert forall i :: |before| <= i < |now| ==> !now[i];
    assert forall i :: 0 <= i < |now| ==> after[i] == after[..|now|][i];
  }

  /** However it ends, an answer has no more tokens than allowed, but for the one that is always sampled. */
  lemma AnswerIsShort(job: Job, prompt: nat, gen: seq<int>, drawn: seq<int>, context: nat)
    requires job.maxTokens.Some? && |drawn| >= |gen| && WentOn(job, prompt, gen, |drawn| - 1, context)
    ensures |gen| <= if job.maxTokens.value == 0 then 1 else job.maxTokens.value
  {
    if |gen| > 1 {
      assert GoesOn(job, prompt, gen[..|gen| - 1], context);
    }
  }
}
