/** Model residency: `ChatServer`'s loads, evictions and drops, and what they
    leave true over every run of requests through the FPGA queue. */
module Residency {
  import opened Wrappers

  datatype Kind = Chat | Speech | Transcription

  /** What the server knows of a backend. */
  datatype Backend = Backend(fpga: bool, kind: Kind, cma: int)

  /** --resident. */
  datatype Policy = All | One | Auto

  datatype LoadOutcome = Loaded | LoadFailed | LibraryMissing

  datatype Outcome = Ok | Raised

  /** What the server asks of its environment, with the answers: the free memory,
      a load and an unload of a model's engine. */
  datatype Act = Read(free: Option<int>) | Load(mid: string, got: LoadOutcome) | Unload(mid: string, done: Outcome)

  /** The models that are on. */
  function On(loaded: map<string, bool>): set<string> {
    set m | m in loaded && loaded[m]
  }

  function OnFpga(backends: map<string, Backend>, loaded: map<string, bool>): set<string> {
    set m | m in loaded && loaded[m] && m in backends && backends[m].fpga
  }

  ghost predicate AtMostOne(s: set<string>) {
    forall m, n :: m in s && n in s ==> m == n
  }

  /** What a load of `mid` may do to the models that are on: nothing when it is
      on; else it may evict other FPGA models, for an FPGA model only and never
      under `all`, and turns `mid` on exactly when it succeeds. */
  ghost predicate MayLoad(backends: map<string, Backend>, policy: Policy, before: map<string, bool>, mid: string,
                          after: map<string, bool>, r: Outcome) {
    && mid in backends && backends.Keys == before.Keys == after.Keys
    && (before[mid] ==> after == before && r == Ok)
    && (after[mid] <==> r == Ok)
    && (forall m :: m in after && m != mid && after[m] ==> before[m])
    && (forall m :: m in after && m != mid && before[m] && !after[m] ==>
          backends[m].fpga && backends[mid].fpga && policy != All)
    && (policy == One && r == Ok && backends[mid].fpga && !before[mid] ==> OnFpga(backends, after) == {mid})
  }

  /** No FPGA model was evicted while a less recently used one stayed. */
  ghost predicate LeastUsedWentFirst(backends: map<string, Backend>, used: map<string, int>, before: map<string, bool>,
                                     mid: string, after: map<string, bool>)
  {
    forall out, stays :: out in On(before) - On(after) && stays in OnFpga(backends, after) && stays != mid ==>
      LastUse(used, out) <= LastUse(used, stays)
  }

  /** The order lists every backend once. */
  ghost predicate AreListed(order: seq<string>, backends: map<string, Backend>) {
    && (forall m :: m in order <==> m in backends)
    && (forall i, j :: 0 <= i < j < |order| ==> order[i] != order[j])
  }

  /** `loaded` and `backends` have the same keys, the loads less the unloads are
      the models that are on, and with --resident one at most one FPGA model is. */
  ghost predicate CountsAgree(policy: Policy, backends: map<string, Backend>, loaded: map<string, bool>,
                              nLoads: nat, nUnloads: nat)
  {
    && backends.Keys == loaded.Keys
    && nLoads == nUnloads + |On(loaded)|
    && (policy == One ==> AtMostOne(OnFpga(backends, loaded)))
  }

  /** Every model that came on was loaded once, every one that went off unloaded once. */
  ghost predicate SwitchesCounted(before: map<string, bool>, after: map<string, bool>,
                                  loads: nat, unloads: nat, nLoads: nat, nUnloads: nat)
  {
    && nLoads == loads + |On(after) - On(before)|
    && nUnloads == unloads + |On(before) - On(after)|
  }

  lemma SetsDiffer<T>(a: set<T>, b: set<T>)
    ensures |a| + |b - a| == |b| + |a - b|
  {
    assert a == a * b + (a - b);
    assert b == a * b + (b - a);
  }

  /** A model that is on needs no load. */
  lemma LoadedAlready(backends: map<string, Backend>, policy: Policy, used: map<string, int>, loaded: map<string, bool>,
                      mid: string, nLoads: nat, nUnloads: nat)
    requires mid in loaded && loaded[mid] && backends.Keys == loaded.Keys
    ensures MayLoad(backends, policy, loaded, mid, loaded, Ok)
    ensures LeastUsedWentFirst(backends, used, loaded, mid, loaded)
    ensures SwitchesCounted(loaded, loaded, nLoads, nUnloads, nLoads, nUnloads)
  {
    assert On(loaded) - On(loaded) == {};
  }

  /** A load turns at most its own model on, so the counters tell what went off. */
  lemma LoadIsCounted(backends: map<string, Backend>, policy: Policy, before: map<string, bool>, mid: string,
                      after: map<string, bool>, r: Outcome, loads: nat, unloads: nat, nLoads: nat, nUnloads: nat)
    requires MayLoad(backends, policy, before, mid, after, r)
    requires loads == unloads + |On(before)| && nLoads == nUnloads + |On(after)|
    requires nLoads == loads + if !before[mid] && r == Ok then 1 else 0
    ensures SwitchesCounted(before, after, loads, unloads, nLoads, nUnloads)
  {
    SetsDiffer(On(before), On(after));
    assert On(after) - On(before) == if !before[mid] && r == Ok then {mid} else {};
  }

  /** Insertion by last use, oldest first, stable. */
  function InsertByUse(m: string, s: seq<string>, used: map<string, int>): seq<string> {
    if s == [] || LastUse(used, m) <= LastUse(used, s[0]) then [m] + s else [s[0]] + InsertByUse(m, s[1..], used)
  }

  function LastUse(used: map<string, int>, m: string): int {
    if m in used then used[m] else 0
  }

  ghost predicate ByUse(s: seq<string>, used: map<string, int>) {
    forall i, j :: 0 <= i < j < |s| ==> LastUse(used, s[i]) <= LastUse(used, s[j])
  }

  function SortByUse(s: seq<string>, used: map<string, int>): seq<string> {
    if s == [] then [] else InsertByUse(s[0], SortByUse(s[1..], used), used)
  }

  lemma {:induction false} InsertByUseKeeps(m: string, s: seq<string>, used: map<string, int>)
    ensures multiset(InsertByUse(m, s, used)) == multiset(s) + multiset{m}
  {
    if s != [] && LastUse(used, m) > LastUse(used, s[0]) {
      InsertByUseKeeps(m, s[1..], used);
      assert s == [s[0]] + s[1..];
    }
  }

  lemma {:induction false} InsertByUseSorts(m: string, s: seq<string>, used: map<string, int>)
    requires ByUse(s, used)
    ensures ByUse(InsertByUse(m, s, used), used)
  {
    if s != [] && LastUse(used, m) > LastUse(used, s[0]) {
      InsertByUseSorts(m, s[1..], used);
      var r := InsertByUse(m, s[1..], used);
      InsertByUseKeeps(m, s[1..], used);
      forall k | 0 <= k < |r|
        ensures LastUse(used, s[0]) <= LastUse(used, r[k])
      {
        assert r[k] in multiset(r);
      }
    }
  }

  lemma {:induction false} SortByUseSorts(s: seq<string>, used: map<string, int>)
    ensures ByUse(SortByUse(s, used), used) && multiset(SortByUse(s, used)) == multiset(s)
  {
    if s != [] {
      SortByUseSorts(s[1..], used);
      InsertByUseSorts(s[0], SortByUse(s[1..], used), used);
      InsertByUseKeeps(s[0], SortByUse(s[1..], used), used);
      assert s == [s[0]] + s[1..];
    }
  }

  lemma OnAfterSwitch(backends: map<string, Backend>, loaded: map<string, bool>, m: string, on: bool)
    requires m in loaded
    ensures On(loaded[m := on]) == if on then On(loaded) + {m} else On(loaded) - {m}
    ensures OnFpga(backends, loaded[m := on]) <=
            if on && m in backends && backends[m].fpga then OnFpga(backends, loaded) + {m} else OnFpga(backends, loaded)
  {
  }

  /** Only models of `ms` went off. */
  ghost predicate OnlyOff(before: map<string, bool>, after: map<string, bool>, ms: set<string>) {
    && after.Keys == before.Keys
    && forall m :: m in after ==> (if m in ms then after[m] ==> before[m] else after[m] == before[m])
  }

  function Elements(s: seq<string>): set<string> {
    set m | m in s
  }

  ghost predicate AllOff(loaded: map<string, bool>, ms: set<string>) {
    forall m :: m in ms && m in loaded ==> !loaded[m]
  }

  lemma ElementsNext(s: seq<string>, i: nat)
    requires i < |s|
    ensures Elements(s[..i + 1]) == Elements(s[..i]) + {s[i]}
  {
    assert s[..i + 1] == s[..i] + [s[i]];
  }

  lemma ElementsPrefix(s: seq<string>, i: nat)
    requires i <= |s|
    ensures Elements(s[..i]) <= Elements(s)
  {
  }

  lemma SortedElements(s: seq<string>, t: seq<string>)
    requires multiset(s) == multiset(t)
    ensures Elements(s) == Elements(t)
  {
    assert forall m :: m in s <==> m in multiset(s);
    assert forall m :: m in t <==> m in multiset(t);
  }

  lemma PrefixWentFirst(backends: map<string, Backend>, used: map<string, int>, before: map<string, bool>, mid: string,
                        after: map<string, bool>, sorted: seq<string>, n: nat)
    requires ByUse(sorted, used) && n <= |sorted|
    requires Elements(sorted) == OnFpga(backends, before) - {mid}
    requires OnlyOff(before, after, Elements(sorted[..n])) && AllOff(after, Elements(sorted[..n]))
    ensures LeastUsedWentFirst(backends, used, before, mid, after)
  {
    forall k | 0 <= k < n
      ensures sorted[k] in Elements(sorted[..n])
    {
      assert sorted[..n][k] == sorted[k];
    }
    forall out, stays | out in On(before) - On(after) && stays in OnFpga(backends, after) && stays != mid
      ensures LastUse(used, out) <= LastUse(used, stays)
    {
      assert out in Elements(sorted[..n]) && stays in Elements(sorted);
      var i :| 0 <= i < n && sorted[i] == out;
      var j :| 0 <= j < |sorted| && sorted[j] == stays;
    }
  }

  lemma NoneOn(backends: map<string, Backend>, before: map<string, bool>, mid: string, after: map<string, bool>,
               ms: set<string>)
    requires ms == OnFpga(backends, before) - {mid} && mid in before && !before[mid]
    requires OnlyOff(before, after, ms) && AllOff(after, ms)
    ensures OnFpga(backends, after) == {}
  {
  }

  /** A load that left `between` on before the model itself. */
  lemma LoadSettles(backends: map<string, Backend>, policy: Policy, before: map<string, bool>, mid: string,
                    between: map<string, bool>, r: Outcome)
    requires mid in backends && backends.Keys == before.Keys && !before[mid]
    requires OnlyOff(before, between, OnFpga(backends, before))
    requires policy == All || !backends[mid].fpga ==> between == before
    requires policy == One && r == Ok && backends[mid].fpga ==> OnFpga(backends, between) == {}
    ensures MayLoad(backends, policy, before, mid, if r == Ok then between[mid := true] else between, r)
  {
    var after := if r == Ok then between[mid := true] else between;
    if policy == One && r == Ok && backends[mid].fpga {
      forall m | m in OnFpga(backends, after)
        ensures m == mid
      {
        assert m != mid ==> m in OnFpga(backends, between);
      }
      assert mid in OnFpga(backends, after);
    }
  }

  lemma LeastUsedStill(backends: map<string, Backend>, used: map<string, int>, before: map<string, bool>, mid: string,
                       between: map<string, bool>)
    requires mid in between
    ensures LeastUsedWentFirst(backends, used, before, mid, between) ==>
              LeastUsedWentFirst(backends, used, before, mid, between[mid := true])
  {
  }

  function Without(s: seq<string>, m: string): seq<string> {
    if s == [] then [] else if s[0] == m then Without(s[1..], m) else [s[0]] + Without(s[1..], m)
  }

  lemma {:induction false} DroppedOrder(s: seq<string>, m: string)
    requires forall i, j :: 0 <= i < j < |s| ==> s[i] != s[j]
    ensures forall n :: n in Without(s, m) <==> n in s && n != m
    ensures forall i, j :: 0 <= i < j < |Without(s, m)| ==> Without(s, m)[i] != Without(s, m)[j]
  {
    if s != [] {
      DroppedOrder(s[1..], m);
      assert forall n :: n in s <==> n == s[0] || n in s[1..];
      assert s[0] !in s[1..];
      var r := Without(s[1..], m);
      assert forall k :: 0 <= k < |r| ==> r[k] in r && r[k] != s[0];
    }
  }

  function FirstFpga(order: seq<string>, backends: map<string, Backend>): Option<string> {
    if order == [] then None
    else if order[0] in backends && backends[order[0]].fpga then Some(order[0])
    else FirstFpga(order[1..], backends)
  }

  lemma {:induction false} FirstFpgaIs(order: seq<string>, backends: map<string, Backend>)
    requires forall m :: m in order ==> m in backends
    ensures match FirstFpga(order, backends)
            case None => forall i :: 0 <= i < |order| ==> !backends[order[i]].fpga
            case Some(m) => exists i :: 0 <= i < |order| && order[i] == m && backends[m].fpga
                                        && forall j :: 0 <= j < i ==> !backends[order[j]].fpga
  {
    if order != [] && !backends[order[0]].fpga {
      FirstFpgaIs(order[1..], backends);
      if FirstFpga(order, backends).Some? {
        var m := FirstFpga(order, backends).value;
        var i :| 0 <= i < |order| - 1 && order[1..][i] == m && forall j :: 0 <= j < i ==> !backends[order[1..][j]].fpga;
        assert order[i + 1] == m;
        assert forall j :: 1 <= j < i + 1 ==> order[j] == order[1..][j - 1];
      }
    }
  }

  predicate StartsUp(order: seq<string>, backends: map<string, Backend>, policy: Policy, m: string) {
    m in backends && (policy == All || !backends[m].fpga || FirstFpga(order, backends) == Some(m))
  }

  function Selected(ms: seq<string>, order: seq<string>, backends: map<string, Backend>, policy: Policy): seq<string> {
    if ms == [] then []
    else if StartsUp(order, backends, policy, ms[0]) then [ms[0]] + Selected(ms[1..], order, backends, policy)
    else Selected(ms[1..], order, backends, policy)
  }

  /** startup_models. */
  function StartupModels(order: seq<string>, backends: map<string, Backend>, policy: Policy): seq<string> {
    Selected(order, order, backends, policy)
  }

  lemma {:induction false} SelectedAre(ms: seq<string>, order: seq<string>, backends: map<string, Backend>,
                                       policy: Policy)
    ensures forall m :: m in Selected(ms, order, backends, policy) <==> m in ms && StartsUp(order, backends, policy, m)
  {
    if ms != [] {
      SelectedAre(ms[1..], order, backends, policy);
      assert forall m :: m in ms <==> m == ms[0] || m in ms[1..];
    }
  }

  lemma StartupAreListed(order: seq<string>, backends: map<string, Backend>, policy: Policy)
    requires AreListed(order, backends)
    ensures forall m :: m in StartupModels(order, backends, policy) <==> StartsUp(order, backends, policy, m)
  {
    SelectedAre(order, order, backends, policy);
  }

  /** At startup nothing is evicted: no FPGA model is on but the one that would load. */
  lemma StartupEvictsNothing(order: seq<string>, backends: map<string, Backend>, policy: Policy,
                             before: map<string, bool>, mid: string, after: map<string, bool>, r: Outcome)
    requires AreListed(order, backends)
    requires StartsUp(order, backends, policy, mid) && MayLoad(backends, policy, before, mid, after, r) && !before[mid]
    requires On(before) <= Elements(StartupModels(order, backends, policy))
    ensures On(after) == On(before) + if r == Ok then {mid} else {}
    ensures On(after) <= Elements(StartupModels(order, backends, policy))
  {
    StartupAreListed(order, backends, policy);
    forall m | m in On(before)
      ensures m in On(after)
    {
      assert m in Elements(StartupModels(order, backends, policy));
      assert StartsUp(order, backends, policy, m);
    }
  }

  lemma StartupAfterDrop(order: seq<string>, backends: map<string, Backend>, policy: Policy, loaded: map<string, bool>,
                         mid: string)
    requires AreListed(order, backends)
    requires backends.Keys == loaded.Keys && mid in backends && !loaded[mid]
    requires On(loaded) <= Elements(StartupModels(order, backends, policy))
    ensures On(loaded) <= Elements(StartupModels(Without(order, mid), backends - {mid}, policy))
  {
    StartupAreListed(order, backends, policy);
    DroppedOrder(order, mid);
    StartupAreListed(Without(order, mid), backends - {mid}, policy);
    forall m | m in On(loaded)
      ensures StartsUp(Without(order, mid), backends - {mid}, policy, m)
    {
      assert m in Elements(StartupModels(order, backends, policy));
      if FirstFpga(order, backends) == Some(m) {
        FirstFpgaAfterDrop(order, backends, mid, m);
      }
    }
  }

  lemma {:induction false} FirstFpgaAfterDrop(order: seq<string>, backends: map<string, Backend>, mid: string,
                                              m: string)
    requires m != mid && FirstFpga(order, backends) == Some(m)
    ensures FirstFpga(Without(order, mid), backends - {mid}) == Some(m)
  {
    if !(order[0] in backends && backends[order[0]].fpga) {
      FirstFpgaAfterDrop(order[1..], backends, mid, m);
    }
  }

  lemma DroppedCounts(policy: Policy, backends: map<string, Backend>, loaded: map<string, bool>, n: nat, u: nat,
                      mid: string)
    requires CountsAgree(policy, backends, loaded, n, u) && (mid !in loaded || !loaded[mid])
    ensures CountsAgree(policy, backends - {mid}, loaded - {mid}, n, u)
    ensures On(loaded - {mid}) == On(loaded)
  {
    assert On(loaded - {mid}) == On(loaded);
    assert OnFpga(backends - {mid}, loaded - {mid}) <= OnFpga(backends, loaded);
  }

  lemma DroppedListed(order: seq<string>, backends: map<string, Backend>, mid: string)
    requires AreListed(order, backends)
    ensures AreListed(Without(order, mid), backends - {mid})
  {
    DroppedOrder(order, mid);
  }

  // ----- what is asked of the environment -----

  ghost predicate NoLoads(acts: seq<Act>) {
    forall i :: 0 <= i < |acts| ==> !acts[i].Load?
  }

  /** An unload failed. */
  ghost predicate Stuck(acts: seq<Act>) {
    exists i :: 0 <= i < |acts| && acts[i].Unload? && acts[i].done == Raised
  }

  ghost predicate OnlyUnloads(acts: seq<Act>) {
    forall i :: 0 <= i < |acts| ==> acts[i].Unload?
  }

  /** Memory does not suffice, by this reading. */
  predicate TooLittle(a: Act, need: int) {
    a.Read? && a.free.Some? && a.free.value < need
  }

  /** Eviction under `auto`: before each of n unloads a reading says that memory does not suffice; it stops with
      a reading that does not say so, when all `total` models are off, or when an unload fails. */
  ghost predicate Evicts(acts: seq<Act>, n: nat, total: nat, need: int, r: Outcome) {
    && 2 * n <= |acts| <= 2 * n + 1 && n <= total
    && (forall i :: 0 <= i < n ==> TooLittle(acts[2 * i], need) && acts[2 * i + 1].Unload?)
    && (forall i :: 0 <= i < n && (i < n - 1 || |acts| == 2 * n + 1) ==> acts[2 * i + 1].done == Ok)
    && (r == Raised <==> |acts| == 2 * n && n > 0 && acts[2 * (n - 1) + 1].done == Raised)
    && (|acts| == 2 * n && r == Ok ==> n == total)
    && (|acts| == 2 * n + 1 ==> acts[2 * n].Read? && !TooLittle(acts[2 * n], need))
  }

  /** The attempts to load a model that is off: none when an eviction before it fails; else one, whose answer is
      the result, or a second after the first failed, if `may`, with the engine closed and others unloaded between. */
  ghost predicate Tries(acts: seq<Act>, k: nat, mid: string, may: bool, r: Outcome) {
    && k <= |acts| && NoLoads(acts[..k])
    && if k == |acts| then r == Raised && Stuck(acts)
       else
         && acts[k].Load? && acts[k].mid == mid
         && if |acts| == k + 1 then (r == Ok <==> acts[k].got == Loaded)
            else
              && may && acts[k].got == LoadFailed
              && Retries(acts[k + 1..], mid, r)
  }

  ghost predicate Retries(acts: seq<Act>, mid: string, r: Outcome) {
    && |acts| >= 2 && acts[0].Unload? && acts[0].mid == mid
    && OnlyUnloads(acts[..|acts| - 1])
    && var last := acts[|acts| - 1];
       && (r == Ok <==> last == Load(mid, Loaded))
       && (last.Load? ==> last.mid == mid) && (last.Unload? ==> last.done == Raised) && !last.Read?
  }

  /** What an eviction asks before `mid` is loaded: under `auto` the readings and unloads above, under `one`
      unloads, else nothing. */
  ghost predicate AsksFor(policy: Policy, backends: map<string, Backend>, mid: string, margin: int,
                          before: map<string, bool>, acts: seq<Act>, n: nat, r: Outcome)
    requires mid in backends
  {
    var others := OnFpga(backends, before) - {mid};
    if !backends[mid].fpga || others == {} || policy == All then acts == []
    else if policy == One then OnlyUnloads(acts)
    else Evicts(acts, n, |others|, backends[mid].cma + margin, r)
  }

  /** ... and that it unloaded the n models that went off. */
  ghost predicate Evicted(policy: Policy, backends: map<string, Backend>, mid: string, margin: int,
                          before: map<string, bool>, after: map<string, bool>, acts: seq<Act>, r: Outcome)
    requires mid in backends
  {
    AsksFor(policy, backends, mid, margin, before, acts, |On(before) - On(after)|, r)
  }

  /** What is asked to load a model that is off: the eviction, then the attempts; with no second attempt
      after a failed first only when none may be made or no other FPGA model is on. */
  ghost predicate Attempts(policy: Policy, backends: map<string, Backend>, mid: string, margin: int, evict: bool,
                           before: map<string, bool>, after: map<string, bool>, acts: seq<Act>, r: Outcome)
    requires mid in backends
  {
    exists k: nat, n: nat :: TriesAfter(policy, backends, mid, margin, evict, before, after, acts, k, n, r)
  }

  predicate MayRetry(policy: Policy, backends: map<string, Backend>, mid: string, evict: bool)
    requires mid in backends
  {
    evict && backends[mid].fpga && policy == Auto
  }

  ghost predicate TriesAfter(policy: Policy, backends: map<string, Backend>, mid: string, margin: int, evict: bool,
                             before: map<string, bool>, after: map<string, bool>, acts: seq<Act>, k: nat, n: nat,
                             r: Outcome)
    requires mid in backends
  {
    && Tries(acts, k, mid, MayRetry(policy, backends, mid, evict), r)
    && AsksFor(policy, backends, mid, margin, before, acts[..k], n, if k == |acts| then Raised else Ok)
    && (|acts| == k + 1 && acts[k].got == LoadFailed && MayRetry(policy, backends, mid, evict) ==>
          OnFpga(backends, after) - {mid} == {})
  }

  lemma StillOn(before: map<string, bool>, after: map<string, bool>, ms: seq<string>, i: nat)
    requires forall j, k :: 0 <= j < k < |ms| ==> ms[j] != ms[k]
    requires i < |ms| && Elements(ms) <= On(before) && OnlyOff(before, after, Elements(ms[..i]))
    ensures ms[i] in after && after[ms[i]]
  {
    assert ms[i] in Elements(ms);
    assert ms[i] !in Elements(ms[..i]);
  }

  /** i models were evicted so far. */
  ghost predicate Evicting(acts: seq<Act>, i: nat, need: int) {
    && |acts| == 2 * i
    && forall j :: 0 <= j < i ==> TooLittle(acts[2 * j], need) && acts[2 * j + 1].Unload? && acts[2 * j + 1].done == Ok
  }

  /** One more model off. */
  lemma OneOff(before: map<string, bool>, now: map<string, bool>, after: map<string, bool>, ms: seq<string>, i: nat)
    requires i < |ms| && OnlyOff(before, now, Elements(ms[..i])) && AllOff(now, Elements(ms[..i]))
    requires ms[i] in now && now[ms[i]] && after == now[ms[i] := false]
    ensures OnlyOff(before, after, Elements(ms[..i + 1])) && AllOff(after, Elements(ms[..i + 1]))
    ensures Elements(ms[..i + 1]) == Elements(ms[..i]) + {ms[i]}
  {
    ElementsNext(ms, i);
  }

  lemma NoneOff(loaded: map<string, bool>, ms: seq<string>)
    ensures OnlyOff(loaded, loaded, Elements(ms[..0])) && AllOff(loaded, Elements(ms[..0]))
  {
    assert Elements(ms[..0]) == {};
  }

  lemma NoEviction(total: nat, need: int)
    ensures Evicting([], 0, need)
  {
  }

  lemma EvictionEnds(acts: seq<Act>, i: nat, total: nat, need: int, free: Option<int>)
    requires Evicting(acts, i, need) && i <= total && !TooLittle(Read(free), need)
    ensures Evicts(acts + [Read(free)], i, total, need, Ok)
  {
    var all := acts + [Read(free)];
    assert forall j :: 0 <= j < i ==> all[2 * j] == acts[2 * j] && all[2 * j + 1] == acts[2 * j + 1];
  }

  lemma EvictionGoesOn(acts: seq<Act>, i: nat, total: nat, need: int, free: Option<int>, m: string, r: Outcome)
    requires Evicting(acts, i, need) && i < total && TooLittle(Read(free), need)
    ensures var all := acts + [Read(free), Unload(m, r)];
            if r == Ok then Evicting(all, i + 1, need) else Evicts(all, i + 1, total, need, r)
  {
    var all := acts + [Read(free), Unload(m, r)];
    assert forall j :: 0 <= j < i ==> all[2 * j] == acts[2 * j] && all[2 * j + 1] == acts[2 * j + 1];
    assert all[2 * i] == Read(free) && all[2 * i + 1] == Unload(m, r);
  }

  lemma EvictedAll(acts: seq<Act>, n: nat, need: int)
    requires Evicting(acts, n, need)
    ensures Evicts(acts, n, n, need, Ok)
  {
    if n > 0 {
      assert acts[2 * (n - 1) + 1].done == Ok;
    }
  }

  lemma EvictionAsks(acts: seq<Act>, n: nat, total: nat, need: int, r: Outcome)
    requires Evicts(acts, n, total, need, r)
    ensures NoLoads(acts) && (r == Raised <==> Stuck(acts))
  {
    forall i | 0 <= i < |acts|
      ensures !acts[i].Load? && (acts[i].Unload? && acts[i].done == Raised ==> r == Raised)
    {
      EvictionAct(acts, n, total, need, r, i);
    }
    if r == Raised {
      assert acts[2 * (n - 1) + 1].Unload?;
    }
  }

  lemma EvictionAct(acts: seq<Act>, n: nat, total: nat, need: int, r: Outcome, i: nat)
    requires Evicts(acts, n, total, need, r) && i < |acts|
    ensures !acts[i].Load? && (acts[i].Unload? && acts[i].done == Raised ==> r == Raised)
  {
    var h := i / 2;
    if h == n {
      assert i == 2 * n;
    } else {
      assert TooLittle(acts[2 * h], need) && acts[2 * h + 1].Unload?;
      assert i == 2 * h || i == 2 * h + 1;
    }
  }

  lemma {:induction false} SortedOnce(s: seq<string>, t: seq<string>)
    requires multiset(s) == multiset(t) && forall i, j :: 0 <= i < j < |s| ==> s[i] != s[j]
    ensures forall i, j :: 0 <= i < j < |t| ==> t[i] != t[j]
  {
    forall m ensures multiset(s)[m] <= 1 {
      OnceInMultiset(s, m);
    }
    forall i, j | 0 <= i < j < |t|
      ensures t[i] != t[j]
    {
      if t[i] == t[j] {
        TwiceInMultiset(t, i, j);
      }
    }
  }

  lemma {:induction false} OnceInMultiset(s: seq<string>, m: string)
    requires forall i, j :: 0 <= i < j < |s| ==> s[i] != s[j]
    ensures multiset(s)[m] <= 1
  {
    if s != [] {
      var n := |s| - 1;
      OnceInMultiset(s[..n], m);
      assert s == s[..n] + [s[n]];
      if s[n] == m {
        assert m !in multiset(s[..n]) by {
          assert m !in s[..n];
        }
      }
    }
  }

  lemma TwiceInMultiset(t: seq<string>, i: nat, j: nat)
    requires i < j < |t| && t[i] == t[j]
    ensures multiset(t)[t[i]] >= 2
  {
    assert t == t[..j] + [t[j]] + t[j + 1..];
    assert t[..j][i] == t[i];
    assert t[i] in multiset(t[..j]);
  }

  lemma {:induction false} ElementsCount(s: seq<string>)
    requires forall i, j :: 0 <= i < j < |s| ==> s[i] != s[j]
    ensures |Elements(s)| == |s|
  {
    if s == [] {
      assert Elements(s) == {};
    } else {
      var n := |s| - 1;
      ElementsCount(s[..n]);
      assert s == s[..n] + [s[n]];
      assert s[n] !in Elements(s[..n]);
      assert Elements(s) == Elements(s[..n]) + {s[n]};
    }
  }

  lemma WentOff(before: map<string, bool>, after: map<string, bool>, sorted: seq<string>, n: nat)
    requires n <= |sorted| && forall i, j :: 0 <= i < j < |sorted| ==> sorted[i] != sorted[j]
    requires Elements(sorted) <= On(before)
    requires OnlyOff(before, after, Elements(sorted[..n])) && AllOff(after, Elements(sorted[..n]))
    ensures |On(before) - On(after)| == n
  {
    ElementsPrefix(sorted, n);
    ElementsCount(sorted[..n]);
    assert On(before) - On(after) == Elements(sorted[..n]);
  }

  /** Nothing is evicted for a model that does not use the FPGA, nor under `all`, nor when no other is on. */
  lemma NoneWent(policy: Policy, backends: map<string, Backend>, used: map<string, int>, mid: string, margin: int,
                 loaded: map<string, bool>, others: seq<string>)
    requires mid in backends && mid in loaded && !loaded[mid] && Elements(others) == OnFpga(backends, loaded) - {mid}
    ensures NoLoads([]) && !Stuck([]) && LeastUsedWentFirst(backends, used, loaded, mid, loaded)
    ensures !backends[mid].fpga || others == [] || policy == All ==>
              Evicted(policy, backends, mid, margin, loaded, loaded, [], Ok)
    ensures OnlyOff(loaded, loaded, OnFpga(backends, loaded))
    ensures others == [] ==> OnFpga(backends, loaded) == {}
  {
    if others == [] {
      assert Elements(others) == {};
    }
  }

  lemma StaysOff(before: map<string, bool>, after: map<string, bool>, ms: set<string>, mid: string)
    requires OnlyOff(before, after, ms) && mid in before && !before[mid]
    ensures mid in after && !after[mid]
  {
  }

  lemma OneActMore(at: nat, log: seq<Act>, a: Act)
    requires at <= |log|
    ensures (log + [a])[at..] == log[at..] + [a] && (log + [a])[..at] == log[..at]
  {
  }

  lemma ActsJoin(at: nat, base: seq<Act>, log: seq<Act>)
    requires at <= |base| <= |log| && log[..|base|] == base
    ensures log[at..] == base[at..] + log[|base|..] && log[..at] == base[..at]
  {
    assert log == base + log[|base|..];
  }

  lemma NoneLeft(backends: map<string, Backend>, loaded: map<string, bool>, mid: string, still: seq<string>)
    requires Elements(still) == OnFpga(backends, loaded) - {mid}
    ensures still == [] ==> OnFpga(backends, loaded) - {mid} == {}
  {
    assert still == [] ==> Elements(still) == {};
  }

  lemma OffStill(backends: map<string, Backend>, used: map<string, int>, mid: string, before: map<string, bool>,
                 between: map<string, bool>, after: map<string, bool>, r: Outcome)
    requires OnlyOff(before, between, OnFpga(backends, before)) && OnlyOff(between, after, OnFpga(backends, between))
    requires r == Ok ==> OnFpga(backends, after) == {}
    ensures OnlyOff(before, after, OnFpga(backends, before)) && OnFpga(backends, between) <= OnFpga(backends, before)
    ensures r == Ok ==> LeastUsedWentFirst(backends, used, before, mid, after)
  {
  }

  lemma FpgaIsOn(backends: map<string, Backend>, loaded: map<string, bool>)
    ensures OnFpga(backends, loaded) <= On(loaded)
  {
  }

  lemma OffWithin(before: map<string, bool>, after: map<string, bool>, ms: set<string>, all: set<string>)
    requires OnlyOff(before, after, ms) && ms <= all
    ensures OnlyOff(before, after, all)
  {
  }

  lemma OneWent(policy: Policy, backends: map<string, Backend>, used: map<string, int>, mid: string, margin: int,
                before: map<string, bool>, after: map<string, bool>, others: seq<string>, acts: seq<Act>, r: Outcome)
    requires mid in backends && backends[mid].fpga && policy == One && mid in before && !before[mid]
    requires Elements(others) == OnFpga(backends, before) - {mid} && OnlyOff(before, after, Elements(others))
    requires OnlyUnloads(acts) && (r == Ok ==> AllOff(after, Elements(others)) && !Stuck(acts))
    requires r == Raised ==> acts != [] && acts[|acts| - 1].done == Raised
    requires others != []
    ensures NoLoads(acts) && (r == Raised <==> Stuck(acts))
    ensures Evicted(policy, backends, mid, margin, before, after, acts, r)
    ensures r == Ok ==> LeastUsedWentFirst(backends, used, before, mid, after) && OnFpga(backends, after) == {}
  {
    assert others[0] in Elements(others);
    if r == Ok {
      NoneOn(backends, before, mid, after, Elements(others));
    }
  }

  lemma AutoWent(backends: map<string, Backend>, mid: string, margin: int, before: map<string, bool>,
                 after: map<string, bool>, sorted: seq<string>, n: nat, acts: seq<Act>, r: Outcome)
    requires mid in backends && backends[mid].fpga && Elements(sorted) == OnFpga(backends, before) - {mid}
    requires sorted != [] && n <= |sorted| && forall i, j :: 0 <= i < j < |sorted| ==> sorted[i] != sorted[j]
    requires OnlyOff(before, after, Elements(sorted[..n])) && AllOff(after, Elements(sorted[..n]))
    requires Evicts(acts, n, |sorted|, backends[mid].cma + margin, r)
    ensures Evicted(Auto, backends, mid, margin, before, after, acts, r)
  {
    hide Evicts, OnlyOff, AllOff;
    FpgaIsOn(backends, before);
    WentOff(before, after, sorted, n);
    ElementsCount(sorted);
    assert sorted[0] in Elements(sorted);
  }

  /** Why a load failed: the last answer of the engine, or an unload that failed. */
  ghost predicate Cause(acts: seq<Act>, mid: string) {
    Stuck(acts) || exists i :: 0 <= i < |acts| && acts[i].Load? && acts[i].mid == mid && acts[i].got != Loaded
  }

  lemma RaisedHasCause(policy: Policy, backends: map<string, Backend>, mid: string, margin: int, evict: bool,
                       before: map<string, bool>, after: map<string, bool>, acts: seq<Act>)
    requires mid in backends && Attempts(policy, backends, mid, margin, evict, before, after, acts, Raised)
    ensures Cause(acts, mid)
  {
    hide AsksFor;
    var k: nat, n: nat :| TriesAfter(policy, backends, mid, margin, evict, before, after, acts, k, n, Raised);
    if k < |acts| {
      assert acts[k].Load? && acts[k].mid == mid;
    }
  }

  lemma CauseStays(at: nat, base: seq<Act>, log: seq<Act>, m: string)
    requires at <= |base| <= |log| && log[..|base|] == base && Cause(base[at..], m)
    ensures Cause(log[at..], m)
  {
    ActsJoin(at, base, log);
    var a, b := base[at..], log[at..];
    assert forall i :: 0 <= i < |a| ==> b[i] == a[i];
  }

  lemma CauseLater(at: nat, base: seq<Act>, log: seq<Act>, m: string)
    requires at <= |base| <= |log| && log[..|base|] == base && Cause(log[|base|..], m)
    ensures Cause(log[at..], m)
  {
    ActsJoin(at, base, log);
    var a, b, n := log[|base|..], log[at..], |base| - at;
    assert forall i :: 0 <= i < |a| ==> b[n + i] == a[i];
  }

  function FlatActs(turns: seq<seq<Act>>): seq<Act> {
    if turns == [] then [] else FlatActs(turns[..|turns| - 1]) + turns[|turns| - 1]
  }

  /** What load_startup's second loop asks for a model: nothing when it was on; else the memory first, and
      the load if it suffices, unless an eviction fails. */
  ghost predicate TurnOf(backends: map<string, Backend>, margin: int, before: map<string, bool>, mid: string,
                         acts: seq<Act>)
    requires mid in backends && mid in before
  {
    if acts == [] then before[mid]
    else
      && acts[0].Read?
      && if acts[0].free.Some? && acts[0].free.value >= backends[mid].cma + margin then
           Stuck(acts) || exists i :: 0 < i < |acts| && acts[i].Load? && acts[i].mid == mid
         else |acts| == 1
  }

  lemma TurnTries(policy: Policy, backends: map<string, Backend>, mid: string, margin: int, first: map<string, bool>,
                  before: map<string, bool>, after: map<string, bool>, free: Option<int>, acts: seq<Act>,
                  more: seq<Act>, r: Outcome)
    requires mid in backends && mid in first && Attempts(policy, backends, mid, margin, false, before, after, acts, r)
    ensures free.Some? && free.value >= backends[mid].cma + margin ==>
              TurnOf(backends, margin, first, mid, [Read(free)] + acts + more)
  {
    hide AsksFor;
    var k: nat, n: nat :| TriesAfter(policy, backends, mid, margin, false, before, after, acts, k, n, r);
    var all := [Read(free)] + acts + more;
    assert forall i :: 0 <= i < |acts| ==> all[i + 1] == acts[i];
    if k < |acts| {
      assert all[k + 1].Load? && all[k + 1].mid == mid;
    } else {
      var i :| 0 <= i < |acts| && acts[i].Unload? && acts[i].done == Raised;
      assert all[i + 1].Unload? && all[i + 1].done == Raised;
    }
  }

  /** `log` is `before`, the closing of mid, `acts` and perhaps one act more. */
  lemma RetryEnds(before: seq<Act>, mid: string, acts: seq<Act>, log: seq<Act>, got: LoadOutcome, r: Outcome)
    requires |log| == |before| + 2 + |acts| && log[|before| + 1..|log| - 1] == acts && log[|log| - 1] == Load(mid, got)
    requires log[|before|].Unload? && log[|before|].mid == mid
    requires OnlyUnloads(acts) && (r == Ok <==> got == Loaded)
    ensures Retries(log[|before|..], mid, r)
  {
    var all := log[|before|..];
    assert all[..|all| - 1] == [log[|before|]] + acts;
  }

  lemma RetryStuck(before: seq<Act>, mid: string, acts: seq<Act>, log: seq<Act>)
    requires |log| == |before| + 1 + |acts| && log[|before| + 1..] == acts
    requires log[|before|].Unload? && log[|before|].mid == mid
    requires OnlyUnloads(acts) && acts != [] && acts[|acts| - 1].done == Raised
    ensures Retries(log[|before|..], mid, Raised)
  {
    var all := log[|before|..];
    assert all[..|all| - 1] == [log[|before|]] + acts[..|acts| - 1];
  }

  lemma NoAttempt(policy: Policy, backends: map<string, Backend>, mid: string, margin: int, evict: bool,
                  before: map<string, bool>, after: map<string, bool>, acts: seq<Act>, n: nat)
    requires mid in backends && NoLoads(acts) && Stuck(acts)
    requires AsksFor(policy, backends, mid, margin, before, acts, n, Raised)
    ensures Attempts(policy, backends, mid, margin, evict, before, after, acts, Raised)
  {
    assert acts[..|acts|] == acts;
    assert TriesAfter(policy, backends, mid, margin, evict, before, after, acts, |acts|, n, Raised);
  }

  lemma OneAttempt(policy: Policy, backends: map<string, Backend>, mid: string, margin: int, evict: bool,
                   before: map<string, bool>, after: map<string, bool>, acts: seq<Act>, n: nat, got: LoadOutcome,
                   r: Outcome)
    requires mid in backends && NoLoads(acts) && (r == Ok <==> got == Loaded)
    requires AsksFor(policy, backends, mid, margin, before, acts, n, Ok)
    requires got == LoadFailed && MayRetry(policy, backends, mid, evict) ==> OnFpga(backends, after) - {mid} == {}
    ensures Attempts(policy, backends, mid, margin, evict, before, after, acts + [Load(mid, got)], r)
  {
    var all := acts + [Load(mid, got)];
    assert all[..|acts|] == acts;
    assert TriesAfter(policy, backends, mid, margin, evict, before, after, all, |acts|, n, r);
  }

  lemma TwoAttempts(policy: Policy, backends: map<string, Backend>, mid: string, margin: int,
                    before: map<string, bool>, after: map<string, bool>, acts: seq<Act>, n: nat,
                    more: seq<Act>, r: Outcome)
    requires mid in backends && NoLoads(acts) && AsksFor(policy, backends, mid, margin, before, acts, n, Ok)
    requires backends[mid].fpga && policy == Auto && Retries(more, mid, r)
    ensures Attempts(policy, backends, mid, margin, true, before, after, acts + [Load(mid, LoadFailed)] + more, r)
  {
    var all := acts + [Load(mid, LoadFailed)] + more;
    assert all[..|acts|] == acts && all[|acts| + 1..] == more;
    assert TriesAfter(policy, backends, mid, margin, true, before, after, all, |acts|, n, r);
  }

  lemma AttemptsStand(policy: Policy, backends: map<string, Backend>, mid: string, margin: int, evict: bool,
                      before: map<string, bool>, after: map<string, bool>, acts: seq<Act>, r: Outcome)
    requires mid in backends && mid in after
    requires Attempts(policy, backends, mid, margin, evict, before, after, acts, r)
    ensures var now := if r == Ok then after[mid := true] else after;
            Attempts(policy, backends, mid, margin, evict, before, now, acts, r)
  {
    assert OnFpga(backends, after[mid := true]) - {mid} == OnFpga(backends, after) - {mid};
    var k: nat, n: nat :| TriesAfter(policy, backends, mid, margin, evict, before, after, acts, k, n, r);
    assert TriesAfter(policy, backends, mid, margin, evict, before, if r == Ok then after[mid := true] else after, acts,
                      k, n, r);
  }

  class Server {
    const policy: Policy
    const margin: int
    var order: seq<string>               // the backends, as listed
    var backends: map<string, Backend>
    var loaded: map<string, bool>
    var lastUsed: map<string, int>
    var unavailable: set<string>
    var nLoads: nat
    var nUnloads: nat
    ghost var touched: set<string>       // the models whose engine was opened or closed
    ghost var open: set<string>          // the engines that were loaded and not unloaded since
    ghost var log: seq<Act>

    ghost predicate Listed()
      reads this`order, this`backends
    {
      AreListed(order, backends)
    }

    /** The tables agree, and the models that are on are those whose engine is open. */
    ghost predicate Counted()
      reads this`backends, this`loaded, this`nLoads, this`nUnloads, this`open
    {
      CountsAgree(policy, backends, loaded, nLoads, nUnloads) && open == On(loaded)
    }

    ghost predicate Valid()
      reads this`order, this`backends, this`loaded, this`nLoads, this`nUnloads, this`open
    {
      Listed() && Counted()
    }

    constructor (policy: Policy, margin: int, order: seq<string>, backends: map<string, Backend>)
      requires AreListed(order, backends)
      ensures Valid() && this.policy == policy && this.margin == margin && this.backends == backends
      ensures On(loaded) == open == {} && log == []
    {
      this.policy, this.margin, this.order, this.backends := policy, margin, order, backends;
      loaded := map m | m in backends :: false;
      lastUsed, unavailable, nLoads, nUnloads, touched, open, log := map[], {}, 0, 0, {}, {}, [];
      new;
      assert On(loaded) == {};
    }

    // The backend's calls and the memory reading: their results are not the server's.

    method BackendLoad(mid: string) returns (r: LoadOutcome)
      modifies this`touched, this`open, this`log
      ensures touched == old(touched) + {mid} && log == old(log) + [Load(mid, r)]
      ensures open == old(open) + if r == Loaded then {mid} else {}
    {
      touched := touched + {mid};
      r := *;
      open := open + if r == Loaded then {mid} else {};
      log := log + [Load(mid, r)];
    }

    method BackendUnload(mid: string) returns (r: Outcome)
      modifies this`touched, this`open, this`log
      ensures touched == old(touched) + {mid} && log == old(log) + [Unload(mid, r)] && open == old(open) - {mid}
    {
      touched := touched + {mid};
      r := *;
      open := open - {mid};
      log := log + [Unload(mid, r)];
    }

    method CmaFree() returns (r: Option<int>)
      modifies this`log
      ensures log == old(log) + [Read(r)]
    {
      r := *;
      log := log + [Read(r)];
    }

    method UnloadModel(mid: string) returns (r: Outcome)
      requires Counted()
      modifies this`loaded, this`nUnloads, this`touched, this`open, this`log
      ensures Counted()
      ensures mid !in old(loaded) || !old(loaded)[mid] ==>
                && r == Ok && loaded == old(loaded) && nUnloads == old(nUnloads) && touched == old(touched)
                && log == old(log)
      ensures mid in old(loaded) && old(loaded)[mid] ==>
                && loaded == old(loaded)[mid := false] && nUnloads == old(nUnloads) + 1
                && touched == old(touched) + {mid} && log == old(log) + [Unload(mid, r)]
    {
      if mid !in loaded || !loaded[mid] {
        return Ok;
      }
      r := BackendUnload(mid);
      OnAfterSwitch(backends, loaded, mid, false);
      loaded := loaded[mid := false];
      nUnloads := nUnloads + 1;
    }

    /** The other FPGA models that are on, in listed order. */
    method OtherFpga(mid: string) returns (others: seq<string>)
      requires Valid()
      ensures Elements(others) == OnFpga(backends, loaded) - {mid}
      ensures forall i, j :: 0 <= i < j < |others| ==> others[i] != others[j]
    {
      others := [];
      for i := 0 to |order|
        invariant forall j, k :: 0 <= j < k < |others| ==> others[j] != others[k]
        invariant forall m :: m in others <==> m in order[..i] && m in OnFpga(backends, loaded) && m != mid
      {
        var m := order[i];
        assert order[..i + 1] == order[..i] + [m] && m !in order[..i];
        if loaded[m] && m != mid && backends[m].fpga {
          others := others + [m];
        }
      }
      assert order[..|order|] == order;
    }

    method UnloadEach(ms: seq<string>) returns (r: Outcome)
      requires Counted() && forall i, j :: 0 <= i < j < |ms| ==> ms[i] != ms[j]
      requires Elements(ms) <= On(loaded)
      modifies this`loaded, this`nUnloads, this`touched, this`open, this`log
      ensures Counted() && OnlyOff(old(loaded), loaded, Elements(ms))
      ensures r == Ok ==> AllOff(loaded, Elements(ms))
      ensures touched <= old(touched) + Elements(ms)
      ensures |old(log)| <= |log| && log[..|old(log)|] == old(log) && OnlyUnloads(log[|old(log)|..])
      ensures r == Raised ==> |log| > |old(log)| && log[|log| - 1].done == Raised
      ensures r == Ok ==> |log| == |old(log)| + |ms| && !Stuck(log[|old(log)|..])
    {
      hide CountsAgree, OnFpga, AtMostOne, On, OnlyOff, AllOff, Elements;
      NoneOff(loaded, ms);
      for i := 0 to |ms|
        invariant Counted() && OnlyOff(old(loaded), loaded, Elements(ms[..i]))
        invariant AllOff(loaded, Elements(ms[..i]))
        invariant touched <= old(touched) + Elements(ms[..i])
        invariant |log| == |old(log)| + i && log[..|old(log)|] == old(log)
        invariant forall k :: |old(log)| <= k < |log| ==> log[k].Unload? && log[k].done == Ok
      {
        StillOn(old(loaded), loaded, ms, i);
        ghost var now := loaded;
        r := UnloadModel(ms[i]);
        OneOff(old(loaded), now, loaded, ms, i);
        if r == Raised {
          ElementsPrefix(ms, i + 1);
          OffWithin(old(loaded), loaded, Elements(ms[..i + 1]), Elements(ms));
          return;
        }
      }
      assert ms[..|ms|] == ms;
      r := Ok;
    }

    /** --resident auto: unloads in the given order until memory suffices or
        cannot be read. */
    method EvictInOrder(mid: string, sorted: seq<string>) returns (r: Outcome, ghost n: nat)
      requires Counted() && mid in backends && forall i, j :: 0 <= i < j < |sorted| ==> sorted[i] != sorted[j]
      requires Elements(sorted) <= On(loaded)
      modifies this`loaded, this`nUnloads, this`touched, this`open, this`log
      ensures Counted() && n <= |sorted|
      ensures OnlyOff(old(loaded), loaded, Elements(sorted[..n])) && AllOff(loaded, Elements(sorted[..n]))
      ensures touched <= old(touched) + Elements(sorted[..n])
      ensures |old(log)| <= |log| && log[..|old(log)|] == old(log)
      ensures Evicts(log[|old(log)|..], n, |sorted|, backends[mid].cma + margin, r)
    {
      hide CountsAgree, OnFpga, AtMostOne, Evicts, Evicting, On, OnlyOff, AllOff, Elements;
      NoneOff(loaded, sorted);
      n := 0;
      ghost var need := backends[mid].cma + margin;
      assert log[|old(log)|..] == [];
      NoEviction(|sorted|, need);
      for i := 0 to |sorted|
        invariant Counted() && n == i
        invariant OnlyOff(old(loaded), loaded, Elements(sorted[..i])) && AllOff(loaded, Elements(sorted[..i]))
        invariant touched <= old(touched) + Elements(sorted[..i])
        invariant |old(log)| <= |log| && log[..|old(log)|] == old(log)
        invariant Evicting(log[|old(log)|..], i, need)
      {
        ghost var acts := log[|old(log)|..];
        var free := CmaFree();
        assert log[|old(log)|..] == acts + [Read(free)];
        if free.None? || free.value >= backends[mid].cma + margin {
          EvictionEnds(acts, i, |sorted|, need, free);
          return Ok, i;
        }
        StillOn(old(loaded), loaded, sorted, i);
        ghost var now := loaded;
        r := UnloadModel(sorted[i]);
        OneOff(old(loaded), now, loaded, sorted, i);
        n := i + 1;
        assert log[|old(log)|..] == acts + [Read(free), Unload(sorted[i], r)];
        EvictionGoesOn(acts, i, |sorted|, need, free, sorted[i], r);
        if r == Raised {
          return;
        }
      }
      EvictedAll(log[|old(log)|..], |sorted|, need);
      r := Ok;
    }

    /** load_model, up to the load: the evictions of --resident. */
    method MakeRoom(mid: string) returns (r: Outcome)
      requires Valid() && mid in backends && !loaded[mid]
      modifies this`loaded, this`nUnloads, this`touched, this`open, this`log
      ensures Valid() && OnlyOff(old(loaded), loaded, OnFpga(backends, old(loaded)))
      ensures touched <= old(touched) + OnFpga(backends, old(loaded))
      ensures policy == All || !backends[mid].fpga ==> loaded == old(loaded)
      ensures policy == One && r == Ok && backends[mid].fpga ==> OnFpga(backends, loaded) == {}
      ensures r == Ok ==> LeastUsedWentFirst(backends, lastUsed, old(loaded), mid, loaded)
      ensures |old(log)| <= |log| && log[..|old(log)|] == old(log)
      ensures NoLoads(log[|old(log)|..]) && (r == Raised <==> Stuck(log[|old(log)|..]))
      ensures Evicted(policy, backends, mid, margin, old(loaded), loaded, log[|old(log)|..], r)
    {
      hide LeastUsedWentFirst, NoLoads, Stuck, Evicted, AreListed, OnlyOff, OnFpga, On, Elements, AtMostOne;
      var others := OtherFpga(mid);
      r := Ok;
      assert log[|old(log)|..] == [];
      NoneWent(policy, backends, lastUsed, mid, margin, loaded, others);
      if backends[mid].fpga && others != [] && policy == One {
        r := EvictAll(mid, others);
      } else if backends[mid].fpga && others != [] && policy == Auto {
        r := EvictLeastUsed(mid, others);
      }
    }

    /** The eviction of --resident one. */
    method EvictAll(mid: string, others: seq<string>) returns (r: Outcome)
      requires Valid() && mid in backends && !loaded[mid] && backends[mid].fpga && policy == One && others != []
      requires Elements(others) == OnFpga(backends, loaded) - {mid}
      requires forall i, j :: 0 <= i < j < |others| ==> others[i] != others[j]
      modifies this`loaded, this`nUnloads, this`touched, this`open, this`log
      ensures Valid() && OnlyOff(old(loaded), loaded, OnFpga(backends, old(loaded)))
      ensures touched <= old(touched) + OnFpga(backends, old(loaded))
      ensures r == Ok ==> OnFpga(backends, loaded) == {}
      ensures r == Ok ==> LeastUsedWentFirst(backends, lastUsed, old(loaded), mid, loaded)
      ensures |old(log)| <= |log| && log[..|old(log)|] == old(log)
      ensures NoLoads(log[|old(log)|..]) && (r == Raised <==> Stuck(log[|old(log)|..]))
      ensures Evicted(policy, backends, mid, margin, old(loaded), loaded, log[|old(log)|..], r)
    {
      hide LeastUsedWentFirst, NoLoads, Stuck, Evicted, AreListed, AtMostOne, AllOff, OnlyUnloads, Elements, OnlyOff;
      FpgaIsOn(backends, loaded);
      r := UnloadEach(others);
      OffWithin(old(loaded), loaded, Elements(others), OnFpga(backends, old(loaded)));
      OneWent(policy, backends, lastUsed, mid, margin, old(loaded), loaded, others, log[|old(log)|..], r);
    }

    /** The eviction of --resident auto. */
    method EvictLeastUsed(mid: string, others: seq<string>) returns (r: Outcome)
      requires Valid() && mid in backends && !loaded[mid] && backends[mid].fpga && policy == Auto && others != []
      requires Elements(others) == OnFpga(backends, loaded) - {mid}
      requires forall i, j :: 0 <= i < j < |others| ==> others[i] != others[j]
      modifies this`loaded, this`nUnloads, this`touched, this`open, this`log
      ensures Valid() && OnlyOff(old(loaded), loaded, OnFpga(backends, old(loaded)))
      ensures touched <= old(touched) + OnFpga(backends, old(loaded))
      ensures r == Ok ==> LeastUsedWentFirst(backends, lastUsed, old(loaded), mid, loaded)
      ensures |old(log)| <= |log| && log[..|old(log)|] == old(log)
      ensures NoLoads(log[|old(log)|..]) && (r == Raised <==> Stuck(log[|old(log)|..]))
      ensures Evicted(policy, backends, mid, margin, old(loaded), loaded, log[|old(log)|..], r)
    {
      hide CountsAgree, Evicts, LeastUsedWentFirst, NoLoads, Stuck, AreListed, Elements, OnFpga, On, OnlyOff, AllOff,
           Evicted, ByUse, SortByUse;
      var sorted := SortByUse(others, lastUsed);
      SortByUseSorts(others, lastUsed);
      SortedElements(others, sorted);
      SortedOnce(others, sorted);
      FpgaIsOn(backends, loaded);
      ghost var n;
      r, n := EvictInOrder(mid, sorted);
      ElementsPrefix(sorted, n);
      OffWithin(old(loaded), loaded, Elements(sorted[..n]), OnFpga(backends, old(loaded)));
      PrefixWentFirst(backends, lastUsed, old(loaded), mid, loaded, sorted, n);
      EvictionAsks(log[|old(log)|..], n, |sorted|, backends[mid].cma + margin, r);
      AutoWent(backends, mid, margin, old(loaded), loaded, sorted, n, log[|old(log)|..], r);
    }

    /** The retry after a failed load: everything else off, then once more. */
    method Retry(mid: string, still: seq<string>) returns (r: Outcome)
      requires Valid() && mid in backends && !loaded[mid] && still != []
      requires Elements(still) == OnFpga(backends, loaded) - {mid}
      requires forall i, j :: 0 <= i < j < |still| ==> still[i] != still[j]
      modifies this`loaded, this`nUnloads, this`touched, this`open, this`log
      ensures Listed() && CountsAgree(policy, backends, loaded, nLoads, nUnloads)
      ensures open == On(loaded) + if r == Ok then {mid} else {}
      ensures OnlyOff(old(loaded), loaded, OnFpga(backends, old(loaded)))
      ensures touched <= old(touched) + OnFpga(backends, old(loaded)) + {mid}
      ensures r == Ok ==> OnFpga(backends, loaded) == {}
      ensures |old(log)| <= |log| && log[..|old(log)|] == old(log)
      ensures Retries(log[|old(log)|..], mid, r)
    {
      hide AreListed, AtMostOne, AllOff, OnlyUnloads, Elements, OnlyOff, Retries, Stuck, OnFpga;
      r := CloseAndUnload(mid, still);
      ghost var acts := log[|old(log)| + 1..];
      if r == Ok {
        var got := BackendLoad(mid);
        r := if got == Loaded then Ok else Raised;
        RetryEnds(old(log), mid, acts, log, got, r);
      } else {
        RetryStuck(old(log), mid, acts, log);
      }
    }

    /** What goes before the second attempt. */
    method CloseAndUnload(mid: string, still: seq<string>) returns (r: Outcome)
      requires Valid() && mid in backends && !loaded[mid] && still != []
      requires Elements(still) == OnFpga(backends, loaded) - {mid}
      requires forall i, j :: 0 <= i < j < |still| ==> still[i] != still[j]
      modifies this`loaded, this`nUnloads, this`touched, this`open, this`log
      ensures Valid() && OnlyOff(old(loaded), loaded, OnFpga(backends, old(loaded)))
      ensures touched <= old(touched) + OnFpga(backends, old(loaded)) + {mid}
      ensures r == Ok ==> OnFpga(backends, loaded) == {}
      ensures |old(log)| < |log| && log[..|old(log)|] == old(log)
      ensures log[|old(log)|].Unload? && log[|old(log)|].mid == mid && OnlyUnloads(log[|old(log)| + 1..])
      ensures r == Raised ==> |log| > |old(log)| + 1 && log[|log| - 1].done == Raised
    {
      hide AreListed, AtMostOne, AllOff, OnlyUnloads, Elements, OnlyOff, Stuck;
      var ignored := BackendUnload(mid);
      ghost var base := log;
      r := UnloadEach(still);
      OffWithin(old(loaded), loaded, Elements(still), OnFpga(backends, old(loaded)));
      if r == Ok {
        NoneOn(backends, old(loaded), mid, loaded, Elements(still));
      }
    }

    /** load_model: the evictions of --resident, the load, and one retry after
        evicting everything else under `auto`. */
    method LoadModel(mid: string, evict: bool) returns (r: Outcome)
      requires Valid() && mid in backends
      modifies this`loaded, this`nLoads, this`nUnloads, this`touched, this`open, this`log
      ensures Valid()
      ensures MayLoad(backends, policy, old(loaded), mid, loaded, r)
      ensures touched <= old(touched) + if old(loaded)[mid] then {} else OnFpga(backends, old(loaded)) + {mid}
      ensures r == Ok ==> LeastUsedWentFirst(backends, lastUsed, old(loaded), mid, loaded)
      ensures SwitchesCounted(old(loaded), loaded, old(nLoads), old(nUnloads), nLoads, nUnloads)
      ensures |old(log)| <= |log| && log[..|old(log)|] == old(log)
      ensures if old(loaded)[mid] then log == old(log)
              else Attempts(policy, backends, mid, margin, evict, old(loaded), loaded, log[|old(log)|..], r)
    {
      hide MayLoad, LeastUsedWentFirst, SwitchesCounted, OnlyOff, OnFpga, On, AreListed, AtMostOne, Attempts;
      if loaded[mid] {
        LoadedAlready(backends, policy, lastUsed, loaded, mid, nLoads, nUnloads);
        return Ok;
      }
      r := LoadAnew(mid, evict);
      StaysOff(old(loaded), loaded, OnFpga(backends, old(loaded)), mid);
      LoadSettles(backends, policy, old(loaded), mid, loaded, r);
      LeastUsedStill(backends, lastUsed, old(loaded), mid, loaded);
      AttemptsStand(policy, backends, mid, margin, evict, old(loaded), loaded, log[|old(log)|..], r);
      if r == Ok {
        TurnOn(mid);
      }
      LoadIsCounted(backends, policy, old(loaded), mid, loaded, r, old(nLoads), old(nUnloads), nLoads, nUnloads);
    }

    method TurnOn(mid: string)
      requires CountsAgree(policy, backends, loaded, nLoads, nUnloads) && mid in backends && !loaded[mid]
      requires policy == One && backends[mid].fpga ==> OnFpga(backends, loaded) == {}
      requires open == On(loaded) + {mid}
      modifies this`loaded, this`nLoads
      ensures Counted() && loaded == old(loaded)[mid := true] && nLoads == old(nLoads) + 1
    {
      OnAfterSwitch(backends, loaded, mid, true);
      loaded := loaded[mid := true];
      nLoads := nLoads + 1;
    }

    /** load_model of a model that is off, up to marking it as on. */
    method LoadAnew(mid: string, evict: bool) returns (r: Outcome)
      requires Valid() && mid in backends && !loaded[mid]
      modifies this`loaded, this`nUnloads, this`touched, this`open, this`log
      ensures Listed() && CountsAgree(policy, backends, loaded, nLoads, nUnloads)
      ensures open == On(loaded) + if r == Ok then {mid} else {}
      ensures OnlyOff(old(loaded), loaded, OnFpga(backends, old(loaded)))
      ensures touched <= old(touched) + OnFpga(backends, old(loaded)) + {mid}
      ensures policy == All || !backends[mid].fpga ==> loaded == old(loaded)
      ensures policy == One && r == Ok && backends[mid].fpga ==> OnFpga(backends, loaded) == {}
      ensures r == Ok ==> LeastUsedWentFirst(backends, lastUsed, old(loaded), mid, loaded)
      ensures |old(log)| <= |log| && log[..|old(log)|] == old(log)
      ensures Attempts(policy, backends, mid, margin, evict, old(loaded), loaded, log[|old(log)|..], r)
    {
      hide AreListed, AtMostOne, OnlyOff, Retries, Stuck, NoLoads, LeastUsedWentFirst, AsksFor, Attempts, MayRetry,
           On, OnFpga;
      r := MakeRoom(mid);
      ghost var acts, n: nat := log[|old(log)|..], |On(old(loaded)) - On(loaded)|;
      if r == Raised {
        NoAttempt(policy, backends, mid, margin, evict, old(loaded), loaded, acts, n);
        return;
      }
      StaysOff(old(loaded), loaded, OnFpga(backends, old(loaded)), mid);
      r := LoadNow(mid, evict, old(loaded), acts, n, |old(log)|);
    }

    /** load_model after the eviction. */
    method LoadNow(mid: string, evict: bool, ghost first: map<string, bool>, ghost acts: seq<Act>, ghost n: nat,
                   ghost at: nat) returns (r: Outcome)
      requires Valid() && mid in backends && !loaded[mid]
      requires at <= |log| && log[at..] == acts && NoLoads(acts)
      requires AsksFor(policy, backends, mid, margin, first, acts, n, Ok)
      requires OnlyOff(first, loaded, OnFpga(backends, first))
      requires policy == All || !backends[mid].fpga ==> loaded == first
      requires policy == One && backends[mid].fpga ==> OnFpga(backends, loaded) == {}
      requires LeastUsedWentFirst(backends, lastUsed, first, mid, loaded)
      modifies this`loaded, this`nUnloads, this`touched, this`open, this`log
      ensures Listed() && CountsAgree(policy, backends, loaded, nLoads, nUnloads)
      ensures open == On(loaded) + if r == Ok then {mid} else {}
      ensures OnlyOff(first, loaded, OnFpga(backends, first))
      ensures touched <= old(touched) + OnFpga(backends, first) + {mid}
      ensures policy == All || !backends[mid].fpga ==> loaded == first
      ensures policy == One && r == Ok && backends[mid].fpga ==> OnFpga(backends, loaded) == {}
      ensures r == Ok ==> LeastUsedWentFirst(backends, lastUsed, first, mid, loaded)
      ensures at <= |log| && log[..at] == old(log[..at])
      ensures Attempts(policy, backends, mid, margin, evict, first, loaded, log[at..], r)
    {
      hide AreListed, AtMostOne, OnlyOff, NoLoads, LeastUsedWentFirst, AsksFor, Attempts, MayRetry, OnFpga, On;
      ghost var room := log;
      var got := BackendLoad(mid);
      OneActMore(at, room, Load(mid, got));
      if got == Loaded {
        OneAttempt(policy, backends, mid, margin, evict, first, loaded, acts, n, got, Ok);
        return Ok;
      }
      r := AfterFailure(mid, evict, got, first, acts, n, at);
    }

    /** load_model after a load that failed: given up, or tried once more. */
    method AfterFailure(mid: string, evict: bool, got: LoadOutcome, ghost first: map<string, bool>,
                        ghost acts: seq<Act>, ghost n: nat, ghost at: nat) returns (r: Outcome)
      requires Valid() && mid in backends && !loaded[mid] && got != Loaded
      requires at <= |log| && log[at..] == acts + [Load(mid, got)] && NoLoads(acts)
      requires AsksFor(policy, backends, mid, margin, first, acts, n, Ok)
      requires OnlyOff(first, loaded, OnFpga(backends, first))
      requires policy == All || !backends[mid].fpga ==> loaded == first
      modifies this`loaded, this`nUnloads, this`touched, this`open, this`log
      ensures Listed() && CountsAgree(policy, backends, loaded, nLoads, nUnloads)
      ensures open == On(loaded) + if r == Ok then {mid} else {}
      ensures OnlyOff(first, loaded, OnFpga(backends, first))
      ensures touched <= old(touched) + OnFpga(backends, first) + {mid}
      ensures policy == All || !backends[mid].fpga ==> loaded == first
      ensures r == Ok ==> OnFpga(backends, loaded) == {} && LeastUsedWentFirst(backends, lastUsed, first, mid, loaded)
      ensures |old(log)| <= |log| && log[..at] == old(log[..at])
      ensures Attempts(policy, backends, mid, margin, evict, first, loaded, log[at..], r)
    {
      hide AreListed, AtMostOne, OnlyOff, Retries, Stuck, NoLoads, LeastUsedWentFirst, AsksFor, Attempts, On, OnFpga;
      var still := OtherFpga(mid);
      NoneLeft(backends, loaded, mid, still);
      if !(evict && backends[mid].fpga && still != [] && policy == Auto) || got == LibraryMissing {
        OneAttempt(policy, backends, mid, margin, evict, first, loaded, acts, n, got, Raised);
        return Raised;
      }
      ghost var base, between := log, loaded;
      r := Retry(mid, still);
      OffStill(backends, lastUsed, mid, first, between, loaded, r);
      ActsJoin(at, base, log);
      TwoAttempts(policy, backends, mid, margin, first, loaded, acts, n, log[|base|..], r);
    }

    /** _ensure_loaded: true when the model is on afterwards. */
    method EnsureLoaded(mid: string, now: int) returns (ok: bool)
      requires Valid() && mid in backends
      modifies this`lastUsed, this`loaded, this`nLoads, this`nUnloads, this`touched, this`open, this`log
      ensures Valid() && lastUsed == old(lastUsed)[mid := now]
      ensures |old(log)| <= |log| && log[..|old(log)|] == old(log)
      ensures if old(loaded)[mid] then ok && log == old(log)
              else Attempts(policy, backends, mid, margin, true, old(loaded), loaded, log[|old(log)|..],
                            if ok then Ok else Raised)
      ensures MayLoad(backends, policy, old(loaded), mid, loaded, if ok then Ok else Raised)
      ensures SwitchesCounted(old(loaded), loaded, old(nLoads), old(nUnloads), nLoads, nUnloads)
      ensures touched <= old(touched) + if old(loaded)[mid] then {} else OnFpga(backends, old(loaded)) + {mid}
    {
      assert backends.Keys == loaded.Keys;
      hide AreListed, CountsAgree, OnFpga, LeastUsedWentFirst;
      lastUsed := lastUsed[mid := now];
      ok := true;
      if !loaded[mid] {
        var r := LoadModel(mid, true);
        ok := r == Ok;
      }
    }

    /** drop: `mid` is served no longer.  Only models that are off are dropped
        (their host side or their startup load failed). */
    method Drop(mid: string)
      requires Valid() && mid in backends && !loaded[mid]
      modifies this
      ensures Valid() && On(loaded) == On(old(loaded))
      ensures backends == old(backends) - {mid} && loaded == old(loaded) - {mid}
      ensures order == Without(old(order), mid) && unavailable == old(unavailable) + {mid}
      ensures lastUsed == old(lastUsed) - {mid} && nLoads == old(nLoads) && nUnloads == old(nUnloads)
      ensures log == old(log) && open == old(open)
    {
      hide AreListed, CountsAgree, On, Without;
      DroppedCounts(policy, backends, loaded, nLoads, nUnloads, mid);
      DroppedListed(order, backends, mid);
      order := Without(order, mid);
      backends, loaded, lastUsed := backends - {mid}, loaded - {mid}, lastUsed - {mid};
      unavailable, touched := unavailable + {mid}, touched + {mid};
    }

    /** The first startup model that is off. */
    method NextStartup() returns (mid: Option<string>)
      requires Valid()
      ensures mid.Some? ==> mid.value in StartupModels(order, backends, policy)
      ensures mid.Some? ==> mid.value in loaded && !loaded[mid.value]
      ensures mid.None? ==> Elements(StartupModels(order, backends, policy)) <= On(loaded)
    {
      var ms := StartupModels(order, backends, policy);
      StartupAreListed(order, backends, policy);
      for i := 0 to |ms|
        invariant forall k :: 0 <= k < i ==> ms[k] in On(loaded)
      {
        assert ms[i] in ms && StartsUp(order, backends, policy, ms[i]);
        if !loaded[ms[i]] {
          return Some(ms[i]);
        }
      }
      mid := None;
    }

    /** One turn of load_startup's first loop: a startup model that is off is
        loaded, or dropped when it does not load. */
    method StartOne(mid: string)
      requires Valid() && StartsUp(order, backends, policy, mid) && !loaded[mid]
      requires On(loaded) <= Elements(StartupModels(order, backends, policy))
      modifies this
      ensures Valid() && On(loaded) <= Elements(StartupModels(order, backends, policy))
      ensures |old(log)| <= |log| && log[..|old(log)|] == old(log)
      ensures || (backends == old(backends) && unavailable == old(unavailable) && On(loaded) == On(old(loaded)) + {mid})
              || (backends == old(backends) - {mid} && unavailable == old(unavailable) + {mid}
                  && Cause(log[|old(log)|..], mid))
    {
      hide Attempts, Cause, AreListed;
      ghost var before := loaded;
      var r := LoadModel(mid, true);
      ghost var base := log;
      StartupEvictsNothing(order, backends, policy, before, mid, loaded, r);
      if r == Raised {
        RaisedHasCause(policy, backends, mid, margin, true, before, loaded, log[|old(log)|..]);
        GiveUp(mid);
        CauseStays(|old(log)|, base, log, mid);
      }
    }

    method GiveUp(mid: string)
      requires Valid() && mid in backends && !loaded[mid]
      requires On(loaded) <= Elements(StartupModels(order, backends, policy))
      modifies this
      ensures Valid() && On(loaded) <= Elements(StartupModels(order, backends, policy))
      ensures backends == old(backends) - {mid} && unavailable == old(unavailable) + {mid}
      ensures |old(log)| <= |log| && log[..|old(log)|] == old(log)
    {
      var ignored := BackendUnload(mid);
      StartupAfterDrop(order, backends, policy, loaded, mid);
      Drop(mid);
    }

    /** load_startup, its first loop: every startup model is on, or dropped because it did not load. */
    method LoadStartup()
      requires Valid() && On(loaded) == {}
      modifies this
      ensures Valid()
      ensures On(loaded) == Elements(StartupModels(order, backends, policy))
      ensures backends.Keys <= old(backends).Keys <= backends.Keys + unavailable
      ensures |old(log)| <= |log| && log[..|old(log)|] == old(log)
      ensures forall m :: m in old(backends).Keys - backends.Keys ==> Cause(log[|old(log)|..], m)
    {
      hide Cause, AreListed;
      while true
        invariant Valid() && On(loaded) <= Elements(StartupModels(order, backends, policy))
        invariant backends.Keys <= old(backends).Keys <= backends.Keys + unavailable
        invariant |old(log)| <= |log| && log[..|old(log)|] == old(log)
        invariant forall m :: m in old(backends).Keys - backends.Keys ==> Cause(log[|old(log)|..], m)
        decreases backends.Keys, backends.Keys - On(loaded)
      {
        ghost var base, gone := log, old(backends).Keys - backends.Keys;
        var mid := NextStartup();
        if mid.None? {
          break;
        }
        StartupAreListed(order, backends, policy);
        StartOne(mid.value);
        forall m | m in old(backends).Keys - backends.Keys
          ensures Cause(log[|old(log)|..], m)
        {
          if m in gone {
            CauseStays(|old(log)|, base, log, m);
          } else {
            CauseLater(|old(log)|, base, log, m);
          }
        }
      }
    }

    /** load_startup, its second loop, which --resident auto alone has: further
        models, in listed order, while memory allows; a failure leaves the model
        off.  Only FPGA models may go off, and each model is loaded at most once. */
    method LoadFurther() returns (ghost turns: seq<seq<Act>>)
      requires Valid()
      modifies this`loaded, this`nLoads, this`nUnloads, this`touched, this`open, this`log
      ensures Valid()
      ensures policy != Auto ==> loaded == old(loaded) && touched == old(touched) && nLoads == old(nLoads)
      ensures OnlyFpgaOff(backends, old(loaded), loaded)
      ensures AllMayTouch(backends, old(loaded), touched - old(touched))
      ensures nLoads <= old(nLoads) + |order|
      ensures log == old(log) + FlatActs(turns) && |turns| == if policy == Auto then |order| else 0
      ensures TurnsOf(backends, margin, old(loaded), order, turns)
    {
      hide MayTouch, AllMayTouch, OnlyFpgaOff, OnFpga, TurnOf, TurnsOf, Later, Stuck, On, FlatActs, AreListed;
      turns := [];
      FirstTurn(backends, margin, loaded, order);
      assert log == log + [] && touched - touched == {};
      if policy != Auto {
        return;
      }
      for i := 0 to |order|
        invariant Valid() && OnlyFpgaOff(backends, old(loaded), loaded)
        invariant AllMayTouch(backends, old(loaded), touched - old(touched))
        invariant nLoads <= old(nLoads) + i
        invariant log == old(log) + FlatActs(turns) && |turns| == i
        invariant TurnsOf(backends, margin, old(loaded), order, turns) && Later(order, i, old(loaded), loaded)
      {
        ghost var before, base, was := loaded, log, touched;
        ItsTurn(backends, order, i, old(loaded), loaded);
        var acts := Turn(order[i], old(loaded));
        NextTurn(backends, margin, old(loaded), order, turns, acts);
        StillLater(backends, order, i, old(loaded), before, loaded);
        TurnTouches(backends, old(loaded), before, order[i], loaded, old(touched), was, touched);
        turns := turns + [acts];
        assert base + acts == old(log) + FlatActs(turns);
      }
    }

    /** One turn of that loop. */
    method Turn(mid: string, ghost first: map<string, bool>) returns (ghost acts: seq<Act>)
      requires Valid() && mid in backends && mid in first && (loaded[mid] ==> first[mid])
      modifies this`loaded, this`nLoads, this`nUnloads, this`touched, this`open, this`log
      ensures Valid() && OnlyFpgaOff(backends, old(loaded), loaded)
      ensures if old(loaded)[mid] then loaded == old(loaded) && touched == old(touched)
              else touched <= old(touched) + OnFpga(backends, old(loaded)) + {mid}
      ensures nLoads <= old(nLoads) + 1
      ensures forall m :: m in loaded && m != mid && loaded[m] ==> m in old(loaded) && old(loaded)[m]
      ensures log == old(log) + acts && TurnOf(backends, margin, first, mid, acts)
    {
      acts := [];
      if loaded[mid] {
        return;
      }
      var free := CmaFree();
      acts := [Read(free)];
      if free.Some? && free.value >= backends[mid].cma + margin {
        acts := LoadBeside(mid, free, first);
      }
    }

    /** ... when memory allows. */
    method LoadBeside(mid: string, ghost free: Option<int>, ghost first: map<string, bool>)
      returns (ghost acts: seq<Act>)
      requires Valid() && mid in backends && !loaded[mid] && mid in first
      requires free.Some? && free.value >= backends[mid].cma + margin
      modifies this`loaded, this`nLoads, this`nUnloads, this`touched, this`open, this`log
      ensures Valid() && OnlyFpgaOff(backends, old(loaded), loaded)
      ensures touched <= old(touched) + OnFpga(backends, old(loaded)) + {mid}
      ensures nLoads <= old(nLoads) + 1
      ensures forall m :: m in loaded && m != mid && loaded[m] ==> m in old(loaded) && old(loaded)[m]
      ensures acts != [] && acts[0] == Read(free) && log == old(log) + acts[1..]
      ensures TurnOf(backends, margin, first, mid, acts)
    {
      hide Attempts, TurnOf;
      hide MayLoad, SwitchesCounted, LeastUsedWentFirst, AreListed, CountsAgree, OnlyFpgaOff, OnFpga;
      var r := LoadModel(mid, false);
      LoadedBeside(policy, backends, old(loaded), mid, loaded, r, old(nLoads), old(nUnloads), nLoads, nUnloads);
      ghost var tried, more := log[|old(log)|..], [];
      ghost var after := loaded;
      if r == Raised {
        var ignored := BackendUnload(mid);
        more := [Unload(mid, ignored)];
      }
      TurnTries(policy, backends, mid, margin, first, old(loaded), after, free, tried, more, r);
      acts := [Read(free)] + tried + more;
      assert acts[1..] == tried + more;
    }
  }

  ghost predicate AllMayTouch(backends: map<string, Backend>, first: map<string, bool>, ms: set<string>) {
    forall m :: m in ms ==> MayTouch(backends, first, m)
  }

  /** The models from the i-th on that are on were on at first. */
  ghost predicate Later(order: seq<string>, i: nat, first: map<string, bool>, loaded: map<string, bool>) {
    forall j :: i <= j < |order| && order[j] in loaded && loaded[order[j]] ==> order[j] in first && first[order[j]]
  }

  /** The turns of the first |turns| models. */
  ghost predicate TurnsOf(backends: map<string, Backend>, margin: int, first: map<string, bool>, order: seq<string>,
                          turns: seq<seq<Act>>) {
    && |turns| <= |order|
    && forall i :: 0 <= i < |turns| ==>
         order[i] in backends && order[i] in first && TurnOf(backends, margin, first, order[i], turns[i])
  }

  lemma FirstTurn(backends: map<string, Backend>, margin: int, loaded: map<string, bool>, order: seq<string>)
    requires AreListed(order, backends) && backends.Keys == loaded.Keys
    ensures TurnsOf(backends, margin, loaded, order, []) && Later(order, 0, loaded, loaded)
    ensures OnlyFpgaOff(backends, loaded, loaded) && AllMayTouch(backends, loaded, {}) && FlatActs([]) == []
  {
  }

  lemma ItsTurn(backends: map<string, Backend>, order: seq<string>, i: nat, first: map<string, bool>,
                loaded: map<string, bool>)
    requires AreListed(order, backends) && i < |order| && OnlyFpgaOff(backends, first, loaded)
    requires Later(order, i, first, loaded)
    ensures order[i] in backends && order[i] in first && order[i] in loaded
    ensures loaded[order[i]] ==> first[order[i]]
  {
  }

  lemma NextTurn(backends: map<string, Backend>, margin: int, first: map<string, bool>, order: seq<string>,
                 turns: seq<seq<Act>>, acts: seq<Act>)
    requires |turns| < |order| && TurnsOf(backends, margin, first, order, turns)
    requires order[|turns|] in backends && order[|turns|] in first
    requires TurnOf(backends, margin, first, order[|turns|], acts)
    ensures TurnsOf(backends, margin, first, order, turns + [acts])
    ensures FlatActs(turns + [acts]) == FlatActs(turns) + acts
  {
    hide TurnOf;
    assert (turns + [acts])[..|turns|] == turns;
  }

  lemma StillLater(backends: map<string, Backend>, order: seq<string>, i: nat, first: map<string, bool>,
                   before: map<string, bool>, after: map<string, bool>)
    requires AreListed(order, backends) && i < |order| && Later(order, i, first, before)
    requires forall m :: m in after && m != order[i] && after[m] ==> m in before && before[m]
    ensures Later(order, i + 1, first, after)
  {
  }

  lemma TurnTouches(backends: map<string, Backend>, first: map<string, bool>, before: map<string, bool>, mid: string,
                    after: map<string, bool>, touched0: set<string>, was: set<string>, touched: set<string>)
    requires OnlyFpgaOff(backends, first, before) && OnlyFpgaOff(backends, before, after) && mid in before
    requires AllMayTouch(backends, first, was - touched0)
    requires if before[mid] then after == before && touched == was
             else touched <= was + OnFpga(backends, before) + {mid}
    ensures OnlyFpgaOff(backends, first, after) && AllMayTouch(backends, first, touched - touched0)
  {
    if !before[mid] {
      OnlyFpgaOffYet(backends, first, before, mid, after);
    }
  }

  lemma LoadedBeside(policy: Policy, backends: map<string, Backend>, before: map<string, bool>, mid: string,
                     after: map<string, bool>, r: Outcome, loads: nat, unloads: nat, nLoads: nat, nUnloads: nat)
    requires MayLoad(backends, policy, before, mid, after, r)
    requires SwitchesCounted(before, after, loads, unloads, nLoads, nUnloads)
    ensures OnlyFpgaOff(backends, before, after) && nLoads <= loads + 1
    ensures forall m :: m in after && m != mid && after[m] ==> m in before && before[m]
    ensures mid in after && (r == Raised ==> !after[mid])
  {
    assert On(after) - On(before) <= {mid};
    FewerThanOne(On(after) - On(before), mid);
  }

  lemma FewerThanOne<T>(s: set<T>, x: T)
    requires s <= {x}
    ensures |s| <= 1
  {
    if s != {} {
      assert s == {x};
    }
  }

  /** The models that do not use the FPGA stay on. */
  ghost predicate OnlyFpgaOff(backends: map<string, Backend>, before: map<string, bool>, after: map<string, bool>) {
    && after.Keys == before.Keys == backends.Keys
    && forall m :: m in backends && !backends[m].fpga && before[m] ==> after[m]
  }

  lemma OnlyFpgaOffYet(backends: map<string, Backend>, first: map<string, bool>, before: map<string, bool>, mid: string,
                       after: map<string, bool>)
    requires OnlyFpgaOff(backends, first, before) && OnlyFpgaOff(backends, before, after)
    requires mid in before && !before[mid]
    ensures OnlyFpgaOff(backends, first, after)
    ensures forall m :: m in OnFpga(backends, before) + {mid} ==> MayTouch(backends, first, m)
  {
  }

  ghost predicate MayTouch(backends: map<string, Backend>, before: map<string, bool>, m: string) {
    m in backends && m in before && (backends[m].fpga || !before[m])
  }
}
