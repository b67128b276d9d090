/** Requests, loads, evictions and lends together: the queue's step system with
    the models on top of it. */
module Serving {
  import opened Wrappers
  import opened FifoLock
  import opened Residency

  /** The queue, the model each request asked for, the requests whose model
      _ensure_loaded found or made resident, the models that are on, and how
      often one was loaded and unloaded. */
  datatype World = World(sys: System, model: seq<string>, ready: set<nat>, loaded: map<string, bool>,
                         nLoads: nat, nUnloads: nat)

  datatype Event =
    | Queueing(step: Step)                                          // acquire(), lend(), release()
    | Ensure(id: nat, after: map<string, bool>, r: Outcome)         // _ensure_loaded()
    | Work(id: nat)                                                 // a call on the request's own engine

  datatype Site = Site(backends: map<string, Backend>, policy: Policy, maxWaiting: nat)

  /** _lend's `eligible`: the other speech and speech-to-text models that are on. */
  function Eligible(site: Site, loaded: map<string, bool>, own: string): set<string> {
    set m | m in site.backends && m != own && site.backends[m].kind != Chat && m in loaded && loaded[m]
  }

  ghost predicate Allowed(site: Site, w: World, e: Event) {
    match e
    case Queueing(step) =>
      && Enabled(w.sys, step)
      && (step.Arrive? ==> step.tag.Some? && step.tag.value in site.backends)
      && (step.LendOut? ==>
            && step.id in w.ready && step.id < |w.model| && w.model[step.id] in site.backends
            && site.backends[w.model[step.id]].kind == Chat
            && step.eligible == Eligible(site, w.loaded, w.model[step.id]))
    case Ensure(id, after, r) =>
      && Executes(w.sys, id) && id !in w.ready && id < |w.model|
      && MayLoad(site.backends, site.policy, w.loaded, w.model[id], after, r)
    case Work(id) => Executes(w.sys, id) && id in w.ready

  }

  function Happens(site: Site, w: World, e: Event): World
    requires e.Queueing? ==> Enabled(w.sys, e.step)
  {
    match e
    case Queueing(step) =>
      w.(sys := Apply(w.sys, step, site.maxWaiting),
         model := w.model + if step.Arrive? && step.tag.Some? then [step.tag.value] else [])
    case Ensure(id, after, r) =>
      w.(loaded := after, ready := w.ready + if r == Ok then {id} else {},
         nLoads := w.nLoads + |On(after) - On(w.loaded)|, nUnloads := w.nUnloads + |On(w.loaded) - On(after)|)
    case Work(_) => w
  }

  /** The models whose engine an event may open, close or call. */
  function Touches(site: Site, w: World, e: Event): set<string> {
    match e
    case Queueing(_) => {}
    case Ensure(id, _, _) =>
      if id < |w.model| && w.model[id] in w.loaded && !w.loaded[w.model[id]]
      then OnFpga(site.backends, w.loaded) + {w.model[id]} else {}
    case Work(id) => if id < |w.model| then {w.model[id]} else {}
  }

  function Actor(e: Event): nat {
    match e
    case Queueing(step) => (match step case Arrive(_, _) => 0 case Poll(id, _) => id case LendOut(id, _) => id
                                       case Resume(id) => id case Leave(id) => id)
    case Ensure(id, _, _) => id
    case Work(id) => id
  }

  ghost predicate Counted(site: Site, w: World) {
    CountsAgree(site.policy, site.backends, w.loaded, w.nLoads, w.nUnloads)
  }

  ghost predicate Runs(site: Site, worlds: seq<World>, events: seq<Event>) {
    && |worlds| == |events| + 1
    && worlds[0].sys == START && worlds[0].model == [] && worlds[0].ready == {}
    && Counted(site, worlds[0])
    && forall i :: 0 <= i < |events| ==>
         Allowed(site, worlds[i], events[i]) && worlds[i + 1] == Happens(site, worlds[i], events[i])
  }

  // ----- the invariant -----

  ghost predicate IsOn(w: World, id: nat) {
    id < |w.model| && w.model[id] in w.loaded && w.loaded[w.model[id]]
  }

  ghost predicate Tagged(w: World) {
    && |w.model| == |w.sys.phase|
    && forall t :: t in w.sys.lock.queue ==> t.id < |w.model| && t.tag == Some(w.model[t.id])
  }

  /** A lender's and a borrower's models are on, and are not the same. */
  ghost predicate LoansSound(w: World) {
    forall h: nat :: h < |w.sys.phase| && w.sys.phase[h].Lending? ==>
      && h in w.ready
      && (w.sys.lock.lent.Some? ==>
            IsOn(w, w.sys.lock.lent.value) && h < |w.model| && w.model[h] != w.model[w.sys.lock.lent.value])
  }

  ghost predicate Inv(site: Site, w: World) {
    && FifoLock.Inv(w.sys, site.maxWaiting)
    && Tagged(w)
    && (forall id: nat :: id in w.ready ==> id < |w.model| && !In(w.sys, id, Waiting))
    && (forall id: nat :: id in w.ready && (Owns(w.sys, id) || In(w.sys, id, Borrowing)) ==> IsOn(w, id))
    && LoansSound(w)
    && Counted(site, w)
  }

  // ----- every event keeps it -----

  lemma EnsureKeepsCounts(site: Site, w: World, id: nat, after: map<string, bool>, r: Outcome)
    requires Counted(site, w) && id < |w.model|
    requires MayLoad(site.backends, site.policy, w.loaded, w.model[id], after, r)
    ensures Counted(site, Happens(site, w, Ensure(id, after, r)))
  {
    SetsDiffer(On(w.loaded), On(after));
    if site.policy == One {
      assert OnFpga(site.backends, after) <= OnFpga(site.backends, w.loaded) + {w.model[id]};
      if !(r == Ok && site.backends[w.model[id]].fpga && !w.loaded[w.model[id]]) {
        assert OnFpga(site.backends, after) <= OnFpga(site.backends, w.loaded);
      }
    }
  }

  /** A request that makes its model resident is the only one that owns the
      lock, or borrows it and has its model on already. */
  lemma OwnerLoads(w: World, id: nat, maxWaiting: nat)
    requires FifoLock.Inv(w.sys, maxWaiting) && LoansSound(w) && Executes(w.sys, id)
    ensures IsOn(w, id) || forall h: nat :: Owns(w.sys, h) || In(w.sys, h, Borrowing) ==> h == id
    ensures IsOn(w, id) || forall h: nat :: h < |w.sys.phase| ==> !w.sys.phase[h].Lending?
    ensures !In(w.sys, id, Waiting)
  {
    var owner :| OwnerInv(w.sys, owner);
    if In(w.sys, id, Holding) {
      assert Owns(w.sys, id);
      assert forall h: nat :: h < |w.sys.phase| && w.sys.phase[h].Lending? ==> Owns(w.sys, h);
    } else {
      assert In(w.sys, owner.value, Lending(id));
    }
  }

  lemma OwnModelIsOn(site: Site, w: World, id: nat, after: map<string, bool>, r: Outcome)
    requires id < |w.model| && MayLoad(site.backends, site.policy, w.loaded, w.model[id], after, r)
    ensures IsOn(w, id) ==> after == w.loaded && r == Ok
    ensures r == Ok ==> IsOn(Happens(site, w, Ensure(id, after, r)), id)
  {
  }

  lemma EnsureKeepsLoans(site: Site, w: World, id: nat, after: map<string, bool>, r: Outcome)
    requires Inv(site, w) && Allowed(site, w, Ensure(id, after, r))
    ensures LoansSound(Happens(site, w, Ensure(id, after, r)))
  {
    hide FifoLock.Inv, Counted, OnFpga, MayLoad, Executes, Tagged;
    OwnerLoads(w, id, site.maxWaiting);
    OwnModelIsOn(site, w, id, after, r);
  }

  lemma EnsureKeepsInv(site: Site, w: World, id: nat, after: map<string, bool>, r: Outcome)
    requires Inv(site, w) && Allowed(site, w, Ensure(id, after, r))
    ensures Inv(site, Happens(site, w, Ensure(id, after, r)))
  {
    hide FifoLock.Inv, Counted, OnFpga, MayLoad, Executes, LoansSound;
    EnsureKeepsCounts(site, w, id, after, r);
    EnsureKeepsLoans(site, w, id, after, r);
    OwnerLoads(w, id, site.maxWaiting);
    OwnModelIsOn(site, w, id, after, r);
    var v := Happens(site, w, Ensure(id, after, r));
    forall h: nat | h in v.ready && (Owns(v.sys, h) || In(v.sys, h, Borrowing))
      ensures IsOn(v, h)
    {
      if h != id {
        assert Owns(w.sys, h) || In(w.sys, h, Borrowing);
        assert IsOn(w, h);
      }
    }
  }

  /** The tickets keep their numbers and tags. */
  ghost predicate SameTags(q: seq<Ticket>, r: seq<Ticket>) {
    forall t :: t in r ==> exists u :: u in q && u.id == t.id && u.tag == t.tag
  }

  lemma RemoveKeepsTags(q: seq<Ticket>, id: nat)
    ensures SameTags(q, Remove(q, id))
  {
    forall t | t in Remove(q, id)
      ensures t in q
    {}
  }

  lemma WakeKeepsTagged(w: World, id: nat, chance: Chance)
    requires Tagged(w) && id < |w.sys.phase|
    ensures Tagged(w.(sys := AfterWake(w.sys, id, chance)))
  {
    RemoveKeepsTags(w.sys.lock.queue, id);
  }

  lemma QueueingKeepsTagged(site: Site, w: World, step: Step)
    requires Tagged(w) && Allowed(site, w, Queueing(step))
    ensures Tagged(Happens(site, w, Queueing(step)))
  {
    match step
    case Arrive(tag, chance) =>
      var (l, e) := Enter(w.sys.lock, |w.sys.phase|, tag, site.maxWaiting);
      if e == Queued {
        var u := w.(sys := System(l, w.sys.phase + [Waiting]), model := w.model + [tag.value]);
        assert Tagged(u);
        WakeKeepsTagged(u, |w.sys.phase|, chance);
      }
    case Poll(id, chance) => WakeKeepsTagged(w, id, chance);
    case LendOut(_, _) =>
    case Resume(_) =>
    case Leave(_) =>
  }

  lemma LendKeepsLoans(site: Site, w: World, id: nat, eligible: set<string>)
    requires Inv(site, w) && Allowed(site, w, Queueing(LendOut(id, eligible)))
    ensures LoansSound(Happens(site, w, Queueing(LendOut(id, eligible))))
  {
    var v := Happens(site, w, Queueing(LendOut(id, eligible)));
    if v != w {
      var owner :| OwnerInv(w.sys, owner);
      var t := w.sys.lock.queue[FirstEligible(w.sys.lock.queue, eligible)];
      assert t in w.sys.lock.queue;
      assert Owns(w.sys, id);
      assert forall h: nat :: h < |w.sys.phase| && w.sys.phase[h].Lending? ==> Owns(w.sys, h);
    }
  }

  /** A waiting request for another model, not a chat model, that is on. */
  ghost predicate MayCutIn(site: Site, w: World, own: string, b: nat) {
    && In(w.sys, b, Waiting) && IsOn(w, b) && w.model[b] != own
    && w.model[b] in site.backends && site.backends[w.model[b]].kind != Chat
  }

  lemma BorrowersCutIn(site: Site, w: World, own: string, b: nat)
    requires FifoLock.Inv(w.sys, site.maxWaiting) && Tagged(w)
    ensures MayBorrow(w.sys, Eligible(site, w.loaded, own), b) <==> MayCutIn(site, w, own, b)
  {
    var q := w.sys.lock.queue;
    if MayBorrow(w.sys, Eligible(site, w.loaded, own), b) {
      var i :| 0 <= i < |q| && q[i].id == b && q[i].tag.Some?
               && q[i].tag.value in Eligible(site, w.loaded, own);
      assert q[i] in q;
    }
    if MayCutIn(site, w, own, b) {
      var i :| 0 <= i < |q| && q[i].id == b;
      assert q[i] in q;
    }
  }

  /** An answer lends to the oldest request that may cut in, if there is one and it has not lent yet;
      else nothing changes. */
  lemma LendsToTheOldest(site: Site, w: World, id: nat, eligible: set<string>)
    requires Inv(site, w) && Allowed(site, w, Queueing(LendOut(id, eligible)))
    ensures var v := Happens(site, w, Queueing(LendOut(id, eligible)));
            if w.sys.lock.lent.None? && exists b: nat :: MayCutIn(site, w, w.model[id], b) then
              exists b: nat :: MayCutIn(site, w, w.model[id], b) && In(v.sys, id, Lending(b))
                               && forall other: nat :: MayCutIn(site, w, w.model[id], other) ==> b <= other
            else v == w
  {
    hide FifoLock.Inv, Apply, MayBorrow, MayCutIn, Counted, LoansSound, Eligible;
    forall b: nat ensures MayBorrow(w.sys, eligible, b) <==> MayCutIn(site, w, w.model[id], b) {
      BorrowersCutIn(site, w, w.model[id], b);
    }
    LendDoes(w.sys, id, eligible, site.maxWaiting);
    if w.sys.lock.lent.None? && exists b: nat :: MayCutIn(site, w, w.model[id], b) {
      var b: nat :| MayCutIn(site, w, w.model[id], b);
      assert MayBorrow(w.sys, eligible, b);
    }
  }

  /** Only lend() makes a lender, and only release() ends a loan. */
  lemma LendersStay(s: System, step: Step, maxWaiting: nat)
    requires Enabled(s, step) && !step.LendOut?
    ensures var t := Apply(s, step, maxWaiting);
            && (t.lock.lent.Some? ==> t.lock.lent == s.lock.lent)
            && (forall h: nat :: h < |t.phase| && t.phase[h].Lending? ==> h < |s.phase| && s.phase[h] == t.phase[h])
  {
    match step
    case Arrive(_, _) =>
    case Poll(_, _) =>
    case Resume(_) =>
    case Leave(_) =>
  }

  lemma QueueingKeepsLoans(site: Site, w: World, step: Step)
    requires Inv(site, w) && Allowed(site, w, Queueing(step))
    ensures LoansSound(Happens(site, w, Queueing(step)))
  {
    if step.LendOut? {
      LendKeepsLoans(site, w, step.id, step.eligible);
    } else {
      hide FifoLock.Inv, Apply, Counted;
      LendersStay(w.sys, step, site.maxWaiting);
    }
  }

  /** A request that does not wait does not go back to wait, and does not own or borrow anew. */
  lemma ReadyStays(s: System, step: Step, id: nat, maxWaiting: nat)
    requires Enabled(s, step) && id < |s.phase| && !In(s, id, Waiting)
    ensures var t := Apply(s, step, maxWaiting);
            && !In(t, id, Waiting)
            && (Owns(t, id) || In(t, id, Borrowing) ==> Owns(s, id) || In(s, id, Borrowing))
  {
    match step
    case Arrive(_, _) =>
    case Poll(_, _) =>
    case LendOut(_, _) =>
    case Resume(_) =>
    case Leave(_) =>
  }

  lemma QueueingKeepsReady(site: Site, w: World, step: Step)
    requires Inv(site, w) && Allowed(site, w, Queueing(step))
    ensures var v := Happens(site, w, Queueing(step));
            && (forall id: nat :: id in v.ready ==> id < |v.model| && !In(v.sys, id, Waiting))
            && (forall id: nat :: id in v.ready && (Owns(v.sys, id) || In(v.sys, id, Borrowing)) ==> IsOn(v, id))
  {
    hide Apply, FifoLock.Inv, LoansSound, Counted;
    var v := Happens(site, w, Queueing(step));
    forall id: nat | id in v.ready
      ensures id < |v.model| && !In(v.sys, id, Waiting)
      ensures Owns(v.sys, id) || In(v.sys, id, Borrowing) ==> IsOn(v, id)
    {
      ReadyStays(w.sys, step, id, site.maxWaiting);
      assert Owns(w.sys, id) || In(w.sys, id, Borrowing) ==> IsOn(w, id);
    }
  }

  lemma EventKeepsInv(site: Site, w: World, e: Event)
    requires Inv(site, w) && Allowed(site, w, e)
    ensures Inv(site, Happens(site, w, e))
  {
    match e
    case Queueing(step) =>
      StepKeepsInv(w.sys, step, site.maxWaiting);
      QueueingKeepsTagged(site, w, step);
      QueueingKeepsLoans(site, w, step);
      QueueingKeepsReady(site, w, step);
    case Ensure(id, after, r) => EnsureKeepsInv(site, w, id, after, r);
    case Work(_) =>
  }

  lemma {:induction false} RunsKeepInv(site: Site, worlds: seq<World>, events: seq<Event>, k: nat)
    requires Runs(site, worlds, events) && k <= |events|
    ensures Inv(site, worlds[k])
  {
    if k == 0 {
      assert OwnerInv(START, None);
    } else {
      RunsKeepInv(site, worlds, events, k - 1);
      EventKeepsInv(site, worlds[k - 1], events[k - 1]);
    }
  }

  // ----- what it means for an answer -----

  /** Its model is resident and it holds the FPGA or has lent it. */
  predicate Answers(w: World, id: nat) {
    id in w.ready && Owns(w.sys, id)
  }

  /** In every run, the model of an answer that holds or has lent the FPGA is on. */
  lemma AnswersStayLoaded(site: Site, worlds: seq<World>, events: seq<Event>, k: nat, id: nat)
    requires Runs(site, worlds, events) && k <= |events| && Answers(worlds[k], id)
    ensures IsOn(worlds[k], id)
  {
    RunsKeepInv(site, worlds, events, k);
  }

  /** ... and no event of another request opens, closes or calls its engine. */
  lemma AnswersAreUndisturbed(site: Site, worlds: seq<World>, events: seq<Event>, k: nat, id: nat)
    requires Runs(site, worlds, events) && k < |events| && Answers(worlds[k], id)
    requires Actor(events[k]) != id
    ensures id < |worlds[k].model| && worlds[k].model[id] !in Touches(site, worlds[k], events[k])
  {
    RunsKeepInv(site, worlds, events, k);
    var w, e := worlds[k], events[k];
    var owner :| OwnerInv(w.sys, owner);
    assert Owns(w.sys, id);
    if !e.Queueing? {
      var b := Actor(e);
      assert Executes(w.sys, b);
      assert !In(w.sys, b, Holding) by {
        if In(w.sys, b, Holding) { assert Owns(w.sys, b); }
      }
      assert w.sys.lock.lent == Some(b);
      assert In(w.sys, id, Lending(b));
    }
  }

  /** With --resident one, at most one FPGA model is on at any time. */
  lemma OneModelAtATime(site: Site, worlds: seq<World>, events: seq<Event>, k: nat)
    requires Runs(site, worlds, events) && k <= |events| && site.policy == One
    ensures AtMostOne(OnFpga(site.backends, worlds[k].loaded)) && worlds[k].loaded.Keys == site.backends.Keys
  {
    RunsKeepInv(site, worlds, events, k);
  }

  /** At any time the loads less the unloads are the models that are on, so a
      server with n models has loaded at most n times more than it unloaded. */
  lemma LoadsAreAccounted(site: Site, worlds: seq<World>, events: seq<Event>, k: nat)
    requires Runs(site, worlds, events) && k <= |events|
    ensures worlds[k].nLoads - worlds[k].nUnloads == |On(worlds[k].loaded)|
    ensures worlds[k].nLoads <= worlds[k].nUnloads + |site.backends|
  {
    RunsKeepInv(site, worlds, events, k);
    Within(On(worlds[k].loaded), site.backends.Keys);
  }

  lemma Within<T>(a: set<T>, b: set<T>)
    requires a <= b
    ensures |a| <= |b|
  {
    assert b == a + (b - a);
  }

  /** The counters only grow, and a request that is not making a model resident
      leaves them alone. */
  lemma OnlyEnsureCounts(site: Site, worlds: seq<World>, events: seq<Event>, k: nat)
    requires Runs(site, worlds, events) && k < |events|
    ensures worlds[k + 1].nLoads <= worlds[k].nLoads + 1
    ensures worlds[k + 1].nLoads != worlds[k].nLoads || worlds[k + 1].nUnloads != worlds[k].nUnloads ==>
              events[k].Ensure? && Executes(worlds[k].sys, events[k].id) && !IsOn(worlds[k], events[k].id)
  {
    RunsKeepInv(site, worlds, events, k);
    if events[k].Ensure? {
      var before, after := worlds[k].loaded, events[k].after;
      var mid := worlds[k].model[events[k].id];
      assert On(after) - On(before) <= {mid};
      FewerThanOne(On(after) - On(before), mid);
      if before[mid] {
        assert On(after) - On(before) == {} && On(before) - On(after) == {};
      }
    }
  }
}
