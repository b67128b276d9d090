/** The FPGA queue: `FifoLock` as a step system (one step per stretch of code
    under the condition variable), and as the class whose methods are those
    stretches. */
module FifoLock {
  import opened Wrappers

  /** A waiting request: its arrival number, the model it asked for, and
      whether the lock was lent to it. */
  datatype Ticket = Ticket(id: nat, tag: Option<string>, lent: bool)

  datatype Lock = Lock(queue: seq<Ticket>, busy: bool, lent: Option<nat>)

  const FREE: Lock := Lock([], false, None)

  // ----- what each stretch of code does to the lock -----

  datatype Entered = Granted | Full | Queued

  /** The start of acquire(). */
  function Enter(l: Lock, id: nat, tag: Option<string>, maxWaiting: nat): (Lock, Entered) {
    if !l.busy && l.queue == [] then (l.(busy := true), Granted)
    else if |l.queue| >= maxWaiting then (l, Full)
    else (l.(queue := l.queue + [Ticket(id, tag, false)]), Queued)
  }

  /** Where the ticket stands in the queue (|q| when it is not there). */
  function IndexOf(q: seq<Ticket>, id: nat): (i: nat)
    ensures i <= |q|
    ensures i < |q| ==> q[i].id == id
    ensures forall k :: 0 <= k < i ==> q[k].id != id
  {
    if q == [] || q[0].id == id then 0 else 1 + IndexOf(q[1..], id)
  }

  function Remove(q: seq<Ticket>, id: nat): seq<Ticket> {
    var i := IndexOf(q, id);
    if i < |q| then q[..i] + q[i + 1..] else q
  }

  /** The waiting loop of acquire() lets the ticket through. */
  predicate Passes(l: Lock, id: nat) {
    var i := IndexOf(l.queue, id);
    i < |l.queue| && (l.queue[i].lent || (!l.busy && i == 0))
  }

  predicate IsLent(l: Lock, id: nat) {
    var i := IndexOf(l.queue, id);
    i < |l.queue| && l.queue[i].lent
  }

  /** What the clock and the client did while the ticket waited. */
  datatype Chance = TimeLeft | TimedOut | Cancelled

  datatype Woken = Got | GaveUp(why: Chance) | WaitsOn

  /** One turn of the waiting loop, with its `finally` when it leaves. */
  function Wake(l: Lock, id: nat, chance: Chance): (Lock, Woken) {
    if Passes(l, id) then
      (Lock(Remove(l.queue, id), l.busy || !IsLent(l, id), l.lent), Got)
    else if chance != TimeLeft then
      (l.(queue := Remove(l.queue, id)), GaveUp(chance))
    else (l, WaitsOn)
  }

  /** The first waiter that may borrow. */
  function FirstEligible(q: seq<Ticket>, eligible: set<string>): (i: nat)
    ensures i <= |q|
    ensures i < |q| ==> q[i].tag.Some? && q[i].tag.value in eligible
    ensures forall k :: 0 <= k < i ==> q[k].tag.None? || q[k].tag.value !in eligible
  {
    if q == [] || (q[0].tag.Some? && q[0].tag.value in eligible) then 0
    else 1 + FirstEligible(q[1..], eligible)
  }

  /** The start of lend(): to whom, if to anyone. */
  function Lend(l: Lock, eligible: set<string>): (Lock, Option<nat>) {
    var i := FirstEligible(l.queue, eligible);
    if l.lent.Some? || i == |l.queue| then (l, None)
    else (l.(queue := l.queue[i := l.queue[i].(lent := true)], lent := Some(l.queue[i].id)), Some(l.queue[i].id))
  }

  function Released(l: Lock): Lock {
    if l.lent.Some? then l.(lent := None) else l.(busy := false)
  }

  // ----- the requests around it -----

  /** Where a request stands.  Holding and Borrowing requests execute; a
      Lending one is suspended inside lend(). */
  datatype Phase = Waiting | Holding | Lending(to: nat) | Borrowing | Done

  /** Requests are numbered in the order in which they call acquire(). */
  datatype System = System(lock: Lock, phase: seq<Phase>)

  const START: System := System(FREE, [])

  datatype Step =
    | Arrive(tag: Option<string>, chance: Chance)
    | Poll(id: nat, chance: Chance)
    | LendOut(id: nat, eligible: set<string>)
    | Resume(id: nat)
    | Leave(id: nat)

  predicate In(s: System, id: nat, p: Phase) {
    id < |s.phase| && s.phase[id] == p
  }

  predicate Executes(s: System, id: nat) {
    In(s, id, Holding) || In(s, id, Borrowing)
  }

  predicate Enabled(s: System, step: Step) {
    match step
    case Arrive(_, _) => true
    case Poll(id, _) => In(s, id, Waiting)
    case LendOut(id, _) => Executes(s, id)
    case Resume(id) => id < |s.phase| && s.phase[id].Lending? && s.lock.lent != Some(s.phase[id].to)
    case Leave(id) => Executes(s, id)
  }

  function AfterWake(s: System, id: nat, chance: Chance): System
    requires id < |s.phase|
  {
    var (l, w) := Wake(s.lock, id, chance);
    match w
    case Got => System(l, s.phase[id := if IsLent(s.lock, id) then Borrowing else Holding])
    case GaveUp(_) => System(l, s.phase[id := Done])
    case WaitsOn => s
  }

  function Apply(s: System, step: Step, maxWaiting: nat): System
    requires Enabled(s, step)
  {
    match step
    case Arrive(tag, chance) =>
      var id := |s.phase|;
      var (l, e) := Enter(s.lock, id, tag, maxWaiting);
      (match e
       case Granted => System(l, s.phase + [Holding])
       case Full => System(l, s.phase + [Done])
       case Queued => AfterWake(System(l, s.phase + [Waiting]), id, chance))
    case Poll(id, chance) => AfterWake(s, id, chance)
    case LendOut(id, eligible) =>
      var (l, t) := Lend(s.lock, eligible);
      if t.None? then s else System(l, s.phase[id := Lending(t.value)])
    case Resume(id) => s.(phase := s.phase[id := Holding])
    case Leave(id) => System(Released(s.lock), s.phase[id := Done])
  }

  ghost predicate Runs(states: seq<System>, steps: seq<Step>, maxWaiting: nat) {
    && |states| == |steps| + 1 && states[0] == START
    && forall i :: 0 <= i < |steps| ==>
      Enabled(states[i], steps[i]) && states[i + 1] == Apply(states[i], steps[i], maxWaiting)
  }

  // ----- the invariant -----

  function Ids(q: seq<Ticket>): set<nat> {
    set t | t in q :: t.id
  }

  function LentIds(q: seq<Ticket>): set<nat> {
    set t | t in q && t.lent :: t.id
  }

  ghost predicate InOrder(q: seq<Ticket>) {
    forall i, j :: 0 <= i < j < |q| ==> q[i].id < q[j].id
  }

  /** The queue is in arrival order, its tickets are the waiting requests, and
      only the ticket the lock is lent to carries the mark. */
  ghost predicate QueueInv(s: System, maxWaiting: nat) {
    && |s.lock.queue| <= maxWaiting
    && InOrder(s.lock.queue)
    && (forall id: nat :: In(s, id, Waiting) <==> id in Ids(s.lock.queue))
    && (forall id: nat :: id in LentIds(s.lock.queue) ==> s.lock.lent == Some(id))
  }

  predicate Owns(s: System, id: nat) {
    id < |s.phase| && (s.phase[id].Holding? || s.phase[id].Lending?)
  }

  /** One owner, exactly while the lock is busy; a lent lock's owner is its
      lender, and the borrower runs or waits with a marked ticket. */
  ghost predicate OwnerInv(s: System, owner: Option<nat>) {
    && (s.lock.busy <==> owner.Some?)
    && (forall id: nat :: Owns(s, id) <==> owner == Some(id))
    && (forall id: nat :: In(s, id, Borrowing) ==> s.lock.lent == Some(id))
    && (s.lock.lent.Some? ==>
          && owner.Some? && In(s, owner.value, Lending(s.lock.lent.value))
          && (In(s, s.lock.lent.value, Borrowing) || s.lock.lent.value in LentIds(s.lock.queue)))
  }

  ghost predicate Inv(s: System, maxWaiting: nat) {
    QueueInv(s, maxWaiting) && exists owner :: OwnerInv(s, owner)
  }

  // ----- every step keeps it -----

  lemma IndexOfTicket(q: seq<Ticket>, id: nat)
    requires InOrder(q) && id in Ids(q)
    ensures IndexOf(q, id) < |q|
    ensures id in LentIds(q) <==> q[IndexOf(q, id)].lent
  {
  }

  lemma RemovedOrder(q: seq<Ticket>, i: nat)
    requires InOrder(q) && i < |q|
    ensures InOrder(q[..i] + q[i + 1..])
  {
    var r := q[..i] + q[i + 1..];
    assert forall k :: 0 <= k < |r| ==> r[k] == q[if k < i then k else k + 1];
  }

  lemma RemovedTickets(q: seq<Ticket>, i: nat)
    requires InOrder(q) && i < |q|
    ensures forall t :: t in q[..i] + q[i + 1..] <==> t in q && t.id != q[i].id
  {
    var r := q[..i] + q[i + 1..];
    assert q == q[..i] + [q[i]] + q[i + 1..];
    forall t | t in r
      ensures t in q && t.id != q[i].id
    {
      var k :| 0 <= k < |r| && r[k] == t;
      assert t == q[if k < i then k else k + 1];
    }
  }

  lemma RemovedQueue(q: seq<Ticket>, id: nat)
    requires InOrder(q) && id in Ids(q)
    ensures InOrder(Remove(q, id)) && |Remove(q, id)| == |q| - 1
    ensures Ids(Remove(q, id)) == Ids(q) - {id}
    ensures LentIds(Remove(q, id)) == LentIds(q) - {id}
  {
    IndexOfTicket(q, id);
    RemovedOrder(q, IndexOf(q, id));
    RemovedTickets(q, IndexOf(q, id));
    WithoutTicket(q, Remove(q, id), id);
  }

  lemma WithoutTicket(q: seq<Ticket>, r: seq<Ticket>, id: nat)
    requires forall t :: t in r <==> t in q && t.id != id
    ensures Ids(r) == Ids(q) - {id}
    ensures LentIds(r) == LentIds(q) - {id}
  {
  }

  lemma AppendedQueue(q: seq<Ticket>, t: Ticket)
    requires InOrder(q) && forall u :: u in q ==> u.id < t.id
    ensures InOrder(q + [t]) && Ids(q + [t]) == Ids(q) + {t.id}
    ensures LentIds(q + [t]) == LentIds(q) + if t.lent then {t.id} else {}
  {
    assert t in q + [t];
    assert forall u :: u in q + [t] <==> u in q || u == t;
  }

  lemma MarkedQueue(q: seq<Ticket>, i: nat)
    requires InOrder(q) && i < |q|
    ensures var r := q[i := q[i].(lent := true)];
            InOrder(r) && Ids(r) == Ids(q) && LentIds(r) == LentIds(q) + {q[i].id}
  {
    var r := q[i := q[i].(lent := true)];
    assert r[i] in r && q[i] in q;
    forall t | t in q && t != q[i]
      ensures t in r
    {
      var k :| 0 <= k < |q| && q[k] == t;
      assert r[k] == t;
    }
  }

  /** The phases other than that of `id` are those of s. */
  ghost predicate OnlyPhase(s: System, t: System, id: nat) {
    && id < |t.phase| && |s.phase| <= |t.phase|
    && (forall i: nat, p: Phase :: i != id ==> (In(t, i, p) <==> In(s, i, p)))
    && (forall i: nat :: i != id ==> (Owns(t, i) <==> Owns(s, i)))
  }

  lemma EnterKeepsInv(s: System, t: System, tag: Option<string>, maxWaiting: nat, owner: Option<nat>)
    requires QueueInv(s, maxWaiting) && OwnerInv(s, owner)
    requires var (l, e) := Enter(s.lock, |s.phase|, tag, maxWaiting);
             t == System(l, s.phase + [match e case Granted => Holding case Full => Done case Queued => Waiting])
    ensures QueueInv(t, maxWaiting)
    ensures OwnerInv(t, if !s.lock.busy && s.lock.queue == [] then Some(|s.phase|) else owner)
  {
    assert OnlyPhase(s, t, |s.phase|);
    if t.lock.queue != s.lock.queue {
      forall u | u in s.lock.queue
        ensures u.id < |s.phase|
      {
        assert In(s, u.id, Waiting) by { assert u.id in Ids(s.lock.queue); }
      }
      AppendedQueue(s.lock.queue, Ticket(|s.phase|, tag, false));
    }
  }

  lemma WakeKeepsQueue(s: System, id: nat, chance: Chance, maxWaiting: nat)
    requires QueueInv(s, maxWaiting) && In(s, id, Waiting)
    ensures QueueInv(AfterWake(s, id, chance), maxWaiting)
  {
    var t := AfterWake(s, id, chance);
    if t != s {
      RemovedQueue(s.lock.queue, id);
      assert OnlyPhase(s, t, id);
    }
  }

  /** id has left the queue of s for phase p; the other requests stay put. */
  ghost predicate LeftQueue(s: System, t: System, id: nat, p: Phase) {
    && In(s, id, Waiting) && OnlyPhase(s, t, id) && In(t, id, p)
    && t.lock.lent == s.lock.lent && LentIds(t.lock.queue) == LentIds(s.lock.queue) - {id}
  }

  lemma BorrowerEnters(s: System, t: System, id: nat, owner: Option<nat>)
    requires OwnerInv(s, owner) && LeftQueue(s, t, id, Borrowing)
    requires s.lock.lent == Some(id) && t.lock.busy == s.lock.busy
    ensures OwnerInv(t, owner)
  {
    assert !Owns(s, id) && !Owns(t, id);
  }

  lemma HolderEnters(s: System, t: System, id: nat, owner: Option<nat>)
    requires OwnerInv(s, owner) && LeftQueue(s, t, id, Holding)
    requires !s.lock.busy && t.lock.busy
    ensures OwnerInv(t, Some(id))
  {
    assert s.lock.lent.None?;
    assert forall i: nat :: !Owns(s, i);
  }

  lemma WaiterGivesUp(s: System, t: System, id: nat, owner: Option<nat>)
    requires OwnerInv(s, owner) && LeftQueue(s, t, id, Done)
    requires id !in LentIds(s.lock.queue) && t.lock.busy == s.lock.busy
    ensures OwnerInv(t, owner)
  {
    assert !Owns(s, id) && !Owns(t, id);
  }

  lemma WakeLeavesQueue(s: System, id: nat, chance: Chance, maxWaiting: nat)
    requires QueueInv(s, maxWaiting) && In(s, id, Waiting) && AfterWake(s, id, chance) != s
    ensures var t := AfterWake(s, id, chance);
            && LeftQueue(s, t, id, t.phase[id])
            && (if t.phase[id] == Holding then !s.lock.busy && t.lock.busy else t.lock.busy == s.lock.busy)
            && (t.phase[id] == Borrowing ==> s.lock.lent == Some(id))
            && (t.phase[id] == Done ==> id !in LentIds(s.lock.queue))
            && t.phase[id] in {Borrowing, Holding, Done}
            && (t.phase[id] == Holding <==> Passes(s.lock, id) && !IsLent(s.lock, id))
  {
    IndexOfTicket(s.lock.queue, id);
    RemovedQueue(s.lock.queue, id);
    assert OnlyPhase(s, AfterWake(s, id, chance), id);
  }

  lemma WakeKeepsInv(s: System, id: nat, chance: Chance, maxWaiting: nat, owner: Option<nat>)
    requires QueueInv(s, maxWaiting) && OwnerInv(s, owner) && In(s, id, Waiting)
    ensures QueueInv(AfterWake(s, id, chance), maxWaiting)
    ensures OwnerInv(AfterWake(s, id, chance),
                     if Passes(s.lock, id) && !IsLent(s.lock, id) then Some(id) else owner)
  {
    hide OwnerInv, QueueInv, LeftQueue, Remove, IsLent, LentIds;
    WakeKeepsQueue(s, id, chance, maxWaiting);
    var t := AfterWake(s, id, chance);
    if t != s {
      WakeLeavesQueue(s, id, chance, maxWaiting);
      if t.phase[id] == Borrowing {
        BorrowerEnters(s, t, id, owner);
      } else if t.phase[id] == Holding {
        HolderEnters(s, t, id, owner);
      } else {
        WaiterGivesUp(s, t, id, owner);
      }
    }
  }

  lemma LendKeepsInv(s: System, id: nat, eligible: set<string>, maxWaiting: nat, owner: Option<nat>)
    requires QueueInv(s, maxWaiting) && OwnerInv(s, owner) && Executes(s, id)
    ensures var t := Apply(s, LendOut(id, eligible), maxWaiting); QueueInv(t, maxWaiting) && OwnerInv(t, owner)
  {
    var t := Apply(s, LendOut(id, eligible), maxWaiting);
    if t != s {
      var q, i := s.lock.queue, FirstEligible(s.lock.queue, eligible);
      MarkedQueue(q, i);
      assert Owns(s, id);
      assert OnlyPhase(s, t, id);
    }
  }

  lemma LeaveKeepsInv(s: System, id: nat, maxWaiting: nat, owner: Option<nat>)
    requires QueueInv(s, maxWaiting) && OwnerInv(s, owner) && Executes(s, id)
    ensures var t := Apply(s, Leave(id), maxWaiting);
            QueueInv(t, maxWaiting) && OwnerInv(t, if s.lock.lent.Some? then owner else None)
  {
    var t := Apply(s, Leave(id), maxWaiting);
    assert OnlyPhase(s, t, id);
    assert LentIds(s.lock.queue) <= Ids(s.lock.queue);
    if s.lock.lent.Some? {
      assert Owns(s, owner.value);
      assert !In(s, id, Holding) by {
        if In(s, id, Holding) { assert Owns(s, id); }
      }
      assert In(s, id, Borrowing);
    } else {
      assert In(s, id, Holding) && Owns(s, id);
    }
  }

  lemma ResumeKeepsInv(s: System, id: nat, maxWaiting: nat, owner: Option<nat>)
    requires QueueInv(s, maxWaiting) && OwnerInv(s, owner) && Enabled(s, Resume(id))
    ensures QueueInv(Apply(s, Resume(id), maxWaiting), maxWaiting)
    ensures OwnerInv(Apply(s, Resume(id), maxWaiting), owner)
  {
    var t := Apply(s, Resume(id), maxWaiting);
    assert Owns(s, id);
    assert OnlyPhase(s, t, id);
  }

  lemma StepKeepsInv(s: System, step: Step, maxWaiting: nat)
    requires Inv(s, maxWaiting) && Enabled(s, step)
    ensures Inv(Apply(s, step, maxWaiting), maxWaiting)
  {
    var owner :| OwnerInv(s, owner);
    match step
    case Arrive(tag, chance) =>
      var (l, e) := Enter(s.lock, |s.phase|, tag, maxWaiting);
      var t := System(l, s.phase + [match e case Granted => Holding case Full => Done case Queued => Waiting]);
      EnterKeepsInv(s, t, tag, maxWaiting, owner);
      if e == Queued {
        WakeKeepsInv(t, |s.phase|, chance, maxWaiting, owner);
      }
    case Poll(id, chance) => WakeKeepsInv(s, id, chance, maxWaiting, owner);
    case LendOut(id, eligible) => LendKeepsInv(s, id, eligible, maxWaiting, owner);
    case Resume(id) => ResumeKeepsInv(s, id, maxWaiting, owner);
    case Leave(id) => LeaveKeepsInv(s, id, maxWaiting, owner);
  }

  /** The invariant holds in every state of every run. */
  lemma {:induction false} RunsKeepInv(states: seq<System>, steps: seq<Step>, maxWaiting: nat, k: nat)
    requires Runs(states, steps, maxWaiting) && k <= |steps|
    ensures Inv(states[k], maxWaiting)
  {
    if k == 0 {
      assert OwnerInv(START, None);
    } else {
      RunsKeepInv(states, steps, maxWaiting, k - 1);
      StepKeepsInv(states[k - 1], steps[k - 1], maxWaiting);
    }
  }

  // ----- what it means for the requests -----

  /** A mutex: at most one request executes, and the queue is bounded. */
  lemma OneExecutes(states: seq<System>, steps: seq<Step>, maxWaiting: nat, k: nat)
    requires Runs(states, steps, maxWaiting) && k <= |steps|
    ensures forall i: nat, j: nat :: Executes(states[k], i) && Executes(states[k], j) ==> i == j
    ensures |states[k].lock.queue| <= maxWaiting
  {
    RunsKeepInv(states, steps, maxWaiting, k);
    var s := states[k];
    var owner :| OwnerInv(s, owner);
    forall i: nat, j: nat | Executes(s, i) && Executes(s, j)
      ensures i == j
    {
      assert Owns(s, i) || In(s, i, Borrowing);
      assert Owns(s, j) || In(s, j, Borrowing);
      assert s.lock.lent.Some? ==> Owns(s, owner.value);
    }
  }

  predicate Lends(s: System, h: nat) {
    h < |s.phase| && s.phase[h].Lending?
  }

  /** The lender is out of lend() but has not run yet. */
  ghost predicate GivenBack(s: System, h: nat) {
    Lends(s, h) && s.lock.lent.None?
  }

  /** A request is suspended in lend() exactly while the lock is lent to the
      request it names or has been given back to it; at most one is; while one
      is, nobody runs as the holder, and nobody borrows but the request named. */
  lemma LentSuspendsTheHolder(states: seq<System>, steps: seq<Step>, maxWaiting: nat, k: nat)
    requires Runs(states, steps, maxWaiting) && k <= |steps|
    ensures var s := states[k];
            && (forall h: nat, b: nat :: In(s, h, Lending(b)) ==> s.lock.lent == Some(b) || GivenBack(s, h))
            && (s.lock.lent.Some? ==> exists h: nat :: In(s, h, Lending(s.lock.lent.value)))
            && (forall h: nat, i: nat :: Lends(s, h) && Lends(s, i) ==> h == i)
            && (forall h: nat, id: nat :: Lends(s, h) && Executes(s, id) ==> s.lock.lent == Some(id))
            && (forall id: nat :: In(s, id, Borrowing) ==> s.lock.lent == Some(id))
  {
    RunsKeepInv(states, steps, maxWaiting, k);
    var s := states[k];
    var owner :| OwnerInv(s, owner);
    assert forall h: nat :: Lends(s, h) ==> Owns(s, h);
    if s.lock.lent.Some? {
      assert In(s, owner.value, Lending(s.lock.lent.value));
    }
    forall h: nat, b: nat | In(s, h, Lending(b))
      ensures s.lock.lent == Some(b) || GivenBack(s, h)
    {
      assert Lends(s, h) && Owns(s, h);
    }
    forall h: nat, id: nat | Lends(s, h) && Executes(s, id)
      ensures s.lock.lent == Some(id)
    {
      assert In(s, id, Holding) ==> Owns(s, id);
    }
  }

  /** The borrower's release gives the lock back to the holder ... */
  lemma ReleaseGivesBack(s: System, id: nat, maxWaiting: nat) returns (h: nat)
    requires Inv(s, maxWaiting) && In(s, id, Borrowing)
    ensures s.phase != [] && In(s, h, Lending(id))
    ensures GivenBack(Apply(s, Leave(id), maxWaiting), h)
  {
    var owner :| OwnerInv(s, owner);
    h := owner.value;
    assert In(s, h, Lending(id));
  }

  /** ... and to no one else: until that holder resumes, nobody executes and no
      step but its own resumption ends the wait. */
  lemma OnlyTheHolderResumes(s: System, h: nat, step: Step, maxWaiting: nat)
    requires Inv(s, maxWaiting) && GivenBack(s, h) && Enabled(s, step)
    ensures forall id: nat :: !Executes(s, id)
    ensures Enabled(s, Resume(h))
    ensures var t := Apply(s, step, maxWaiting);
            if step == Resume(h) then In(t, h, Holding) else GivenBack(t, h)
  {
    var owner :| OwnerInv(s, owner);
    assert Owns(s, h);
    forall id: nat
      ensures !Executes(s, id)
    {
      assert In(s, id, Holding) ==> Owns(s, id);
    }
    if step.Resume? {
      assert Owns(s, step.id);
    }
    if step.Poll? {
      IndexOfTicket(s.lock.queue, step.id);
    }
    if step.Arrive? {
      var t := System(Enter(s.lock, |s.phase|, step.tag, maxWaiting).0, s.phase + [Waiting]);
      if Enter(s.lock, |s.phase|, step.tag, maxWaiting).1 == Queued {
        EnterKeepsInv(s, t, step.tag, maxWaiting, owner);
        IndexOfTicket(t.lock.queue, |s.phase|);
      }
    }
  }

  /** A request that had to queue is not let through by the same stretch of code. */
  lemma QueuedIsNotGranted(s: System, tag: Option<string>, chance: Chance, maxWaiting: nat)
    requires Inv(s, maxWaiting) && Enter(s.lock, |s.phase|, tag, maxWaiting).1 == Queued
    ensures !Executes(Apply(s, Arrive(tag, chance), maxWaiting), |s.phase|)
  {
    var owner :| OwnerInv(s, owner);
    var l := Enter(s.lock, |s.phase|, tag, maxWaiting).0;
    var t := System(l, s.phase + [Waiting]);
    EnterKeepsInv(s, t, tag, maxWaiting, owner);
    assert l.queue[|s.lock.queue|].id == |s.phase|;
    forall i | 0 <= i < |s.lock.queue|
      ensures l.queue[i].id != |s.phase|
    {
      assert s.lock.queue[i] in s.lock.queue && s.lock.queue[i].id in Ids(s.lock.queue);
      assert In(s, s.lock.queue[i].id, Waiting);
    }
    assert IndexOf(l.queue, |s.phase|) == |s.lock.queue|;
  }

  /** The fast path never overtakes a waiting ticket. */
  lemma FastPathDoesNotOvertake(s: System, tag: Option<string>, chance: Chance, maxWaiting: nat)
    requires Inv(s, maxWaiting)
    requires Executes(Apply(s, Arrive(tag, chance), maxWaiting), |s.phase|)
    ensures s.lock.queue == [] && forall id: nat :: !In(s, id, Waiting) && !Executes(s, id)
  {
    var owner :| OwnerInv(s, owner);
    assert forall id: nat :: In(s, id, Holding) ==> Owns(s, id);
    assert s.lock.queue == [] ==> Ids(s.lock.queue) == {};
    if Enter(s.lock, |s.phase|, tag, maxWaiting).1 == Queued {
      QueuedIsNotGranted(s, tag, chance, maxWaiting);
    }
  }

  /** A grant is lent, or goes to the oldest waiting ticket of a free lock. */
  lemma GrantsTheOldest(s: System, id: nat, chance: Chance, maxWaiting: nat)
    requires Inv(s, maxWaiting) && In(s, id, Waiting)
    requires Executes(Apply(s, Poll(id, chance), maxWaiting), id)
    ensures s.lock.lent == Some(id) || (!s.lock.busy && forall other: nat :: In(s, other, Waiting) ==> id <= other)
  {
    var q := s.lock.queue;
    IndexOfTicket(q, id);
    if !IsLent(s.lock, id) {
      assert Passes(s.lock, id) && q[0].id == id;
      forall other: nat | In(s, other, Waiting)
        ensures id <= other
      {
        assert other in Ids(q);
      }
    }
  }

  /** A lent ticket is granted at its next turn, whatever the clock and the client did. */
  lemma LentIsGranted(s: System, id: nat, chance: Chance, maxWaiting: nat)
    requires Inv(s, maxWaiting) && In(s, id, Waiting) && s.lock.lent == Some(id)
    ensures In(Apply(s, Poll(id, chance), maxWaiting), id, Borrowing)
  {
    var owner :| OwnerInv(s, owner);
    IndexOfTicket(s.lock.queue, id);
  }

  /** No deadlock: while a request waits or has lent the lock, some request
      executes, or one can be granted or resumed. */
  lemma SomeoneCanMove(s: System, maxWaiting: nat, id: nat)
    requires Inv(s, maxWaiting) && (In(s, id, Waiting) || (id < |s.phase| && s.phase[id].Lending?))
    ensures exists r: nat :: || Executes(s, r)
                             || Enabled(s, Resume(r))
                             || (In(s, r, Waiting) && Passes(s.lock, r))
  {
    var owner :| OwnerInv(s, owner);
    if owner.Some? {
      var h := owner.value;
      assert Owns(s, h);
      if s.lock.lent.Some? {
        var b := s.lock.lent.value;
        if !In(s, b, Borrowing) {
          assert LentIds(s.lock.queue) <= Ids(s.lock.queue);
          IndexOfTicket(s.lock.queue, b);
          assert In(s, b, Waiting) && Passes(s.lock, b);
        } else {
          assert Executes(s, b);
        }
      } else if s.phase[h].Holding? {
        assert Executes(s, h);
      } else {
        assert Enabled(s, Resume(h));
      }
    } else {
      assert !Owns(s, id);
      var r := s.lock.queue[0].id;
      assert s.lock.queue[0] in s.lock.queue && r in Ids(s.lock.queue);
      assert In(s, r, Waiting) && Passes(s.lock, r);
    }
  }

  // ----- what each step does, said by the requests -----

  /** The lock is lent to it, or is free and it is the oldest that waits. */
  ghost predicate Grantable(s: System, id: nat) {
    s.lock.lent == Some(id) || (!s.lock.busy && forall other: nat :: In(s, other, Waiting) ==> id <= other)
  }

  /** The other requests are where they were. */
  ghost predicate OthersStay(s: System, t: System, id: nat) {
    |s.phase| <= |t.phase| && forall i :: 0 <= i < |s.phase| && i != id ==> t.phase[i] == s.phase[i]
  }

  /** id's ticket is gone from the queue, the others keep their order. */
  ghost predicate LeavesTheQueue(s: System, t: System, id: nat) {
    exists i :: 0 <= i < |s.lock.queue| && s.lock.queue[i].id == id
                && t.lock.queue == s.lock.queue[..i] + s.lock.queue[i + 1..]
  }

  lemma PassesIfGrantable(s: System, id: nat, maxWaiting: nat)
    requires Inv(s, maxWaiting) && In(s, id, Waiting)
    ensures Passes(s.lock, id) <==> Grantable(s, id)
    ensures IsLent(s.lock, id) <==> s.lock.lent == Some(id)
  {
    var owner :| OwnerInv(s, owner);
    var q := s.lock.queue;
    IndexOfTicket(q, id);
    if IndexOf(q, id) == 0 {
      forall other: nat | In(s, other, Waiting)
        ensures id <= other
      {
        assert other in Ids(q);
      }
    } else {
      assert q[0] in q && q[0].id in Ids(q) && In(s, q[0].id, Waiting);
    }
  }

  /** A turn of a waiting request: granted exactly when it may be; else it gives up exactly when its
      time is over or its client went away, and waits on at its place when there is time left. */
  lemma PollDoes(s: System, id: nat, chance: Chance, maxWaiting: nat)
    requires Inv(s, maxWaiting) && In(s, id, Waiting)
    ensures var t := Apply(s, Poll(id, chance), maxWaiting);
            && OthersStay(s, t, id) && t.lock.lent == s.lock.lent
            && (Grantable(s, id) ==>
                  && In(t, id, if s.lock.lent == Some(id) then Borrowing else Holding)
                  && t.lock.busy && LeavesTheQueue(s, t, id))
            && (!Grantable(s, id) && chance != TimeLeft ==>
                  In(t, id, Done) && t.lock.busy == s.lock.busy && LeavesTheQueue(s, t, id))
            && (!Grantable(s, id) && chance == TimeLeft ==> t == s)
  {
    PassesIfGrantable(s, id, maxWaiting);
    IndexOfTicket(s.lock.queue, id);
    var owner :| OwnerInv(s, owner);
  }

  function WaitingOnes(s: System): set<nat> {
    set id: nat | id < |s.phase| && s.phase[id] == Waiting
  }

  lemma {:induction false} IdsAreAll(q: seq<Ticket>)
    requires InOrder(q)
    ensures |Ids(q)| == |q|
  {
    if q == [] {
      assert Ids(q) == {};
    } else {
      var n := |q| - 1;
      IdsAreAll(q[..n]);
      assert q == q[..n] + [q[n]];
      AppendedQueue(q[..n], q[n]);
      assert q[n].id !in Ids(q[..n]);
    }
  }

  lemma QueueIsWaiting(s: System, maxWaiting: nat)
    requires QueueInv(s, maxWaiting)
    ensures |WaitingOnes(s)| == |s.lock.queue|
  {
    IdsAreAll(s.lock.queue);
    assert forall id: nat :: id in WaitingOnes(s) <==> In(s, id, Waiting);
    assert WaitingOnes(s) == Ids(s.lock.queue);
  }

  /** An arrival: granted exactly when the lock is free and nobody waits, refused exactly when it is not and
      maxWaiting requests wait; else it queues behind the others, and stays there unless its time is over
      or its client went away. */
  lemma ArrivalDoes(s: System, tag: Option<string>, chance: Chance, maxWaiting: nat)
    requires Inv(s, maxWaiting)
    ensures var id, t := |s.phase|, Apply(s, Arrive(tag, chance), maxWaiting);
            var free := !s.lock.busy && WaitingOnes(s) == {};
            && OthersStay(s, t, id) && |t.phase| == id + 1
            && (free ==> In(t, id, Holding) && t.lock == s.lock.(busy := true))
            && (!free && |WaitingOnes(s)| >= maxWaiting ==> In(t, id, Done) && t.lock == s.lock)
            && (!free && |WaitingOnes(s)| < maxWaiting && chance == TimeLeft ==>
                  In(t, id, Waiting) && t.lock == s.lock.(queue := s.lock.queue + [Ticket(id, tag, false)]))
            && (!free && |WaitingOnes(s)| < maxWaiting && chance != TimeLeft ==> In(t, id, Done) && t.lock == s.lock)
  {
    QueueIsWaiting(s, maxWaiting);
    var owner :| OwnerInv(s, owner);
    var (l, e) := Enter(s.lock, |s.phase|, tag, maxWaiting);
    if e == Queued {
      QueuedDoes(s, System(l, s.phase + [Waiting]), tag, chance, maxWaiting, owner);
    }
  }

  lemma QueuedDoes(s: System, t: System, tag: Option<string>, chance: Chance, maxWaiting: nat, owner: Option<nat>)
    requires QueueInv(s, maxWaiting) && OwnerInv(s, owner)
    requires Enter(s.lock, |s.phase|, tag, maxWaiting) == (t.lock, Queued) && t.phase == s.phase + [Waiting]
    ensures var u, id := AfterWake(t, |s.phase|, chance), |s.phase|;
            && (chance == TimeLeft ==> u == t)
            && (chance != TimeLeft ==> u == System(s.lock, s.phase + [Done]))
  {
    var q, id := t.lock.queue, |s.phase|;
    forall i | 0 <= i < |s.lock.queue|
      ensures q[i].id != id
    {
      assert s.lock.queue[i] in s.lock.queue && s.lock.queue[i].id in Ids(s.lock.queue);
      assert In(s, s.lock.queue[i].id, Waiting);
    }
    assert q[|s.lock.queue|].id == id;
    assert IndexOf(q, id) == |s.lock.queue|;
    assert q[..|s.lock.queue|] + q[|q|..] == s.lock.queue;
  }

  /** A waiting request whose tag is eligible. */
  ghost predicate MayBorrow(s: System, eligible: set<string>, b: nat) {
    exists i :: 0 <= i < |s.lock.queue| && s.lock.queue[i].id == b
                && s.lock.queue[i].tag.Some? && s.lock.queue[i].tag.value in eligible
  }

  /** lend(): when the lock is not lent and someone may borrow, the oldest of those is lent to; else nothing happens. */
  lemma LendDoes(s: System, id: nat, eligible: set<string>, maxWaiting: nat)
    requires Inv(s, maxWaiting) && Executes(s, id)
    ensures var t := Apply(s, LendOut(id, eligible), maxWaiting);
            if s.lock.lent.None? && exists b: nat :: MayBorrow(s, eligible, b) then
              && OthersStay(s, t, id) && t.lock.busy == s.lock.busy
              && exists b: nat :: MayBorrow(s, eligible, b) && In(t, id, Lending(b)) && t.lock.lent == Some(b)
                                  && forall other: nat :: MayBorrow(s, eligible, other) ==> b <= other
            else t == s
  {
    var q := s.lock.queue;
    var i := FirstEligible(q, eligible);
    if i < |q| {
      assert MayBorrow(s, eligible, q[i].id);
      forall other: nat | MayBorrow(s, eligible, other)
        ensures q[i].id <= other
      {
        var j :| 0 <= j < |q| && q[j].id == other && q[j].tag.Some? && q[j].tag.value in eligible;
        assert i <= j;
      }
    }
  }

  /** release(): the borrower's ends the loan, the holder's frees the lock. */
  lemma LeaveDoes(s: System, id: nat, maxWaiting: nat)
    requires Inv(s, maxWaiting) && Executes(s, id)
    ensures var t := Apply(s, Leave(id), maxWaiting);
            && OthersStay(s, t, id) && In(t, id, Done) && t.lock.queue == s.lock.queue && t.lock.lent == None
            && (t.lock.busy <==> In(s, id, Borrowing))
  {
    var owner :| OwnerInv(s, owner);
    assert In(s, id, Holding) ==> Owns(s, id);
    if s.lock.lent.Some? {
      assert Owns(s, owner.value);
    }
  }

  // ----- the class: the same stretches of code, in place -----

  /** `_Ticket`, with the arrival number of its request. */
  class WaitingTicket {
    const id: nat
    const tag: Option<string>
    var lent: bool

    constructor (id: nat, tag: Option<string>)
      ensures this.id == id && this.tag == tag && !lent
    {
      this.id, this.tag, this.lent := id, tag, false;
    }
  }

  function Views(q: seq<WaitingTicket>): (r: seq<Ticket>)
    reads q
    ensures |r| == |q| && forall i :: 0 <= i < |q| ==> r[i] == Ticket(q[i].id, q[i].tag, q[i].lent)
  {
    seq(|q|, i requires 0 <= i < |q| reads q => Ticket(q[i].id, q[i].tag, q[i].lent))
  }

  /** `FifoLock`.  Its condition variable is the model's step; each method here
      is one stretch of code that runs under it. */
  class Mutex {
    const maxWaiting: nat
    var queue: seq<WaitingTicket>
    var busy: bool
    var lent: WaitingTicket?

    /** Tickets are told apart by their numbers. */
    ghost predicate Valid()
      reads this, queue
    {
      forall i, j :: 0 <= i < j < |queue| ==> queue[i].id != queue[j].id
    }

    ghost function View(): Lock
      reads this, queue
    {
      Lock(Views(queue), busy, if lent == null then None else Some(lent.id))
    }

    constructor (maxWaiting: nat)
      ensures Valid() && View() == FREE && this.maxWaiting == maxWaiting
    {
      this.maxWaiting, queue, busy, lent := maxWaiting, [], false, null;
    }

    /** acquire(), up to its waiting loop. */
    method Start(id: nat, tag: Option<string>) returns (t: WaitingTicket?, e: Entered)
      requires Valid() && forall i :: 0 <= i < |queue| ==> queue[i].id != id
      modifies this
      ensures Valid() && (View(), e) == Enter(old(View()), id, tag, maxWaiting)
      ensures lent == old(lent)
      ensures e == if !old(busy) && old(queue) == [] then Granted
                   else if |old(queue)| >= maxWaiting then Full
                   else Queued
      ensures e == Queued ==> t != null && fresh(t) && t.id == id && queue == old(queue) + [t]
      ensures e != Queued ==> queue == old(queue)
    {
      if !busy && queue == [] {
        busy := true;
        return null, Granted;
      }
      if |queue| >= maxWaiting {
        return null, Full;
      }
      t := new WaitingTicket(id, tag);
      queue := queue + [t];
      e := Queued;
      assert View().queue == old(View()).queue + [Ticket(id, tag, false)];
    }

    /** deque.remove(ticket). */
    method Drop(t: WaitingTicket)
      requires Valid() && t in queue
      modifies this`queue
      ensures Valid() && View() == old(View()).(queue := Remove(old(View()).queue, t.id))
    {
      hide Remove, IndexOf;
      var i := 0;
      while queue[i] != t
        invariant 0 <= i < |queue| && t in queue[i..]
        decreases |queue| - i
        invariant forall k :: 0 <= k < i ==> queue[k] != t
      {
        i := i + 1;
      }
      RemoveView(queue, i);
      queue := queue[..i] + queue[i + 1..];
      assert View().queue == old(View()).queue[..i] + old(View()).queue[i + 1..];
    }

    /** One turn of acquire()'s waiting loop, with the `finally` when it leaves. */
    method Turn(t: WaitingTicket, chance: Chance) returns (w: Woken)
      requires Valid() && t in queue
      modifies this
      ensures Valid() && (View(), w) == Wake(old(View()), t.id, chance)
      ensures lent == old(lent)
      ensures w == if old(t.lent || (!busy && queue[0] == t)) then Got
                   else if chance == TimeLeft then WaitsOn
                   else GaveUp(chance)
    {
      ghost var i :| 0 <= i < |queue| && queue[i] == t;
      IndexOfView(queue, i);
      assert Passes(View(), t.id) <==> t.lent || (!busy && queue[0] == t);
      assert IsLent(View(), t.id) <==> t.lent;
      w := Got;
      if !t.lent && (busy || queue[0] != t) {
        if chance == TimeLeft {
          return WaitsOn;
        }
        w := GaveUp(chance);
      } else if !t.lent {
        busy := true;
      }
      Drop(t);
    }

    /** lend(), up to its wait. */
    method StartLend(eligible: set<string>) returns (t: WaitingTicket?)
      requires Valid()
      modifies this`lent, queue
      ensures Valid() && queue == old(queue)
      ensures (View(), if t == null then None else Some(t.id)) == Lend(old(View()), eligible)
      ensures t != null ==> lent == t && t in queue && t.lent
    {
      t := null;
      if lent != null {
        return;
      }
      var i := 0;
      while i < |queue| && (queue[i].tag.None? || queue[i].tag.value !in eligible)
        invariant 0 <= i <= |queue|
        invariant forall k :: 0 <= k < i ==> queue[k].tag.None? || queue[k].tag.value !in eligible
      {
        i := i + 1;
      }
      FirstEligibleIs(Views(queue), eligible, i);
      if i < |queue| {
        t := queue[i];
        t.lent, lent := true, t;
        assert View().queue == old(View()).queue[i := old(View()).queue[i].(lent := true)];
      }
    }

    method Release()
      requires Valid()
      modifies this`lent, this`busy
      ensures Valid() && queue == old(queue) && View() == Released(old(View()))
    {
      if lent != null {
        lent := null;
      } else {
        busy := false;
      }
    }
  }

  lemma IndexOfView(q: seq<WaitingTicket>, i: nat)
    requires i < |q| && forall j, k :: 0 <= j < k < |q| ==> q[j].id != q[k].id
    ensures IndexOf(Views(q), q[i].id) == i
  {
    var v := Views(q);
    var j := IndexOf(v, q[i].id);
    assert v[i].id == q[i].id;
  }

  lemma RemoveView(q: seq<WaitingTicket>, i: nat)
    requires i < |q| && forall j, k :: 0 <= j < k < |q| ==> q[j].id != q[k].id
    ensures Remove(Views(q), q[i].id) == Views(q)[..i] + Views(q)[i + 1..]
  {
    IndexOfView(q, i);
  }

  lemma FirstEligibleIs(q: seq<Ticket>, eligible: set<string>, i: nat)
    requires i <= |q| && forall k :: 0 <= k < i ==> q[k].tag.None? || q[k].tag.value !in eligible
    requires i < |q| ==> q[i].tag.Some? && q[i].tag.value in eligible
    ensures FirstEligible(q, eligible) == i
  {
    var j := FirstEligible(q, eligible);
    assert j < |q| ==> q[j].tag.Some? && q[j].tag.value in eligible;
    assert i < |q| ==> q[i].tag.Some? && q[i].tag.value in eligible;
  }
}
