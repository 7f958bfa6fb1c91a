/** Threads handing requests to each other through the queue, under one mutex.
  *
  * A `Combined` thread accepts, enqueues and then dequeues; the variant with a separate producer
  * has one `Producer` and `Worker` threads that only dequeue.  A ticket stands for one accepted
  * connection.  One step is one action of one thread: an accept, a lock, the queue operation
  * under the lock, an unlock, or the end of a request. */
module ThreadHandoff {
  import opened Common
  import opened RequestQueue

  datatype Role = Combined | Producer | Worker

  datatype Phase =
    | Accepting
    | WantEnqueue(ticket: nat) | Enqueueing(ticket: nat) | Enqueued
    | WantDequeue | Dequeueing | Dequeued(result: Option<nat>)
    | Serving(ticket: nat)

  /** `enqueued` and `dispatched` are histories: tickets in the order of the queue operations. */
  datatype State = State(
    queue: seq<nat>, owner: Option<nat>, phases: seq<Phase>, accepted: nat,
    enqueued: seq<nat>, dispatched: seq<nat>)

  function Start(role: Role): Phase { if role == Worker then WantDequeue else Accepting }

  function Init(roles: seq<Role>): State {
    State([], None, seq(|roles|, i requires 0 <= i < |roles| => Start(roles[i])), 0, [], [])
  }

  /** A thread can act unless it waits for a mutex that is taken. */
  predicate Enabled(roles: seq<Role>, s: State, t: nat) {
    && |s.phases| == |roles| && t < |roles|
    && (s.phases[t].WantEnqueue? || s.phases[t].WantDequeue? ==> s.owner == None)
  }

  function Step(roles: seq<Role>, s: State, t: nat): State
    requires Enabled(roles, s, t)
  {
    match s.phases[t]
    case Accepting =>
      s.(phases := s.phases[t := WantEnqueue(s.accepted)], accepted := s.accepted + 1)
    case WantEnqueue(k) => s.(phases := s.phases[t := Enqueueing(k)], owner := Some(t))
    case Enqueueing(k) =>
      s.(phases := s.phases[t := Enqueued], queue := s.queue + [k], enqueued := s.enqueued + [k])
    case Enqueued =>
      s.(phases := s.phases[t := if roles[t] == Producer then Accepting else WantDequeue],
         owner := None)
    case WantDequeue => s.(phases := s.phases[t := Dequeueing], owner := Some(t))
    case Dequeueing =>
      if s.queue == [] then s.(phases := s.phases[t := Dequeued(None)])
      else s.(phases := s.phases[t := Dequeued(Some(s.queue[0]))], queue := s.queue[1..],
              dispatched := s.dispatched + [s.queue[0]])
    case Dequeued(result) =>
      var next := match result case Some(k) => Serving(k) case None => Start(roles[t]);
      s.(phases := s.phases[t := next], owner := None)
    case Serving(_) => s.(phases := s.phases[t := Start(roles[t])])
  }

  predicate Feasible(roles: seq<Role>, s: State, schedule: seq<nat>)
    decreases |schedule|
  {
    schedule == [] ||
    (Enabled(roles, s, schedule[0]) && Feasible(roles, Step(roles, s, schedule[0]), schedule[1..]))
  }

  function Exec(roles: seq<Role>, s: State, schedule: seq<nat>): State
    requires Feasible(roles, s, schedule)
    decreases |schedule|
  {
    if schedule == [] then s else Exec(roles, Step(roles, s, schedule[0]), schedule[1..])
  }

  ghost predicate Reachable(roles: seq<Role>, s: State) {
    exists schedule ::
      Feasible(roles, Init(roles), schedule) && Exec(roles, Init(roles), schedule) == s
  }

  // ---- The invariant ----

  predicate HoldsMutex(p: Phase) { p.Enqueueing? || p.Enqueued? || p.Dequeueing? || p.Dequeued? }

  predicate Exclusive(s: State) {
    && (forall t :: 0 <= t < |s.phases| ==> (HoldsMutex(s.phases[t]) <==> s.owner == Some(t)))
    && (s.owner.Some? ==> s.owner.value < |s.phases|)
  }

  /** The ticket a thread has accepted and not yet enqueued. */
  function Pending(p: Phase): Option<nat> {
    match p case WantEnqueue(k) => Some(k) case Enqueueing(k) => Some(k) case _ => None
  }

  /** The ticket a thread has dequeued and not yet finished. */
  function Taken(p: Phase): Option<nat> {
    match p case Dequeued(r) => r case Serving(k) => Some(k) case _ => None
  }

  predicate Distinct(xs: seq<nat>) { forall i, j :: 0 <= i < j < |xs| ==> xs[i] != xs[j] }

  predicate Tickets(s: State) {
    && s.enqueued == s.dispatched + s.queue && Distinct(s.enqueued)
    && (forall k :: k in s.enqueued ==> k < s.accepted)
  }

  predicate PendingApart(s: State) {
    && (forall t :: 0 <= t < |s.phases| && Pending(s.phases[t]).Some? ==>
         Pending(s.phases[t]).value < s.accepted && Pending(s.phases[t]).value !in s.enqueued)
    && (forall t, u :: 0 <= t < u < |s.phases| && Pending(s.phases[t]).Some? ==>
         Pending(s.phases[t]) != Pending(s.phases[u]))
  }

  predicate HeldBack(s: State, k: nat) {
    exists t :: 0 <= t < |s.phases| && Pending(s.phases[t]) == Some(k)
  }

  /** Every accepted ticket is enqueued or about to be. */
  predicate Kept(s: State) {
    forall k: nat :: k < s.accepted ==> k in s.enqueued || HeldBack(s, k)
  }

  predicate TakenApart(s: State) {
    && (forall t :: 0 <= t < |s.phases| && Taken(s.phases[t]).Some? ==>
         Taken(s.phases[t]).value in s.dispatched)
    && (forall t, u :: 0 <= t < u < |s.phases| && Taken(s.phases[t]).Some? ==>
         Taken(s.phases[t]) != Taken(s.phases[u]))
  }

  predicate Inv(roles: seq<Role>, s: State) {
    && |s.phases| == |roles| && Exclusive(s) && Tickets(s) && PendingApart(s) && TakenApart(s)
    && Kept(s)
  }

  lemma ExclusiveStep(roles: seq<Role>, s: State, t: nat)
    requires Enabled(roles, s, t) && Exclusive(s)
    ensures Exclusive(Step(roles, s, t))
  {
  }

  lemma TicketsStep(roles: seq<Role>, s: State, t: nat)
    requires Enabled(roles, s, t) && Tickets(s) && PendingApart(s)
    ensures Tickets(Step(roles, s, t))
  {
    match s.phases[t]
    case Enqueueing(k) =>
      assert Pending(s.phases[t]) == Some(k);
      assert s.dispatched + s.queue + [k] == s.dispatched + (s.queue + [k]);
    case Dequeueing =>
      if s.queue != [] {
        assert s.dispatched + s.queue == s.dispatched + [s.queue[0]] + s.queue[1..];
      }
    case _ =>
  }

  lemma PendingStep(roles: seq<Role>, s: State, t: nat)
    requires Enabled(roles, s, t) && PendingApart(s) && Tickets(s)
    ensures PendingApart(Step(roles, s, t))
  {
  }

  lemma TakenStep(roles: seq<Role>, s: State, t: nat)
    requires Enabled(roles, s, t) && TakenApart(s) && Tickets(s)
    ensures TakenApart(Step(roles, s, t))
  {
    if s.phases[t].Dequeueing? && s.queue != [] {
      assert s.enqueued[|s.dispatched|] == s.queue[0];
      forall k | k in s.dispatched ensures k != s.queue[0] {
        var i :| 0 <= i < |s.dispatched| && s.dispatched[i] == k;
        assert s.enqueued[i] == k;
      }
    }
  }

  lemma KeptStep(roles: seq<Role>, s: State, t: nat)
    requires Enabled(roles, s, t) && Kept(s)
    ensures Kept(Step(roles, s, t))
  {
    var s' := Step(roles, s, t);
    forall k: nat | k < s'.accepted ensures k in s'.enqueued || HeldBack(s', k) {
      if s.phases[t].Accepting? && k == s.accepted {
        assert Pending(s'.phases[t]) == Some(k);
      } else if k !in s.enqueued {
        var u :| 0 <= u < |s.phases| && Pending(s.phases[u]) == Some(k);
        assert k in s'.enqueued || Pending(s'.phases[u]) == Some(k);
      }
    }
  }

  lemma InitInv(roles: seq<Role>)
    ensures Inv(roles, Init(roles))
  {
  }

  lemma InvStep(roles: seq<Role>, s: State, t: nat)
    requires Enabled(roles, s, t) && Inv(roles, s)
    ensures Inv(roles, Step(roles, s, t))
  {
    ExclusiveStep(roles, s, t);
    TicketsStep(roles, s, t);
    PendingStep(roles, s, t);
    TakenStep(roles, s, t);
    KeptStep(roles, s, t);
  }

  lemma {:induction false} InvExec(roles: seq<Role>, s: State, schedule: seq<nat>)
    requires Inv(roles, s) && Feasible(roles, s, schedule)
    ensures Inv(roles, Exec(roles, s, schedule))
    decreases |schedule|
  {
    if schedule == [] {
    } else {
      InvStep(roles, s, schedule[0]);
      InvExec(roles, Step(roles, s, schedule[0]), schedule[1..]);
    }
  }

  lemma ReachableInv(roles: seq<Role>, s: State)
    requires Reachable(roles, s)
    ensures Inv(roles, s) && |s.phases| == |roles|
  {
    hide Step, Exec, Feasible;
    var schedule :|
      Feasible(roles, Init(roles), schedule) && Exec(roles, Init(roles), schedule) == s;
    InitInv(roles);
    InvExec(roles, Init(roles), schedule);
  }

  /** In every interleaving of any threads: one thread at most is inside the mutex; the dispatched
    * tickets are a prefix of the enqueued ones and the rest are queued; no ticket is enqueued or
    * dispatched twice; no two threads serve the same ticket; and every accepted ticket is either
    * enqueued or still with the one thread that is about to enqueue it. */
  lemma HandedOnce(roles: seq<Role>, s: State)
    requires Reachable(roles, s)
    ensures forall t, u :: 0 <= t < u < |s.phases| ==>
      !(HoldsMutex(s.phases[t]) && HoldsMutex(s.phases[u]))
    ensures s.enqueued == s.dispatched + s.queue && Distinct(s.enqueued)
    ensures forall t, u ::
      0 <= t < u < |s.phases| && s.phases[t].Serving? && s.phases[u].Serving? ==>
      s.phases[t].ticket != s.phases[u].ticket
    ensures forall k: nat :: k < s.accepted ==> (k in s.enqueued <==> !HeldBack(s, k))
    ensures forall t, u :: 0 <= t < u < |s.phases| && Pending(s.phases[t]).Some? ==>
      Pending(s.phases[t]) != Pending(s.phases[u])
  {
    ReachableInv(roles, s);
    forall t, u | 0 <= t < u < |s.phases| && s.phases[t].Serving? && s.phases[u].Serving?
      ensures s.phases[t].ticket != s.phases[u].ticket
    {
      assert Taken(s.phases[t]) != Taken(s.phases[u]);
    }
  }

  // ---- What each role does ----

  /** A producer only accepts and enqueues, a worker only dequeues and serves. */
  predicate InRole(r: Role, p: Phase) {
    match r
    case Combined => true
    case Producer => p.Accepting? || p.WantEnqueue? || p.Enqueueing? || p.Enqueued?
    case Worker => p.WantDequeue? || p.Dequeueing? || p.Dequeued? || p.Serving?
  }

  predicate InRoles(roles: seq<Role>, s: State) {
    |s.phases| == |roles| && forall t :: 0 <= t < |roles| ==> InRole(roles[t], s.phases[t])
  }

  lemma {:induction false} RolesExec(roles: seq<Role>, s: State, schedule: seq<nat>)
    requires InRoles(roles, s) && Feasible(roles, s, schedule)
    ensures InRoles(roles, Exec(roles, s, schedule))
    decreases |schedule|
  {
    if schedule == [] {
    } else {
      RolesExec(roles, Step(roles, s, schedule[0]), schedule[1..]);
    }
  }

  /** In every interleaving each thread stays in its role. */
  lemma ReachableRoles(roles: seq<Role>, s: State)
    requires Reachable(roles, s)
    ensures InRoles(roles, s)
  {
    var schedule :|
      Feasible(roles, Init(roles), schedule) && Exec(roles, Init(roles), schedule) == s;
    RolesExec(roles, Init(roles), schedule);
  }

  // ---- What is dequeued is served ----

  /** The tickets whose service begins in a run, read off the threads, in order. */
  function Begun(before: Phase, after: Phase): seq<nat> {
    if after.Serving? && !before.Serving? then [after.ticket] else []
  }

  function Services(roles: seq<Role>, s: State, schedule: seq<nat>): seq<nat>
    requires Feasible(roles, s, schedule)
    decreases |schedule|
  {
    if schedule == [] then []
    else
      var t, s' := schedule[0], Step(roles, s, schedule[0]);
      Begun(s.phases[t], s'.phases[t]) + Services(roles, s', schedule[1..])
  }

  /** The ticket that the owner of the mutex has taken off the queue, if any. */
  function Held(s: State): seq<nat> {
    if s.owner.Some? && s.owner.value < |s.phases| then
      match s.phases[s.owner.value] case Dequeued(Some(k)) => [k] case _ => []
    else []
  }

  lemma ServicesStep(roles: seq<Role>, s: State, t: nat, served: seq<nat>)
    requires Enabled(roles, s, t) && Exclusive(s) && s.dispatched == served + Held(s)
    ensures var s' := Step(roles, s, t);
      s'.dispatched == served + Begun(s.phases[t], s'.phases[t]) + Held(s')
  {
    assert s.owner == Some(t) <==> HoldsMutex(s.phases[t]);
    if s.owner.Some? && s.owner.value != t {
      assert Held(Step(roles, s, t)) == Held(s);
      assert served + [] == served;
    } else {
      assert served + [] == served;
    }
  }

  lemma {:induction false} ServicesExec(roles: seq<Role>, s: State, schedule: seq<nat>,
                                        served: seq<nat>)
    requires Feasible(roles, s, schedule) && Exclusive(s) && s.dispatched == served + Held(s)
    ensures var s' := Exec(roles, s, schedule);
      s'.dispatched == served + Services(roles, s, schedule) + Held(s')
    decreases |schedule|
  {
    if schedule == [] {
      assert served + [] == served;
    } else {
      var t, s', rest := schedule[0], Step(roles, s, schedule[0]), schedule[1..];
      ServicesStep(roles, s, t, served);
      ExclusiveStep(roles, s, t);
      var begun := Begun(s.phases[t], s'.phases[t]);
      ServicesExec(roles, s', rest, served + begun);
      hide Step, Exec, Begun, Held;
      Shift(served, begun, Services(roles, s', rest));
    }
  }

  /** In every run of any threads, what is dispatched is served: the services that have begun are the
    * dispatched tickets in the order they were enqueued, each exactly once, except for the one that
    * the owner of the mutex has just taken. */
  lemma ServedInOrder(roles: seq<Role>, schedule: seq<nat>)
    requires Feasible(roles, Init(roles), schedule)
    ensures var s, served := Exec(roles, Init(roles), schedule), Services(roles, Init(roles), schedule);
      && s.dispatched == served + Held(s) && s.enqueued == served + Held(s) + s.queue
      && Distinct(served) && (s.owner == None ==> s.dispatched == served)
    ensures var s := Exec(roles, Init(roles), schedule);
      forall k :: k in s.dispatched && k !in Services(roles, Init(roles), schedule) ==>
        exists t :: 0 <= t < |s.phases| && s.phases[t] == Dequeued(Some(k))
  {
    hide Step, Exec, Feasible, Services, Init;
    var s, served := Exec(roles, Init(roles), schedule), Services(roles, Init(roles), schedule);
    InitInv(roles);
    InvExec(roles, Init(roles), schedule);
    assert Init(roles).dispatched == [] + Held(Init(roles)) by { StartEmpty(roles); }
    ServicesExec(roles, Init(roles), schedule, []);
    assert [] + served == served;
    DistinctPrefix(served, Held(s) + s.queue);
    Shift(served, Held(s), s.queue);
    if s.owner == None {
      assert served + [] == served;
    }
  }

  lemma StartEmpty(roles: seq<Role>)
    ensures Init(roles).dispatched == [] && Held(Init(roles)) == []
  {
  }

  lemma DistinctPrefix(a: seq<nat>, b: seq<nat>)
    ensures Distinct(a + b) ==> Distinct(a)
  {
    assert forall i :: 0 <= i < |a| ==> (a + b)[i] == a[i];
  }

  // ---- Threads that enqueue before they dequeue ----

  predicate AllCombined(roles: seq<Role>) { forall r :: r in roles ==> r == Combined }

  predicate Between(p: Phase) { p.Enqueued? || p.WantDequeue? || p.Dequeueing? }

  ghost function BetweenSet(s: State): set<nat> {
    set t: nat | t < |s.phases| && Between(s.phases[t])
  }

  ghost predicate Counted(s: State) {
    |s.queue| == |BetweenSet(s)|
    && forall t :: 0 <= t < |s.phases| ==> s.phases[t] != Dequeued(None)
  }

  lemma CountedStep(roles: seq<Role>, s: State, t: nat)
    requires Enabled(roles, s, t) && AllCombined(roles) && Counted(s)
    ensures Counted(Step(roles, s, t))
  {
    var s' := Step(roles, s, t);
    assert roles[t] in roles;
    match s.phases[t]
    case Enqueueing(_) => assert BetweenSet(s') == BetweenSet(s) + {t};
    case Dequeueing =>
      assert t in BetweenSet(s);
      assert BetweenSet(s') == BetweenSet(s) - {t};
    case _ => assert BetweenSet(s') == BetweenSet(s);
  }

  lemma {:induction false} CountedExec(roles: seq<Role>, s: State, schedule: seq<nat>)
    requires AllCombined(roles) && Counted(s) && Feasible(roles, s, schedule)
    ensures Counted(Exec(roles, s, schedule))
    decreases |schedule|
  {
    if schedule == [] {
    } else {
      CountedStep(roles, s, schedule[0]);
      CountedExec(roles, Step(roles, s, schedule[0]), schedule[1..]);
    }
  }

  lemma ReachableCounted(roles: seq<Role>, s: State)
    requires Reachable(roles, s) && AllCombined(roles)
    ensures Counted(s)
  {
    var schedule :|
      Feasible(roles, Init(roles), schedule) && Exec(roles, Init(roles), schedule) == s;
    assert forall r :: r in roles ==> Start(r) == Accepting;
    assert BetweenSet(Init(roles)) == {};
    CountedExec(roles, Init(roles), schedule);
  }

  /** The queue holds one request for every thread between its enqueue and its dequeue, so a
    * dequeue never finds it empty. */
  lemma NeverEmptyHanded(roles: seq<Role>, s: State, t: nat)
    requires Reachable(roles, s) && AllCombined(roles) && t < |s.phases|
    ensures |s.queue| == |BetweenSet(s)|
    ensures s.phases[t].Dequeueing? ==> s.queue != []
    ensures s.phases[t] != Dequeued(None)
  {
    ReachableCounted(roles, s);
    if s.phases[t].Dequeueing? {
      assert t in BetweenSet(s);
    }
  }

  // ---- Draining ----

  /** Actions a thread has to take at most until it waits for a connection or a request again. */
  function Left(r: Role, p: Phase): nat {
    if p == Start(r) then 0
    else
      match p
      case Accepting => 0
      case WantEnqueue(_) => 7
      case Enqueueing(_) => 6
      case Enqueued => 5
      case WantDequeue => 4
      case Dequeueing => 3
      case Dequeued(_) => 2
      case Serving(_) => 1
  }

  function Remaining(roles: seq<Role>, phases: seq<Phase>): nat
    requires |roles| == |phases|
  {
    if phases == [] then 0 else Left(roles[0], phases[0]) + Remaining(roles[1..], phases[1..])
  }

  lemma {:induction false} RemainingUpdate(roles: seq<Role>, phases: seq<Phase>, t: nat, p: Phase)
    requires t < |phases| == |roles|
    ensures Remaining(roles, phases[t := p])
         == Remaining(roles, phases) - Left(roles[t], phases[t]) + Left(roles[t], p)
  {
    if t == 0 {
      assert phases[0 := p][1..] == phases[1..];
    } else {
      RemainingUpdate(roles[1..], phases[1..], t - 1, p);
      assert phases[t := p][1..] == phases[1..][t - 1 := p];
    }
  }

  predicate AtRest(roles: seq<Role>, s: State) {
    |s.phases| == |roles| && forall t :: 0 <= t < |roles| ==> s.phases[t] == Start(roles[t])
  }

  lemma {:induction false} RemainingNone(roles: seq<Role>, phases: seq<Phase>)
    requires |roles| == |phases|
    requires forall t :: 0 <= t < |roles| ==> InRole(roles[t], phases[t])
    ensures Remaining(roles, phases) == 0
       <==> forall t :: 0 <= t < |phases| ==> phases[t] == Start(roles[t])
  {
    if phases == [] {
    } else {
      RemainingNone(roles[1..], phases[1..]);
      assert InRole(roles[0], phases[0]);
      assert Left(roles[0], phases[0]) == 0 <==> phases[0] == Start(roles[0]);
      assert forall t :: 0 < t < |phases| ==>
        phases[t] == phases[1..][t - 1] && roles[t] == roles[1..][t - 1];
      assert forall t :: 0 <= t < |phases| - 1 ==>
        phases[1..][t] == phases[t + 1] && roles[1..][t] == roles[t + 1];
    }
  }

  /** No thread accepts a connection on the way. */
  predicate Quiet(roles: seq<Role>, s: State, schedule: seq<nat>)
    requires Feasible(roles, s, schedule)
    decreases |schedule|
  {
    schedule == [] ||
    (!s.phases[schedule[0]].Accepting? && Quiet(roles, Step(roles, s, schedule[0]), schedule[1..]))
  }

  /** Nothing can happen but an accept. */
  predicate Idle(roles: seq<Role>, s: State) {
    forall t: nat | t < |s.phases| && Enabled(roles, s, t) :: s.phases[t].Accepting?
  }

  lemma RemainingStep(roles: seq<Role>, s: State, t: nat)
    requires Enabled(roles, s, t) && AllCombined(roles) && Counted(s) && !s.phases[t].Accepting?
    ensures Remaining(roles, Step(roles, s, t).phases) == Remaining(roles, s.phases) - 1
    ensures Step(roles, s, t).accepted == s.accepted
  {
    assert roles[t] in roles;
    if s.phases[t].Dequeueing? {
      assert t in BetweenSet(s);
    }
    RemainingUpdate(roles, s.phases, t, Step(roles, s, t).phases[t]);
  }

  lemma {:induction false} QuietExec(roles: seq<Role>, s: State, schedule: seq<nat>)
    requires |s.phases| == |roles| && AllCombined(roles) && Counted(s)
    requires Feasible(roles, s, schedule) && Quiet(roles, s, schedule)
    ensures |Exec(roles, s, schedule).phases| == |roles|
    ensures Remaining(roles, Exec(roles, s, schedule).phases)
         == Remaining(roles, s.phases) - |schedule|
    ensures Exec(roles, s, schedule).accepted == s.accepted
    decreases |schedule|
  {
    if schedule == [] {
    } else {
      RemainingStep(roles, s, schedule[0]);
      CountedStep(roles, s, schedule[0]);
      QuietExec(roles, Step(roles, s, schedule[0]), schedule[1..]);
    }
  }

  lemma CombinedRoles(roles: seq<Role>, s: State)
    requires AllCombined(roles) && |s.phases| == |roles|
    ensures InRoles(roles, s)
    ensures AtRest(roles, s) <==> forall u :: 0 <= u < |roles| ==> s.phases[u].Accepting?
  {
    assert forall t :: 0 <= t < |roles| ==> roles[t] in roles;
  }

  /** The mutex owner can always act, so nothing is left to do only when all threads accept. */
  lemma IdleIff(roles: seq<Role>, s: State)
    requires Inv(roles, s) && AllCombined(roles)
    ensures Idle(roles, s) <==> Remaining(roles, s.phases) == 0
  {
    CombinedRoles(roles, s);
    RemainingNone(roles, s.phases);
    if s.owner.Some? {
      var u := s.owner.value;
      assert Enabled(roles, s, u) && HoldsMutex(s.phases[u]);
    }
  }

  lemma RestValues(roles: seq<Role>, s: State)
    requires Inv(roles, s) && AtRest(roles, s)
    ensures s.owner == None && forall k: nat :: k < s.accepted ==> k in s.enqueued
    ensures s.queue == [] ==> s.enqueued == s.dispatched
  {
    assert s.dispatched + [] == s.dispatched;
    assert forall k: nat :: k < s.accepted ==> !HeldBack(s, k);
  }

  lemma IdleValues(roles: seq<Role>, s: State)
    requires Inv(roles, s) && AllCombined(roles) && Counted(s) && Remaining(roles, s.phases) == 0
    ensures s.queue == [] && s.owner == None && s.enqueued == s.dispatched
    ensures forall u :: 0 <= u < |s.phases| ==> s.phases[u].Accepting?
    ensures forall k: nat :: k < s.accepted ==> k in s.dispatched
  {
    CombinedRoles(roles, s);
    RemainingNone(roles, s.phases);
    assert BetweenSet(s) == {};
    RestValues(roles, s);
  }

  /** When all threads enqueue before they dequeue: from any reachable state every schedule without
    * new connections is finite, all that cannot go on have the same length, and at their end every
    * connection ever accepted has been dispatched, and all threads wait for the next one. */
  lemma AllServed(roles: seq<Role>, s: State, schedule: seq<nat>)
    requires Reachable(roles, s) && AllCombined(roles)
    requires Feasible(roles, s, schedule) && Quiet(roles, s, schedule)
    ensures |s.phases| == |roles| && |schedule| <= Remaining(roles, s.phases)
    ensures var t := Exec(roles, s, schedule);
      && (Idle(roles, t) <==> |schedule| == Remaining(roles, s.phases))
      && (Idle(roles, t) ==>
           && t.queue == [] && t.owner == None && t.enqueued == t.dispatched
           && (forall u :: 0 <= u < |t.phases| ==> t.phases[u].Accepting?)
           && t.accepted == s.accepted && forall k: nat :: k < s.accepted ==> k in t.dispatched)
  {
    hide Step, Exec, Feasible, Quiet, Idle, Inv, Counted, Remaining;
    ReachableInv(roles, s);
    ReachableCounted(roles, s);
    InvExec(roles, s, schedule);
    CountedExec(roles, s, schedule);
    QuietExec(roles, s, schedule);
    var t := Exec(roles, s, schedule);
    IdleIff(roles, t);
    if Idle(roles, t) {
      IdleValues(roles, t);
    }
  }

  // ---- Draining with workers ----

  lemma ReturnStep(roles: seq<Role>, s: State, t: nat)
    requires Enabled(roles, s, t) && InRoles(roles, s) && s.phases[t] != Start(roles[t])
    ensures var s' := Step(roles, s, t);
      && InRoles(roles, s') && Remaining(roles, s'.phases) < Remaining(roles, s.phases)
      && !s.phases[t].Accepting? && s'.accepted == s.accepted
  {
    assert InRole(roles[t], s.phases[t]);
    RemainingUpdate(roles, s.phases, t, Step(roles, s, t).phases[t]);
  }

  lemma SomeReturns(roles: seq<Role>, s: State) returns (t: nat)
    requires Inv(roles, s) && InRoles(roles, s) && !AtRest(roles, s)
    ensures Enabled(roles, s, t) && s.phases[t] != Start(roles[t])
  {
    if s.owner.Some? {
      t := s.owner.value;
      assert HoldsMutex(s.phases[t]);
    } else {
      t :| t < |roles| && s.phases[t] != Start(roles[t]);
    }
  }

  /** A run without new connections from `s` to `s'`. */
  ghost predicate Leads(roles: seq<Role>, s: State, schedule: seq<nat>, s': State) {
    && Feasible(roles, s, schedule) && Quiet(roles, s, schedule)
    && Exec(roles, s, schedule) == s' && s'.accepted == s.accepted
  }

  lemma LeadsCons(roles: seq<Role>, s: State, t: nat, schedule: seq<nat>, s': State)
    requires Enabled(roles, s, t) && !s.phases[t].Accepting?
    requires Leads(roles, Step(roles, s, t), schedule, s')
    ensures Step(roles, s, t).accepted == s.accepted ==> Leads(roles, s, [t] + schedule, s')
  {
    assert ([t] + schedule)[1..] == schedule;
  }

  lemma {:induction false} ToRest(roles: seq<Role>, s: State)
    returns (schedule: seq<nat>, s': State)
    requires Inv(roles, s) && InRoles(roles, s)
    ensures Leads(roles, s, schedule, s') && Inv(roles, s') && InRoles(roles, s') && AtRest(roles, s')
    decreases Remaining(roles, s.phases)
  {
    hide Step, Inv, InRoles;
    if AtRest(roles, s) {
      schedule, s' := [], s;
    } else {
      var t := SomeReturns(roles, s);
      ReturnStep(roles, s, t);
      InvStep(roles, s, t);
      var rest;
      rest, s' := ToRest(roles, Step(roles, s, t));
      LeadsCons(roles, s, t, rest, s');
      schedule := [t] + rest;
    }
  }

  /** A worker serves the request at the front of the queue and waits again. */
  lemma ServeOne(roles: seq<Role>, s: State, w: nat, schedule: seq<nat>, s': State)
    requires w < |roles| && roles[w] == Worker && AtRest(roles, s) && s.owner == None && s.queue != []
    requires Leads(roles, s.(queue := s.queue[1..], dispatched := s.dispatched + [s.queue[0]]),
                   schedule, s')
    ensures Leads(roles, s, [w] + ([w] + ([w] + ([w] + schedule))), s')
  {
    hide Leads;
    var s1 := Step(roles, s, w);
    var s2 := Step(roles, s1, w);
    var s3 := Step(roles, s2, w);
    var s4 := Step(roles, s3, w);
    assert s4.phases == s.phases;
    LeadsCons(roles, s3, w, schedule, s');
    LeadsCons(roles, s2, w, [w] + schedule, s');
    LeadsCons(roles, s1, w, [w] + ([w] + schedule), s');
    LeadsCons(roles, s, w, [w] + ([w] + ([w] + schedule)), s');
  }

  lemma {:induction false} EmptyQueue(roles: seq<Role>, s: State, w: nat)
    returns (schedule: seq<nat>, s': State)
    requires w < |roles| && roles[w] == Worker && AtRest(roles, s) && s.owner == None
    ensures Leads(roles, s, schedule, s') && AtRest(roles, s') && s'.owner == None && s'.queue == []
    decreases |s.queue|
  {
    if s.queue == [] {
      schedule, s' := [], s;
    } else {
      hide Leads;
      var next := s.(queue := s.queue[1..], dispatched := s.dispatched + [s.queue[0]]);
      var rest;
      rest, s' := EmptyQueue(roles, next, w);
      ServeOne(roles, s, w, rest, s');
      schedule := [w] + ([w] + ([w] + ([w] + rest)));
    }
  }

  lemma {:induction false} LeadsOn(roles: seq<Role>, s: State, a: seq<nat>, s': State, b: seq<nat>,
                                   s'': State)
    requires Leads(roles, s, a, s') && Leads(roles, s', b, s'')
    ensures Leads(roles, s, a + b, s'')
    decreases |a|
  {
    if a == [] {
      assert a + b == b;
    } else {
      var next := Step(roles, s, a[0]);
      assert next.accepted == s.accepted;
      LeadsOn(roles, next, a[1..], s', b, s'');
      LeadsCons(roles, s, a[0], a[1..] + b, s'');
      assert a + b == [a[0]] + (a[1..] + b);
    }
  }

  /** With a worker among the threads, whatever the others are and wherever they all stand, a run
    * without new connections leads to where every accepted connection has been dispatched, and
    * so served, and all threads wait again. */
  lemma WorkerServesAll(roles: seq<Role>, s: State, w: nat) returns (schedule: seq<nat>, s': State)
    requires Reachable(roles, s) && w < |roles| && roles[w] == Worker
    ensures Feasible(roles, s, schedule) && Quiet(roles, s, schedule)
    ensures Exec(roles, s, schedule) == s' && AtRest(roles, s') && s'.owner == None
    ensures s'.queue == [] && s'.enqueued == s'.dispatched && s'.accepted == s.accepted
    ensures forall k: nat :: k < s.accepted ==> k in s'.dispatched
  {
    hide Step, Exec, Feasible, Quiet, Inv, InRoles, AtRest;
    ReachableInv(roles, s);
    ReachableRoles(roles, s);
    var a, middle := ToRest(roles, s);
    RestValues(roles, middle);
    var b;
    b, s' := EmptyQueue(roles, middle, w);
    LeadsOn(roles, s, a, middle, b, s');
    schedule := a + b;
    InvExec(roles, s, schedule);
    RestValues(roles, s');
  }

  /** Some thread can always act: the mutex is never left behind. */
  lemma NeverStuck(roles: seq<Role>, s: State)
    requires Reachable(roles, s) && roles != []
    ensures exists t: nat :: Enabled(roles, s, t)
  {
    hide Step, Exec, Feasible, Tickets, PendingApart, TakenApart, Kept;
    ReachableInv(roles, s);
    assert Enabled(roles, s, if s.owner.Some? then s.owner.value else 0);
  }

  // ---- The loop bodies, over the linked queue ----

  class Server {
    const roles: seq<Role>
    const queue: Queue<nat>
    var owner: Option<nat>
    var phases: seq<Phase>
    var accepted: nat
    ghost var enqueued: seq<nat>
    ghost var dispatched: seq<nat>

    ghost function Snapshot(): State
      reads this, queue, queue.spine
    {
      State(queue.Contents(), owner, phases, accepted, enqueued, dispatched)
    }

    constructor (roles: seq<Role>)
      ensures this.roles == roles && fresh(queue) && queue.Valid() && queue.spine == []
      ensures Snapshot() == Init(roles)
    {
      this.roles := roles;
      queue := new Queue<nat>();
      owner, accepted, enqueued, dispatched := None, 0, [], [];
      phases := seq(|roles|, i requires 0 <= i < |roles| => Start(roles[i]));
    }

    method EnqueueLocked(t: nat, k: nat)
      requires queue.Valid() && Enabled(roles, Snapshot(), t) && phases[t] == Enqueueing(k)
      modifies this, queue, queue.spine
      ensures queue.Valid() && Snapshot() == Step(roles, old(Snapshot()), t)
      ensures fresh(set n | n in queue.spine && n !in old(queue.spine))
    {
      queue.Enqueue(k);
      enqueued := enqueued + [k];
      phases := phases[t := Enqueued];
    }

    method DequeueLocked(t: nat)
      requires queue.Valid() && Enabled(roles, Snapshot(), t) && phases[t] == Dequeueing
      modifies this, queue
      ensures queue.Valid() && Snapshot() == Step(roles, old(Snapshot()), t)
      ensures forall n :: n in queue.spine ==> n in old(queue.spine)
    {
      var result := queue.Dequeue();
      dispatched := dispatched + match result case None => [] case Some(k) => [k];
      phases := phases[t := Dequeued(result)];
    }

    /** The next action of thread `t`. */
    method Act(t: nat)
      requires queue.Valid() && Enabled(roles, Snapshot(), t)
      modifies this, queue, queue.spine
      ensures queue.Valid() && Snapshot() == Step(roles, old(Snapshot()), t)
      ensures fresh(set n | n in queue.spine && n !in old(queue.spine))
    {
      match phases[t] {
        case Accepting =>
          phases := phases[t := WantEnqueue(accepted)];
          accepted := accepted + 1;
        case WantEnqueue(k) =>
          owner := Some(t);
          phases := phases[t := Enqueueing(k)];
        case Enqueueing(k) =>
          EnqueueLocked(t, k);
        case Enqueued =>
          owner := None;
          phases := phases[t := if roles[t] == Producer then Accepting else WantDequeue];
        case WantDequeue =>
          owner := Some(t);
          phases := phases[t := Dequeueing];
        case Dequeueing =>
          DequeueLocked(t);
        case Dequeued(result) =>
          owner := None;
          if result.Some? {
            phases := phases[t := Serving(result.value)];
          } else {
            phases := phases[t := Start(roles[t])];
          }
        case Serving(_) =>
          phases := phases[t := Start(roles[t])];
      }
    }

    /** Any interleaving of the threads. */
    method Run(schedule: seq<nat>)
      requires queue.Valid() && Feasible(roles, Snapshot(), schedule)
      modifies this, queue, queue.spine
      ensures queue.Valid() && Snapshot() == Exec(roles, old(Snapshot()), schedule)
    {
      var k := 0;
      while k < |schedule|
        invariant k <= |schedule| && queue.Valid()
        invariant fresh(set n | n in queue.spine && n !in old(queue.spine))
        invariant Feasible(roles, Snapshot(), schedule[k..])
        invariant Exec(roles, Snapshot(), schedule[k..]) == Exec(roles, old(Snapshot()), schedule)
      {
        assert schedule[k..][0] == schedule[k] && schedule[k..][1..] == schedule[k + 1..];
        Act(schedule[k]);
        k := k + 1;
      }
    }
  }
}
