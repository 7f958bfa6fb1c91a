/** The pre-forked process pool: children that report on one shared pipe, and a parent
  * that answers every finished request with one unaddressed command.
  *
  * `State` and `Step` are the protocol, one atomic channel operation a step.  `Pool` is the
  * imperative form of the parent and child loop bodies, proved to take exactly these steps.
  */
module ProcessPool {
  import opened Common

  /** `Accepting` is blocked in accept, `Accepted` has a connection and has not reported it,
    * `Serving` has written 'n' and not yet 'f', `Waiting` has written 'f' and waits for a command.
    * `ExitedEarly` is a child that left after its 'n' without ever writing the 'f'. */
  datatype Phase = Accepting | Accepted | Serving | Waiting | ExitedEarly | Retired

  datatype Status = New | Finished

  datatype Report = Report(pid: nat, status: Status)

  datatype Command = Continue | Exit

  /** PRECHILD and MAXCHILD. */
  datatype Limits = Limits(lo: nat, hi: nat) {
    predicate Valid() { 1 <= lo <= hi }
  }

  function Tally<T(==)>(xs: seq<T>, x: T): nat {
    if xs == [] then 0 else (if xs[0] == x then 1 else 0) + Tally(xs[1..], x)
  }

  datatype State = State(
    phases: seq<Phase>, reports: seq<Report>, commands: seq<Command>, reqNum: int, childNum: int)
  {
    function Count(p: Phase): nat { Tally(phases, p) }

    function Commands(c: Command): nat { Tally(commands, c) }
  }

  datatype Event =
    | Accept(pid: nat)
    | ReportNew(pid: nat)
    | Finish(pid: nat)
    | ExitEarly(pid: nat)
    | TakeCommand(pid: nat)
    | ParentHandles

  predicate InPhase(s: State, pid: nat, p: Phase) { pid < |s.phases| && s.phases[pid] == p }

  predicate Enabled(s: State, e: Event) {
    match e
    case Accept(pid) => InPhase(s, pid, Accepting)
    case ReportNew(pid) => InPhase(s, pid, Accepted)
    case Finish(pid) => InPhase(s, pid, Serving)
    case ExitEarly(pid) => InPhase(s, pid, Serving)
    case TakeCommand(pid) => InPhase(s, pid, Waiting) && s.commands != []
    case ParentHandles => s.reports != []
  }

  function Init(lim: Limits): State {
    State(seq(lim.lo, _ => Accepting), [], [], 0, lim.lo)
  }

  /** The parent's two counters: unfinished requests, and children it believes it has. */
  datatype Counters = Counters(req: int, child: int)

  predicate MustFork(lim: Limits, c: Counters) { c.req + 1 >= c.child && c.child <= lim.hi }

  predicate MustRetire(lim: Limits, c: Counters) { c.child > c.req && c.child > lim.lo }

  function CountReport(lim: Limits, c: Counters, st: Status, forks: bool): Counters {
    match st
    case New => Counters(c.req + 1, if MustFork(lim, c) && forks then c.child + 1 else c.child)
    case Finished => Counters(c.req - 1, if MustRetire(lim, c) then c.child - 1 else c.child)
  }

  function Handle(lim: Limits, s: State, st: Status): State {
    var before := Counters(s.reqNum, s.childNum);
    var after := CountReport(lim, before, st, true);
    var counted := s.(reqNum := after.req, childNum := after.child);
    match st
    case New =>
      if MustFork(lim, before) then counted.(phases := s.phases + [Accepting]) else counted
    case Finished =>
      var reply := if MustRetire(lim, before) then Exit else Continue;
      counted.(commands := s.commands + [reply])
  }

  function Step(lim: Limits, s: State, e: Event): State
    requires Enabled(s, e)
  {
    match e
    case Accept(pid) =>
      s.(phases := s.phases[pid := Accepted])
    case ReportNew(pid) =>
      s.(phases := s.phases[pid := Serving], reports := s.reports + [Report(pid, New)])
    case Finish(pid) =>
      s.(phases := s.phases[pid := Waiting], reports := s.reports + [Report(pid, Finished)])
    case ExitEarly(pid) =>
      s.(phases := s.phases[pid := ExitedEarly])
    case TakeCommand(pid) =>
      var next := if s.commands[0] == Exit then Retired else Accepting;
      s.(phases := s.phases[pid := next], commands := s.commands[1..])
    case ParentHandles =>
      Handle(lim, s.(reports := s.reports[1..]), s.reports[0].status)
  }

  predicate Feasible(lim: Limits, s: State, schedule: seq<Event>)
    decreases |schedule|
  {
    schedule == [] ||
    (Enabled(s, schedule[0]) && Feasible(lim, Step(lim, s, schedule[0]), schedule[1..]))
  }

  function Exec(lim: Limits, s: State, schedule: seq<Event>): State
    requires Feasible(lim, s, schedule)
    decreases |schedule|
  {
    if schedule == [] then s else Exec(lim, Step(lim, s, schedule[0]), schedule[1..])
  }

  ghost predicate Reachable(lim: Limits, s: State) {
    exists schedule :: Feasible(lim, Init(lim), schedule) && Exec(lim, Init(lim), schedule) == s
  }

  // ---- What the reports still to be read say ----

  function Unread(reports: seq<Report>, st: Status): nat {
    if reports == [] then 0
    else (if reports[0].status == st then 1 else 0) + Unread(reports[1..], st)
  }

  /** The unread records of one child, oldest first. */
  function UnreadOf(reports: seq<Report>, pid: nat): seq<Status> {
    if reports == [] then []
    else (if reports[0].pid == pid then [reports[0].status] else []) + UnreadOf(reports[1..], pid)
  }

  lemma {:induction false} UnreadSnoc(reports: seq<Report>, r: Report, st: Status)
    ensures Unread(reports + [r], st) == Unread(reports, st) + if r.status == st then 1 else 0
  {
    if reports == [] {
      assert (reports + [r])[1..] == [];
    } else {
      UnreadSnoc(reports[1..], r, st);
      assert (reports + [r])[1..] == reports[1..] + [r];
    }
  }

  lemma {:induction false} UnreadOfSnoc(reports: seq<Report>, r: Report, pid: nat)
    ensures UnreadOf(reports + [r], pid)
         == UnreadOf(reports, pid) + if r.pid == pid then [r.status] else []
  {
    if reports == [] {
      assert (reports + [r])[1..] == [];
    } else {
      UnreadOfSnoc(reports[1..], r, pid);
      assert (reports + [r])[1..] == reports[1..] + [r];
    }
  }

  lemma {:induction false} UnreadOfAbsent(reports: seq<Report>, pid: nat)
    requires forall r :: r in reports ==> r.pid < pid
    ensures UnreadOf(reports, pid) == []
  {
    if reports == [] {
    } else {
      UnreadOfAbsent(reports[1..], pid);
    }
  }

  // ---- The invariant ----

  predicate Alternates(u: seq<Status>) { forall k :: 0 < k < |u| ==> u[k - 1] != u[k] }

  /** Unread records alternate, and end in 'n' exactly when the child holds a request. */
  predicate Orderly(u: seq<Status>, holds: bool) {
    Alternates(u) && (u != [] ==> (u[|u| - 1] == New <==> holds))
  }

  /** The parent has handled one more 'n' than 'f' of a child with these unread records. */
  predicate Open(u: seq<Status>, holds: bool) { if u == [] then holds else u[0] == Finished }

  predicate HoldsRequest(s: State, pid: nat)
    requires pid < |s.phases|
  {
    s.phases[pid] == Serving || s.phases[pid] == ExitedEarly
  }

  predicate Ordered(s: State, pid: nat)
    requires pid < |s.phases|
  {
    Orderly(UnreadOf(s.reports, pid), HoldsRequest(s, pid))
  }

  predicate InFlight(s: State, pid: nat)
    requires pid < |s.phases|
  {
    Open(UnreadOf(s.reports, pid), HoldsRequest(s, pid))
  }

  ghost function InFlightSet(s: State): set<nat> {
    set pid: nat | pid < |s.phases| && InFlight(s, pid)
  }

  /** The pool size as a pure function of the load. */
  function Target(lim: Limits, req: int): int {
    var capped := if req + 1 < lim.hi + 1 then req + 1 else lim.hi + 1;
    if lim.lo > capped then lim.lo else capped
  }

  predicate Balanced(s: State) {
    && s.Count(Waiting) == Unread(s.reports, Finished) + |s.commands|
    && s.childNum - s.reqNum
       == s.Count(Accepting) + s.Count(Accepted) + s.Commands(Continue) + Unread(s.reports, New)
    && s.reqNum + Unread(s.reports, New) - Unread(s.reports, Finished)
       == s.Count(Serving) + s.Count(ExitedEarly)
  }

  ghost predicate Tracked(s: State) {
    && (forall r :: r in s.reports ==> r.pid < |s.phases|)
    && (forall pid: nat :: pid < |s.phases| ==> Ordered(s, pid))
    && s.reqNum == |InFlightSet(s)|
  }

  ghost predicate Inv(lim: Limits, s: State) {
    Balanced(s) && Tracked(s) && s.childNum == Target(lim, s.reqNum)
  }

  lemma {:induction false} TallySnoc<T>(xs: seq<T>, y: T, x: T)
    ensures Tally(xs + [y], x) == Tally(xs, x) + if y == x then 1 else 0
  {
    if xs == [] {
      assert (xs + [y])[1..] == [];
    } else {
      TallySnoc(xs[1..], y, x);
      assert (xs + [y])[1..] == xs[1..] + [y];
    }
  }

  lemma {:induction false} TallyUpdate<T>(xs: seq<T>, i: nat, y: T, x: T)
    requires i < |xs|
    ensures Tally(xs[i := y], x)
         == Tally(xs, x) - (if xs[i] == x then 1 else 0) + if y == x then 1 else 0
  {
    if i == 0 {
      assert xs[0 := y][1..] == xs[1..];
    } else {
      TallyUpdate(xs[1..], i - 1, y, x);
      assert xs[i := y][1..] == xs[1..][i - 1 := y];
    }
  }

  /** A child moving from one phase to another. */
  lemma CountMove(phases: seq<Phase>, pid: nat, to: Phase)
    requires pid < |phases|
    ensures forall p: Phase :: (Tally(phases[pid := to], p)
         == Tally(phases, p) - (if phases[pid] == p then 1 else 0) + if to == p then 1 else 0)
  {
    forall p: Phase
      ensures Tally(phases[pid := to], p)
           == Tally(phases, p) - (if phases[pid] == p then 1 else 0) + if to == p then 1 else 0
    {
      TallyUpdate(phases, pid, to, p);
    }
  }

  lemma {:induction false} CommandsTotal(cs: seq<Command>)
    ensures Tally(cs, Continue) + Tally(cs, Exit) == |cs|
  {
    if cs == [] {
    } else {
      CommandsTotal(cs[1..]);
      match cs[0] case Continue => case Exit =>
    }
  }

  lemma BalancedReport(lim: Limits, s: State, pid: nat, st: Status)
    requires InPhase(s, pid, if st == New then Accepted else Serving) && Balanced(s)
    ensures Balanced(Step(lim, s, if st == New then ReportNew(pid) else Finish(pid)))
  {
    CountMove(s.phases, pid, if st == New then Serving else Waiting);
    UnreadSnoc(s.reports, Report(pid, st), New);
    UnreadSnoc(s.reports, Report(pid, st), Finished);
  }

  lemma BalancedParent(lim: Limits, s: State)
    requires s.reports != [] && Balanced(s)
    ensures Balanced(Step(lim, s, ParentHandles))
  {
    forall p: Phase { TallySnoc(s.phases, Accepting, p); }
    TallySnoc(s.commands, Exit, Continue);
    TallySnoc(s.commands, Continue, Continue);
  }

  lemma BalancedStep(lim: Limits, s: State, e: Event)
    requires Enabled(s, e) && Balanced(s)
    ensures Balanced(Step(lim, s, e))
  {
    match e
    case Accept(pid) => CountMove(s.phases, pid, Accepted);
    case ReportNew(pid) => BalancedReport(lim, s, pid, New);
    case Finish(pid) => BalancedReport(lim, s, pid, Finished);
    case ExitEarly(pid) => CountMove(s.phases, pid, ExitedEarly);
    case TakeCommand(pid) =>
      CountMove(s.phases, pid, if s.commands[0] == Exit then Retired else Accepting);
    case ParentHandles => BalancedParent(lim, s);
  }

  /** How one event moves the unread records of one child. */
  lemma UnreadOfStep(lim: Limits, s: State, e: Event, pid: nat)
    requires Enabled(s, e)
    ensures UnreadOf(Step(lim, s, e).reports, pid) ==
      match e
      case Accept(_) => UnreadOf(s.reports, pid)
      case ReportNew(i) => UnreadOf(s.reports, pid) + (if i == pid then [New] else [])
      case Finish(i) => UnreadOf(s.reports, pid) + (if i == pid then [Finished] else [])
      case ExitEarly(_) => UnreadOf(s.reports, pid)
      case TakeCommand(_) => UnreadOf(s.reports, pid)
      case ParentHandles => UnreadOf(s.reports[1..], pid)
  {
    match e
    case Accept(i) =>
    case ReportNew(i) => UnreadOfSnoc(s.reports, Report(i, New), pid);
    case Finish(i) => UnreadOfSnoc(s.reports, Report(i, Finished), pid);
    case ExitEarly(i) =>
    case TakeCommand(i) =>
    case ParentHandles =>
  }

  /** How one event moves the phase of one child. */
  lemma PhaseStep(lim: Limits, s: State, e: Event, pid: nat)
    requires Enabled(s, e) && pid < |s.phases|
    ensures pid < |Step(lim, s, e).phases|
    ensures HoldsRequest(Step(lim, s, e), pid) ==
      match e
      case Accept(_) => HoldsRequest(s, pid)
      case ReportNew(i) => i == pid || HoldsRequest(s, pid)
      case Finish(i) => i != pid && HoldsRequest(s, pid)
      case ExitEarly(_) => HoldsRequest(s, pid)
      case TakeCommand(_) => HoldsRequest(s, pid)
      case ParentHandles => HoldsRequest(s, pid)
  {
  }

  /** A child alternately starts and ends a request: its next record keeps the order. */
  lemma OrderlyAppend(u: seq<Status>, st: Status)
    requires Orderly(u, st == Finished)
    ensures Orderly(u + [st], st == New)
    ensures Open(u + [st], st == New) == Open(u, st == Finished)
  {
    match st case New => case Finished =>
  }

  lemma OrderlyDrop(st: Status, u: seq<Status>, holds: bool)
    requires Orderly([st] + u, holds)
    ensures Orderly(u, holds)
    ensures Open([st] + u, holds) <==> st == Finished
    ensures Open(u, holds) <==> st == New
  {
    var w := [st] + u;
    forall k | 0 < k < |u| ensures u[k - 1] != u[k] { assert w[k] != w[k + 1]; }
    if u != [] {
      assert w[0] != w[1];
    }
  }

  lemma OrderedStep(lim: Limits, s: State, e: Event, pid: nat)
    requires Enabled(s, e) && pid < |s.phases| && Ordered(s, pid)
    ensures pid < |Step(lim, s, e).phases| && Ordered(Step(lim, s, e), pid)
    ensures InFlight(Step(lim, s, e), pid)
        <==> if e.ParentHandles? && s.reports[0].pid == pid then s.reports[0].status == New
             else InFlight(s, pid)
    ensures e.ParentHandles? && s.reports[0].pid == pid
        ==> InFlight(s, pid) == (s.reports[0].status == Finished)
  {
    hide Step, Orderly, Open;
    PhaseStep(lim, s, e, pid);
    UnreadOfStep(lim, s, e, pid);
    var u := UnreadOf(s.reports, pid);
    match e
    case Accept(i) =>
    case ReportNew(i) => if i == pid { OrderlyAppend(u, New); } else { assert u + [] == u; }
    case Finish(i) => if i == pid { OrderlyAppend(u, Finished); } else { assert u + [] == u; }
    case ExitEarly(i) =>
    case TakeCommand(i) =>
    case ParentHandles =>
      var rest := UnreadOf(s.reports[1..], pid);
      if s.reports[0].pid == pid {
        OrderlyDrop(s.reports[0].status, rest, HoldsRequest(s, pid));
      } else {
        assert u == [] + rest == rest;
      }
  }

  /** A process forked by this event starts with no records and no request. */
  lemma ForkedOrdered(lim: Limits, s: State, e: Event)
    requires Enabled(s, e) && Tracked(s) && |Step(lim, s, e).phases| > |s.phases|
    ensures |Step(lim, s, e).phases| == |s.phases| + 1
    ensures Ordered(Step(lim, s, e), |s.phases|) && !InFlight(Step(lim, s, e), |s.phases|)
  {
    UnreadOfAbsent(Step(lim, s, e).reports, |s.phases|);
  }

  lemma OrderedSteps(lim: Limits, s: State, e: Event)
    requires Enabled(s, e) && Tracked(s)
    ensures forall pid: nat :: pid < |Step(lim, s, e).phases| ==> Ordered(Step(lim, s, e), pid)
  {
    forall pid: nat | pid < |Step(lim, s, e).phases| ensures Ordered(Step(lim, s, e), pid) {
      if pid < |s.phases| { OrderedStep(lim, s, e, pid); } else { ForkedOrdered(lim, s, e); }
    }
  }

  lemma PhasesGrow(lim: Limits, s: State, e: Event)
    requires Enabled(s, e)
    ensures |Step(lim, s, e).phases| >= |s.phases|
  {
  }

  lemma InFlightStep(lim: Limits, s: State, e: Event)
    requires Enabled(s, e) && Tracked(s)
    ensures InFlightSet(Step(lim, s, e)) ==
      if !e.ParentHandles? then InFlightSet(s)
      else if s.reports[0].status == New then InFlightSet(s) + {s.reports[0].pid}
      else InFlightSet(s) - {s.reports[0].pid}
    ensures e.ParentHandles?
        ==> (s.reports[0].pid in InFlightSet(s) <==> s.reports[0].status == Finished)
  {
    hide Step, InFlight, Ordered, UnreadOf;
    PhasesGrow(lim, s, e);
    assert s.reports != [] ==> s.reports[0] in s.reports;
    var s' := Step(lim, s, e);
    forall pid: nat | pid < |s'.phases|
      ensures pid in InFlightSet(s')
          <==> if e.ParentHandles? && s.reports[0].pid == pid then s.reports[0].status == New
               else pid in InFlightSet(s)
      ensures e.ParentHandles? && s.reports[0].pid == pid
          ==> (pid in InFlightSet(s) <==> s.reports[0].status == Finished)
    {
      if pid < |s.phases| { OrderedStep(lim, s, e, pid); } else { ForkedOrdered(lim, s, e); }
    }
  }

  lemma TrackedStep(lim: Limits, s: State, e: Event)
    requires Enabled(s, e) && Tracked(s)
    ensures Tracked(Step(lim, s, e))
  {
    OrderedSteps(lim, s, e);
    InFlightStep(lim, s, e);
  }

  /** One handled report keeps the fork/retire tests on the closed form. */
  lemma TargetStep(lim: Limits, s: State, e: Event)
    requires lim.Valid() && Enabled(s, e) && s.childNum == Target(lim, s.reqNum)
    ensures Step(lim, s, e).childNum == Target(lim, Step(lim, s, e).reqNum)
  {
  }

  lemma InitInv(lim: Limits)
    requires lim.Valid()
    ensures Inv(lim, Init(lim))
  {
    var s := Init(lim);
    forall p: Phase ensures s.Count(p) == if p == Accepting then lim.lo else 0 {
      AllAccepting(lim.lo, p);
    }
    assert InFlightSet(s) == {};
  }

  lemma {:induction false} AllAccepting(n: nat, p: Phase)
    ensures Tally(seq(n, _ => Accepting), p) == if p == Accepting then n else 0
  {
    if n == 0 {
    } else {
      AllAccepting(n - 1, p);
      assert seq(n, _ => Accepting)[1..] == seq(n - 1, _ => Accepting);
    }
  }

  lemma InvStep(lim: Limits, s: State, e: Event)
    requires lim.Valid() && Enabled(s, e) && Inv(lim, s)
    ensures Inv(lim, Step(lim, s, e))
  {
    BalancedStep(lim, s, e);
    TrackedStep(lim, s, e);
    TargetStep(lim, s, e);
  }

  lemma {:induction false} InvExec(lim: Limits, s: State, schedule: seq<Event>)
    requires lim.Valid() && Inv(lim, s) && Feasible(lim, s, schedule)
    ensures Inv(lim, Exec(lim, s, schedule))
    decreases |schedule|
  {
    if schedule == [] {
    } else {
      InvStep(lim, s, schedule[0]);
      InvExec(lim, Step(lim, s, schedule[0]), schedule[1..]);
    }
  }

  lemma ReachableInv(lim: Limits, s: State)
    requires lim.Valid() && Reachable(lim, s)
    ensures Inv(lim, s)
  {
    var schedule :| Feasible(lim, Init(lim), schedule) && Exec(lim, Init(lim), schedule) == s;
    InitInv(lim);
    InvExec(lim, Init(lim), schedule);
  }

  // ---- What holds in every reachable state ----

  lemma {:induction false} TallyMember<T>(xs: seq<T>, x: T)
    ensures Tally(xs, x) > 0 <==> x in xs
  {
    if xs == [] {
    } else {
      TallyMember(xs[1..], x);
    }
  }

  /** Conservation of workers: no interleaving loses or invents one. */
  lemma Conservation(lim: Limits, s: State)
    requires lim.Valid() && Reachable(lim, s)
    ensures s.childNum - s.reqNum
         == s.Count(Accepting) + s.Count(Accepted) + s.Commands(Continue) + Unread(s.reports, New)
    ensures 0 <= s.reqNum <= s.childNum <= lim.hi + 1
    ensures s.childNum == Target(lim, s.reqNum)
    ensures s.reports == [] && s.commands == []
        ==> (Accepting in s.phases || Accepted in s.phases <==> s.reqNum <= lim.hi)
  {
    ReachableInv(lim, s);
    TallyMember(s.phases, Accepting);
    TallyMember(s.phases, Accepted);
  }

  /** `reqNum` is a sum of one 0/1 term a child, whatever the unaddressed commands did. */
  lemma ReportOrder(lim: Limits, s: State, pid: nat)
    requires lim.Valid() && Reachable(lim, s) && pid < |s.phases|
    ensures s.reqNum == |InFlightSet(s)|
    ensures Alternates(UnreadOf(s.reports, pid))
    ensures UnreadOf(s.reports, pid) != [] ==>
      (UnreadOf(s.reports, pid)[|UnreadOf(s.reports, pid)| - 1] == New) ==
      (s.phases[pid] in {Serving, ExitedEarly})
    ensures pid in InFlightSet(s) <==>
      if UnreadOf(s.reports, pid) == [] then s.phases[pid] in {Serving, ExitedEarly}
      else UnreadOf(s.reports, pid)[0] == Finished
  {
    ReachableInv(lim, s);
    assert Ordered(s, pid);
  }

  function Live(s: State): nat {
    s.Count(Accepting) + s.Count(Accepted) + s.Count(Serving) + s.Count(Waiting)
  }

  /** Every waiting child is owed exactly one command, and `childNum` counts the living
    * children, less those already told to exit, plus those that exited early. */
  lemma Population(lim: Limits, s: State)
    requires lim.Valid() && Reachable(lim, s)
    ensures s.Count(Waiting) == Unread(s.reports, Finished) + |s.commands|
    ensures s.childNum + s.Commands(Exit) == Live(s) + s.Count(ExitedEarly)
  {
    ReachableInv(lim, s);
    CommandsTotal(s.commands);
  }

  // ---- The order of the two channels ----

  /** The command a child took, read off what it did next. */
  function Obeyed(e: Event, after: State): seq<Command> {
    if !e.TakeCommand? || e.pid >= |after.phases| then []
    else if after.phases[e.pid] == Retired then [Exit]
    else if after.phases[e.pid] == Accepting then [Continue]
    else []
  }

  /** The command the parent wrote, read off its counters: every 'f' lowers the load, and is
    * answered with 'e' iff the pool shrinks. */
  function Answered(before: State, after: State): seq<Command> {
    if after.reqNum >= before.reqNum then []
    else if after.childNum < before.childNum then [Exit]
    else [Continue]
  }

  function Received(lim: Limits, s: State, schedule: seq<Event>): seq<Command>
    requires Feasible(lim, s, schedule)
    decreases |schedule|
  {
    if schedule == [] then []
    else
      var s' := Step(lim, s, schedule[0]);
      Obeyed(schedule[0], s') + Received(lim, s', schedule[1..])
  }

  function Given(lim: Limits, s: State, schedule: seq<Event>): seq<Command>
    requires Feasible(lim, s, schedule)
    decreases |schedule|
  {
    if schedule == [] then []
    else
      var s' := Step(lim, s, schedule[0]);
      Answered(s, s') + Given(lim, s', schedule[1..])
  }

  lemma CommandsStep(lim: Limits, s: State, e: Event)
    requires Enabled(s, e)
    ensures s.commands + Answered(s, Step(lim, s, e))
         == Obeyed(e, Step(lim, s, e)) + Step(lim, s, e).commands
  {
  }

  /** The command channel is first in, first out: whichever children take them, the commands
    * obeyed in a run, followed by those still unread, are those the parent gave, in order. */
  lemma {:induction false} CommandsInOrder(lim: Limits, s: State, schedule: seq<Event>)
    requires Feasible(lim, s, schedule)
    ensures s.commands + Given(lim, s, schedule)
         == Received(lim, s, schedule) + Exec(lim, s, schedule).commands
    ensures s == Init(lim) ==>
      Given(lim, s, schedule) == Received(lim, s, schedule) + Exec(lim, s, schedule).commands
    decreases |schedule|
  {
    assert s.commands == [] ==> s.commands + Given(lim, s, schedule) == Given(lim, s, schedule);
    if schedule == [] {
    } else {
      var s', rest := Step(lim, s, schedule[0]), schedule[1..];
      CommandsInOrder(lim, s', rest);
      CommandsStep(lim, s, schedule[0]);
      hide Step, Exec, Answered, Obeyed;
      Shift(s.commands, Answered(s, s'), Given(lim, s', rest));
      Shift(Obeyed(schedule[0], s'), s'.commands, Given(lim, s', rest));
      Shift(Obeyed(schedule[0], s'), Received(lim, s', rest), Exec(lim, s', rest).commands);
    }
  }

  /** The record a child wrote, read off the phase it came to. */
  function Told(before: State, e: Event, after: State): seq<Report> {
    if e.ParentHandles? || e.pid >= |before.phases| || e.pid >= |after.phases| then []
    else if before.phases[e.pid] == Accepted && after.phases[e.pid] == Serving then
      [Report(e.pid, New)]
    else if after.phases[e.pid] == Waiting then [Report(e.pid, Finished)]
    else []
  }

  function Written(lim: Limits, s: State, schedule: seq<Event>): seq<Report>
    requires Feasible(lim, s, schedule)
    decreases |schedule|
  {
    if schedule == [] then []
    else
      var s' := Step(lim, s, schedule[0]);
      Told(s, schedule[0], s') + Written(lim, s', schedule[1..])
  }

  /** What the parent took a record for, read off its count of requests. */
  function Counted(before: State, after: State): seq<Status> {
    if after.reqNum > before.reqNum then [New]
    else if after.reqNum < before.reqNum then [Finished]
    else []
  }

  function CountedAll(lim: Limits, s: State, schedule: seq<Event>): seq<Status>
    requires Feasible(lim, s, schedule)
    decreases |schedule|
  {
    if schedule == [] then []
    else
      var s' := Step(lim, s, schedule[0]);
      Counted(s, s') + CountedAll(lim, s', schedule[1..])
  }

  function Statuses(reports: seq<Report>): seq<Status> {
    seq(|reports|, i requires 0 <= i < |reports| => reports[i].status)
  }

  lemma ReportsStep(lim: Limits, s: State, e: Event) returns (handled: seq<Report>)
    requires Enabled(s, e)
    ensures s.reports + Told(s, e, Step(lim, s, e)) == handled + Step(lim, s, e).reports
    ensures Statuses(handled) == Counted(s, Step(lim, s, e))
  {
    handled := if e.ParentHandles? then [s.reports[0]] else [];
  }

  /** So is the report pipe: the records the parent counted in a run, in the order it counted them,
    * followed by those unread, are those the children wrote. */
  lemma {:induction false} ReportsInOrder(lim: Limits, s: State, schedule: seq<Event>)
    returns (handled: seq<Report>)
    requires Feasible(lim, s, schedule)
    ensures s.reports + Written(lim, s, schedule) == handled + Exec(lim, s, schedule).reports
    ensures Statuses(handled) == CountedAll(lim, s, schedule)
    decreases |schedule|
  {
    if schedule == [] {
      handled := [];
    } else {
      var s', rest := Step(lim, s, schedule[0]), schedule[1..];
      var first := ReportsStep(lim, s, schedule[0]);
      var more := ReportsInOrder(lim, s', rest);
      handled := first + more;
      hide Step, Exec, Told, Counted;
      Shift(s.reports, Told(s, schedule[0], s'), Written(lim, s', rest));
      Shift(first, s'.reports, Written(lim, s', rest));
      Shift(first, more, Exec(lim, s', rest).reports);
      assert Statuses(handled) == Statuses(first) + Statuses(more);
    }
  }

  // ---- The controller on its own ----

  function CountReports(lim: Limits, c: Counters, handled: seq<(Status, bool)>): Counters
    decreases |handled|
  {
    if handled == [] then c
    else CountReports(lim, CountReport(lim, c, handled[0].0, handled[0].1), handled[1..])
  }

  /** Pool size is a function of load for any sequence of reports whose forks all succeed. */
  lemma {:induction false} ClosedForm(lim: Limits, c: Counters, handled: seq<(Status, bool)>)
    requires lim.Valid() && c.child == Target(lim, c.req)
    requires forall h :: h in handled ==> h.1
    ensures CountReports(lim, c, handled).child == Target(lim, CountReports(lim, c, handled).req)
    decreases |handled|
  {
    if handled == [] {
    } else {
      ClosedForm(lim, CountReport(lim, c, handled[0].0, handled[0].1), handled[1..]);
    }
  }

  // ---- Failed forks, which the server's own parent survives ----

  /** The load after some reports; failed forks have no part in it. */
  function Load(req: int, handled: seq<(Status, bool)>): int
    decreases |handled|
  {
    if handled == [] then req
    else Load(if handled[0].0 == New then req + 1 else req - 1, handled[1..])
  }

  /** What one report adds to the shortfall: the size the load asks for moves by one while the load
    * is within the limits, and a fork that succeeds makes up for one. */
  function Net(lim: Limits, req: int, h: (Status, bool)): int {
    match h.0
    case New => (if lim.lo <= req + 1 <= lim.hi then 1 else 0) - (if h.1 then 1 else 0)
    case Finished => if lim.lo <= req <= lim.hi then -1 else 0
  }

  function Balance(lim: Limits, req: int, handled: seq<(Status, bool)>): int
    decreases |handled|
  {
    if handled == [] then 0
    else Net(lim, req, handled[0]) + Balance(lim, Load(req, handled[..1]), handled[1..])
  }

  /** The balance of the reports from the `k`-th on. */
  function SuffixBalance(lim: Limits, req: int, handled: seq<(Status, bool)>, k: nat): int
    requires k <= |handled|
  {
    Balance(lim, Load(req, handled[..k]), handled[k..])
  }

  function Max(a: int, b: int): int { if a < b then b else a }

  /** The largest balance of any suffix. */
  function Peak(lim: Limits, req: int, handled: seq<(Status, bool)>): int
    decreases |handled|
  {
    if handled == [] then 0
    else Max(Balance(lim, req, handled), Peak(lim, Load(req, handled[..1]), handled[1..]))
  }

  function Shortfall(lim: Limits, c: Counters): int { Target(lim, c.req) - c.child }

  lemma SuffixStep(lim: Limits, req: int, handled: seq<(Status, bool)>, k: nat)
    requires 0 < k <= |handled|
    ensures SuffixBalance(lim, req, handled, k)
         == SuffixBalance(lim, Load(req, handled[..1]), handled[1..], k - 1)
  {
    assert handled[1..][..k - 1] == handled[..k][1..] && handled[1..][k - 1..] == handled[k..];
  }

  lemma {:induction false} PeakIs(lim: Limits, req: int, handled: seq<(Status, bool)>)
    ensures forall k :: 0 <= k <= |handled| ==>
      SuffixBalance(lim, req, handled, k) <= Peak(lim, req, handled)
    ensures exists k ::
      0 <= k <= |handled| && SuffixBalance(lim, req, handled, k) == Peak(lim, req, handled)
    decreases |handled|
  {
    assert handled[..0] == [] && handled[0..] == handled;
    assert SuffixBalance(lim, req, handled, 0) == Balance(lim, req, handled);
    if handled == [] {
    } else {
      var next := Load(req, handled[..1]);
      PeakIs(lim, next, handled[1..]);
      forall k | 0 < k <= |handled|
        ensures SuffixBalance(lim, req, handled, k)
             == SuffixBalance(lim, next, handled[1..], k - 1)
      {
        SuffixStep(lim, req, handled, k);
      }
      var k: nat :| k < |handled| &&
        SuffixBalance(lim, next, handled[1..], k) == Peak(lim, next, handled[1..]);
      assert SuffixBalance(lim, req, handled, k + 1) == Peak(lim, next, handled[1..]);
    }
  }

  /** One report moves the shortfall by its net, but never below zero. */
  lemma ShortfallStep(lim: Limits, c: Counters, h: (Status, bool))
    requires lim.Valid() && lim.lo <= c.child <= Target(lim, c.req)
    ensures var c' := CountReport(lim, c, h.0, h.1);
      && c'.req == Load(c.req, [h]) && c'.child >= lim.lo
      && Shortfall(lim, c') == Max(0, Shortfall(lim, c) + Net(lim, c.req, h))
  {
    assert [h][1..] == [];
  }

  /** With any pattern of failed forks, the exact size: the shortfall behind the closed form is the
    * starting one carried through all reports, or the largest suffix balance if that is more.  So
    * failed forks only ever leave the pool too small. */
  lemma {:induction false} FailedForks(lim: Limits, c: Counters, handled: seq<(Status, bool)>)
    requires lim.Valid() && lim.lo <= c.child <= Target(lim, c.req)
    ensures var c' := CountReports(lim, c, handled);
      && c'.req == Load(c.req, handled)
      && lim.lo <= c'.child <= Target(lim, c'.req)
      && Shortfall(lim, c')
         == Max(Shortfall(lim, c) + Balance(lim, c.req, handled), Peak(lim, c.req, handled))
    decreases |handled|
  {
    if handled == [] {
    } else {
      hide Target, CountReport, Net, Shortfall;
      ShortfallStep(lim, c, handled[0]);
      var c1, rest := CountReport(lim, c, handled[0].0, handled[0].1), handled[1..];
      assert handled[..1] == [handled[0]] && Load(c.req, handled) == Load(c1.req, rest);
      FailedForks(lim, c1, rest);
    }
  }

  /** After any reports the pool has the size its load asks for iff the starting shortfall and the
    * whole balance make up for each other, and no suffix of the reports has a positive balance; it
    * has that size again at the latest when the load is back below the lower limit. */
  lemma ClosedFormIff(lim: Limits, c: Counters, handled: seq<(Status, bool)>)
    requires lim.Valid() && lim.lo <= c.child <= Target(lim, c.req)
    ensures CountReports(lim, c, handled).child == Target(lim, CountReports(lim, c, handled).req)
       <==> Shortfall(lim, c) + Balance(lim, c.req, handled) <= 0
            && forall k :: 0 <= k <= |handled| ==> SuffixBalance(lim, c.req, handled, k) <= 0
    ensures Load(c.req, handled) < lim.lo ==> CountReports(lim, c, handled).child == lim.lo
  {
    FailedForks(lim, c, handled);
    PeakIs(lim, c.req, handled);
    assert SuffixBalance(lim, c.req, handled, |handled|) == 0;
  }

  /** The copy of the controller that uses one size for both limits. */
  lemma SingleLimit(p: nat, handled: seq<(Status, bool)>)
    requires p >= 1 && forall h :: h in handled ==> h.1
    ensures var c := CountReports(Limits(p, p), Counters(0, p), handled);
      c.child == if c.req >= p then p + 1 else p
  {
    ClosedForm(Limits(p, p), Counters(0, p), handled);
  }

  // ---- Draining ----

  /** No child accepts another connection. */
  predicate Quiet(schedule: seq<Event>) { forall e :: e in schedule ==> !e.Accept? }

  function EarlyExits(schedule: seq<Event>): nat {
    if schedule == [] then 0
    else (if schedule[0].ExitEarly? then 1 else 0) + EarlyExits(schedule[1..])
  }

  function Work(s: State): nat {
    5 * s.Count(Accepted) + 3 * s.Count(Serving) + |s.reports| + s.Count(Waiting)
  }

  predicate Drained(s: State) {
    && s.reports == [] && s.commands == []
    && s.Count(Accepted) == 0 && s.Count(Serving) == 0 && s.Count(Waiting) == 0
  }

  ghost predicate Stuck(s: State) { forall e: Event :: Enabled(s, e) ==> e.Accept? }

  lemma WorkStep(lim: Limits, s: State, e: Event)
    requires Enabled(s, e) && !e.Accept?
    ensures Work(Step(lim, s, e)) == Work(s) - if e.ExitEarly? then 3 else 1
    ensures Step(lim, s, e).Count(ExitedEarly)
         == s.Count(ExitedEarly) + if e.ExitEarly? then 1 else 0
  {
    match e
    case Accept(pid) =>
    case ReportNew(pid) => CountMove(s.phases, pid, Serving);
    case Finish(pid) => CountMove(s.phases, pid, Waiting);
    case ExitEarly(pid) => CountMove(s.phases, pid, ExitedEarly);
    case TakeCommand(pid) =>
      CountMove(s.phases, pid, if s.commands[0] == Exit then Retired else Accepting);
    case ParentHandles => forall p: Phase { TallySnoc(s.phases, Accepting, p); }
  }

  /** Without new connections every schedule consumes the same work, in any order. */
  lemma {:induction false} QuietWork(lim: Limits, s: State, schedule: seq<Event>)
    requires Feasible(lim, s, schedule) && Quiet(schedule)
    ensures Work(Exec(lim, s, schedule)) == Work(s) - |schedule| - 2 * EarlyExits(schedule)
    ensures Exec(lim, s, schedule).Count(ExitedEarly)
         == s.Count(ExitedEarly) + EarlyExits(schedule)
    decreases |schedule|
  {
    if schedule == [] {
    } else {
      WorkStep(lim, s, schedule[0]);
      QuietWork(lim, Step(lim, s, schedule[0]), schedule[1..]);
    }
  }

  /** No command is lost: only a drained pool has nothing to do without a connection. */
  lemma StuckIffDrained(s: State)
    requires Balanced(s)
    ensures Stuck(s) <==> Drained(s)
  {
    TallyMember(s.phases, Accepted);
    TallyMember(s.phases, Serving);
    TallyMember(s.phases, Waiting);
    if !Drained(s) {
      if s.reports != [] {
        assert Enabled(s, ParentHandles);
      } else if Accepted in s.phases {
        var pid :| 0 <= pid < |s.phases| && s.phases[pid] == Accepted;
        assert Enabled(s, ReportNew(pid));
      } else if Serving in s.phases {
        var pid :| 0 <= pid < |s.phases| && s.phases[pid] == Serving;
        assert Enabled(s, Finish(pid));
      } else {
        var pid :| 0 <= pid < |s.phases| && s.phases[pid] == Waiting;
        assert Enabled(s, TakeCommand(pid));
      }
    }
  }

  lemma DrainedValues(lim: Limits, t: State)
    requires lim.Valid() && Inv(lim, t) && Drained(t)
    ensures var d := t.Count(ExitedEarly);
      t.reqNum == d && t.childNum == Target(lim, d) && t.Count(Accepting) == t.childNum - d
  {
  }

  /** From any reachable state, every schedule without new connections is finite, and when it
    * cannot go on the parent's counters depend on the number of early exits alone. */
  lemma Draining(lim: Limits, s: State, schedule: seq<Event>)
    requires lim.Valid() && Reachable(lim, s) && Feasible(lim, s, schedule) && Quiet(schedule)
    ensures |schedule| + 2 * EarlyExits(schedule) <= Work(s)
    ensures var t, d := Exec(lim, s, schedule), s.Count(ExitedEarly) + EarlyExits(schedule);
      Stuck(t) ==>
        && |schedule| + 2 * EarlyExits(schedule) == Work(s)
        && t.reports == [] && t.commands == []
        && t.reqNum == d && t.childNum == Target(lim, d) && t.Count(Accepting) == t.childNum - d
        && (d == 0 ==> t.childNum == lim.lo && t.Count(Accepting) == lim.lo)
  {
    hide Step, Exec, Feasible, EarlyExits, Tally, Tracked, Stuck;
    QuietWork(lim, s, schedule);
    ReachableInv(lim, s);
    InvExec(lim, s, schedule);
    var t := Exec(lim, s, schedule);
    StuckIffDrained(t);
    if Stuck(t) {
      DrainedValues(lim, t);
    }
  }

  /** The drain itself, with no child exiting early. */
  lemma {:induction false} Drain(lim: Limits, s: State) returns (schedule: seq<Event>)
    requires lim.Valid() && Inv(lim, s)
    ensures Quiet(schedule) && EarlyExits(schedule) == 0
    ensures Feasible(lim, s, schedule) && Drained(Exec(lim, s, schedule))
    decreases Work(s)
  {
    StuckIffDrained(s);
    if Drained(s) {
      schedule := [];
    } else {
      var e: Event :| Enabled(s, e) && !e.Accept?;
      if e.ExitEarly? { e := Finish(e.pid); }
      WorkStep(lim, s, e);
      InvStep(lim, s, e);
      var rest := Drain(lim, Step(lim, s, e));
      schedule := [e] + rest;
      assert schedule[1..] == rest;
    }
  }

  // ---- Early exits ----

  lemma EarlyExitBound(lim: Limits, s: State)
    requires lim.Valid() && Inv(lim, s)
    ensures s.Count(ExitedEarly) <= lim.hi + 1
    ensures s.Count(ExitedEarly) == lim.hi + 1 ==>
      s.Count(Accepting) + s.Count(Accepted) + s.Count(Serving) + s.Commands(Continue) == 0
  {
  }

  lemma {:induction false} EarlyExitsStay(lim: Limits, s: State, schedule: seq<Event>)
    requires Feasible(lim, s, schedule)
    ensures Exec(lim, s, schedule).Count(ExitedEarly) >= s.Count(ExitedEarly)
    decreases |schedule|
  {
    if schedule == [] {
    } else {
      var e := schedule[0];
      if e.Accept? {
        CountMove(s.phases, e.pid, Accepted);
      } else {
        WorkStep(lim, s, e);
      }
      EarlyExitsStay(lim, Step(lim, s, e), schedule[1..]);
    }
  }

  /** The pool can still come to accept a connection iff fewer than `hi + 1` children have
    * exited early; the parent never learns of those, and never replaces the last of them. */
  lemma AcceptsAgainIff(lim: Limits, s: State)
    requires lim.Valid() && Reachable(lim, s)
    ensures (exists schedule ::
              Feasible(lim, s, schedule) && Accepting in Exec(lim, s, schedule).phases)
       <==> s.Count(ExitedEarly) <= lim.hi
  {
    ReachableInv(lim, s);
    EarlyExitBound(lim, s);
    forall schedule | Feasible(lim, s, schedule) && Accepting in Exec(lim, s, schedule).phases
      ensures s.Count(ExitedEarly) <= lim.hi
    {
      InvExec(lim, s, schedule);
      EarlyExitsStay(lim, s, schedule);
      EarlyExitBound(lim, Exec(lim, s, schedule));
      TallyMember(Exec(lim, s, schedule).phases, Accepting);
    }
    if s.Count(ExitedEarly) <= lim.hi {
      var schedule := Drain(lim, s);
      QuietWork(lim, s, schedule);
      InvExec(lim, s, schedule);
      TallyMember(Exec(lim, s, schedule).phases, Accepting);
    }
  }

  lemma {:induction false} FeasibleAppend(lim: Limits, s: State, a: seq<Event>, b: seq<Event>)
    requires Feasible(lim, s, a) && Feasible(lim, Exec(lim, s, a), b)
    ensures Feasible(lim, s, a + b)
    ensures Exec(lim, s, a + b) == Exec(lim, Exec(lim, s, a), b)
    decreases |a|
  {
    if a == [] {
      assert a + b == b;
    } else {
      assert (a + b)[1..] == a[1..] + b;
      FeasibleAppend(lim, Step(lim, s, a[0]), a[1..], b);
    }
  }

  lemma FeasibleCons(lim: Limits, s: State, e: Event, rest: seq<Event>)
    requires Enabled(s, e) && Feasible(lim, Step(lim, s, e), rest)
    ensures Feasible(lim, s, [e] + rest)
    ensures Exec(lim, s, [e] + rest) == Exec(lim, Step(lim, s, e), rest)
  {
    assert ([e] + rest)[1..] == rest;
  }

  /** A drained pool that gets one request which its child leaves without finishing. */
  lemma OneBadRequest(lim: Limits, t: State) returns (schedule: seq<Event>)
    requires lim.Valid() && Inv(lim, t) && Drained(t) && Accepting in t.phases
    ensures Feasible(lim, t, schedule)
    ensures var t' := Exec(lim, t, schedule);
      Inv(lim, t') && Drained(t') && t'.Count(ExitedEarly) == t.Count(ExitedEarly) + 1
  {
    hide Inv, Tally;
    var pid: nat :| pid < |t.phases| && t.phases[pid] == Accepting;
    var s1 := Step(lim, t, Accept(pid));
    var s2 := Step(lim, s1, ReportNew(pid));
    var s3 := Step(lim, s2, ExitEarly(pid));
    CountMove(t.phases, pid, Accepted);
    WorkStep(lim, s1, ReportNew(pid));
    WorkStep(lim, s2, ExitEarly(pid));
    WorkStep(lim, s3, ParentHandles);
    FeasibleCons(lim, s3, ParentHandles, []);
    FeasibleCons(lim, s2, ExitEarly(pid), [ParentHandles]);
    FeasibleCons(lim, s1, ReportNew(pid), [ExitEarly(pid), ParentHandles]);
    FeasibleCons(lim, t, Accept(pid), [ReportNew(pid), ExitEarly(pid), ParentHandles]);
    schedule := [Accept(pid)] + [ReportNew(pid), ExitEarly(pid), ParentHandles];
    InvExec(lim, t, schedule);
  }

  /** Any number of such requests up to `hi + 1`, one after the other. */
  lemma {:induction false} BadRequests(lim: Limits, k: nat) returns (schedule: seq<Event>)
    requires lim.Valid() && k <= lim.hi + 1
    ensures Feasible(lim, Init(lim), schedule)
    ensures var t := Exec(lim, Init(lim), schedule);
      Inv(lim, t) && Drained(t) && t.Count(ExitedEarly) == k
  {
    InitInv(lim);
    if k == 0 {
      schedule := [];
      AllAccepting(lim.lo, ExitedEarly);
      AllAccepting(lim.lo, Accepted);
      AllAccepting(lim.lo, Serving);
      AllAccepting(lim.lo, Waiting);
    } else {
      hide Step, Exec, Feasible, Inv, Tally;
      var before := BadRequests(lim, k - 1);
      var t := Exec(lim, Init(lim), before);
      DrainedValues(lim, t);
      TallyMember(t.phases, Accepting);
      var more := OneBadRequest(lim, t);
      FeasibleAppend(lim, Init(lim), before, more);
      schedule := before + more;
    }
  }

  /** Every number of early exits up to the bound is reached, and at the bound no process of the
    * pool can do anything at all, not even accept. */
  lemma PoolCanDie(lim: Limits, k: nat) returns (s: State)
    requires lim.Valid() && k <= lim.hi + 1
    ensures Reachable(lim, s) && s.Count(ExitedEarly) == k
    ensures k == lim.hi + 1 ==> forall e: Event :: !Enabled(s, e)
  {
    hide Step, Exec, Feasible, Tally;
    var schedule := BadRequests(lim, k);
    s := Exec(lim, Init(lim), schedule);
    if k == lim.hi + 1 {
      EarlyExitBound(lim, s);
      StuckIffDrained(s);
      TallyMember(s.phases, Accepting);
    }
  }

  // ---- The controller loop that outlives failed forks ----

  /** The counters of the server's own process mode, and the commands it has written. */
  class Controller {
    const lim: Limits
    var reqNum: int
    var childNum: int
    var commands: seq<Command>

    ghost function Now(): Counters
      reads this
    {
      Counters(reqNum, childNum)
    }

    constructor (size: nat)
      ensures lim == Limits(size, size) && Now() == Counters(0, size) && commands == []
    {
      lim := Limits(size, size);
      reqNum, childNum, commands := 0, size, [];
    }

    /** One report; `forks` says whether a fork would succeed now. */
    method LoopBody(status: Status, forks: bool)
      modifies this
      ensures Now() == CountReport(lim, old(Now()), status, forks)
      ensures commands == old(commands) +
        if status == New then []
        else [if MustRetire(lim, old(Now())) then Exit else Continue]
    {
      if status == New {
        reqNum := reqNum + 1;
        if reqNum >= childNum && childNum <= lim.hi {
          if forks {
            childNum := childNum + 1;
          }
        }
      } else if status == Finished {
        reqNum := reqNum - 1;
        if childNum > reqNum + 1 && childNum > lim.lo {
          commands := commands + [Exit];
          childNum := childNum - 1;
        } else {
          commands := commands + [Continue];
        }
      }
    }

    /** Any sequence of reports: the pool falls short of what the load asks for by exactly the
      * largest suffix balance; it has its size or one more, and exactly what the load asks for if
      * no fork fails. */
    method HandleAll(handled: seq<(Status, bool)>)
      requires lim.Valid() && lim.lo == lim.hi && Now() == Counters(0, lim.lo)
      modifies this
      ensures Now() == CountReports(lim, old(Now()), handled)
      ensures reqNum == Load(0, handled)
      ensures childNum
           == (if reqNum >= lim.lo then lim.lo + 1 else lim.lo) - Peak(lim, 0, handled)
      ensures lim.lo <= childNum <= if reqNum >= lim.lo then lim.lo + 1 else lim.lo
      ensures (forall h :: h in handled ==> h.1) ==>
        childNum == if reqNum >= lim.lo then lim.lo + 1 else lim.lo
    {
      FailedForks(lim, Now(), handled);
      PeakIs(lim, 0, handled);
      assert handled[..0] == [] && handled[0..] == handled;
      assert SuffixBalance(lim, 0, handled, 0) == Balance(lim, 0, handled);
      if forall h :: h in handled ==> h.1 { ClosedForm(lim, Now(), handled); }
      var k := 0;
      while k < |handled|
        invariant k <= |handled|
        invariant CountReports(lim, Now(), handled[k..]) == CountReports(lim, old(Now()), handled)
      {
        assert handled[k..][0] == handled[k] && handled[k..][1..] == handled[k + 1..];
        LoopBody(handled[k].0, handled[k].1);
        k := k + 1;
      }
    }
  }

  // ---- The loop bodies, over shared channels ----

  /** The parent's variables, the two channels, and the point each child has reached. */
  class Pool {
    const lim: Limits
    var phases: seq<Phase>
    var reports: seq<Report>
    var commands: seq<Command>
    var reqNum: int
    var childNum: int

    ghost function Snapshot(): State
      reads this
    {
      State(phases, reports, commands, reqNum, childNum)
    }

    /** Pre-forks `lo` children. */
    constructor (lim: Limits)
      requires lim.Valid()
      ensures this.lim == lim && Snapshot() == Init(lim)
    {
      this.lim := lim;
      phases, reports, commands := [], [], [];
      reqNum, childNum := 0, lim.lo;
      new;
      var i := 0;
      while i < lim.lo
        invariant i <= lim.lo
        invariant phases == seq(i, _ => Accepting)
        invariant reports == [] && commands == [] && reqNum == 0 && childNum == lim.lo
      {
        phases := phases + [Accepting];
        i := i + 1;
      }
    }

    /** Reads one report; forks on a new request, answers a finished one. */
    method ParentLoopBody()
      requires reports != []
      modifies this
      ensures Snapshot() == Step(lim, old(Snapshot()), ParentHandles)
    {
      var rep := reports[0];
      reports := reports[1..];
      if rep.status == New {
        reqNum := reqNum + 1;
        if reqNum >= childNum && childNum <= lim.hi {
          phases := phases + [Accepting];
          childNum := childNum + 1;
        }
      } else if rep.status == Finished {
        reqNum := reqNum - 1;
        if childNum > reqNum + 1 && childNum > lim.lo {
          commands := commands + [Exit];
          childNum := childNum - 1;
        } else {
          commands := commands + [Continue];
        }
      }
    }

    method AcceptConnection(pid: nat)
      requires InPhase(Snapshot(), pid, Accepting)
      modifies this
      ensures Snapshot() == Step(lim, old(Snapshot()), Accept(pid))
    {
      phases := phases[pid := Accepted];
    }

    method WriteReport(pid: nat, status: Status)
      requires InPhase(Snapshot(), pid, if status == New then Accepted else Serving)
      modifies this
      ensures Snapshot() == Step(lim, old(Snapshot()),
                                 if status == New then ReportNew(pid) else Finish(pid))
    {
      reports := reports + [Report(pid, status)];
      phases := phases[pid := if status == New then Serving else Waiting];
    }

    method LeaveEarly(pid: nat)
      requires InPhase(Snapshot(), pid, Serving)
      modifies this
      ensures Snapshot() == Step(lim, old(Snapshot()), ExitEarly(pid))
    {
      phases := phases[pid := ExitedEarly];
    }

    /** Takes the oldest command, whichever child it was meant for. */
    method ReadCommand(pid: nat)
      requires InPhase(Snapshot(), pid, Waiting) && commands != []
      modifies this
      ensures Snapshot() == Step(lim, old(Snapshot()), TakeCommand(pid))
    {
      var comm := commands[0];
      commands := commands[1..];
      if comm == Exit {
        phases := phases[pid := Retired];
      } else {
        phases := phases[pid := Accepting];
      }
    }

    /** Any interleaving of the parent and its children. */
    method Run(schedule: seq<Event>)
      requires lim.Valid() && Inv(lim, Snapshot()) && Feasible(lim, Snapshot(), schedule)
      modifies this
      ensures Snapshot() == Exec(lim, old(Snapshot()), schedule) && Inv(lim, Snapshot())
    {
      hide Step, Inv;
      var k := 0;
      while k < |schedule|
        invariant k <= |schedule| && Inv(lim, Snapshot())
        invariant Feasible(lim, Snapshot(), schedule[k..])
        invariant Exec(lim, Snapshot(), schedule[k..]) == Exec(lim, old(Snapshot()), schedule)
      {
        var e := schedule[k];
        assert schedule[k..][0] == e && schedule[k..][1..] == schedule[k + 1..];
        InvStep(lim, Snapshot(), e);
        match e {
          case Accept(pid) => AcceptConnection(pid);
          case ReportNew(pid) => WriteReport(pid, New);
          case Finish(pid) => WriteReport(pid, Finished);
          case ExitEarly(pid) => LeaveEarly(pid);
          case TakeCommand(pid) => ReadCommand(pid);
          case ParentHandles => ParentLoopBody();
        }
        k := k + 1;
      }
    }
  }
}
