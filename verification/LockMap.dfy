/** The per-project lock that wraps every callback: tasks of one event loop, interleaved where they await. */
module LockMap {
  type Task = nat

  /** An asyncio lock: whether it is taken, the tasks that wait for it in order, and whether a
      release has already woken the first of them. `id` tells lock objects apart. */
  datatype Lock = Lock(id: nat, locked: bool, waiters: seq<Task>, woken: bool)

  datatype Phase = Waiting | Running | Finished

  /** The lock map, the number of locks created so far, every started task with its project and
      phase, and per project the tasks in order of arrival and of entry into the protected body. */
  datatype State = State(
    locks: map<string, Lock>,
    created: nat,
    project: map<Task, string>,
    phase: map<Task, Phase>,
    arrived: map<string, seq<Task>>,
    entered: map<string, seq<Task>>)

  datatype Action =
    | Start(task: Task, id: string)
    | Resume(task: Task)
    | Finish(task: Task)

  const INITIAL := State(map[], 0, map[], map[], map[], map[])

  function Order(m: map<string, seq<Task>>, p: string): seq<Task> {
    if p in m then m[p] else []
  }

  predicate Enabled(s: State, a: Action) {
    match a
    case Start(t, _) => t !in s.phase
    case Resume(t) =>
      && t in s.phase && t in s.project && s.phase[t] == Waiting
      && s.project[t] in s.locks
      && var l := s.locks[s.project[t]];
      l.woken && l.waiters != [] && l.waiters[0] == t
    case Finish(t) =>
      t in s.phase && t in s.project && s.phase[t] == Running && s.project[t] in s.locks
  }

  /** Enter the protected body with a lock that is now taken. */
  function Enter(s: State, t: Task, p: string, l: Lock): State {
    s.(locks := s.locks[p := l.(locked := true)],
       project := s.project[t := p],
       phase := s.phase[t := Running],
       entered := s.entered[p := Order(s.entered, p) + [t]])
  }

  /** `acquire_project_atomic_lock`, from the lookup to the first await or into the body. */
  function StartTask(s: State, t: Task, p: string): State {
    var s := s.(arrived := s.arrived[p := Order(s.arrived, p) + [t]]);
    if p !in s.locks then
      Enter(s.(created := s.created + 1), t, p, Lock(s.created, false, [], false))
    else if !s.locks[p].locked && s.locks[p].waiters == [] then
      Enter(s, t, p, s.locks[p])
    else
      s.(locks := s.locks[p := s.locks[p].(waiters := s.locks[p].waiters + [t])],
         project := s.project[t := p],
         phase := s.phase[t := Waiting])
  }

  /** One step of the event loop; an action that is not enabled does nothing. */
  function Step(s: State, a: Action): State {
    if !Enabled(s, a) then s
    else match a
      case Start(t, p) => StartTask(s, t, p)
      case Resume(t) =>
        var l := s.locks[s.project[t]];
        Enter(s, t, s.project[t], l.(waiters := l.waiters[1..], woken := false))
      case Finish(t) =>
        var p := s.project[t];
        s.(locks := s.locks[p := s.locks[p].(locked := false, woken := s.locks[p].waiters != [])],
           phase := s.phase[t := Finished])
  }

  function Run(s: State, actions: seq<Action>): State
    decreases |actions|
  {
    if actions == [] then s else Step(Run(s, actions[..|actions| - 1]), actions[|actions| - 1])
  }

  predicate IsRunning(s: State, t: Task, p: string) {
    t in s.phase && t in s.project && s.project[t] == p && s.phase[t] == Running
  }

  ghost predicate LockInv(s: State, p: string) {
    if p in s.locks then
      var l := s.locks[p];
      && l.id < s.created
      && (l.locked <==> exists t :: IsRunning(s, t, p))
      && (forall t, u :: IsRunning(s, t, p) && IsRunning(s, u, p) ==> t == u)
      && (l.woken <==> !l.locked && l.waiters != [])
      && (forall i | 0 <= i < |l.waiters| ::
            var t := l.waiters[i]; t in s.phase && t in s.project && s.project[t] == p && s.phase[t] == Waiting)
      && (forall i, j | 0 <= i < j < |l.waiters| :: l.waiters[i] != l.waiters[j])
      && Order(s.arrived, p) == Order(s.entered, p) + l.waiters
    else
      (forall t :: !IsRunning(s, t, p)) && Order(s.arrived, p) == Order(s.entered, p)
  }

  ghost predicate Inv(s: State) {
    && s.project.Keys == s.phase.Keys
    && (forall p :: LockInv(s, p))
    && (forall p, q | p in s.locks && q in s.locks && s.locks[p].id == s.locks[q].id :: p == q)
  }

  lemma StepKeepsInv(s: State, a: Action)
    requires Inv(s)
    ensures Inv(Step(s, a))
  {
    hide LockInv, StartTask, Enter;
    if Enabled(s, a) {
      forall p ensures LockInv(Step(s, a), p) {
        if p == ProjectOf(s, a) {
          OwnProject(s, a, p);
        } else {
          ElsewhereKeepsInv(s, a, p);
        }
      }
      IdsStayDistinct(s, a);
      SameTasks(s, a);
    }
  }

  lemma SameTasks(s: State, a: Action)
    requires s.project.Keys == s.phase.Keys
    ensures Step(s, a).project.Keys == Step(s, a).phase.Keys
  {
  }

  /** The project that an action is about. */
  function ProjectOf(s: State, a: Action): string
    requires s.project.Keys == s.phase.Keys && Enabled(s, a)
  {
    if a.Start? then a.id else s.project[a.task]
  }

  /** An action changes one task, and the lock of its project. */
  lemma StepTouches(s: State, a: Action)
    requires s.project.Keys == s.phase.Keys && Enabled(s, a)
    ensures var s', t, p0 := Step(s, a), a.task, ProjectOf(s, a);
            && s'.project == s.project[t := p0]
            && t in s'.phase && s'.phase == s.phase[t := s'.phase[t]]
            && p0 in s'.locks && s'.locks == s.locks[p0 := s'.locks[p0]]
            && (if p0 in s.locks then s'.locks[p0].id == s.locks[p0].id && s'.created == s.created
                else s'.locks[p0].id == s.created && s'.created == s.created + 1)
  {
    hide Order;
    if !a.Start? {
      assert s.project[a.task := s.project[a.task]] == s.project;
    }
  }

  lemma StepQueues(s: State, a: Action, p: string)
    requires s.project.Keys == s.phase.Keys && Enabled(s, a) && p != ProjectOf(s, a)
    ensures var s' := Step(s, a);
            Order(s'.arrived, p) == Order(s.arrived, p) && Order(s'.entered, p) == Order(s.entered, p)
  {
  }

  lemma ElsewhereKeepsInv(s: State, a: Action, p: string)
    requires LockInv(s, p) && s.project.Keys == s.phase.Keys && Enabled(s, a) && p != ProjectOf(s, a)
    ensures LockInv(Step(s, a), p)
  {
    hide LockInv, IsRunning, Step;
    StepTouches(s, a);
    StepQueues(s, a, p);
    OtherProject(s, Step(s, a), p, a.task, ProjectOf(s, a));
  }

  lemma IdsStayDistinct(s: State, a: Action)
    requires Inv(s) && Enabled(s, a)
    ensures var s' := Step(s, a);
            forall p, q | p in s'.locks && q in s'.locks && s'.locks[p].id == s'.locks[q].id :: p == q
  {
    hide IsRunning, Step, Enabled;
    forall p | p in s.locks ensures s.locks[p].id < s.created {
      assert LockInv(s, p);
    }
    hide LockInv;
    StepTouches(s, a);
  }

  lemma OtherProject(s: State, s': State, p: string, t: Task, p0: string)
    requires LockInv(s, p) && p != p0
    requires s.project.Keys == s.phase.Keys
    requires t in s.project ==> s.project[t] == p0
    requires s'.project == s.project[t := p0]
    requires t in s'.phase && s'.phase == s.phase[t := s'.phase[t]]
    requires p in s'.locks <==> p in s.locks
    requires p in s.locks ==> s'.locks[p] == s.locks[p]
    requires s'.created >= s.created
    requires Order(s'.arrived, p) == Order(s.arrived, p) && Order(s'.entered, p) == Order(s.entered, p)
    ensures LockInv(s', p)
  {
    forall u ensures IsRunning(s', u, p) <==> IsRunning(s, u, p) {
    }
  }

  lemma OwnProject(s: State, a: Action, p: string)
    requires Inv(s) && Enabled(s, a) && LockInv(s, p) && p == ProjectOf(s, a)
    ensures LockInv(Step(s, a), p)
  {
    hide LockInv;
    match a {
      case Start(t, _) => Started(s, t, p);
      case Resume(t) => Resumed(s, t, p);
      case Finish(t) => Done(s, t, p);
    }
  }

  /** All waiters of a lock are distinct waiting tasks of its project, other than t. */
  ghost predicate QueueOk(s: State, p: string, waiters: seq<Task>, t: Task) {
    && (forall i | 0 <= i < |waiters| ::
          var u := waiters[i]; u != t && u in s.phase && u in s.project && s.project[u] == p && s.phase[u] == Waiting)
    && (forall i, j | 0 <= i < j < |waiters| :: waiters[i] != waiters[j])
  }

  lemma Entering(s: State, s': State, t: Task, p: string, l: Lock)
    requires s.project.Keys == s.phase.Keys && (forall u :: !IsRunning(s, u, p))
    requires QueueOk(s, p, l.waiters, t) && !l.woken && l.locked && l.id < s'.created
    requires s'.project == s.project[t := p] && s'.phase == s.phase[t := Running]
    requires p in s'.locks && s'.locks[p] == l
    requires Order(s'.arrived, p) == Order(s'.entered, p) + l.waiters
    ensures LockInv(s', p)
  {
    forall u ensures IsRunning(s', u, p) <==> u == t {
      assert !IsRunning(s, u, p);
    }
    assert IsRunning(s', t, p);
  }

  lemma Queueing(s: State, s': State, t: Task, p: string)
    requires LockInv(s, p) && t !in s.phase && s.project.Keys == s.phase.Keys
    requires p in s.locks && (s.locks[p].locked || s.locks[p].waiters != [])
    requires s' == StartTask(s, t, p)
    ensures LockInv(s', p)
  {
    forall u ensures IsRunning(s', u, p) <==> IsRunning(s, u, p) {
    }
    assert Order(s'.arrived, p) == Order(s'.entered, p) + s'.locks[p].waiters;
  }

  lemma Started(s: State, t: Task, p: string)
    requires LockInv(s, p) && t !in s.phase && s.project.Keys == s.phase.Keys
    ensures LockInv(StartTask(s, t, p), p)
  {
    var s' := StartTask(s, t, p);
    if p in s.locks && (s.locks[p].locked || s.locks[p].waiters != []) {
      Queueing(s, s', t, p);
    } else {
      assert Order(s'.arrived, p) == Order(s'.entered, p) + [];
      Entering(s, s', t, p, s'.locks[p]);
    }
  }

  lemma Resumed(s: State, t: Task, p: string)
    requires LockInv(s, p) && Enabled(s, Resume(t)) && s.project[t] == p && s.project.Keys == s.phase.Keys
    ensures LockInv(Step(s, Resume(t)), p)
  {
    hide IsRunning, StartTask;
    var s', l := Step(s, Resume(t)), s.locks[p];
    assert l.waiters == [t] + l.waiters[1..];
    forall i | 0 <= i < |l.waiters[1..]| ensures l.waiters[1..][i] == l.waiters[i + 1] && l.waiters[i + 1] != t {
    }
    assert Order(s'.arrived, p) == Order(s'.entered, p) + l.waiters[1..];
    Entering(s, s', t, p, s'.locks[p]);
  }

  lemma Done(s: State, t: Task, p: string)
    requires LockInv(s, p) && Enabled(s, Finish(t)) && s.project[t] == p
    ensures LockInv(Step(s, Finish(t)), p)
  {
    var s' := Step(s, Finish(t));
    forall u | u != t ensures IsRunning(s', u, p) <==> IsRunning(s, u, p) {
    }
    assert IsRunning(s, t, p) && !IsRunning(s', t, p);
  }

  lemma {:induction false} EveryRunKeepsInv(actions: seq<Action>)
    ensures Inv(Run(INITIAL, actions))
    decreases |actions|
  {
    if actions != [] {
      EveryRunKeepsInv(actions[..|actions| - 1]);
      StepKeepsInv(Run(INITIAL, actions[..|actions| - 1]), actions[|actions| - 1]);
    }
  }

  /** At most one task per project is inside the protected body. */
  lemma MutualExclusion(actions: seq<Action>, p: string, t: Task, u: Task)
    requires IsRunning(Run(INITIAL, actions), t, p) && IsRunning(Run(INITIAL, actions), u, p)
    ensures t == u
  {
    EveryRunKeepsInv(actions);
    assert LockInv(Run(INITIAL, actions), p);
  }

  /** Callbacks of a project enter the body in the order in which they started, and a waiting
      callback is never forgotten: someone is inside, or the first waiter can go on. */
  lemma FirstComeFirstServed(actions: seq<Action>, p: string)
    ensures var s := Run(INITIAL, actions);
            && Order(s.entered, p) <= Order(s.arrived, p)
            && (Order(s.entered, p) != Order(s.arrived, p) ==>
                  (exists t :: IsRunning(s, t, p)) ||
                  Enabled(s, Resume(Order(s.arrived, p)[|Order(s.entered, p)|])))
  {
    EveryRunKeepsInv(actions);
    assert LockInv(Run(INITIAL, actions), p);
  }

  lemma StepKeepsLock(s: State, a: Action, p: string)
    requires p in s.locks
    ensures p in Step(s, a).locks && Step(s, a).locks[p].id == s.locks[p].id
  {
  }

  /** A project's lock is created once, is never replaced, and belongs to that project alone. */
  lemma {:induction false} LockIsForever(actions: seq<Action>, more: seq<Action>, p: string)
    requires p in Run(INITIAL, actions).locks
    ensures var now, later := Run(INITIAL, actions), Run(Run(INITIAL, actions), more);
            && p in later.locks && later.locks[p].id == now.locks[p].id
            && Run(INITIAL, actions + more) == later
            && (forall q | q in later.locks && later.locks[q].id == now.locks[p].id :: q == p)
    decreases |more|
  {
    hide LockInv, Step;
    if more == [] {
      assert actions + more == actions;
    } else {
      var m := |more| - 1;
      LockIsForever(actions, more[..m], p);
      StepKeepsLock(Run(Run(INITIAL, actions), more[..m]), more[m], p);
      assert (actions + more)[..|actions + more| - 1] == actions + more[..m];
    }
    EveryRunKeepsInv(actions + more);
  }

  // --- what an action does --------------------------------------------------------------

  /** Nobody is inside the body of the project, and everybody who came has been. */
  ghost predicate Free(s: State, p: string) {
    (forall t :: !IsRunning(s, t, p)) && Order(s.entered, p) == Order(s.arrived, p)
  }

  /** A task that starts goes right in when its project is free, and waits otherwise, at the end of the line. */
  ghost predicate StartsRight(s: State, s': State, t: Task, p: string) {
    && Order(s'.arrived, p) == Order(s.arrived, p) + [t]
    && Order(s'.entered, p) == Order(s.entered, p) + (if Free(s, p) then [t] else [])
    && t in s'.phase && s'.phase[t] == (if Free(s, p) then Running else Waiting)
  }

  lemma StartDoes(s: State, t: Task, p: string)
    requires LockInv(s, p) && s.project.Keys == s.phase.Keys && t !in s.phase
    ensures StartsRight(s, Step(s, Start(t, p)), t, p)
  {
    hide IsRunning;
    if p in s.locks {
      var l := s.locks[p];
      assert Free(s, p) <==> !l.locked && l.waiters == [] by {
        assert |Order(s.arrived, p)| == |Order(s.entered, p)| + |l.waiters|;
      }
    }
  }

  /** The first of those who came and have not been inside. */
  predicate NextInLine(s: State, t: Task, p: string) {
    var n := |Order(s.entered, p)|;
    n < |Order(s.arrived, p)| && Order(s.arrived, p)[n] == t
  }

  /** The first in line goes in, once nobody is inside. */
  ghost predicate EntersInTurn(s: State, s': State, t: Task, p: string) {
    && Order(s'.arrived, p) == Order(s.arrived, p)
    && if NextInLine(s, t, p) && forall u :: !IsRunning(s, u, p) then
         s'.phase == s.phase[t := Running] && Order(s'.entered, p) == Order(s.entered, p) + [t]
       else s' == s
  }

  lemma ResumeDoes(s: State, t: Task, p: string)
    requires LockInv(s, p) && s.project.Keys == s.phase.Keys && t in s.phase && s.project[t] == p
    requires s.phase[t] == Waiting ==> p in s.locks && t in s.locks[p].waiters
    ensures s.phase[t] == Waiting ==> EntersInTurn(s, Step(s, Resume(t)), t, p)
    ensures s.phase[t] != Waiting ==> Step(s, Resume(t)) == s
  {
    hide IsRunning;
    if s.phase[t] == Waiting {
      var l := s.locks[p];
      assert Order(s.arrived, p) == Order(s.entered, p) + l.waiters;
      assert NextInLine(s, t, p) <==> l.waiters[0] == t;
    }
  }

  lemma FinishDoes(s: State, t: Task, p: string)
    requires LockInv(s, p) && s.project.Keys == s.phase.Keys && t in s.phase && s.project[t] == p
    ensures var s' := Step(s, Finish(t));
            if s.phase[t] == Running then
              && s'.phase == s.phase[t := Finished]
              && s'.entered == s.entered && s'.arrived == s.arrived
            else s' == s
  {
    if s.phase[t] == Running {
      assert IsRunning(s, t, p);
    }
  }

  lemma OthersStay(s: State, a: Action, u: Task)
    requires u in s.phase && u != a.task
    ensures u in Step(s, a).phase && Step(s, a).phase[u] == s.phase[u]
  {
  }

  /** Whoever waits stands in line. */
  lemma {:induction false} WaitersStandInLine(actions: seq<Action>, t: Task)
    ensures var s := Run(INITIAL, actions);
            t in s.phase && t in s.project && s.phase[t] == Waiting ==>
              s.project[t] in s.locks && t in s.locks[s.project[t]].waiters
    decreases |actions|
  {
    if actions != [] {
      var n := |actions| - 1;
      WaitersStandInLine(actions[..n], t);
      EveryRunKeepsInv(actions[..n]);
      WaiterStays(Run(INITIAL, actions[..n]), actions[n], t);
    }
  }

  lemma WaiterStays(s: State, a: Action, t: Task)
    requires s.project.Keys == s.phase.Keys
    requires t in s.phase && s.phase[t] == Waiting ==> s.project[t] in s.locks && t in s.locks[s.project[t]].waiters
    ensures var s' := Step(s, a);
            t in s'.phase && t in s'.project && s'.phase[t] == Waiting ==>
              s'.project[t] in s'.locks && t in s'.locks[s'.project[t]].waiters
  {
    if Enabled(s, a) {
      StepTouches(s, a);
      if t in s.phase && t != a.task && s.phase[t] == Waiting && s.project[t] == ProjectOf(s, a) {
        var l := s.locks[s.project[t]];
        assert l.waiters != [];
        assert l.waiters == [l.waiters[0]] + l.waiters[1..];
      }
    }
  }

  /** In every state of every run: a task that starts is recorded as arrived, and goes in or waits, as is its due.
      Of those who wait the first in line, and nobody else, can go in, once nobody is inside. A task that is inside
      can leave. No action changes the phase of another task. */
  lemma ActionsDo(actions: seq<Action>, a: Action)
    ensures var s := Run(INITIAL, actions);
            var s', t := Step(s, a), a.task;
            && (forall u | u in s.phase && u != t :: u in s'.phase && s'.phase[u] == s.phase[u])
            && (t in s.phase <==> t in s.project)
            && match a
               case Start(_, p) => if t in s.phase then s' == s else StartsRight(s, s', t, p)
               case Resume(_) =>
                 if t in s.phase && s.phase[t] == Waiting then EntersInTurn(s, s', t, s.project[t]) else s' == s
               case Finish(_) =>
                 if t in s.phase && s.phase[t] == Running
                 then s'.phase == s.phase[t := Finished] && s'.entered == s.entered && s'.arrived == s.arrived
                 else s' == s
  {
    var s := Run(INITIAL, actions);
    EveryRunKeepsInv(actions);
    WaitersStandInLine(actions, a.task);
    forall u | u in s.phase && u != a.task ensures u in Step(s, a).phase && Step(s, a).phase[u] == s.phase[u] {
      OthersStay(s, a, u);
    }
    assert s.project.Keys == s.phase.Keys;
    assert a.task in s.phase <==> a.task in s.project.Keys;
    hide LockInv, StartsRight, EntersInTurn;
    match a {
      case Start(t, p) =>
        assert LockInv(s, p);
        if t !in s.phase {
          StartDoes(s, t, p);
        }
      case Resume(t) =>
        if t in s.phase {
          assert LockInv(s, s.project[t]);
          ResumeDoes(s, t, s.project[t]);
        }
      case Finish(t) =>
        if t in s.phase {
          assert LockInv(s, s.project[t]);
          FinishDoes(s, t, s.project[t]);
        }
    }
  }
}
