/** The lock map always counts the live guards, and a hand-off never lets go (store.rs:75-102, build.rs:130-213). */
module StoreLocks {
  import opened Prelude
  import opened StoreMachine

  // ----- live guards -----

  function Is(a: Path, p: Path): int { if a == p then 1 else 0 }

  function Same(p: Path): Path -> int { (a: Path) => Is(a, p) }

  /** Guards of p that a request holds. */
  ghost function Held(t: Task, p: Path): int {
    match t
    case Opening(_, path) => Is(path, p)
    case Reading(path) => Is(path, p)
    case Naming(_, _, last) => if last.Some? then Is(last.value, p) else 0
    case Creating(_, _, prior, temp) => (if prior.Some? then Is(prior.value, p) else 0) + Is(temp, p)
    case Uploading(_, temp) => Is(temp, p)
    case Copying(_, temp, final) => Is(temp, p) + Is(final, p)
    case Committed(_, temp, final) => Is(temp, p) + Is(final, p)
    case Inserting(_, path) => Is(path, p)
    case Starting(_, spec, n, kept) => Total(spec[..Min(n, |spec|)], Same(p)) + if p in kept then 1 else 0
    case Releasing(_, guards, kept) => Total(guards, Same(p)) + if p in kept then 1 else 0
    case _ => 0
  }

  ghost function InTask(p: Path): Task -> int { (t: Task) => Held(t, p) }

  function InBuild(p: Path): Build -> int {
    (b: Build) => if b.locks.Some? && p in b.locks.value then 1 else 0
  }

  /** Live guards of p, wherever they are. */
  ghost function Live(s: State, p: Path): int {
    Total(s.tasks, InTask(p)) + Total(s.pending, InBuild(p)) + Total(s.started, Same(p))
  }

  function Count(locks: map<Path, nat>, p: Path): nat { if p in locks then locks[p] else 0 }

  /** The lock map holds exactly the number of live guards, no entry where there are none, and nothing was freed in excess. */
  ghost predicate Counted(s: State) {
    && !s.warned
    && (forall p :: Live(s, p) == Count(s.locks, p))
    && (forall p :: p in s.locks ==> 0 < s.locks[p])
  }

  // ----- the mutex of a pending build -----

  function HoldsMutex(b: nat): Task -> int {
    (t: Task) => if
      match t
      case Opening(posting, _) => posting == Some(b)
      case Releasing(posting, _, _) => posting == Some(b)
      case Free => false
      case Reading(_) => false
      case Waiting(_) => false
      case Taking(_, _) => false
      case Starting(_, _, _, _) => false
      case _ => t.b == b
    then 1 else 0
  }

  /** One request at a time holds a build's mutex, and then the build has not been taken. */
  ghost predicate Exclusive(s: State) {
    forall b :: 0 <= b < |s.pending| ==>
      Total(s.tasks, HoldsMutex(b)) == (if s.pending[b].busy then 1 else 0) &&
      (s.pending[b].busy ==> s.pending[b].locks.Some?)
  }

  // ----- one step, seen from its request -----

  ghost function Delta(op: LockOp, p: Path): int {
    match op
    case Keep => 0
    case Take(path) => Is(path, p)
    case Give(path) => -Is(path, p)
  }

  lemma HeldNonNegative(t: Task, p: Path)
    ensures Held(t, p) >= 0
  {
    match t
    case Starting(_, spec, n, _) => TotalAtLeast(spec[..Min(n, |spec|)], Same(p));
    case Releasing(_, guards, _) => TotalAtLeast(guards, Same(p));
    case _ =>
  }

  lemma TotalOfFew(guards: seq<Path>, p: Path)
    ensures |guards| == 0 ==> Total(guards, Same(p)) == 0
    ensures |guards| == 1 ==> Total(guards, Same(p)) == Is(guards[0], p)
    ensures |guards| == 2 ==> Total(guards, Same(p)) == Is(guards[0], p) + Is(guards[1], p)
  {
    if |guards| == 2 {
      assert guards[..1][..0] == [];
    }
  }

  lemma OneMoreTaken(spec: seq<Path>, n: nat, p: Path)
    requires n < |spec|
    ensures Total(spec[..n + 1], Same(p)) == Total(spec[..n], Same(p)) + Is(spec[n], p)
  {
    assert spec[..n + 1][..n] == spec[..n];
  }

  lemma StartingBalances(t: Task, m: Move, build: Build, p: Path)
    requires t.Starting? && Act(t, m, build).Some?
    ensures var e := Act(t, m, build).value;
      Held(e.task, p) + Total(e.starts, Same(p)) == Held(t, p) + Delta(e.op, p) && e.build == build
  {
    hide Total;
    var n := t.taken;
    if n < |t.spec| {
      OneMoreTaken(t.spec, n, p);
    } else {
      assert t.spec[..n] == t.spec;
    }
    assert Total([], Same(p)) == 0 by { TotalOfFew([], p); }
  }

  lemma ReleasingBalances(t: Task, m: Move, build: Build, p: Path)
    requires t.Releasing? && Act(t, m, build).Some?
    ensures var e := Act(t, m, build).value;
      Held(e.task, p) == Held(t, p) + Delta(e.op, p) && e.starts == [] && e.build.locks == build.locks
  {
    if t.guards != [] {
      TotalTail(t.guards, Same(p));
    }
  }

  lemma LettingGoBalances(t: Task, m: Move, build: Build, p: Path)
    requires !t.Starting? && !t.Releasing? && Act(t, m, build).Some? && Act(t, m, build).value.task.Releasing?
    ensures var e := Act(t, m, build).value;
      Held(e.task, p) + InBuild(p)(e.build) == Held(t, p) + InBuild(p)(build) + Delta(e.op, p) && e.starts == []
    ensures var e := Act(t, m, build).value; e.op == Give(p) ==> Held(t, p) >= 1
  {
    TotalOfFew(Act(t, m, build).value.task.guards, p);
  }

  /** Guards move about but are only made by taking a lock and only go by giving one back. */
  lemma ActBalances(t: Task, m: Move, build: Build, p: Path)
    requires Act(t, m, build).Some?
    ensures var e := Act(t, m, build).value;
      Held(e.task, p) + InBuild(p)(e.build) + Total(e.starts, Same(p)) == Held(t, p) + InBuild(p)(build) + Delta(e.op, p)
    ensures var e := Act(t, m, build).value; e.op == Give(p) ==> Held(t, p) >= 1
  {
    var e := Act(t, m, build).value;
    if t.Starting? {
      StartingBalances(t, m, build, p);
    } else if t.Releasing? {
      ReleasingBalances(t, m, build, p);
      HeldNonNegative(e.task, p);
    } else if e.task.Releasing? {
      LettingGoBalances(t, m, build, p);
    }
  }

  // ----- one step -----

  lemma AllLive(s: State, p: Path)
    ensures Total(s.pending, InBuild(p)) >= 0 && Total(s.started, Same(p)) >= 0
    ensures Total(s.tasks, InTask(p)) >= 0
    ensures forall i :: 0 <= i < |s.tasks| ==> Held(s.tasks[i], p) <= Total(s.tasks, InTask(p))
    ensures forall b :: 0 <= b < |s.pending| ==> InBuild(p)(s.pending[b]) <= Total(s.pending, InBuild(p))
    ensures p in s.started ==> Total(s.started, Same(p)) >= 1
  {
    forall t | t in s.tasks
      ensures 0 <= InTask(p)(t)
    {
      HeldNonNegative(t, p);
    }
    TotalAtLeast(s.tasks, InTask(p));
    TotalAtLeast(s.pending, InBuild(p));
    TotalAtLeast(s.started, Same(p));
    forall i | 0 <= i < |s.tasks|
      ensures Held(s.tasks[i], p) <= Total(s.tasks, InTask(p))
    {
      assert InTask(p)(s.tasks[i]) <= Total(s.tasks, InTask(p));
    }
    assert p in s.started ==> Same(p)(p) == 1;
  }

  lemma NoBuildKept(t: Task, m: Move, p: Path)
    requires Target(t, m).None? && Act(t, m, NO_BUILD).Some?
    ensures InBuild(p)(Act(t, m, NO_BUILD).value.build) == 0
  {
  }

  lemma Balances(s: State, a: Action, s': State, p: Path)
    requires Step(s, a) == Some(s')
    ensures Live(s', p) == Live(s, p) + Delta(EffectOf(s, a).value.op, p)
    ensures EffectOf(s, a).value.op == Give(p) ==> Live(s, p) >= 1
  {
    var t, b, e := s.tasks[a.task], Target(s.tasks[a.task], a.move), EffectOf(s, a).value;
    ActBalances(t, a.move, if b.Some? then s.pending[b.value] else NO_BUILD, p);
    TotalUpdate(s.tasks, InTask(p), a.task, e.task);
    if b.Some? {
      TotalUpdate(s.pending, InBuild(p), b.value, e.build);
    } else {
      NoBuildKept(t, a.move, p);
    }
    TotalAppend(s.started, e.starts, Same(p));
    AllLive(s, p);
    assert Held(t, p) <= Total(s.tasks, InTask(p));
  }

  lemma CountChanges(locks: map<Path, nat>, op: LockOp, p: Path)
    requires forall q :: q in locks ==> 0 < locks[q]
    requires op.Give? ==> op.path in locks
    ensures Count(Apply(locks, op), p) == Count(locks, p) + Delta(op, p)
    ensures p in Apply(locks, op) ==> 0 < Apply(locks, op)[p]
  {
  }

  lemma StepKeepsCounted(s: State, a: Action, s': State)
    requires Counted(s) && Step(s, a) == Some(s')
    ensures Counted(s')
  {
    var op := EffectOf(s, a).value.op;
    if op.Give? {
      Balances(s, a, s', op.path);
      assert Count(s.locks, op.path) >= 1;
    }
    forall p
      ensures Live(s', p) == Count(s'.locks, p)
      ensures p in s'.locks ==> 0 < s'.locks[p]
    {
      Balances(s, a, s', p);
      CountChanges(s.locks, op, p);
    }
  }

  // ----- the mutex -----

  /** What a step does with the mutex of a build. */
  lemma ActMutex(t: Task, m: Move, build: Build, b: nat)
    requires Act(t, m, build).Some?
    requires HoldsMutex(b)(t) == 1 ==> build.busy && build.locks.Some?
    ensures var e := Act(t, m, build).value;
      Target(t, m) != Some(b) ==> HoldsMutex(b)(t) == 0 && HoldsMutex(b)(e.task) == 0
    ensures var e := Act(t, m, build).value;
      Target(t, m) == Some(b) ==>
        HoldsMutex(b)(e.task) - HoldsMutex(b)(t) == (if e.build.busy then 1 else 0) - (if build.busy then 1 else 0)
        && (e.build.busy ==> (build.busy ==> build.locks.Some?) ==> e.build.locks.Some?)
  {
  }

  lemma StepKeepsExclusive(s: State, a: Action, s': State)
    requires Exclusive(s) && Step(s, a) == Some(s')
    ensures Exclusive(s')
  {
    var t, c, e := s.tasks[a.task], Target(s.tasks[a.task], a.move), EffectOf(s, a).value;
    var build := if c.Some? then s.pending[c.value] else NO_BUILD;
    forall b | 0 <= b < |s'.pending|
      ensures Total(s'.tasks, HoldsMutex(b)) == (if s'.pending[b].busy then 1 else 0)
      ensures s'.pending[b].busy ==> s'.pending[b].locks.Some?
    {
      TotalUpdate(s.tasks, HoldsMutex(b), a.task, e.task);
      TotalAtLeast(s.tasks, HoldsMutex(b));
      assert HoldsMutex(b)(t) <= Total(s.tasks, HoldsMutex(b));
      MutexTarget(t, a.move, b);
      ActMutex(t, a.move, build, b);
    }
  }

  lemma MutexTarget(t: Task, m: Move, b: nat)
    ensures HoldsMutex(b)(t) == 1 ==> Target(t, m) == Some(b)
  {
  }

  // ----- runs -----

  lemma InitCounted(s: State)
    requires Init(s)
    ensures Counted(s) && Exclusive(s)
  {
    forall p
      ensures Live(s, p) == 0
    {
      TotalNothing(s.tasks, InTask(p));
      TotalNothing(s.pending, InBuild(p));
    }
    forall b | 0 <= b < |s.pending|
      ensures Total(s.tasks, HoldsMutex(b)) == 0 && !s.pending[b].busy
    {
      TotalNothing(s.tasks, HoldsMutex(b));
      assert s.pending[b] in s.pending;
    }
  }

  /** Through any interleaving of any number of requests, whatever fails in them. */
  lemma {:induction false} RunKeepsCounted(s: State, run: seq<Action>)
    requires Counted(s) && Exclusive(s) && Exec(s, run).Some?
    ensures Counted(Exec(s, run).value) && Exclusive(Exec(s, run).value)
  {
    if run != [] {
      var before := run[..|run| - 1];
      RunKeepsCounted(s, before);
      StepKeepsCounted(Exec(s, before).value, run[|run| - 1], Exec(s, run).value);
      StepKeepsExclusive(Exec(s, before).value, run[|run| - 1], Exec(s, run).value);
    }
  }

  /** From a store without locks, in every run: the map counts the live guards, and the excess warning is never given. */
  lemma EveryRunCounted(s: State, run: seq<Action>)
    requires Init(s) && Exec(s, run).Some?
    ensures Counted(Exec(s, run).value) && Exclusive(Exec(s, run).value)
  {
    InitCounted(s);
    RunKeepsCounted(s, run);
  }

  /** Once all requests are done, what is left locked is what pending and started builds have locked. */
  lemma Quiescent(s: State, p: Path)
    requires Counted(s) && forall t :: t in s.tasks ==> t == Free
    ensures p in s.locks <==> (exists b :: b in s.pending && b.locks.Some? && p in b.locks.value) || p in s.started
    ensures Count(s.locks, p) == Total(s.pending, InBuild(p)) + Total(s.started, Same(p))
  {
    TotalNothing(s.tasks, InTask(p));
    AllLive(s, p);
    assert Live(s, p) == Count(s.locks, p);
    if Total(s.pending, InBuild(p)) > 0 {
      var i := TotalSomewhere(s.pending, InBuild(p));
      assert s.pending[i] in s.pending;
    }
    if Total(s.started, Same(p)) > 0 {
      var i := TotalSomewhere(s.started, Same(p));
    }
    forall b | b in s.pending && b.locks.Some? && p in b.locks.value
      ensures Total(s.pending, InBuild(p)) >= 1
    {
      var i :| 0 <= i < |s.pending| && s.pending[i] == b;
      assert InBuild(p)(s.pending[i]) == 1;
    }
  }

  // ----- the hand-off from a pending build to a started one -----

  /** The request that starts build b, with p still kept by it and p among the paths it locks for the build. */
  predicate HandsOver(t: Task, b: nat, p: Path) {
    t.Starting? && t.b == b && p in t.kept && p in t.spec
  }

  /** Build b has p locked, or is handing it over, or p has arrived. */
  ghost predicate Covered(s: State, b: nat, p: Path) {
    || (b < |s.pending| && InBuild(p)(s.pending[b]) == 1)
    || (exists i :: 0 <= i < |s.tasks| && HandsOver(s.tasks[i], b, p))
    || p in s.started
  }

  /** The build is only started with p among its paths, and does not fail to start. */
  predicate Favourable(s: State, a: Action, b: nat, p: Path) {
    a.task < |s.tasks| ==>
      var t := s.tasks[a.task];
      (t.Taking? && t.b == b ==> p in t.spec) && (t.Starting? && t.b == b ==> a.move != Fail)
  }

  lemma CoveredIsLocked(s: State, b: nat, p: Path)
    requires Counted(s) && Covered(s, b, p)
    ensures p in s.locks && s.locks[p] >= 1
  {
    AllLive(s, p);
    if i :| 0 <= i < |s.tasks| && HandsOver(s.tasks[i], b, p) {
      var t := s.tasks[i];
      TotalAtLeast(t.spec[..Min(t.taken, |t.spec|)], Same(p));
      assert Held(t, p) >= 1;
    }
    assert Live(s, p) == Count(s.locks, p);
  }

  /** What a step of the request makes of the cover. */
  lemma ActCovers(t: Task, m: Move, build: Build, b: nat, p: Path)
    requires Act(t, m, build).Some?
    requires (t.Taking? && t.b == b ==> p in t.spec) && (t.Starting? && t.b == b ==> m != Fail)
    ensures var e := Act(t, m, build).value;
      HandsOver(t, b, p) ==> HandsOver(e.task, b, p) || p in e.starts
    ensures var e := Act(t, m, build).value;
      Target(t, m) == Some(b) && InBuild(p)(build) == 1 ==> InBuild(p)(e.build) == 1 || HandsOver(e.task, b, p)
  {
  }

  lemma StepCovers(s: State, a: Action, s': State, b: nat, p: Path)
    requires Covered(s, b, p) && Step(s, a) == Some(s') && Favourable(s, a, b, p)
    ensures Covered(s', b, p)
  {
    var t, c, e := s.tasks[a.task], Target(s.tasks[a.task], a.move), EffectOf(s, a).value;
    ActCovers(t, a.move, if c.Some? then s.pending[c.value] else NO_BUILD, b, p);
    assert s'.tasks[a.task] == e.task;
    if i :| 0 <= i < |s.tasks| && HandsOver(s.tasks[i], b, p) {
      assert i != a.task ==> s'.tasks[i] == s.tasks[i];
    }
  }

  /** From the moment a pending build has locked p until long after it has been started, p is never unlocked. */
  lemma {:induction false} HandOff(s: State, run: seq<Action>, b: nat, p: Path)
    requires Counted(s) && Exclusive(s) && Covered(s, b, p) && Exec(s, run).Some?
    requires forall k :: 0 <= k < |run| && Exec(s, run[..k]).Some? ==> Favourable(Exec(s, run[..k]).value, run[k], b, p)
    ensures Covered(Exec(s, run).value, b, p)
    ensures p in Exec(s, run).value.locks && Exec(s, run).value.locks[p] >= 1
  {
    if run != [] {
      var n := |run| - 1;
      var before := run[..n];
      forall k | 0 <= k < n && Exec(s, before[..k]).Some?
        ensures Favourable(Exec(s, before[..k]).value, before[k], b, p)
      {
        assert before[..k] == run[..k];
      }
      HandOff(s, before, b, p);
      StepCovers(Exec(s, before).value, run[n], Exec(s, run).value, b, p);
    }
    RunKeepsCounted(s, run);
    CoveredIsLocked(Exec(s, run).value, b, p);
  }
}
