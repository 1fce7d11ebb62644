/** What requests achieve, whatever others do meanwhile (crates/daemon/src/frontend/build.rs:100-215, store.rs:118-167). */
module StoreRequests {
  import opened Prelude
  import opened StoreMachine
  import opened StoreLocks

  // ----- who may touch a pending build -----

  /** Only its mutex's holder adds to a set of locks, and only a free mutex lets it be taken. */
  lemma ActLocks(t: Task, m: Move, build: Build, b: nat)
    requires Act(t, m, build).Some? && Target(t, m) == Some(b)
    ensures var e := Act(t, m, build).value;
      e.build.locks != build.locks ==> HoldsMutex(b)(t) == 1 || (t.Taking? && !build.busy)
  {
  }

  /** While a request holds the mutex no other changes the build's locks. */
  lemma OthersKeepLocks(s: State, a: Action, s': State, i: nat, b: nat)
    requires Exclusive(s) && Step(s, a) == Some(s') && a.task != i && i < |s.tasks| && b < |s.pending|
    requires HoldsMutex(b)(s.tasks[i]) == 1
    ensures |s'.tasks| == |s.tasks| && |s'.pending| == |s.pending|
    ensures s'.tasks[i] == s.tasks[i] && s'.pending[b].locks == s.pending[b].locks
  {
    var t := s.tasks[a.task];
    TotalOfTwo(s.tasks, HoldsMutex(b), i, a.task) by {
      assert forall x :: x in s.tasks ==> 0 <= HoldsMutex(b)(x);
    }
    if Target(t, a.move) == Some(b) {
      ActLocks(t, a.move, s.pending[b], b);
      TotalAtLeast(s.tasks, HoldsMutex(b));
    }
  }

  // ----- posting a file -----

  /** The path a request has asked for last: of a cached file, until that is found missing, or of its upload. */
  function Asked(run: seq<Action>, i: nat): Option<Path> {
    if run == [] then None else
    var a := run[|run| - 1];
    if a.task != i then Asked(run[..|run| - 1], i) else
    match a.move
    case Get(p) => Some(p)
    case Upload(p) => Some(p)
    case Missing => None
    case _ => Asked(run[..|run| - 1], i)
  }

  /** How many temporary names it has tried. */
  function Names(run: seq<Action>, i: nat): nat {
    if run == [] then 0 else
    var a := run[|run| - 1];
    Names(run[..|run| - 1], i) + if a.task == i && a.move.Name? then 1 else 0
  }

  predicate Failed(run: seq<Action>, i: nat) {
    exists k :: 0 <= k < |run| && run[k] == Action(i, Fail)
  }

  /** A request in the middle of posting to build b, whose locks were `start` when it got the mutex. */
  ghost predicate Posting(s: State, i: nat, b: nat, start: set<Path>, asked: Option<Path>, names: nat, failed: bool) {
    && i < |s.tasks| && b < |s.pending| && HoldsMutex(b)(s.tasks[i]) == 1 && names <= 1024
    && var locks := s.pending[b].locks;
       if failed then s.tasks[i].Releasing? && s.tasks[i].kept == {} && locks == Some(start) else
       match s.tasks[i]
       case Ready(_) => asked == None && names == 0 && locks == Some(start)
       case Opening(_, path) => asked == Some(path) && names == 0 && locks == Some(start)
       case Naming(_, tries, _) => asked == None && names == tries && locks == Some(start)
       case Creating(_, tries, _, _) => asked == None && names == tries + 1 && locks == Some(start)
       case Uploading(_, _) => asked == None && locks == Some(start)
       case Copying(_, _, final) => asked == Some(final) && locks == Some(start)
       case Committed(_, _, final) => asked == Some(final) && locks == Some(start)
       case Inserting(_, path) => asked == Some(path) && locks == Some(start)
       case Releasing(_, guards, kept) => guards == [] && kept == {} && asked.Some? && locks == Some(start + {asked.value})
       case _ => false
  }

  /** What a request's own move does to what it has asked for. */
  function Next(asked: Option<Path>, m: Move): Option<Path> {
    match m
    case Get(p) => Some(p)
    case Upload(p) => Some(p)
    case Missing => None
    case _ => asked
  }

  /** The set a post leaves: with the path asked for, or as it was if something failed. */
  function Left(start: set<Path>, asked: Option<Path>, failed: bool): set<Path> {
    if failed || asked.None? then start else start + {asked.value}
  }

  /** What a move of its own makes of a request in the middle of posting. */
  ghost predicate Moved(s': State, i: nat, b: nat, start: set<Path>, asked: Option<Path>, names: nat, failed: bool) {
    if i < |s'.tasks| && s'.tasks[i] == Free then
      && b < |s'.pending| && s'.pending[b].locks == Some(Left(start, asked, failed)) && (asked.Some? || failed)
      && names <= 1024 && !s'.pending[b].busy
    else Posting(s', i, b, start, asked, names, failed)
  }

  lemma InsertMoves(s: State, a: Action, s': State, b: nat, start: set<Path>, asked: Option<Path>, names: nat)
    requires Posting(s, a.task, b, start, asked, names, false) && Step(s, a) == Some(s') && s.tasks[a.task].Inserting?
    ensures Moved(s', a.task, b, start, Next(asked, a.move), names, a.move == Fail)
  {
    assert s.tasks[a.task].path in start ==> start + {s.tasks[a.task].path} == start;
  }

  lemma ReleaseMoves(s: State, a: Action, s': State, b: nat, start: set<Path>, asked: Option<Path>, names: nat, failed: bool)
    requires Posting(s, a.task, b, start, asked, names, failed) && Step(s, a) == Some(s') && s.tasks[a.task].Releasing?
    ensures !a.move.Name? && Moved(s', a.task, b, start, Next(asked, a.move), names, failed || a.move == Fail)
  {
  }

  lemma PostMoves(s: State, a: Action, s': State, b: nat, start: set<Path>, asked: Option<Path>, names: nat, failed: bool)
    requires Posting(s, a.task, b, start, asked, names, failed) && Step(s, a) == Some(s')
    ensures Moved(s', a.task, b, start, Next(asked, a.move), names + (if a.move.Name? then 1 else 0), failed || a.move == Fail)
  {
    if s.tasks[a.task].Releasing? {
      ReleaseMoves(s, a, s', b, start, asked, names, failed);
    } else if s.tasks[a.task].Inserting? {
      InsertMoves(s, a, s', b, start, asked, names);
    }
  }

  lemma {:induction false} PostGoesOn(s: State, run: seq<Action>, i: nat, b: nat)
    requires Exclusive(s) && Counted(s) && i < |s.tasks| && b < |s.pending| && s.tasks[i] == Ready(b)
    requires Exec(s, run).Some? && s.pending[b].locks.Some?
    requires forall k :: 0 <= k <= |run| && Exec(s, run[..k]).Some? && i < |Exec(s, run[..k]).value.tasks| ==>
      Exec(s, run[..k]).value.tasks[i] != Free
    ensures Posting(Exec(s, run).value, i, b, s.pending[b].locks.value, Asked(run, i), Names(run, i), Failed(run, i))
  {
    hide Posting, Exclusive, Counted, Step, HoldsMutex;
    assert run[..|run|] == run;
    if run == [] {
      ReadyPosts(s, i, b);
    } else {
      var r := |run| - 1;
      var before := run[..r];
      forall k | 0 <= k <= r && Exec(s, before[..k]).Some? && i < |Exec(s, before[..k]).value.tasks|
        ensures Exec(s, before[..k]).value.tasks[i] != Free
      {
        assert before[..k] == run[..k];
      }
      PostGoesOn(s, before, i, b);
      RunKeepsCounted(s, before);
      FailedNext(run, i);
      PostingNext(Exec(s, before).value, run[r], Exec(s, run).value, i, b, s.pending[b].locks.value,
                  Asked(before, i), Names(before, i), Failed(before, i));
    }
  }

  lemma ReadyPosts(s: State, i: nat, b: nat)
    requires i < |s.tasks| && b < |s.pending| && s.tasks[i] == Ready(b) && s.pending[b].locks.Some?
    ensures Posting(s, i, b, s.pending[b].locks.value, None, 0, false)
  {
  }

  lemma FailedNext(run: seq<Action>, i: nat)
    requires run != []
    ensures Failed(run, i) <==> Failed(run[..|run| - 1], i) || run[|run| - 1] == Action(i, Fail)
  {
    var r := |run| - 1;
    if Failed(run[..r], i) {
      var k :| 0 <= k < r && run[..r][k] == Action(i, Fail);
      assert run[k] == Action(i, Fail);
    }
    if Failed(run, i) {
      var k :| 0 <= k < |run| && run[k] == Action(i, Fail);
      assert k < r ==> run[..r][k] == Action(i, Fail);
    }
  }

  lemma PostingNext(s: State, a: Action, s': State, i: nat, b: nat, start: set<Path>, asked: Option<Path>, names: nat, failed: bool)
    requires Exclusive(s) && Posting(s, i, b, start, asked, names, failed) && Step(s, a) == Some(s')
    requires i < |s'.tasks| ==> s'.tasks[i] != Free
    ensures var mine := a.task == i;
      Posting(s', i, b, start, if mine then Next(asked, a.move) else asked,
              names + (if mine && a.move.Name? then 1 else 0), failed || a == Action(i, Fail))
  {
    if a.task == i {
      PostMoves(s, a, s', b, start, asked, names, failed);
    } else {
      OthersKeepLocks(s, a, s', i, b);
    }
  }

  /**
   From getting a build's mutex to letting go of it, with any other requests in between. If nothing has failed, the build
   holds one more path: that of the cached file, or if that was missing or none was asked for, that of the file uploaded.
   If something has failed it holds what it held. At most 1024 temporary names have been tried.
   */
  lemma PostOutcome(s: State, run: seq<Action>, i: nat, b: nat)
    requires Exclusive(s) && Counted(s) && i < |s.tasks| && b < |s.pending| && s.tasks[i] == Ready(b)
    requires Exec(s, run).Some? && run != [] && i < |Exec(s, run).value.tasks| && Exec(s, run).value.tasks[i] == Free
    requires forall k :: 0 <= k < |run| && Exec(s, run[..k]).Some? && i < |Exec(s, run[..k]).value.tasks| ==>
      Exec(s, run[..k]).value.tasks[i] != Free
    ensures s.pending[b].locks.Some? && b < |Exec(s, run).value.pending|
    ensures var start, end := s.pending[b].locks.value, Exec(s, run).value.pending[b];
      && !end.busy
      && (Failed(run, i) ==> end.locks == Some(start))
      && (!Failed(run, i) ==> Asked(run, i).Some? && end.locks == Some(start + {Asked(run, i).value}))
    ensures Names(run, i) <= 1024
  {
    MutexHeld(s, i, b);
    var r := |run| - 1;
    var before := run[..r];
    hide Exclusive, Counted, Step, Posting, HoldsMutex;
    forall k | 0 <= k <= r && Exec(s, before[..k]).Some? && i < |Exec(s, before[..k]).value.tasks|
      ensures Exec(s, before[..k]).value.tasks[i] != Free
    {
      assert before[..k] == run[..k];
    }
    PostGoesOn(s, before, i, b);
    RunKeepsCounted(s, before);
    FailedNext(run, i);
    LastMove(Exec(s, before).value, run[r], Exec(s, run).value, i, b, s.pending[b].locks.value,
             Asked(before, i), Names(before, i), Failed(before, i));
  }

  lemma MutexHeld(s: State, i: nat, b: nat)
    requires Exclusive(s) && i < |s.tasks| && b < |s.pending| && s.tasks[i] == Ready(b)
    ensures s.pending[b].locks.Some?
  {
    TotalAtLeast(s.tasks, HoldsMutex(b));
    assert HoldsMutex(b)(s.tasks[i]) == 1;
  }

  lemma LastMove(s: State, a: Action, s': State, i: nat, b: nat, start: set<Path>, asked: Option<Path>, names: nat, failed: bool)
    requires Exclusive(s) && Posting(s, i, b, start, asked, names, failed) && Step(s, a) == Some(s')
    requires i < |s'.tasks| && s'.tasks[i] == Free
    ensures a.task == i && b < |s'.pending| && !s'.pending[b].busy
    ensures var f, p := failed || a.move == Fail, Next(asked, a.move);
      s'.pending[b].locks == Some(Left(start, p, f)) && (p.Some? || f)
    ensures names + (if a.move.Name? then 1 else 0) <= 1024
  {
    if a.task == i {
      PostMoves(s, a, s', b, start, asked, names, failed);
    } else {
      OthersKeepLocks(s, a, s', i, b);
    }
  }

  /** Nothing leaves a pending build's set before all of it is taken. */
  lemma LocksGrow(s: State, a: Action, s': State, b: nat)
    requires Step(s, a) == Some(s') && b < |s.pending| && s.pending[b].locks.Some?
    ensures b < |s'.pending|
    ensures if s'.pending[b].locks.Some? then s.pending[b].locks.value <= s'.pending[b].locks.value
      else s'.tasks[a.task].Starting? && s'.tasks[a.task].b == b && s'.tasks[a.task].kept == s.pending[b].locks.value
  {
  }

  lemma {:induction false} LocksGrowUntilTaken(s: State, run: seq<Action>, b: nat)
    requires Exec(s, run).Some? && b < |s.pending|
    ensures b < |Exec(s, run).value.pending|
    ensures var end := Exec(s, run).value.pending[b].locks;
      end.Some? ==> s.pending[b].locks.Some? && s.pending[b].locks.value <= end.value
  {
    if run != [] {
      var r := |run| - 1;
      LocksGrowUntilTaken(s, run[..r], b);
      TakenStaysTaken(Exec(s, run[..r]).value, run[r], Exec(s, run).value, b);
      if Exec(s, run[..r]).value.pending[b].locks.Some? {
        LocksGrow(Exec(s, run[..r]).value, run[r], Exec(s, run).value, b);
      }
    }
  }

  lemma TakenStaysTaken(s: State, a: Action, s': State, b: nat)
    requires Step(s, a) == Some(s') && b < |s.pending|
    ensures b < |s'.pending| && (s.pending[b].locks == None ==> s'.pending[b].locks == None)
    ensures !s.pending[b].listed ==> !s'.pending[b].listed
  {
  }

  // ----- running a build -----

  predicate IsRemove(a: Action, b: nat) { a.move.Remove? && a.move.b == b }

  lemma RemoveUnlists(s: State, a: Action, s': State, b: nat)
    requires Step(s, a) == Some(s') && b < |s.pending|
    ensures b < |s'.pending|
    ensures IsRemove(a, b) ==> s.pending[b].listed && !s'.pending[b].listed
    ensures a.move == Find(b) ==> s.pending[b].listed
  {
  }

  lemma {:induction false} UnlistedStays(s: State, run: seq<Action>, b: nat)
    requires Exec(s, run).Some? && b < |s.pending|
    ensures b < |Exec(s, run).value.pending|
    ensures !s.pending[b].listed ==> !Exec(s, run).value.pending[b].listed
    ensures !s.pending[b].listed ==> forall k :: 0 <= k < |run| ==> !IsRemove(run[k], b) && run[k].move != Find(b)
  {
    if run != [] {
      var r := |run| - 1;
      UnlistedStays(s, run[..r], b);
      TakenStaysTaken(Exec(s, run[..r]).value, run[r], Exec(s, run).value, b);
      RemoveUnlists(Exec(s, run[..r]).value, run[r], Exec(s, run).value, b);
      assert forall k :: 0 <= k < r ==> run[k] == run[..r][k];
    }
  }

  /** Once a request has run a build, none finds it or runs it again. */
  lemma RunOnce(s: State, a: Action, rest: seq<Action>, b: nat)
    requires b < |s.pending| && Step(s, a).Some? && IsRemove(a, b) && Exec(Step(s, a).value, rest).Some?
    ensures forall k :: 0 <= k < |rest| ==> !IsRemove(rest[k], b) && rest[k].move != Find(b)
  {
    RemoveUnlists(s, a, Step(s, a).value, b);
    UnlistedStays(Step(s, a).value, rest, b);
  }

  /** A build is started by a request that has locked all its paths, with exactly these. */
  lemma StepStarts(s: State, a: Action, s': State)
    requires Step(s, a) == Some(s')
    ensures s'.started == s.started ||
      (s.tasks[a.task].Starting? && a.move == Go && s.tasks[a.task].taken == |s.tasks[a.task].spec|
       && s'.started == s.started + s.tasks[a.task].spec)
  {
  }

  ghost predicate Running(s: State, i: nat, spec: seq<Path>) {
    && i < |s.tasks|
    && ((s.tasks[i].Starting? && s.tasks[i].spec == spec)
        || (s.tasks[i].Releasing? && forall p :: p in spec ==> p in s.started)
        || (s.tasks[i] == Free && forall p :: p in spec ==> p in s.started))
  }

  lemma RunningMoves(s: State, a: Action, s': State, i: nat, spec: seq<Path>)
    requires Running(s, i, spec) && s.tasks[i] != Free && Step(s, a) == Some(s') && a != Action(i, Fail)
    ensures Running(s', i, spec)
  {
    assert s.started <= s'.started;
    if a.task != i {
      assert s'.tasks[i] == s.tasks[i];
    }
  }

  /** A request that takes a build's locks and comes to its end without failing has started it, with all paths it asks for. */
  lemma {:induction false} RunOutcome(s: State, run: seq<Action>, i: nat)
    requires i < |s.tasks| && s.tasks[i].Starting? && Exec(s, run).Some? && !Failed(run, i)
    requires forall k :: 0 <= k < |run| && Exec(s, run[..k]).Some? && i < |Exec(s, run[..k]).value.tasks| ==>
      Exec(s, run[..k]).value.tasks[i] != Free
    ensures Running(Exec(s, run).value, i, s.tasks[i].spec)
    ensures i < |Exec(s, run).value.tasks| && Exec(s, run).value.tasks[i] == Free ==>
      forall p :: p in s.tasks[i].spec ==> p in Exec(s, run).value.started
  {
    hide Step;
    if run != [] {
      var r := |run| - 1;
      var before := run[..r];
      forall k | 0 <= k < r && Exec(s, before[..k]).Some? && i < |Exec(s, before[..k]).value.tasks|
        ensures Exec(s, before[..k]).value.tasks[i] != Free
      {
        assert before[..k] == run[..k];
      }
      FailedNext(run, i);
      RunOutcome(s, before, i);
      RunningMoves(Exec(s, before).value, run[r], Exec(s, run).value, i, s.tasks[i].spec);
    }
  }

  // ----- nobody is stuck -----

  /** A build number that means something, and a start within its paths. */
  predicate WellPlaced(s: State, t: Task) {
    && (t != Free && Target(t, Go).Some? ==> Target(t, Go).value < |s.pending|)
    && (t.Starting? ==> t.taken <= |t.spec|)
  }

  lemma StepWellPlaced(s: State, a: Action, s': State)
    requires Step(s, a) == Some(s') && forall i :: 0 <= i < |s.tasks| ==> WellPlaced(s, s.tasks[i])
    ensures |s'.tasks| == |s.tasks| && forall i :: 0 <= i < |s'.tasks| ==> WellPlaced(s', s'.tasks[i])
  {
  }

  /** Every request can go on, unless it waits for a mutex that another one holds. */
  lemma CanMove(s: State, i: nat) returns (m: Move)
    requires Exclusive(s) && i < |s.tasks| && s.tasks[i] != Free && WellPlaced(s, s.tasks[i])
    ensures Step(s, Action(i, m)).Some? ||
      ((s.tasks[i].Waiting? || s.tasks[i].Taking?) && s.pending[s.tasks[i].b].busy)
  {
    var t := s.tasks[i];
    m := Go;
    if t.Inserting? {
      TotalAtLeast(s.tasks, HoldsMutex(t.b));
      assert HoldsMutex(t.b)(t) == 1;
    } else if t.Uploading? {
      m := Upload("");
    } else if t.Naming? {
      m := if t.tries < 1024 then Name("") else Fail;
    } else if t.Creating? && t.prior.None? {
      m := Exists;
    } else if t.Releasing? && t.guards == [] && t.kept != {} {
      var p :| p in t.kept;
      m := Drop(p);
    }
  }

  // ----- temporary names -----

  lemma OneMove(s: State, run: seq<Action>, a: Action, i: nat)
    requires Exec(s, run).Some?
    ensures Exec(s, run + [a]) == Step(Exec(s, run).value, a)
    ensures Names(run + [a], i) == Names(run, i) + if a.task == i && a.move.Name? then 1 else 0
  {
    hide Step;
    assert (run + [a])[..|run|] == run;
  }

  /** A name that is guarded and turns out to be taken. */
  lemma NameMoves(s: State, i: nat, p: Path)
    requires i < |s.tasks| && s.tasks[i].Naming? && s.tasks[i].b < |s.pending| && s.tasks[i].tries < 1024
    ensures Step(s, Action(i, Name(p))).Some?
    ensures var s' := Step(s, Action(i, Name(p))).value;
      && |s'.tasks| == |s.tasks| && |s'.pending| == |s.pending|
      && s'.tasks[i] == Creating(s.tasks[i].b, s.tasks[i].tries, s.tasks[i].last, p)
  {
  }

  lemma CreateMoves(s: State, i: nat)
    requires i < |s.tasks| && s.tasks[i].Creating? && s.tasks[i].b < |s.pending|
    ensures var m := if s.tasks[i].prior.Some? then Go else Exists;
      Step(s, Action(i, m)).Some?
    ensures var t, s' := s.tasks[i], Step(s, Action(i, if s.tasks[i].prior.Some? then Go else Exists)).value;
      && |s'.tasks| == |s.tasks| && |s'.pending| == |s.pending|
      && s'.tasks[i] == if t.prior.Some? then t.(prior := None) else Naming(t.b, t.tries + 1, Some(t.temp))
  {
  }

  lemma NameNext(s: State, i: nat, b: nat, p: Path) returns (run: seq<Action>)
    requires i < |s.tasks| && s.tasks[i].Naming? && s.tasks[i].b == b && b < |s.pending| && s.tasks[i].tries < 1024
    ensures Exec(s, run).Some? && Names(run, i) == 1
    ensures i < |Exec(s, run).value.tasks| && Exec(s, run).value.tasks[i] == Naming(b, s.tasks[i].tries + 1, Some(p))
    ensures |Exec(s, run).value.pending| == |s.pending|
  {
    hide Step;
    assert Exec(s, []) == Some(s);
    OneMove(s, [], Action(i, Name(p)), i);
    NameMoves(s, i, p);
    run := [] + [Action(i, Name(p))];
    CreateMoves(Exec(s, run).value, i);
    if s.tasks[i].last.Some? {
      OneMove(s, run, Action(i, Go), i);
      run := run + [Action(i, Go)];
      CreateMoves(Exec(s, run).value, i);
    }
    OneMove(s, run, Action(i, Exists), i);
    run := run + [Action(i, Exists)];
  }

  lemma {:induction false} NamesAppend(first: seq<Action>, second: seq<Action>, i: nat)
    ensures Names(first + second, i) == Names(first, i) + Names(second, i)
  {
    if second == [] {
      assert first + second == first;
    } else {
      var n := |second| - 1;
      assert (first + second)[..|first| + n] == first + second[..n];
      NamesAppend(first, second[..n], i);
    }
  }

  lemma {:induction false} ExecAppend(s: State, first: seq<Action>, second: seq<Action>)
    requires Exec(s, first).Some?
    ensures Exec(s, first + second) == Exec(Exec(s, first).value, second)
  {
    hide Step;
    if second == [] {
      assert first + second == first;
    } else {
      var n := |second| - 1;
      assert (first + second)[..|first| + n] == first + second[..n];
      ExecAppend(s, first, second[..n]);
    }
  }

  /** If every name is taken, 1024 are tried. */
  lemma {:induction false} AllNamesTried(s: State, i: nat, b: nat, n: nat, p: Path) returns (run: seq<Action>)
    requires i < |s.tasks| && s.tasks[i] == Naming(b, 0, None) && b < |s.pending| && n <= 1024
    ensures Exec(s, run).Some? && Names(run, i) == n && |Exec(s, run).value.pending| == |s.pending|
    ensures i < |Exec(s, run).value.tasks|
    ensures Exec(s, run).value.tasks[i] == Naming(b, n, if n == 0 then None else Some(p))
  {
    hide Step;
    if n == 0 {
      run := [];
    } else {
      var r := AllNamesTried(s, i, b, n - 1, p);
      var more := NameNext(Exec(s, r).value, i, b, p);
      run := r + more;
      ExecAppend(s, r, more);
      NamesAppend(r, more, i);
    }
  }
}
