/**
 The reference-counted path locks of crates/daemon/src/store.rs and the requests of crates/daemon/src/frontend/build.rs
 that take and release them, as a transition system with any number of requests under way.
 */
module StoreMachine {
  import opened Prelude

  type Path = string

  // ----- the lock map -----

  function Increase(locks: map<Path, nat>, p: Path): map<Path, nat> {
    locks[p := if p in locks then locks[p] + 1 else 1]
  }

  /** A free without a lock only leaves a warning. */
  predicate Excess(locks: map<Path, nat>, p: Path) { p !in locks }

  /** `fetch_sub` wraps; the entry goes when the count was one. */
  function Decrease(locks: map<Path, nat>, p: Path): map<Path, nat> {
    if p !in locks then locks
    else if locks[p] == 1 then locks - {p}
    else locks[p := if locks[p] == 0 then WORD - 1 else locks[p] - 1]
  }

  // ----- requests -----

  const MAX_RETRIES: nat := 1024

  /** A request, between two steps, with the guards it holds. */
  datatype Task =
    | Free
    | Waiting(b: nat)                                            // post_file has found the build
    | Ready(b: nat)                                              // and has its mutex
    | Opening(posting: Option<nat>, path: Path)                  // get_file, its guard taken
    | Reading(path: Path)                                        // holds a StoreLock of its own
    | Naming(b: nat, tries: nat, last: Option<Path>)             // PendingFile::new, between two names
    | Creating(b: nat, tries: nat, prior: Option<Path>, temp: Path) // prior is dropped once temp is guarded
    | Uploading(b: nat, temp: Path)
    | Copying(b: nat, temp: Path, final: Path)                   // complete
    | Committed(b: nat, temp: Path, final: Path)
    | Inserting(b: nat, path: Path)
    | Taking(b: nat, spec: seq<Path>)                            // run has removed the build from the map
    | Starting(b: nat, spec: seq<Path>, taken: nat, kept: set<Path>)
    | Releasing(posting: Option<nat>, guards: seq<Path>, kept: set<Path>)

  /** A pending build: whether the map lists it, whether its mutex is held, and its set of locks until it is taken. */
  datatype Build = Build(listed: bool, busy: bool, locks: Option<set<Path>>)

  datatype State = State(
    locks: map<Path, nat>,
    warned: bool,            // "excess lock free"
    tasks: seq<Task>,
    pending: seq<Build>,
    started: seq<Path>)      // the locks of all builds that have been started

  datatype Move =
    | Find(b: nat) | Remove(b: nat, spec: seq<Path>) | Get(path: Path) | Name(path: Path) | Upload(path: Path)
    | Go | Missing | Exists | Fail | Drop(path: Path)

  datatype LockOp = Keep | Take(path: Path) | Give(path: Path)

  /** What a step does to its request, the lock map, the build it is about and the started builds. */
  datatype Effect = Effect(task: Task, op: LockOp, build: Build, starts: seq<Path>)

  function OptSeq(p: Option<Path>): seq<Path> { if p.Some? then [p.value] else [] }

  /** The build a step is about. */
  function Target(t: Task, m: Move): Option<nat> {
    match t
    case Free => if m.Find? then Some(m.b) else if m.Remove? then Some(m.b) else None
    case Opening(posting, _) => posting
    case Reading(_) => None
    case Releasing(posting, _, _) => posting
    case _ => Some(t.b)
  }

  function Act(t: Task, m: Move, build: Build): Option<Effect> {
    match t
    case Free =>
      (match m
       case Find(b) => if build.listed then Some(Effect(Waiting(b), Keep, build, [])) else None
       case Remove(b, spec) =>
         if build.listed then Some(Effect(Taking(b, spec), Keep, build.(listed := false), [])) else None
       case Get(path) => Some(Effect(Opening(None, path), Take(path), build, []))
       case _ => None)
    case Waiting(b) =>
      if m != Go || build.busy then None
      else if build.locks.None? then Some(Effect(Free, Keep, build, []))
      else Some(Effect(Ready(b), Keep, build.(busy := true), []))
    case Ready(b) =>
      (match m
       case Get(path) => Some(Effect(Opening(Some(b), path), Take(path), build, []))
       case Go => Some(Effect(Naming(b, 0, None), Keep, build, []))
       case Fail => Some(Effect(Releasing(Some(b), [], {}), Keep, build, []))
       case _ => None)
    case Opening(posting, path) =>
      (match m
       case Go =>
         Some(Effect(if posting.Some? then Inserting(posting.value, path) else Reading(path), Keep, build, []))
       case Missing =>
         Some(Effect(if posting.Some? then Naming(posting.value, 0, None) else Free, Give(path), build, []))
       case Fail => Some(Effect(Releasing(posting, [path], {}), Keep, build, []))
       case _ => None)
    case Reading(path) => if m != Go then None else Some(Effect(Free, Give(path), build, []))
    case Naming(b, tries, last) =>
      (match m
       case Name(p) => if tries < MAX_RETRIES then Some(Effect(Creating(b, tries, last, p), Take(p), build, [])) else None
       case Fail =>
         if tries == 0 || tries >= MAX_RETRIES
         then Some(Effect(Releasing(Some(b), OptSeq(last), {}), Keep, build, [])) else None
       case _ => None)
    case Creating(b, tries, prior, temp) =>
      if prior.Some? then (if m != Go then None else Some(Effect(Creating(b, tries, None, temp), Give(prior.value), build, [])))
      else
        (match m
         case Go => Some(Effect(Uploading(b, temp), Keep, build, []))
         case Exists => Some(Effect(Naming(b, tries + 1, Some(temp)), Keep, build, []))
         case Fail => Some(Effect(Releasing(Some(b), [temp], {}), Keep, build, []))
         case _ => None)
    case Uploading(b, temp) =>
      (match m
       case Upload(final) => Some(Effect(Copying(b, temp, final), Take(final), build, []))
       case Fail => Some(Effect(Releasing(Some(b), [temp], {}), Keep, build, []))
       case _ => None)
    case Copying(b, temp, final) =>
      (match m
       case Go => Some(Effect(Committed(b, temp, final), Keep, build, []))
       case Fail => Some(Effect(Releasing(Some(b), [final, temp], {}), Keep, build, []))
       case _ => None)
    case Committed(b, temp, final) => if m != Go then None else Some(Effect(Inserting(b, final), Give(temp), build, []))
    case Inserting(b, path) =>
      if m != Go || build.locks.None? then None
      else if path in build.locks.value then Some(Effect(Releasing(Some(b), [], {}), Give(path), build, []))
      else Some(Effect(Releasing(Some(b), [], {}), Keep, build.(locks := Some(build.locks.value + {path})), []))
    case Taking(b, spec) =>
      if m != Go || build.busy then None
      else if build.locks.None? then Some(Effect(Free, Keep, build, []))
      else Some(Effect(Starting(b, spec, 0, build.locks.value), Keep, build.(locks := None), []))
    case Starting(b, spec, n, kept) =>
      if n > |spec| then None
      else if m == Fail then Some(Effect(Releasing(None, spec[..n], kept), Keep, build, []))
      else if m != Go then None
      else if n < |spec| then Some(Effect(Starting(b, spec, n + 1, kept), Take(spec[n]), build, []))
      else Some(Effect(Releasing(None, [], kept), Keep, build, spec))
    case Releasing(posting, guards, kept) =>
      if guards != [] then
        (if m != Go then None else Some(Effect(Releasing(posting, guards[1..], kept), Give(guards[0]), build, [])))
      else if kept != {} then
        (if m.Drop? && m.path in kept
         then Some(Effect(Releasing(posting, [], kept - {m.path}), Give(m.path), build, [])) else None)
      else if m != Go then None
      else Some(Effect(Free, Keep, build.(busy := false), []))
  }

  const NO_BUILD: Build := Build(false, false, None)

  function Apply(locks: map<Path, nat>, op: LockOp): map<Path, nat> {
    match op
    case Keep => locks
    case Take(p) => Increase(locks, p)
    case Give(p) => Decrease(locks, p)
  }

  datatype Action = Action(task: nat, move: Move)

  /** What the request named by an action does with it. */
  function EffectOf(s: State, a: Action): Option<Effect> {
    if a.task >= |s.tasks| then None else
    var b := Target(s.tasks[a.task], a.move);
    if b.Some? && b.value >= |s.pending| then None else
    Act(s.tasks[a.task], a.move, if b.Some? then s.pending[b.value] else NO_BUILD)
  }

  function Step(s: State, a: Action): Option<State> {
    match EffectOf(s, a)
    case None => None
    case Some(e) =>
      var b := Target(s.tasks[a.task], a.move);
      Some(State(
        Apply(s.locks, e.op),
        s.warned || (e.op.Give? && Excess(s.locks, e.op.path)),
        s.tasks[a.task := e.task],
        if b.Some? then s.pending[b.value := e.build] else s.pending,
        s.started + e.starts))
  }

  function Exec(s: State, run: seq<Action>): Option<State> {
    if run == [] then Some(s) else
    var before := Exec(s, run[..|run| - 1]);
    if before.None? then None else Step(before.value, run[|run| - 1])
  }

  /** No locks, no requests, and builds whose sets are still empty. */
  ghost predicate Init(s: State) {
    && s.locks == map[] && !s.warned && s.started == []
    && (forall t :: t in s.tasks ==> t == Free)
    && (forall b :: b in s.pending ==> b == Build(true, false, Some({})))
  }
}
