/** The store and its guards as they are written: a lock map, guards that count in it, and the calls that pass them on. */
module StoreObject {
  import opened Prelude
  import opened StoreMachine
  import opened StoreLocks

  class StoreState {
    var locks: map<Path, nat>
    ghost var live: multiset<Path>   // the paths of the guards that have not been dropped

    ghost predicate Valid()
      reads this
    {
      && (forall p :: Count(locks, p) == live[p])
      && (forall p :: p in locks ==> 0 < locks[p])
    }

    constructor ()
      ensures Valid() && locks == map[] && live == multiset{}
    {
      locks, live := map[], multiset{};
    }

    method IncreaseLock(path: Path)
      requires Valid()
      modifies this
      ensures Valid() && live == old(live) + multiset{path} && locks == Increase(old(locks), path)
    {
      if path in locks {
        locks := locks[path := locks[path] + 1];
      } else {
        locks := locks[path := 1];
      }
      live := live + multiset{path};
    }

    /** With a live guard for the path, the branch that warns is never taken. */
    method DecreaseLock(path: Path)
      requires Valid() && path in live
      modifies this
      ensures Valid() && live == old(live) - multiset{path} && locks == Decrease(old(locks), path)
    {
      assert live[path] >= 1 && Count(locks, path) >= 1;
      if path in locks {
        var val := locks[path];
        if val == 1 {
          locks := locks - {path};
        } else {
          locks := locks[path := if val == 0 then WORD - 1 else val - 1];
        }
      } else {
        assert false; // "excess lock free"
      }
      live := live - multiset{path};
    }
  }

  class DecrementLock {
    var path: Option<Path>
    const state: StoreState

    constructor (path: Path, state: StoreState)
      requires state.Valid()
      modifies state
      ensures this.path == Some(path) && this.state == state
      ensures state.Valid() && state.live == old(state.live) + multiset{path}
    {
      this.path, this.state := Some(path), state;
      new;
      state.IncreaseLock(path);
    }

    method Drop()
      requires state.Valid() && (path.Some? ==> path.value in state.live)
      modifies this, state
      ensures path == None && state.Valid()
      ensures state.live == old(state.live) - if old(path).Some? then multiset{old(path).value} else multiset{}
    {
      if path.Some? {
        var p := path.value;
        path := None;
        state.DecreaseLock(p);
      }
    }
  }

  /** The guard comes before the file is opened, and goes again if that fails. */
  method GetFile(state: StoreState, path: Path, found: bool) returns (lock: DecrementLock?)
    requires state.Valid()
    modifies state
    ensures state.Valid() && (lock != null <==> found)
    ensures lock == null ==> state.live == old(state.live)
    ensures lock != null ==> fresh(lock) && lock.path == Some(path) && lock.state == state
    ensures lock != null ==> state.live == old(state.live) + multiset{path}
  {
    lock := new DecrementLock(path, state);
    if !found {
      lock.Drop();
      return null;
    }
  }

  /** The guard of a new name is made before that of the name before goes. */
  method NextName(state: StoreState, before: DecrementLock, name: Path, ghost was: multiset<Path>) returns (dec: DecrementLock)
    requires state.Valid() && before.path.Some? && before.state == state
    requires state.live == was + multiset{before.path.value}
    modifies state, before
    ensures state.Valid() && fresh(dec) && dec.path == Some(name) && dec.state == state
    ensures state.live == was + multiset{name}
  {
    Exchange(was, before.path.value, name);
    dec := new DecrementLock(name, state);
    before.Drop();
  }

  lemma Exchange(live: multiset<Path>, a: Path, b: Path)
    ensures live + multiset{a} + multiset{b} - multiset{a} == live + multiset{b}
  {
  }

  /** What comes of trying to create a file under a name. */
  datatype Attempt = Attempt(name: Path, result: Creation)

  datatype Creation = Created | NameTaken | Broken

  /** The first attempt that is not a name taken by another. */
  function Decided(attempts: seq<Attempt>, from: nat): (k: Option<nat>)
    ensures k.Some? ==> from <= k.value < |attempts| && !attempts[k.value].result.NameTaken?
    ensures k.Some? ==> forall i :: from <= i < k.value ==> attempts[i].result.NameTaken?
    ensures k.None? ==> forall i :: from <= i < |attempts| ==> attempts[i].result.NameTaken?
    decreases |attempts| - from
  {
    if from >= |attempts| then None
    else if !attempts[from].result.NameTaken? then Some(from)
    else Decided(attempts, from + 1)
  }

  lemma DecidedIs(attempts: seq<Attempt>, from: nat, k: nat)
    requires from <= k <= |attempts| && forall i :: from <= i < k ==> attempts[i].result.NameTaken?
    requires k < |attempts| ==> !attempts[k].result.NameTaken?
    ensures Decided(attempts, from) == if k < |attempts| then Some(k) else None
    decreases k - from
  {
    if from < k {
      DecidedIs(attempts, from + 1, k);
    }
  }

  /** The loop of `new_with_side_effect_in`: the guard of the last name tried, and what came of it. */
  method TryNames(state: StoreState, attempts: seq<Attempt>) returns (lock: DecrementLock, i: nat)
    requires state.Valid() && |attempts| == MAX_RETRIES
    modifies state
    ensures state.Valid() && i < MAX_RETRIES && state.live == old(state.live) + multiset{attempts[i].name}
    ensures fresh(lock) && lock.state == state && lock.path == Some(attempts[i].name)
    ensures forall j :: 0 <= j < i ==> attempts[j].result.NameTaken?
    ensures attempts[i].result.NameTaken? ==> i + 1 == MAX_RETRIES
  {
    hide StoreState.Valid;
    i := 0;
    lock := new DecrementLock(attempts[0].name, state);
    while i + 1 < MAX_RETRIES && attempts[i].result.NameTaken?
      invariant i < MAX_RETRIES && state.Valid() && state.live == old(state.live) + multiset{attempts[i].name}
      invariant fresh(lock) && lock.state == state && lock.path == Some(attempts[i].name)
      invariant forall j :: 0 <= j < i ==> attempts[j].result.NameTaken?
    {
      i := i + 1;
      lock := NextName(state, lock, attempts[i].name, old(state.live));
    }
  }

  /**
   `PendingFile::new`: names taken by others are passed over, MAX_RETRIES times at most. What is left is the guard of the
   file created, if the first name that is not taken can be created.
   */
  method NewPendingFile(state: StoreState, attempts: seq<Attempt>) returns (lock: DecrementLock?)
    requires state.Valid() && |attempts| == 1024
    modifies state
    ensures state.Valid()
    ensures lock != null <==> Decided(attempts, 0).Some? && attempts[Decided(attempts, 0).value].result.Created?
    ensures lock == null ==> state.live == old(state.live)
    ensures lock != null ==> fresh(lock) && lock.state == state && lock.path == Some(attempts[Decided(attempts, 0).value].name)
    ensures lock != null ==> state.live == old(state.live) + multiset{lock.path.value}
  {
    hide Decided;
    var i;
    lock, i := TryNames(state, attempts);
    DecidedIs(attempts, 0, if attempts[i].result.NameTaken? then i + 1 else i);
    if !attempts[i].result.Created? {
      lock.Drop();
      lock := null;
    }
  }

  /** The final path is guarded before anything is copied; the temporary name is let go in any case. */
  method Complete(temp: DecrementLock, path: Path, copied: bool) returns (lock: DecrementLock?)
    requires temp.state.Valid() && temp.path.Some? && temp.path.value in temp.state.live
    modifies temp, temp.state
    ensures temp.state.Valid() && temp.path == None && (lock != null <==> copied)
    ensures lock == null ==> temp.state.live == old(temp.state.live) - multiset{old(temp.path.value)}
    ensures lock != null ==> fresh(lock) && lock.path == Some(path) && lock.state == temp.state
    ensures lock != null ==>
      temp.state.live == old(temp.state.live) - multiset{old(temp.path.value)} + multiset{path}
  {
    lock := new DecrementLock(path, temp.state);
    if !copied {
      lock.Drop();
      lock := null;
    }
    temp.Drop();
  }

  /** The set of locks of a pending build: equal paths are equal elements, so inserting one twice drops the second. */
  class PendingBuildState {
    var locks: map<Path, DecrementLock>
    const state: StoreState

    ghost predicate Valid()
      reads this, locks.Values, state
    {
      && state.Valid()
      && (forall p :: p in locks ==> locks[p].path == Some(p) && locks[p].state == state && p in state.live)
    }

    constructor (state: StoreState)
      requires state.Valid()
      ensures Valid() && locks == map[] && this.state == state
    {
      this.locks, this.state := map[], state;
    }

    method Insert(lock: DecrementLock)
      requires Valid() && lock.path.Some? && lock.state == state && lock !in locks.Values
      requires state.live[lock.path.value] >= if lock.path.value in locks then 2 else 1
      modifies this, lock, state
      ensures Valid() && locks.Keys == old(locks.Keys) + {old(lock.path.value)}
      ensures state.live ==
        old(state.live) - if old(lock.path.value in locks) then multiset{old(lock.path.value)} else multiset{}
    {
      var p := lock.path.value;
      if p in locks {
        lock.Drop();
      } else {
        locks := locks[p := lock];
      }
    }
  }

  /** What becomes of a posted file: whether it is cached, then how the upload fares. */
  datatype Post = Post(cached: Option<Path>, found: bool, attempts: seq<Attempt>, uploaded: bool, final: Path, copied: bool)

  /** The upload goes through: a temporary file can be made, its content arrives and can be copied. */
  predicate Uploaded(p: Post) {
    && Decided(p.attempts, 0).Some? && p.attempts[Decided(p.attempts, 0).value].result.Created?
    && p.uploaded && p.copied
  }

  /** The path a post adds to its build's locks, if it succeeds. */
  function Posted(p: Post): Option<Path> {
    if p.cached.Some? && p.found then p.cached else if Uploaded(p) then Some(p.final) else None
  }

  /** What keeping a path changes: one element more, and one guard more if it is new. */
  ghost predicate Kept(keys: set<Path>, was: set<Path>, live: multiset<Path>, before: multiset<Path>, p: Path) {
    keys == was + {p} && live == before + if p in was then multiset{} else multiset{p}
  }

  /** A cached file is kept by the build. */
  method KeepCached(build: PendingBuildState, path: Path, found: bool)
    requires build.Valid()
    modifies build, build.state
    ensures build.Valid()
    ensures found ==>
      Kept(build.locks.Keys, old(build.locks.Keys), build.state.live, old(build.state.live), path)
    ensures !found ==> build.locks == old(build.locks) && build.state.live == old(build.state.live)
  {
    var file := GetFile(build.state, path, found);
    if file != null {
      assert file !in build.locks.Values;
      build.Insert(file);
    }
  }

  /** `create_file` and `complete`: the lock of what has been uploaded, and no other guard. */
  method Upload(state: StoreState, p: Post) returns (lock: DecrementLock?)
    requires state.Valid() && |p.attempts| == 1024
    modifies state
    ensures state.Valid() && (lock != null <==> Uploaded(p))
    ensures lock == null ==> state.live == old(state.live)
    ensures lock != null ==> fresh(lock) && lock.state == state && lock.path == Some(p.final)
    ensures lock != null ==> state.live == old(state.live) + multiset{p.final}
  {
    hide Decided;
    lock := null;
    var temp := NewPendingFile(state, p.attempts);
    if temp == null {
      return;
    }
    Exchange(old(state.live), temp.path.value, p.final);
    if p.uploaded {
      lock := Complete(temp, p.final, p.copied);
    } else {
      temp.Drop();
    }
  }

  method KeepUploaded(build: PendingBuildState, p: Post) returns (ok: bool)
    requires build.Valid() && |p.attempts| == 1024
    modifies build, build.state
    ensures build.Valid() && (ok <==> Uploaded(p))
    ensures ok ==> Kept(build.locks.Keys, old(build.locks.Keys), build.state.live, old(build.state.live), p.final)
    ensures !ok ==> build.locks == old(build.locks) && build.state.live == old(build.state.live)
  {
    hide Uploaded;
    var lock := Upload(build.state, p);
    ok := lock != null;
    if lock != null {
      assert lock !in build.locks.Values;
      build.Insert(lock);
    }
  }

  /**
   `post_file`, once the build is locked: a cached file is taken as it is, and one that is missing is uploaded. The build
   holds one path more if that succeeds and what it held if it does not, and no guard is left over.
   */
  method PostFile(build: PendingBuildState, p: Post) returns (ok: bool)
    requires build.Valid() && |p.attempts| == 1024
    modifies build, build.state
    ensures build.Valid() && (ok <==> Posted(p).Some?)
    ensures ok ==>
      Kept(build.locks.Keys, old(build.locks.Keys), build.state.live, old(build.state.live), Posted(p).value)
    ensures !ok ==> build.locks == old(build.locks) && build.state.live == old(build.state.live)
  {
    hide Uploaded, Kept;
    if p.cached.Some? {
      KeepCached(build, p.cached.value, p.found);
      if p.found {
        return true;
      }
    }
    ok := KeepUploaded(build, p);
  }

  lemma SplitFirst(paths: seq<Path>)
    requires paths != []
    ensures multiset(paths) == multiset{paths[0]} + multiset(paths[1..])
  {
    assert paths == [paths[0]] + paths[1..];
  }

  lemma SplitLast(paths: seq<Path>, n: nat)
    requires n < |paths|
    ensures multiset(paths[..n + 1]) == multiset(paths[..n]) + multiset{paths[n]}
  {
    assert paths[..n + 1] == paths[..n] + [paths[n]];
  }

  /** The guards of a started build, each its own, for these paths. */
  ghost predicate Guards(state: StoreState, locks: seq<DecrementLock>, paths: seq<Path>)
    reads locks
  {
    && |locks| == |paths|
    && (forall i :: 0 <= i < |locks| ==> locks[i].path == Some(paths[i]) && locks[i].state == state)
    && (forall i, j :: 0 <= i < j < |locks| ==> locks[i] != locks[j])
  }

  method DropAll(state: StoreState, locks: seq<DecrementLock>, ghost paths: seq<Path>)
    requires state.Valid() && Guards(state, locks, paths) && multiset(paths) <= state.live
    modifies state, locks
    ensures state.Valid() && state.live == old(state.live) - multiset(paths)
    decreases |locks|
  {
    if |locks| > 0 {
      SplitFirst(paths);
      locks[0].Drop();
      DropAll(state, locks[1..], paths[1..]);
    }
  }

  /** Locks one path after the other, up to where a step in between fails. */
  method TakeAll(state: StoreState, spec: seq<Path>, failsAt: nat) returns (locks: seq<DecrementLock>)
    requires state.Valid()
    modifies state
    ensures state.Valid() && |locks| == Min(failsAt, |spec|) && fresh(locks) && Guards(state, locks, spec[..|locks|])
    ensures state.live == old(state.live) + multiset(spec[..|locks|])
  {
    locks := [];
    while |locks| < |spec| && |locks| < failsAt
      invariant |locks| <= Min(failsAt, |spec|) && state.Valid() && fresh(locks)
      invariant Guards(state, locks, spec[..|locks|])
      invariant state.live == old(state.live) + multiset(spec[..|locks|])
    {
      SplitLast(spec, |locks|);
      var dec := new DecrementLock(spec[|locks|], state);
      locks := locks + [dec];
    }
  }

  /** `start` locks what the build needs, and lets go of all of it if the build cannot be started. */
  method Start(state: StoreState, spec: seq<Path>, failsAt: nat, spawned: bool) returns (ok: bool, locks: seq<DecrementLock>)
    requires state.Valid()
    modifies state
    ensures state.Valid() && (ok <==> failsAt >= |spec| && spawned)
    ensures ok ==> Guards(state, locks, spec) && state.live == old(state.live) + multiset(spec)
    ensures !ok ==> locks == [] && state.live == old(state.live)
  {
    locks := TakeAll(state, spec, failsAt);
    ok := |locks| == |spec| && spawned;
    if ok {
      assert spec[..|locks|] == spec;
    } else {
      DropAll(state, locks, spec[..|locks|]);
      locks := [];
    }
  }
}
