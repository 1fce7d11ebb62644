/** The order of the archive: breadth first, and by place among equals (crates/cli/src/archive/create.rs:78-136). */
module PipelineBreadth {
  import opened Prelude
  import opened ArchiveFormat
  import opened Pipeline
  import opened PipelineOrder
  import opened PipelineRuns

  // ----- the order -----

  /** The first place at which they differ decides. */
  predicate Lex(p: Pos, q: Pos) {
    p != [] && q != [] && (p[0] < q[0] || (p[0] == q[0] && Lex(p[1..], q[1..])))
  }

  /** Nearer to the arguments, or as near and at an earlier place. */
  predicate Before(p: Pos, q: Pos) {
    |p| < |q| || (|p| == |q| && Lex(p, q))
  }

  lemma {:induction false} LexTransitive(p: Pos, q: Pos, r: Pos)
    requires Lex(p, q) && Lex(q, r)
    ensures Lex(p, r)
  {
    if p[0] == q[0] == r[0] {
      LexTransitive(p[1..], q[1..], r[1..]);
    }
  }

  lemma BeforeTransitive(p: Pos, q: Pos, r: Pos)
    requires Before(p, q) && Before(q, r)
    ensures Before(p, r)
  {
    if |p| == |q| == |r| {
      LexTransitive(p, q, r);
    }
  }

  /** What comes earlier stays earlier with more behind it. */
  lemma {:induction false} LexExtends(p: Pos, q: Pos, n: nat, x: Pos)
    requires n <= |p| && Lex(p[..n], q)
    ensures Lex(p, q + x)
  {
    if p[0] == q[0] {
      assert p[..n][1..] == p[1..][..n - 1] && (q + x)[1..] == q[1..] + x;
      LexExtends(p[1..], q[1..], n - 1, x);
    }
  }

  lemma {:induction false} LexSiblings(p: Pos, a: nat, b: nat)
    requires a < b
    ensures Lex(p + [a], p + [b])
  {
    if p != [] {
      assert (p + [a])[1..] == p[1..] + [a] && (p + [b])[1..] == p[1..] + [b];
      LexSiblings(p[1..], a, b);
    }
  }

  ghost predicate Sorted(ps: seq<Pos>) {
    forall i, j :: 0 <= i < j < |ps| ==> Before(ps[i], ps[j])
  }

  ghost predicate AllBefore(ps: seq<Pos>, qs: seq<Pos>) {
    forall i, j :: 0 <= i < |ps| && 0 <= j < |qs| ==> Before(ps[i], qs[j])
  }

  lemma SortedOneMore(ps: seq<Pos>, p: Pos)
    requires Sorted(ps) && AllBefore(ps, [p])
    ensures Sorted(ps + [p])
  {
    forall i | 0 <= i < |ps|
      ensures Before(ps[i], p)
    {
      assert Before(ps[i], [p][0]);
    }
  }

  // ----- the deque -----

  /** Nothing in the deque is more than one level deeper than another, and then its directory came earlier. */
  ghost predicate Level(queue: seq<Pos>) {
    forall i, j :: 0 <= i < |queue| && 0 <= j < |queue| ==>
      |queue[i]| <= |queue[j]| + 1 && (|queue[i]| == |queue[j]| + 1 ==> Lex(queue[i][..|queue[j]|], queue[j]))
  }

  /** The first directory is expanded at the other end. */
  ghost function Expanded(queue: seq<Pos>, n: nat): seq<Pos>
    requires queue != []
  {
    queue[1..] + Children(queue[0], n)
  }

  lemma ChildAfter(queue: seq<Pos>, i: nat, k: nat)
    requires Sorted(queue) && Level(queue) && 0 < i < |queue|
    ensures Before(queue[i], queue[0] + [k])
  {
    if |queue[i]| == |queue[0]| + 1 {
      LexExtends(queue[i], queue[0], |queue[0]|, [k]);
    }
  }

  lemma ExpandedSorted(queue: seq<Pos>, n: nat)
    requires queue != [] && Sorted(queue) && Level(queue)
    ensures Sorted(Expanded(queue, n))
  {
    var m, q := |queue| - 1, Expanded(queue, n);
    forall i, j | 0 <= i < j < |q|
      ensures Before(q[i], q[j])
    {
      if j < m {
        assert q[i] == queue[i + 1] && q[j] == queue[j + 1];
      } else if i < m {
        ChildAfter(queue, i + 1, j - m);
      } else {
        LexSiblings(queue[0], i - m, j - m);
      }
    }
  }

  lemma ExpandedLevel(queue: seq<Pos>, n: nat)
    requires queue != [] && Sorted(queue) && Level(queue)
    ensures Level(Expanded(queue, n))
  {
    var m, q := |queue| - 1, Expanded(queue, n);
    forall i, j | 0 <= i < |q| && 0 <= j < |q|
      ensures |q[i]| <= |q[j]| + 1 && (|q[i]| == |q[j]| + 1 ==> Lex(q[i][..|q[j]|], q[j]))
    {
      if i < m {
        assert q[i] == queue[i + 1] && |queue[i + 1]| <= |queue[0]| + 1;
        assert j < m ==> q[j] == queue[j + 1];
      } else {
        assert q[i] == queue[0] + [i - m] && q[i][..|queue[0]|] == queue[0];
        if j < m {
          assert q[j] == queue[j + 1] && Before(queue[0], queue[j + 1]);
        }
      }
    }
  }

  /** What came before the whole deque, and its first, come before all that is left and added. */
  lemma ExpandedAfter(ps: seq<Pos>, queue: seq<Pos>, n: nat)
    requires queue != [] && Sorted(queue) && AllBefore(ps, queue)
    ensures AllBefore(ps, Expanded(queue, n)) && AllBefore([queue[0]], Expanded(queue, n))
  {
    var m, q := |queue| - 1, Expanded(queue, n);
    forall i, j | 0 <= i < |ps| && 0 <= j < |q|
      ensures Before(ps[i], q[j])
    {
      if j < m {
        assert q[j] == queue[j + 1];
      } else {
        BeforeTransitive(ps[i], queue[0], q[j]);
      }
    }
    forall j | 0 <= j < |q|
      ensures Before(queue[0], q[j])
    {
      assert j < m ==> q[j] == queue[j + 1];
    }
  }

  // ----- what the walker has been through -----

  /** Directories and links, in the order of their entries. */
  function WalkerEntries(log: seq<Sent>): seq<Pos> {
    if log == [] then [] else
    WalkerEntries(log[..|log| - 1]) + if log[|log| - 1].entry.target.Data? then [] else [log[|log| - 1].pos]
  }

  /** Files, from the first written to the last found. */
  function Files(s: State): seq<Pos> {
    s.blobs + (if s.writer.Writing? then [s.writer.wpos] else []) + s.data +
      if s.walker.Offering? then [s.walker.pos] else []
  }

  ghost predicate Breadth(s: State) {
    && Sorted(s.queue) && Level(s.queue)
    && Sorted(WalkerEntries(Log(s))) && AllBefore(WalkerEntries(Log(s)), s.queue)
    && Sorted(Files(s)) && AllBefore(Files(s), s.queue)
  }

  lemma EntriesOneMore(log: seq<Sent>, x: Sent)
    ensures WalkerEntries(log + [x]) == WalkerEntries(log) + if x.entry.target.Data? then [] else [x.pos]
  {
    assert (log + [x])[..|log|] == log;
  }

  lemma InitBreadth(roots: seq<Named>)
    ensures Breadth(Init(roots))
  {
    var q := Init(roots).queue;
    assert Log(Init(roots)) == [];
    forall i, j | 0 <= i < j < |q|
      ensures Before(q[i], q[j])
    {
      LexSiblings([], i, j);
    }
  }

  // ----- the walker takes the first -----

  /** One occurrence is taken from the deque and put behind those like it. */
  lemma TakesFirst(ps: seq<Pos>, queue: seq<Pos>, n: nat)
    requires queue != [] && Sorted(queue) && Level(queue) && Sorted(ps) && AllBefore(ps, queue)
    ensures Sorted(ps + [queue[0]]) && AllBefore(ps + [queue[0]], Expanded(queue, n)) && AllBefore(ps, Expanded(queue, n))
  {
    hide Before, Level;
    SortedOneMore(ps, queue[0]);
    ExpandedAfter(ps, queue, n);
    var more, q := ps + [queue[0]], Expanded(queue, n);
    forall i, j | 0 <= i < |more| && 0 <= j < |q|
      ensures Before(more[i], q[j])
    {
      if i == |ps| {
        assert Before([queue[0]][0], q[j]);
      }
    }
  }

  lemma PopBreadth(h: HashFunction, roots: seq<Named>, s: State, s': State)
    requires Breadth(s) && s.walker.Walking? && s.queue != [] && Pop(h, roots, s) == Some(s')
    ensures Breadth(s')
  {
    hide Sorted, Level, AllBefore;
    var pos := s.queue[0];
    var node := NodeAt(roots, pos).value;
    var n := if node.Dir? then |node.children| else 0;
    assert s'.queue == Expanded(s.queue, n);
    ExpandedSorted(s.queue, n);
    ExpandedLevel(s.queue, n);
    TakesFirst(WalkerEntries(Log(s)), s.queue, n);
    TakesFirst(Files(s), s.queue, n);
    match node
    case File(_, _) =>
      FilesFound(s, s', pos);
      assert Log(s') == Log(s);
    case Special =>
      assert Log(s') == Log(s) && Files(s') == Files(s);
    case _ =>
      var x := Sent(pos, EntryFor(h, roots, pos));
      LogGrows(s, s', x);
      EntriesOneMore(Log(s), x);
      assert Files(s') == Files(s);
  }

  lemma FilesFound(s: State, s': State, pos: Pos)
    requires s.walker.Walking? && s'.walker == Offering(pos)
    requires s'.blobs == s.blobs && s'.writer == s.writer && s'.data == s.data
    ensures Files(s') == Files(s) + [pos]
  {
  }

  // ----- everything else leaves the order alone -----

  /** Files go on, or are given up. */
  ghost predicate FilesRemain(s: State, s': State) {
    || Files(s') == Files(s)
    || exists k: nat :: k < |Files(s)| && Files(s') == Files(s)[..k] + Files(s)[k + 1..]
  }

  lemma RemainBreadth(s: State, s': State)
    requires Breadth(s) && s'.queue == s.queue && FilesRemain(s, s') && WalkerEntries(Log(s')) == WalkerEntries(Log(s))
    ensures Breadth(s')
  {
    hide Before, WalkerEntries, Level;
    if Files(s') != Files(s) {
      var k: nat :| k < |Files(s)| && Files(s') == Files(s)[..k] + Files(s)[k + 1..];
      forall i | 0 <= i < |Files(s')|
        ensures Files(s')[i] == Files(s)[if i < k then i else i + 1]
      {
      }
    }
  }

  lemma OfferRemains(h: HashFunction, roots: seq<Named>, s: State, s': State)
    requires s.walker.Offering? && WalkerStep(h, roots, s) == Some(s')
    ensures FilesRemain(s, s') && s'.queue == s.queue && Log(s') == Log(s)
  {
    var fs := Files(s);
    var n := |fs| - 1;
    assert fs[..n] == Files(s.(walker := Walking)) && fs[n + 1..] == [];
    if s.writer.Finished? {
      assert Files(s') == fs[..n] + fs[n + 1..];
    } else {
      assert s.data + [s.walker.pos] == s'.data;
      assert Files(s') == fs;
    }
  }

  lemma WalkBreadth(h: HashFunction, roots: seq<Named>, s: State, s': State)
    requires Breadth(s) && WalkerStep(h, roots, s) == Some(s')
    ensures Breadth(s')
  {
    hide Breadth, FilesRemain, Files, WalkerEntries;
    if s.walker.Walking? && s.queue != [] {
      PopBreadth(h, roots, s, s');
    } else if s.walker.Offering? {
      OfferRemains(h, roots, s, s');
      RemainBreadth(s, s');
    } else {
      assert Log(s') == Log(s);
      SameFiles(s, s');
      RemainBreadth(s, s');
    }
  }

  lemma SameFiles(s: State, s': State)
    requires s'.blobs == s.blobs && s'.writer == s.writer && s'.data == s.data && !s.walker.Offering? && !s'.walker.Offering?
    ensures FilesRemain(s, s')
  {
  }

  lemma WriteBreadth(h: HashFunction, roots: seq<Named>, s: State, s': State)
    requires Breadth(s) && WriterStep(h, roots, s) == Some(s')
    ensures Breadth(s')
  {
    hide Breadth, WalkerEntries;
    if s.writer.Sending? {
      var x := Sent(s.writer.spos, EntryFor(h, roots, s.writer.spos));
      LogGrows(s, s', x);
      EntriesOneMore(Log(s), x);
      assert Files(s') == Files(s);
    } else {
      assert Log(s') == Log(s);
      if s.writer.Receiving? && s.data != [] {
        assert [s.data[0]] + s.data[1..] == s.data;
      }
      assert Files(s') == Files(s);
    }
    RemainBreadth(s, s');
  }

  lemma FailBreadth(s: State, s': State)
    requires Breadth(s)
    requires
      || (s' == s.(walker := RunFailed) && !s.walker.Offering?)
      || (s' == s.(writer := Finished(false)) && (s.writer.Writing? || s.writer.Receiving?))
    ensures Breadth(s')
  {
    hide Breadth, WalkerEntries;
    assert Log(s') == Log(s);
    if s'.writer != s.writer && s.writer.Writing? {
      var fs, k := Files(s), |s.blobs|;
      assert fs[..k] == s.blobs && fs[k + 1..] == s.data + if s.walker.Offering? then [s.walker.pos] else [];
      assert Files(s') == fs[..k] + fs[k + 1..];
    } else {
      assert Files(s') == Files(s);
    }
    RemainBreadth(s, s');
  }

  // ----- runs -----

  lemma {:induction false} RunBreadth(h: HashFunction, roots: seq<Named>, run: seq<Action>)
    ensures Exec(h, roots, run).Some? ==> Breadth(Exec(h, roots, run).value)
  {
    hide Breadth;
    if run == [] {
      InitBreadth(roots);
    } else {
      var before := Exec(h, roots, run[..|run| - 1]);
      RunBreadth(h, roots, run[..|run| - 1]);
      if before.Some? && Exec(h, roots, run).Some? {
        StepBreadth(h, roots, before.value, run[|run| - 1], Exec(h, roots, run).value);
      }
    }
  }

  lemma StepBreadth(h: HashFunction, roots: seq<Named>, s: State, a: Action, s': State)
    requires Breadth(s) && Step(h, roots, s, a) == Some(s')
    ensures Breadth(s')
  {
    hide Breadth, WalkerStep, WriterStep;
    match a
    case Walk => WalkBreadth(h, roots, s, s');
    case Write => WriteBreadth(h, roots, s, s');
    case FailWalk => FailBreadth(s, s');
    case FailWrite => FailBreadth(s, s');
  }

  /**
   The archive is breadth first: its directories and links come in that order, and so do its blobs, which are the order of
   its data entries. Only how the two kinds of entries are interleaved depends on the run.
   */
  lemma BreadthFirst(h: HashFunction, roots: seq<Named>, run: seq<Action>)
    requires Exec(h, roots, run).Some? && Exec(h, roots, run).value.walker.Done?
    ensures Sorted(WalkerEntries(Exec(h, roots, run).value.archive))
    ensures Sorted(DataOnly(Exec(h, roots, run).value.archive))
    ensures Exec(h, roots, run).value.blobs == DataOnly(Exec(h, roots, run).value.archive)
  {
    var s := Exec(h, roots, run).value;
    RunBreadth(h, roots, run);
    RunKeeps(h, roots, run);
    FinishedArchive(h, roots, run);
    assert Log(s) == s.archive;
    assert Files(s) == s.blobs;
  }

  // ----- the bounded channel -----

  ghost predicate FilesOnly(roots: seq<Named>) {
    forall i :: 0 <= i < |roots| ==> roots[i].node.File?
  }

  /** The walker has offered k files that nobody has taken. */
  function Waiting(roots: seq<Named>, k: nat): State
    requires k <= |roots|
  {
    var q := Children([], |roots|);
    Init(roots).(queue := q[k..], data := q[..k])
  }

  lemma OfferNext(h: HashFunction, roots: seq<Named>, k: nat)
    requires FilesOnly(roots) && k < |roots| && k < 20
    ensures var offering := Waiting(roots, k).(queue := Children([], |roots|)[k + 1..], walker := Offering([k]));
      && Step(h, roots, Waiting(roots, k), Walk) == Some(offering)
      && Step(h, roots, offering, Walk) == Some(Waiting(roots, k + 1))
  {
    var q := Children([], |roots|);
    assert q[k] == [] + [k] == [k] && q[k..][0] == q[k] && q[k..][1..] == q[k + 1..];
    assert q[..k] + [q[k]] == q[..k + 1];
    assert NodeAt(roots, [k]) == Some(roots[k].node);
  }

  lemma MoreWalking(h: HashFunction, roots: seq<Named>, run: seq<Action>)
    requires Exec(h, roots, run).Some?
    ensures Exec(h, roots, run + [Walk]) == Step(h, roots, Exec(h, roots, run).value, Walk)
  {
    assert (run + [Walk])[..|run|] == run;
  }

  lemma {:induction false} FilesWait(h: HashFunction, roots: seq<Named>, k: nat) returns (run: seq<Action>)
    requires FilesOnly(roots) && k <= |roots| && k <= 20
    ensures Exec(h, roots, run) == Some(Waiting(roots, k))
  {
    hide Step, Waiting;
    if k == 0 {
      run := [];
      NothingWaits(h, roots);
    } else {
      var r := FilesWait(h, roots, k - 1);
      OfferNext(h, roots, k - 1);
      MoreWalking(h, roots, r);
      MoreWalking(h, roots, r + [Walk]);
      run := r + [Walk] + [Walk];
    }
  }

  lemma NothingWaits(h: HashFunction, roots: seq<Named>)
    ensures Exec(h, roots, []) == Some(Waiting(roots, 0))
  {
    var q := Children([], |roots|);
    assert q[0..] == q && q[..0] == [];
  }

  /** Exactly twenty files can wait: with a twenty-first in hand the walker has to wait for the writer. */
  lemma TwentyWait(h: HashFunction, roots: seq<Named>) returns (run: seq<Action>)
    requires FilesOnly(roots) && |roots| > 20
    ensures Exec(h, roots, run).Some? && |Exec(h, roots, run).value.data| == 20
    ensures Exec(h, roots, run).value.walker == Offering([20])
    ensures Step(h, roots, Exec(h, roots, run).value, Walk) == None
    ensures Step(h, roots, Exec(h, roots, run).value, Write).Some?
  {
    var r := FilesWait(h, roots, 20);
    MoreWalking(h, roots, r);
    run := r + [Walk];
    var q := Children([], |roots|);
    assert q[20] == [] + [20] == [20] && q[20..][0] == q[20];
    assert NodeAt(roots, [20]) == Some(roots[20].node);
  }

  lemma NeverMoreThanTwenty(h: HashFunction, roots: seq<Named>, run: seq<Action>)
    requires Exec(h, roots, run).Some?
    ensures |Exec(h, roots, run).value.data| <= 20
  {
    RunKeeps(h, roots, run);
  }
}
