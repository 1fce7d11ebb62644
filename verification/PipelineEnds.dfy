/** The pipeline never deadlocks, every run of it ends, and only failures and over-long paths make it fail. */
module PipelineEnds {
  import opened Prelude
  import opened ArchiveFormat
  import opened Pipeline
  import opened PipelineOrder
  import opened PipelineRuns

  // ----- a measure -----

  function Weight(roots: seq<Named>): Pos -> int {
    (pos: Pos) => if NodeAt(roots, pos).Some? then 6 * Size(NodeAt(roots, pos).value) else 0
  }

  function WalkerWeight(w: Walker): nat {
    match w
    case Walking => 3
    case Offering(_) => 8
    case Closed => 2
    case Draining => 1
    case _ => 0
  }

  function WriterWeight(w: Writer): nat {
    match w
    case Receiving => 1
    case Writing(_) => 4
    case Sending(_) => 3
    case Finished(_) => 0
  }

  ghost function Measure(roots: seq<Named>, s: State): int {
    Total(s.queue, Weight(roots)) + WalkerWeight(s.walker) + 4 * |s.data| + WriterWeight(s.writer) + |s.channel|
  }

  lemma MeasureNonNegative(roots: seq<Named>, s: State)
    ensures Measure(roots, s) >= 0
  {
    TotalAtLeast(s.queue, Weight(roots));
  }

  lemma {:induction false} ChildrenWeigh(roots: seq<Named>, pos: Pos, children: seq<Named>, n: nat)
    requires n <= |children|
    requires if pos == [] then children == roots else NodeAt(roots, pos) == Some(Dir(children))
    ensures Total(Children(pos, n), Weight(roots)) == 6 * SizeAll(children[..n])
  {
    if n > 0 {
      assert Children(pos, n)[..n - 1] == Children(pos, n - 1);
      assert children[..n][..n - 1] == children[..n - 1];
      ChildrenWeigh(roots, pos, children, n - 1);
      if pos == [] {
        assert NodeAt(roots, pos + [n - 1]) == Some(children[n - 1].node);
      } else {
        ChildAt(roots, pos, n - 1);
      }
    }
  }

  lemma PopLowers(h: HashFunction, roots: seq<Named>, s: State, s': State)
    requires s.walker.Walking? && s.queue != [] && Pop(h, roots, s) == Some(s')
    ensures Measure(roots, s') < Measure(roots, s)
  {
    var pos := s.queue[0];
    TotalTail(s.queue, Weight(roots));
    match NodeAt(roots, pos).value
    case Dir(children) =>
      ChildrenWeigh(roots, pos, children, |children|);
      assert children[..|children|] == children;
      TotalAppend(s.queue[1..], Children(pos, |children|), Weight(roots));
    case _ =>
  }

  lemma StepLowers(h: HashFunction, roots: seq<Named>, s: State, a: Action, s': State)
    requires Step(h, roots, s, a) == Some(s')
    ensures Measure(roots, s') < Measure(roots, s)
  {
    if a.Walk? && s.walker.Walking? && s.queue != [] {
      PopLowers(h, roots, s, s');
    }
  }

  /** No run, whatever fails in it, is longer than six steps a node and four more. */
  lemma {:induction false} EveryRunEnds(h: HashFunction, roots: seq<Named>, run: seq<Action>)
    requires Exec(h, roots, run).Some?
    ensures |run| + Measure(roots, Exec(h, roots, run).value) <= 6 * SizeAll(roots) + 4
    ensures |run| <= 6 * SizeAll(roots) + 4
  {
    MeasureNonNegative(roots, Exec(h, roots, run).value);
    if run == [] {
      ChildrenWeigh(roots, [], roots, |roots|);
      assert roots[..|roots|] == roots;
    } else {
      EveryRunEnds(h, roots, run[..|run| - 1]);
      StepLowers(h, roots, Exec(h, roots, run[..|run| - 1]).value, run[|run| - 1], Exec(h, roots, run).value);
    }
  }

  // ----- no deadlock -----

  /** Until the run has ended, the walker or the writer can make a step of its own. */
  lemma NoDeadlock(h: HashFunction, roots: seq<Named>, s: State)
    requires Inv(h, roots, s) && !Ended(s)
    ensures Step(h, roots, s, Walk).Some? || Step(h, roots, s, Write).Some?
  {
    if s.walker.Walking? && s.queue != [] {
      HeadUnderway(roots, s);
    }
  }

  /** Nothing outside the pipeline fails. */
  ghost predicate Clean(run: seq<Action>) {
    forall a :: a in run ==> a.Walk? || a.Write?
  }

  lemma OneMore(h: HashFunction, roots: seq<Named>, run: seq<Action>) returns (a: Action)
    requires Exec(h, roots, run).Some? && !Ended(Exec(h, roots, run).value)
    ensures a.Walk? || a.Write?
    ensures Exec(h, roots, run + [a]).Some?
  {
    var s := Exec(h, roots, run).value;
    RunKeeps(h, roots, run);
    NoDeadlock(h, roots, s);
    a := if Step(h, roots, s, Walk).Some? then Walk else Write;
    assert (run + [a])[..|run|] == run;
  }

  lemma Onward(run: seq<Action>, a: Action, more: seq<Action>)
    ensures run + ([a] + more) == (run + [a]) + more
    ensures Clean(more) && (a.Walk? || a.Write?) ==> Clean([a] + more)
  {
  }

  /** From wherever a run has got to, walker and writer alone can bring it to its end. */
  lemma {:induction false} CanEnd(h: HashFunction, roots: seq<Named>, run: seq<Action>) returns (rest: seq<Action>)
    requires Exec(h, roots, run).Some?
    ensures Clean(rest)
    ensures Exec(h, roots, run + rest).Some? && Ended(Exec(h, roots, run + rest).value)
    decreases 6 * SizeAll(roots) + 4 - |run|
  {
    if Ended(Exec(h, roots, run).value) {
      rest := [];
      assert run + rest == run;
    } else {
      var a := OneMore(h, roots, run);
      EveryRunEnds(h, roots, run + [a]);
      var more := CanEnd(h, roots, run + [a]);
      rest := [a] + more;
      Onward(run, a, more);
    }
  }

  // ----- success and failure -----

  /** Every path and link target the walk meets can be written with its length. */
  ghost predicate AllFit(h: HashFunction, roots: seq<Named>) {
    forall pos: Pos :: Real(roots, pos) ==> Fits(0xFFFF, EntryFor(h, roots, pos))
  }

  ghost predicate CleanSoFar(h: HashFunction, roots: seq<Named>, s: State) {
    s.writer != Finished(false) && (s.walker.RunFailed? ==> !AllFit(h, roots))
  }

  lemma CleanStep(h: HashFunction, roots: seq<Named>, s: State, a: Action, s': State)
    requires Correct(h, roots, s) && CleanSoFar(h, roots, s)
    requires Step(h, roots, s, a) == Some(s') && (a.Walk? || a.Write?)
    ensures CleanSoFar(h, roots, s')
  {
    if s.walker.Draining? && s.channel != [] {
      var i := |s.archive|;
      assert Log(s)[i] == s.channel[0];
      assert Real(roots, Log(s)[i].pos);
    }
  }

  lemma {:induction false} CleanRuns(h: HashFunction, roots: seq<Named>, run: seq<Action>)
    requires Exec(h, roots, run).Some? && Clean(run)
    ensures CleanSoFar(h, roots, Exec(h, roots, run).value)
  {
    if run != [] {
      var before := run[..|run| - 1];
      CleanRuns(h, roots, before);
      RunKeeps(h, roots, before);
      CleanStep(h, roots, Exec(h, roots, before).value, run[|run| - 1], Exec(h, roots, run).value);
    }
  }

  /** A run in which nothing outside fails ends well exactly when everything fits. */
  lemma CleanRunSucceeds(h: HashFunction, roots: seq<Named>, run: seq<Action>)
    requires Exec(h, roots, run).Some? && Clean(run) && Ended(Exec(h, roots, run).value)
    ensures Exec(h, roots, run).value.walker.Done? <==> AllFit(h, roots)
  {
    var s := Exec(h, roots, run).value;
    CleanRuns(h, roots, run);
    if s.walker.Done? {
      RunKeeps(h, roots, run);
      FinishedArchive(h, roots, run);
      forall pos: Pos | Real(roots, pos)
        ensures Fits(0xFFFF, EntryFor(h, roots, pos))
      {
        var i := TotalSomewhere(s.archive, SentAs(pos));
      }
    }
  }
}
