/** The invariants of the pipeline through every step, and what they say of a run that succeeds (create.rs:54-141). */
module PipelineRuns {
  import opened Prelude
  import opened ArchiveFormat
  import opened Pipeline
  import opened PipelineOrder

  // ----- the walker takes an occurrence from its deque -----

  lemma HeadUnderway(roots: seq<Named>, s: State)
    requires Placed(roots, s) && s.queue != []
    ensures s.queue[0] in s.queue && Underway(s, s.queue[0]) == 1 && Logged(s, s.queue[0]) == 0
    ensures NodeAt(roots, s.queue[0]).Some?
  {
    TotalsNonNegative(s, s.queue[0]);
    assert 0 <= Occurrences(s, s.queue[0]) <= 1;
  }

  lemma HeadGone(s: State, s': State, more: seq<Pos>, pos: Pos)
    requires s.queue != [] && s'.queue == s.queue[1..] + more
    ensures Total(s'.queue, Same(pos)) ==
      Total(s.queue, Same(pos)) - (if pos == s.queue[0] then 1 else 0) + Total(more, Same(pos))
  {
    TotalTail(s.queue, Same(pos));
    TotalAppend(s.queue[1..], more, Same(pos));
  }

  lemma StillAwaited(roots: seq<Named>, s: State, s': State, pos: Pos)
    requires s.queue != [] && s'.queue == s.queue[1..]
    requires NodeAt(roots, s.queue[0]).Some? && !NodeAt(roots, s.queue[0]).value.Dir?
    requires Real(roots, pos) && pos != s.queue[0] && Awaited(s, pos)
    ensures Awaited(s', pos)
  {
    var q: Pos :| q in s.queue && q <= pos;
    if q == s.queue[0] {
      PrefixAt(roots, q, pos);
      assert false;
    } else {
      assert q in s'.queue;
    }
  }

  lemma PopSpecial(h: HashFunction, roots: seq<Named>, s: State)
    requires Inv(h, roots, s) && s.walker.Walking? && s.queue != []
    requires NodeAt(roots, s.queue[0]) == Some(Special)
    ensures Pop(h, roots, s).Some? && Inv(h, roots, Pop(h, roots, s).value)
  {
    var s' := Pop(h, roots, s).value;
    HeadUnderway(roots, s);
    assert s'.queue == s.queue[1..] + [];
    forall pos: Pos
      ensures 0 <= Underway(s', pos) <= Underway(s, pos)
      ensures Real(roots, pos) ==> Underway(s', pos) == Underway(s, pos)
    {
      HeadGone(s, s', [], pos);
      TotalsNonNegative(s', pos);
    }
    forall pos: Pos | Real(roots, pos) && Awaited(s, pos)
      ensures Awaited(s', pos)
    {
      StillAwaited(roots, s, s', pos);
    }
    MovesAlong(h, roots, s, s');
  }

  lemma PopFile(h: HashFunction, roots: seq<Named>, s: State)
    requires Inv(h, roots, s) && s.walker.Walking? && s.queue != [] && FileAt(roots, s.queue[0])
    ensures Pop(h, roots, s).Some? && Inv(h, roots, Pop(h, roots, s).value)
  {
    var s' := Pop(h, roots, s).value;
    HeadUnderway(roots, s);
    assert s'.queue == s.queue[1..] + [];
    forall pos: Pos
      ensures 0 <= Underway(s', pos) == Underway(s, pos)
    {
      HeadGone(s, s', [], pos);
      TotalsNonNegative(s', pos);
    }
    forall pos: Pos | Real(roots, pos) && Awaited(s, pos)
      ensures Awaited(s', pos) || Occurrences(s', pos) == 1
    {
      if pos != s.queue[0] {
        StillAwaited(roots, s, s', pos);
      }
    }
    MovesAlong(h, roots, s, s');
  }

  lemma MatchedGrows(s: State, s': State, x: Sent)
    requires Matched(s) && Log(s') == Log(s) + [x] && s'.blobs == s.blobs && !s'.writer.Sending?
    requires s.writer.Sending? <==> x.entry.target.Data?
    requires s.writer.Sending? ==> s.writer.spos == x.pos
    ensures Matched(s')
  {
    assert Log(s')[..|Log(s)|] == Log(s);
    assert DataOnly(Log(s')) == DataOnly(Log(s)) + if x.entry.target.Data? then [x.pos] else [];
  }

  /** The walker can log something while the writer is about to. */
  lemma MatchedPasses(s: State, s': State, x: Sent)
    requires Matched(s) && Log(s') == Log(s) + [x] && s'.blobs == s.blobs && s'.writer == s.writer
    requires !x.entry.target.Data?
    ensures Matched(s')
  {
    assert Log(s')[..|Log(s)|] == Log(s);
  }

  /** What the walker puts on its deque when it has taken the first occurrence off. */
  lemma HeadExpanded(roots: seq<Named>, s: State, s': State, p: Pos)
    requires s.queue != [] && NodeAt(roots, s.queue[0]).Some?
    requires var node := NodeAt(roots, s.queue[0]).value;
      s'.queue == s.queue[1..] + if node.Dir? then Children(s.queue[0], |node.children|) else []
    ensures Total(s'.queue, Same(p)) == Total(s.queue, Same(p))
      - (if p == s.queue[0] then 1 else 0) + (if Beneath(roots, s.queue[0], p) then 1 else 0)
    ensures Beneath(roots, s.queue[0], p) ==> p in s'.queue
  {
    var pos, node := s.queue[0], NodeAt(roots, s.queue[0]).value;
    var more := if node.Dir? then Children(pos, |node.children|) else [];
    HeadGone(s, s', more, p);
    if node.Dir? {
      ChildrenOnce(pos, |node.children|, p);
      if Beneath(roots, pos, p) {
        assert more[p[|pos|]] == pos + [p[|pos|]] == p;
      }
    }
  }

  lemma LogGrows(s: State, s': State, x: Sent)
    requires s'.archive == s.archive && s'.channel == s.channel + [x]
    ensures Log(s') == Log(s) + [x]
  {
  }

  lemma PopLogsOne(h: HashFunction, roots: seq<Named>, s: State, s': State)
    requires Placed(roots, s) && s.walker.Walking? && s.queue != [] && Pop(h, roots, s) == Some(s')
    requires NodeAt(roots, s.queue[0]).value.Dir? || NodeAt(roots, s.queue[0]).value.Symlink?
    ensures LogsOne(h, roots, s, s', Sent(s.queue[0], EntryFor(h, roots, s.queue[0])))
  {
    var pos := s.queue[0];
    HeadUnderway(roots, s);
    LogGrows(s, s', Sent(pos, EntryFor(h, roots, pos)));
    if NodeAt(roots, pos).value.Symlink? {
      assert s'.queue == s.queue[1..] + [];
    }
    forall p: Pos
      ensures Underway(s', p) ==
        Underway(s, p) - (if p == pos then 1 else 0) + (if Beneath(roots, pos, p) then 1 else 0)
      ensures Beneath(roots, pos, p) ==> p in s'.queue
    {
      HeadExpanded(roots, s, s', p);
    }
  }

  lemma PopLogged(h: HashFunction, roots: seq<Named>, s: State, s': State)
    requires Inv(h, roots, s) && s.walker.Walking? && s.queue != [] && Pop(h, roots, s) == Some(s')
    requires NodeAt(roots, s.queue[0]).value.Dir? || NodeAt(roots, s.queue[0]).value.Symlink?
    ensures Inv(h, roots, s')
  {
    var x := Sent(s.queue[0], EntryFor(h, roots, s.queue[0]));
    PopLogsOne(h, roots, s, s');
    Logs(h, roots, s, s', x);
    MatchedPasses(s, s', x);
  }

  // ----- the other steps of the walker -----

  lemma MovesOn(h: HashFunction, roots: seq<Named>, s: State, s': State)
    requires Inv(h, roots, s) && Log(s') == Log(s) && s'.queue == s.queue
    requires forall pos: Pos :: Underway(s', pos) == Underway(s, pos)
    requires s'.writer != Finished(false) ==> s.writer != Finished(false)
    ensures Placed(roots, s') && ParentsFirst(Log(s')) && Complete(roots, s') && Correct(h, roots, s')
  {
    forall pos: Pos
      ensures 0 <= Underway(s, pos)
      ensures Awaited(s, pos) ==> Awaited(s', pos)
    {
      TotalsNonNegative(s, pos);
    }
    MovesAlong(h, roots, s, s');
  }

  /** After the writer has failed, what it and the walker had in hand is given up. */
  lemma GivesUp(h: HashFunction, roots: seq<Named>, s: State, s': State)
    requires Inv(h, roots, s) && Log(s') == Log(s) && s'.queue == s.queue && s'.data == s.data
    requires s'.writer == Finished(false)
    requires s'.walker == s.walker || s'.walker == Closed
    ensures Placed(roots, s') && ParentsFirst(Log(s')) && Complete(roots, s') && Correct(h, roots, s')
  {
    forall pos: Pos
      ensures 0 <= Underway(s', pos) <= Underway(s, pos)
    {
      TotalsNonNegative(s', pos);
    }
    MovesAlong(h, roots, s, s');
  }

  lemma OfferMoves(s: State, s': State, p: Pos)
    requires s.walker.Offering? && s'.walker.Walking? && s'.data == s.data + [s.walker.pos]
    requires s'.queue == s.queue && s'.writer == s.writer
    ensures Underway(s', p) == Underway(s, p)
  {
    var sent: seq<Pos> := [s.walker.pos];
    TotalAppend(s.data, sent, Same(p));
    assert sent[..0] == [];
  }

  lemma OfferKeeps(h: HashFunction, roots: seq<Named>, s: State, s': State)
    requires Inv(h, roots, s) && s.walker.Offering? && WalkerStep(h, roots, s) == Some(s')
    ensures Inv(h, roots, s')
  {
    if s.writer.Finished? {
      GivesUp(h, roots, s, s');
    } else {
      forall p: Pos
        ensures Underway(s', p) == Underway(s, p)
      {
        OfferMoves(s, s', p);
      }
      MovesOn(h, roots, s, s');
    }
  }

  lemma DrainFlows(h: HashFunction, roots: seq<Named>, s: State, s': State)
    requires Flowing(roots, s) && (s.walker.Draining? || s.walker.Closed?) && WalkerStep(h, roots, s) == Some(s')
    ensures Flowing(roots, s') && Log(s') == Log(s) && s'.writer == s.writer && s'.blobs == s.blobs
  {
  }

  lemma DrainKeeps(h: HashFunction, roots: seq<Named>, s: State, s': State)
    requires Inv(h, roots, s) && (s.walker.Draining? || s.walker.Closed?) && WalkerStep(h, roots, s) == Some(s')
    ensures Inv(h, roots, s')
  {
    DrainFlows(h, roots, s, s');
    MovesOn(h, roots, s, s');
  }

  lemma WalkKeeps(h: HashFunction, roots: seq<Named>, s: State, s': State)
    requires Inv(h, roots, s) && WalkerStep(h, roots, s) == Some(s')
    ensures Inv(h, roots, s')
  {
    match s.walker
    case Walking =>
      if s.queue == [] {
        MovesOn(h, roots, s, s');
      } else {
        HeadUnderway(roots, s);
        match NodeAt(roots, s.queue[0]).value {
          case Special => PopSpecial(h, roots, s);
          case File(_, _) => PopFile(h, roots, s);
          case _ => PopLogged(h, roots, s, s');
        }
      }
    case Offering(_) => OfferKeeps(h, roots, s, s');
    case Closed => DrainKeeps(h, roots, s, s');
    case Draining => DrainKeeps(h, roots, s, s');
    case Done =>
    case RunFailed =>
  }

  // ----- the writer -----

  lemma ReceiveKeeps(h: HashFunction, roots: seq<Named>, s: State, s': State)
    requires Inv(h, roots, s) && s.writer.Receiving? && WriterStep(h, roots, s) == Some(s')
    ensures Inv(h, roots, s')
  {
    forall p: Pos
      ensures Underway(s', p) == Underway(s, p)
    {
      if s.data != [] {
        TotalTail(s.data, Same(p));
      }
    }
    MovesOn(h, roots, s, s');
  }

  lemma SendLogsOne(h: HashFunction, roots: seq<Named>, s: State, s': State)
    requires Placed(roots, s) && s.writer.Sending? && WriterStep(h, roots, s) == Some(s')
    ensures LogsOne(h, roots, s, s', Sent(s.writer.spos, EntryFor(h, roots, s.writer.spos)))
  {
    var pos := s.writer.spos;
    LogGrows(s, s', Sent(pos, EntryFor(h, roots, pos)));
    TotalsNonNegative(s, pos);
    assert 0 <= Occurrences(s, pos) <= 1;
  }

  lemma SendFlows(h: HashFunction, roots: seq<Named>, s: State, s': State)
    requires Flowing(roots, s) && s.writer.Sending? && WriterStep(h, roots, s) == Some(s')
    ensures Flowing(roots, s')
  {
  }

  lemma SendKeeps(h: HashFunction, roots: seq<Named>, s: State, s': State)
    requires Inv(h, roots, s) && s.writer.Sending? && WriterStep(h, roots, s) == Some(s')
    ensures Inv(h, roots, s')
  {
    var x := Sent(s.writer.spos, EntryFor(h, roots, s.writer.spos));
    SendLogsOne(h, roots, s, s');
    SendFlows(h, roots, s, s');
    MatchedGrows(s, s', x);
    Logs(h, roots, s, s', x);
  }

  lemma WriteKeeps(h: HashFunction, roots: seq<Named>, s: State, s': State)
    requires Inv(h, roots, s) && WriterStep(h, roots, s) == Some(s')
    ensures Inv(h, roots, s')
  {
    match s.writer
    case Receiving => ReceiveKeeps(h, roots, s, s');
    case Writing(_) => MovesOn(h, roots, s, s');
    case Sending(_) => SendKeeps(h, roots, s, s');
    case Finished(_) =>
  }

  // ----- runs -----

  lemma StepKeeps(h: HashFunction, roots: seq<Named>, s: State, a: Action, s': State)
    requires Inv(h, roots, s) && Step(h, roots, s, a) == Some(s')
    ensures Inv(h, roots, s')
  {
    match a
    case Walk => WalkKeeps(h, roots, s, s');
    case Write => WriteKeeps(h, roots, s, s');
    case FailWalk => MovesOn(h, roots, s, s');
    case FailWrite => GivesUp(h, roots, s, s');
  }

  lemma {:induction false} RunKeeps(h: HashFunction, roots: seq<Named>, run: seq<Action>)
    ensures Exec(h, roots, run).Some? ==> Inv(h, roots, Exec(h, roots, run).value)
  {
    if run == [] {
      InitInv(h, roots);
    } else {
      var before := Exec(h, roots, run[..|run| - 1]);
      RunKeeps(h, roots, run[..|run| - 1]);
      if before.Some? && Exec(h, roots, run).Some? {
        StepKeeps(h, roots, before.value, run[|run| - 1], Exec(h, roots, run).value);
      }
    }
  }

  // ----- what a finished archive holds -----

  /** Exactly the occurrences the walk is to archive, each once and with its own entry, every directory before what it holds. */
  ghost predicate Lists(h: HashFunction, roots: seq<Named>, archive: seq<Sent>) {
    && (forall pos: Pos :: Total(archive, SentAs(pos)) == if Real(roots, pos) then 1 else 0)
    && (forall i :: 0 <= i < |archive| ==>
      Real(roots, archive[i].pos) && archive[i].entry == EntryFor(h, roots, archive[i].pos))
    && ParentsFirst(archive)
  }

  /** The target of an occurrence's entry, read off the tree: contents by their hash, mode as flag 1. */
  ghost predicate Described(h: HashFunction, roots: seq<Named>, x: Sent) {
    match NodeAt(roots, x.pos)
    case Some(Dir(_)) => x.entry.target == Directory
    case Some(File(content, executable)) => x.entry.target == Data(Blake3(h(content)), if executable then 1 else 0)
    case Some(Symlink(to, executable)) => x.entry.target == Link(to, if executable then 1 else 0)
    case _ => false
  }

  /** The entry of an argument has it as its path. */
  ghost predicate ArgumentPath(roots: seq<Named>, x: Sent) {
    |x.pos| == 1 ==> x.pos[0] < |roots| && x.entry.path == roots[x.pos[0]].name
  }

  /** What is right beneath a directory has the directory's path, a slash and its own name as its path. */
  ghost predicate PathBelow(roots: seq<Named>, dir: Sent, x: Sent) {
    |x.pos| == |dir.pos| + 1 && dir.pos != [] && dir.pos < x.pos ==>
      match NodeAt(roots, dir.pos)
      case Some(Dir(children)) =>
        && x.pos[|dir.pos|] < |children|
        && var name := children[x.pos[|dir.pos|]].name;
           x.entry.path == if dir.entry.path == [] || dir.entry.path[|dir.entry.path| - 1] == 47 then dir.entry.path + name
                           else dir.entry.path + [47] + name
      case _ => false
  }

  /** All entries as the tree has them. */
  ghost predicate FromTree(h: HashFunction, roots: seq<Named>, archive: seq<Sent>) {
    && (forall i :: 0 <= i < |archive| ==> Described(h, roots, archive[i]) && ArgumentPath(roots, archive[i]))
    && (forall i, j :: 0 <= i < |archive| && 0 <= j < |archive| ==> PathBelow(roots, archive[i], archive[j]))
  }

  lemma EntryDescribed(h: HashFunction, roots: seq<Named>, x: Sent)
    requires Real(roots, x.pos) && x.entry == EntryFor(h, roots, x.pos)
    ensures Described(h, roots, x) && ArgumentPath(roots, x)
  {
  }

  lemma PathDescribed(h: HashFunction, roots: seq<Named>, dir: Sent, x: Sent)
    requires Real(roots, x.pos) && x.entry == EntryFor(h, roots, x.pos)
    requires Real(roots, dir.pos) && dir.entry == EntryFor(h, roots, dir.pos)
    ensures PathBelow(roots, dir, x)
  {
    if |x.pos| == |dir.pos| + 1 && dir.pos != [] && dir.pos < x.pos {
      PrefixAt(roots, dir.pos, x.pos);
      var i := x.pos[|dir.pos|];
      assert x.pos == dir.pos + [i];
      ChildPath(roots[dir.pos[0]].name, roots, dir.pos, i);
    }
  }

  lemma ListedFromTree(h: HashFunction, roots: seq<Named>, archive: seq<Sent>)
    requires Lists(h, roots, archive)
    ensures FromTree(h, roots, archive)
  {
    hide EntryFor, Described, PathBelow, ArgumentPath;
    forall i | 0 <= i < |archive|
      ensures Described(h, roots, archive[i]) && ArgumentPath(roots, archive[i])
    {
      EntryDescribed(h, roots, archive[i]);
    }
    forall i, j | 0 <= i < |archive| && 0 <= j < |archive|
      ensures PathBelow(roots, archive[i], archive[j])
    {
      PathDescribed(h, roots, archive[i], archive[j]);
    }
  }

  /** Every interleaving that ends well has archived everything; the k-th data entry is that of the k-th blob. */
  lemma FinishedArchive(h: HashFunction, roots: seq<Named>, run: seq<Action>)
    requires Exec(h, roots, run).Some? && Exec(h, roots, run).value.walker.Done?
    ensures Lists(h, roots, Exec(h, roots, run).value.archive)
    ensures FromTree(h, roots, Exec(h, roots, run).value.archive)
    ensures Exec(h, roots, run).value.blobs == DataOnly(Exec(h, roots, run).value.archive)
  {
    var s := Exec(h, roots, run).value;
    RunKeeps(h, roots, run);
    assert Log(s) == s.archive;
    forall pos: Pos
      ensures Total(s.archive, SentAs(pos)) == if Real(roots, pos) then 1 else 0
    {
      assert Occurrences(s, pos) == Logged(s, pos);
      assert 0 <= Occurrences(s, pos) <= 1;
      TotalsNonNegative(s, pos);
      assert Real(roots, pos) ==> Occurrences(s, pos) == 1 || Awaited(s, pos);
    }
    ListedFromTree(h, roots, s.archive);
  }
}
