/** What every interleaving of the pipeline keeps: nothing lost, nothing twice, parents first (create.rs:54-141). */
module PipelineOrder {
  import opened Prelude
  import opened ArchiveFormat
  import opened Pipeline

  // ----- where an occurrence is -----

  function Same(pos: Pos): Pos -> int {
    (x: Pos) => if x == pos then 1 else 0
  }

  function SentAs(pos: Pos): Sent -> int {
    (x: Sent) => if x.pos == pos then 1 else 0
  }

  function InWalker(w: Walker, pos: Pos): int { if w == Offering(pos) then 1 else 0 }

  function InWriter(w: Writer, pos: Pos): int { if w == Writing(pos) || w == Sending(pos) then 1 else 0 }

  /** Every entry sent so far, in the order in which the archive gets them. */
  function Log(s: State): seq<Sent> { s.archive + s.channel }

  ghost function Logged(s: State, pos: Pos): int { Total(Log(s), SentAs(pos)) }

  ghost function Underway(s: State, pos: Pos): int {
    Total(s.queue, Same(pos)) + InWalker(s.walker, pos) + Total(s.data, Same(pos)) + InWriter(s.writer, pos)
  }

  ghost function Occurrences(s: State, pos: Pos): int { Underway(s, pos) + Logged(s, pos) }

  lemma TotalsNonNegative(s: State, pos: Pos)
    ensures Total(s.queue, Same(pos)) >= 0 && Total(s.data, Same(pos)) >= 0 && Logged(s, pos) >= 0
    ensures pos in s.queue ==> Total(s.queue, Same(pos)) >= 1
    ensures Total(s.queue, Same(pos)) >= 1 ==> pos in s.queue
    ensures forall i :: 0 <= i < |Log(s)| && Log(s)[i].pos == pos ==> Logged(s, pos) >= 1
    ensures Logged(s, pos) >= 1 ==> exists i :: 0 <= i < |Log(s)| && Log(s)[i].pos == pos
  {
    TotalAtLeast(s.queue, Same(pos));
    TotalAtLeast(s.data, Same(pos));
    TotalAtLeast(Log(s), SentAs(pos));
    assert pos in s.queue ==> Same(pos)(pos) == 1;
    if Total(s.queue, Same(pos)) >= 1 {
      var i := TotalSomewhere(s.queue, Same(pos));
    }
    forall i | 0 <= i < |Log(s)| && Log(s)[i].pos == pos
      ensures Logged(s, pos) >= 1
    {
      assert SentAs(pos)(Log(s)[i]) == 1;
    }
    if Logged(s, pos) >= 1 {
      var i := TotalSomewhere(Log(s), SentAs(pos));
    }
  }

  // ----- the invariants -----

  ghost predicate Real(roots: seq<Named>, pos: Pos) {
    NodeAt(roots, pos).Some? && !NodeAt(roots, pos).value.Special?
  }

  /** Every directory above pos has been logged. */
  ghost predicate ParentsLogged(s: State, pos: Pos) {
    forall q: Pos :: q != [] && q < pos ==> Logged(s, q) >= 1
  }

  /** No occurrence is in two places, each is one that exists, and the walk has been through all directories above it. */
  ghost predicate Placed(roots: seq<Named>, s: State) {
    forall pos: Pos :: 0 <= Occurrences(s, pos) <= 1 && (Occurrences(s, pos) == 1 ==>
      NodeAt(roots, pos).Some? && ParentsLogged(s, pos))
  }

  /** In the log every directory comes before everything beneath it. */
  ghost predicate ParentsFirst(log: seq<Sent>) {
    forall i, j :: 0 <= i < |log| && 0 <= j < |log| && log[i].pos != [] && log[i].pos < log[j].pos ==> i < j
  }

  /** Something still to be expanded is above pos. */
  ghost predicate Awaited(s: State, pos: Pos) {
    exists q: Pos :: q in s.queue && q <= pos
  }

  /** As long as the writer has not failed, everything that exists is somewhere or is still to be discovered. */
  ghost predicate Complete(roots: seq<Named>, s: State) {
    s.writer != Finished(false) ==>
      forall pos: Pos :: Real(roots, pos) ==> Occurrences(s, pos) == 1 || Awaited(s, pos)
  }

  /** Every logged entry is the right one for its occurrence. */
  ghost predicate Correct(h: HashFunction, roots: seq<Named>, s: State) {
    forall i :: 0 <= i < |Log(s)| ==>
      Real(roots, Log(s)[i].pos) && Log(s)[i].entry == EntryFor(h, roots, Log(s)[i].pos)
  }

  function DataOnly(log: seq<Sent>): seq<Pos> {
    if log == [] then [] else
    DataOnly(log[..|log| - 1]) + if log[|log| - 1].entry.target.Data? then [log[|log| - 1].pos] else []
  }

  /** The data entries are those of the blobs, in the order of the blobs. */
  ghost predicate Matched(s: State) {
    s.blobs == DataOnly(Log(s)) + if s.writer.Sending? then [s.writer.spos] else []
  }

  ghost predicate FileAt(roots: seq<Named>, pos: Pos) {
    NodeAt(roots, pos).Some? && NodeAt(roots, pos).value.File?
  }

  /** Only files go through the bounded channel, which never holds more than its slots. */
  ghost predicate Flowing(roots: seq<Named>, s: State) {
    && |s.data| <= CHANNEL_SLOTS
    && (forall i :: 0 <= i < |s.data| ==> FileAt(roots, s.data[i]))
    && (s.walker.Offering? ==> FileAt(roots, s.walker.pos))
    && (s.writer.Writing? ==> FileAt(roots, s.writer.wpos))
    && (s.writer.Sending? ==> FileAt(roots, s.writer.spos))
    && (s.walker.Draining? || s.walker.Done? ==> s.writer == Finished(true))
    && (s.writer == Finished(true) ==> s.data == [] && DataClosed(s))
    && (DataClosed(s) && s.writer != Finished(false) && !s.walker.RunFailed? ==> s.queue == [])
    && (s.walker.Done? ==> s.channel == [])
    && (s.archive != [] ==> s.writer == Finished(true))
    && (forall i :: 0 <= i < |s.archive| ==> Fits(0xFFFF, s.archive[i].entry))
  }

  ghost predicate Inv(h: HashFunction, roots: seq<Named>, s: State) {
    && Placed(roots, s) && ParentsFirst(Log(s)) && Complete(roots, s)
    && Correct(h, roots, s) && Matched(s) && Flowing(roots, s)
  }

  // ----- at the start -----

  ghost predicate IsChild(pos: Pos, n: nat, x: Pos) {
    |x| == |pos| + 1 && pos < x && x[|pos|] < n
  }

  lemma {:induction false} ChildrenOnce(pos: Pos, n: nat, x: Pos)
    ensures Total(Children(pos, n), Same(x)) == if IsChild(pos, n, x) then 1 else 0
  {
    if n > 0 {
      assert Children(pos, n)[..n - 1] == Children(pos, n - 1);
      ChildrenOnce(pos, n - 1, x);
      assert x == pos + [n - 1] <==> |x| == |pos| + 1 && pos < x && x[|pos|] == n - 1;
    }
  }

  lemma InitOccurrences(roots: seq<Named>, pos: Pos)
    ensures Occurrences(Init(roots), pos) == if |pos| == 1 && pos[0] < |roots| then 1 else 0
  {
    assert Log(Init(roots)) == [];
    ChildrenOnce([], |roots|, pos);
  }

  lemma InitAwaits(roots: seq<Named>, pos: Pos)
    requires Real(roots, pos)
    ensures Awaited(Init(roots), pos)
  {
    var q: Pos := [pos[0]];
    assert Init(roots).queue[pos[0]] == q && q <= pos;
    assert q in Init(roots).queue;
  }

  lemma InitInv(h: HashFunction, roots: seq<Named>)
    ensures Inv(h, roots, Init(roots))
  {
    var s := Init(roots);
    assert Log(s) == [];
    forall pos: Pos
      ensures 0 <= Occurrences(s, pos) <= 1
      ensures Occurrences(s, pos) == 1 ==> NodeAt(roots, pos).Some? && ParentsLogged(s, pos)
    {
      InitOccurrences(roots, pos);
    }
    forall pos: Pos | Real(roots, pos)
      ensures Awaited(s, pos)
    {
      InitAwaits(roots, pos);
    }
  }

  // ----- one move -----

  /** Moving an occurrence from place to place without logging it. */
  lemma MovesAlong(h: HashFunction, roots: seq<Named>, s: State, s': State)
    requires Inv(h, roots, s)
    requires forall pos: Pos :: 0 <= Underway(s', pos) <= Underway(s, pos)
    requires s'.writer != Finished(false) ==> s.writer != Finished(false)
    requires s'.writer != Finished(false) ==> forall pos: Pos :: Real(roots, pos) ==> Underway(s', pos) == Underway(s, pos)
    requires s'.writer != Finished(false) ==>
      forall pos: Pos :: Real(roots, pos) && Awaited(s, pos) ==> Awaited(s', pos) || Occurrences(s', pos) == 1
    requires Log(s') == Log(s)
    ensures Placed(roots, s') && ParentsFirst(Log(s')) && Complete(roots, s') && Correct(h, roots, s')
  {
    forall pos: Pos
      ensures 0 <= Occurrences(s', pos) <= 1
      ensures Occurrences(s', pos) == 1 ==> NodeAt(roots, pos).Some? && ParentsLogged(s', pos)
    {
      assert 0 <= Occurrences(s, pos) <= 1;
      TotalsNonNegative(s', pos);
      assert Logged(s', pos) == Logged(s, pos);
      if Occurrences(s', pos) == 1 {
        assert Occurrences(s, pos) == 1 && ParentsLogged(s, pos);
        forall q: Pos | q != [] && q < pos
          ensures Logged(s', q) >= 1
        {
          assert Logged(s, q) >= 1;
        }
      }
    }
    if s'.writer != Finished(false) {
      forall pos: Pos | Real(roots, pos)
        ensures Occurrences(s', pos) == 1 || Awaited(s', pos)
      {
        assert Occurrences(s, pos) == 1 || Awaited(s, pos);
        assert Underway(s', pos) == Underway(s, pos) && Logged(s', pos) == Logged(s, pos);
      }
    }
  }

  /** What lies right beneath an occurrence. */
  ghost predicate Beneath(roots: seq<Named>, pos: Pos, x: Pos) {
    NodeAt(roots, pos).Some? && NodeAt(roots, pos).value.Dir? && IsChild(pos, |NodeAt(roots, pos).value.children|, x)
  }

  /** Logging the occurrence of x.pos, which until now was on its way; what lies beneath it is queued. */
  ghost predicate LogsOne(h: HashFunction, roots: seq<Named>, s: State, s': State, x: Sent) {
    && Log(s') == Log(s) + [x] && Real(roots, x.pos) && x.entry == EntryFor(h, roots, x.pos)
    && Underway(s, x.pos) >= 1
    && (forall pos: Pos :: Underway(s', pos) == Underway(s, pos) - (if pos == x.pos then 1 else 0)
                                              + (if Beneath(roots, x.pos, pos) then 1 else 0))
    && (forall pos: Pos :: pos in s.queue ==> pos in s'.queue || pos == x.pos)
    && (x.pos in s.queue ==> forall pos: Pos :: Beneath(roots, x.pos, pos) ==> pos in s'.queue)
    && (s'.writer != Finished(false) ==> s.writer != Finished(false))
  }

  lemma LoggedOneMore(s: State, s': State, x: Sent, pos: Pos)
    requires Log(s') == Log(s) + [x]
    ensures Logged(s', pos) == Logged(s, pos) + if pos == x.pos then 1 else 0
  {
    TotalAppend(Log(s), [x], SentAs(pos));
    assert [x][..0] == [];
  }

  /** Nothing beneath what is still on its way has been met. */
  lemma BeneathIsNew(roots: seq<Named>, s: State, pos: Pos, x: Pos)
    requires Placed(roots, s) && Underway(s, pos) >= 1 && pos != [] && pos < x
    ensures Occurrences(s, x) == 0
  {
    TotalsNonNegative(s, pos);
    assert 0 <= Occurrences(s, pos) <= 1 && Logged(s, pos) == 0;
    assert 0 <= Occurrences(s, x) <= 1;
  }

  lemma BeneathExists(roots: seq<Named>, pos: Pos, x: Pos)
    requires Beneath(roots, pos, x)
    ensures NodeAt(roots, x).Some? && pos < x
  {
    ChildAt(roots, pos, x[|pos|]);
    assert pos + [x[|pos|]] == x;
  }

  lemma LogsOccurrences(h: HashFunction, roots: seq<Named>, s: State, s': State, x: Sent, pos: Pos)
    requires Inv(h, roots, s) && LogsOne(h, roots, s, s', x)
    ensures Occurrences(s, x.pos) == 1
    ensures Beneath(roots, x.pos, pos) ==> pos != x.pos
    ensures Occurrences(s', pos) ==
      if pos == x.pos then 1 else if Beneath(roots, x.pos, pos) then 1 else Occurrences(s, pos)
  {
    LoggedOneMore(s, s', x, pos);
    TotalsNonNegative(s, x.pos);
    assert 0 <= Occurrences(s, x.pos) <= 1;
    if Beneath(roots, x.pos, pos) {
      BeneathIsNew(roots, s, x.pos, pos);
    }
  }

  lemma LogsParents(h: HashFunction, roots: seq<Named>, s: State, s': State, x: Sent, pos: Pos)
    requires Inv(h, roots, s) && LogsOne(h, roots, s, s', x) && Occurrences(s', pos) == 1
    ensures NodeAt(roots, pos).Some? && ParentsLogged(s', pos)
  {
    LogsOccurrences(h, roots, s, s', x, pos);
    var under := Beneath(roots, x.pos, pos);
    if under {
      BeneathExists(roots, x.pos, pos);
    }
    assert ParentsLogged(s, if under then x.pos else pos);
    forall q: Pos | q != [] && q < pos
      ensures Logged(s', q) >= 1
    {
      LoggedOneMore(s, s', x, q);
      TotalsNonNegative(s, q);
      assert q != x.pos ==> q < (if under then x.pos else pos);
    }
  }

  lemma LogsComplete(h: HashFunction, roots: seq<Named>, s: State, s': State, x: Sent, pos: Pos)
    requires Inv(h, roots, s) && LogsOne(h, roots, s, s', x)
    requires s'.writer != Finished(false) && Real(roots, pos)
    ensures Occurrences(s', pos) == 1 || Awaited(s', pos)
  {
    LogsOccurrences(h, roots, s, s', x, pos);
    assert Occurrences(s, pos) == 1 || Awaited(s, pos);
    if Occurrences(s', pos) != 1 {
      var q: Pos :| q in s.queue && q <= pos;
      if q == x.pos {
        PrefixAt(roots, q, pos);
        var c := pos[..|q| + 1];
        assert Beneath(roots, x.pos, c);
        assert c in s'.queue && c <= pos;
      } else {
        assert q in s'.queue;
      }
    }
  }

  lemma LogsOrdered(h: HashFunction, roots: seq<Named>, s: State, s': State, x: Sent)
    requires Inv(h, roots, s) && LogsOne(h, roots, s, s', x)
    ensures ParentsFirst(Log(s'))
  {
    forall i, j | 0 <= i < |Log(s')| && 0 <= j < |Log(s')| && Log(s')[i].pos != [] && Log(s')[i].pos < Log(s')[j].pos
      ensures i < j
    {
      if i == |Log(s)| && j < i {
        TotalsNonNegative(s, Log(s)[j].pos);
        BeneathIsNew(roots, s, x.pos, Log(s)[j].pos);
        TotalsNonNegative(s', x.pos);
        assert false;
      }
    }
  }

  lemma Logs(h: HashFunction, roots: seq<Named>, s: State, s': State, x: Sent)
    requires Inv(h, roots, s) && LogsOne(h, roots, s, s', x)
    ensures Placed(roots, s') && ParentsFirst(Log(s')) && Complete(roots, s') && Correct(h, roots, s')
  {
    forall pos: Pos
      ensures 0 <= Occurrences(s', pos) <= 1
      ensures Occurrences(s', pos) == 1 ==> NodeAt(roots, pos).Some? && ParentsLogged(s', pos)
    {
      LogsOccurrences(h, roots, s, s', x, pos);
      assert 0 <= Occurrences(s, pos) <= 1;
      if Occurrences(s', pos) == 1 {
        LogsParents(h, roots, s, s', x, pos);
      }
    }
    if s'.writer != Finished(false) {
      forall pos: Pos | Real(roots, pos)
        ensures Occurrences(s', pos) == 1 || Awaited(s', pos)
      {
        LogsComplete(h, roots, s, s', x, pos);
      }
    }
    LogsOrdered(h, roots, s, s', x);
  }
}
