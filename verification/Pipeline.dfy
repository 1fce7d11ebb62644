/**
 The archive creation pipeline of crates/cli/src/archive/create.rs: a breadth-first walker and a writer task joined by
 a channel of twenty slots, both feeding one unbounded channel of entries that is drained at the end.
 */
module Pipeline {
  import opened Prelude
  import opened ArchiveFormat

  // ----- the file system, as far as the walk sees it -----

  datatype Node =
    | Dir(children: seq<Named>)            // in the order in which the walker has sorted them
    | File(content: Bytes, executable: bool)
    | Symlink(to: Bytes, linkExecutable: bool)
    | Special                              // neither directory, file nor link: the walker passes it by

  datatype Named = Named(name: Bytes, node: Node)

  /** An occurrence of a file: its place among the arguments, then among the children of each directory. */
  type Pos = seq<nat>

  function NodeAt(list: seq<Named>, pos: Pos): Option<Node> {
    if pos == [] || pos[0] >= |list| then None
    else if |pos| == 1 then Some(list[pos[0]].node)
    else if list[pos[0]].node.Dir? then NodeAt(list[pos[0]].node.children, pos[1..])
    else None
  }

  /** `Path::join` with a plain file name. */
  function Join(parent: Bytes, name: Bytes): Bytes {
    if parent == [] || parent[|parent| - 1] == 0x2F then parent + name else parent + [0x2F] + name
  }

  /** The path of an occurrence, given the path of the first step towards it. */
  function PathFrom(path: Bytes, list: seq<Named>, pos: Pos): Bytes
    requires NodeAt(list, pos).Some?
    decreases |pos|
  {
    if |pos| == 1 then path
    else
      var below := list[pos[0]].node.children;
      assert NodeAt(below, pos[1..]).Some?;
      PathFrom(Join(path, below[pos[1]].name), below, pos[1..])
  }

  function PathAt(list: seq<Named>, pos: Pos): Bytes
    requires NodeAt(list, pos).Some?
  {
    PathFrom(list[pos[0]].name, list, pos)
  }

  /** The children of a directory are the occurrences one longer. */
  lemma {:induction false} ChildAt(list: seq<Named>, pos: Pos, i: nat)
    requires NodeAt(list, pos).Some?
    ensures var n := NodeAt(list, pos).value;
      if n.Dir? && i < |n.children| then
        NodeAt(list, pos + [i]) == Some(n.children[i].node)
      else NodeAt(list, pos + [i]) == None
    decreases |pos|
  {
    assert (pos + [i])[1..] == pos[1..] + [i];
    if |pos| > 1 {
      ChildAt(list[pos[0]].node.children, pos[1..], i);
    } else {
      assert pos[1..] + [i] == [i];
    }
  }

  /** What lies beneath an occurrence lies beneath a directory. */
  lemma {:induction false} PrefixAt(list: seq<Named>, q: Pos, pos: Pos)
    requires q != [] && q < pos && NodeAt(list, pos).Some?
    ensures NodeAt(list, q).Some? && NodeAt(list, q).value.Dir?
    ensures pos[|q|] < |NodeAt(list, q).value.children|
    decreases |q|
  {
    if |q| == 1 {
      assert q[0] == pos[0];
      assert NodeAt(list[pos[0]].node.children, pos[1..]).Some?;
    } else {
      assert q[1..] < pos[1..];
      PrefixAt(list[pos[0]].node.children, q[1..], pos[1..]);
    }
  }

  /** A child's path is the parent's with its name joined on, as the walker makes it. */
  lemma {:induction false} ChildPath(path: Bytes, list: seq<Named>, pos: Pos, i: nat)
    requires NodeAt(list, pos).Some? && NodeAt(list, pos).value.Dir? && i < |NodeAt(list, pos).value.children|
    ensures NodeAt(list, pos + [i]).Some?
    ensures PathFrom(path, list, pos + [i]) ==
      Join(PathFrom(path, list, pos), NodeAt(list, pos).value.children[i].name)
    decreases |pos|
  {
    ChildAt(list, pos, i);
    assert (pos + [i])[1..] == pos[1..] + [i];
    var below := list[pos[0]].node.children;
    if |pos| > 1 {
      ChildPath(Join(path, below[pos[1]].name), below, pos[1..], i);
    } else {
      assert pos[1..] + [i] == [i];
      assert PathFrom(path, list, pos + [i]) == PathFrom(Join(path, below[i].name), below, [i]);
    }
  }

  /** Nodes in a tree. */
  function Size(n: Node): nat
    decreases n, 0
  {
    if n.Dir? then 1 + SizeAll(n.children) else 1
  }

  function SizeAll(list: seq<Named>): nat
    decreases list, 1
  {
    if list == [] then 0 else SizeAll(list[..|list| - 1]) + Size(list[|list| - 1].node)
  }

  // ----- the pipeline -----

  const CHANNEL_SLOTS: nat := 20

  datatype Walker = Walking | Offering(pos: Pos) | Closed | Draining | Done | RunFailed

  datatype Writer = Receiving | Writing(wpos: Pos) | Sending(spos: Pos) | Finished(ok: bool)

  datatype Sent = Sent(pos: Pos, entry: Entry)

  datatype State = State(
    walker: Walker,
    queue: seq<Pos>,           // the walker's deque
    data: seq<Pos>,            // the bounded channel
    writer: Writer,
    channel: seq<Sent>,        // the entry channel
    blobs: seq<Pos>,           // blobs in the archive
    archive: seq<Sent>)        // entries in the archive

  datatype Action = Walk | Write | FailWalk | FailWrite

  function ModeFlags(executable: bool): Flags { if executable then EXECUTABLE else 0 }

  /** The entry a file, directory or link is given. */
  function EntryFor(h: HashFunction, roots: seq<Named>, pos: Pos): Entry
    requires NodeAt(roots, pos).Some? && !NodeAt(roots, pos).value.Special?
  {
    var path := PathAt(roots, pos);
    match NodeAt(roots, pos).value
    case Dir(_) => Entry(path, Directory)
    case File(content, executable) => Entry(path, Data(Blake3(h(content)), ModeFlags(executable)))
    case Symlink(to, executable) => Entry(path, Link(to, ModeFlags(executable)))
    case Special => Entry(path, Directory)
  }

  function Children(pos: Pos, n: nat): seq<Pos> {
    seq(n, (i: nat) => pos + [i])
  }

  function Init(roots: seq<Named>): State {
    State(Walking, Children([], |roots|), [], Receiving, [], [], [])
  }

  /** The walker takes the next occurrence from its deque. */
  function Pop(h: HashFunction, roots: seq<Named>, s: State): Option<State>
    requires s.queue != []
  {
    var pos, s' := s.queue[0], s.(queue := s.queue[1..]);
    if NodeAt(roots, pos).None? then None else
    match NodeAt(roots, pos).value
    case Dir(children) =>
      Some(s'.(channel := s.channel + [Sent(pos, EntryFor(h, roots, pos))],
               queue := s.queue[1..] + Children(pos, |children|)))
    case File(_, _) => Some(s'.(walker := Offering(pos)))
    case Symlink(_, _) => Some(s'.(channel := s.channel + [Sent(pos, EntryFor(h, roots, pos))]))
    case Special => Some(s')
  }

  function WalkerStep(h: HashFunction, roots: seq<Named>, s: State): Option<State> {
    match s.walker
    case Walking => if s.queue == [] then Some(s.(walker := Closed)) else Pop(h, roots, s)
    case Offering(pos) =>
      if s.writer.Finished? then Some(s.(walker := Closed))
      else if |s.data| < CHANNEL_SLOTS then Some(s.(data := s.data + [pos], walker := Walking))
      else None
    case Closed =>
      if !s.writer.Finished? then None else Some(s.(walker := if s.writer.ok then Draining else RunFailed))
    case Draining =>
      if s.channel == [] then Some(s.(walker := Done))
      else if Fits(0xFFFF, s.channel[0].entry)
      then Some(s.(archive := s.archive + [s.channel[0]], channel := s.channel[1..]))
      else Some(s.(walker := RunFailed))
    case _ => None
  }

  /** The channel of files is closed once the walker has dropped its end. */
  predicate DataClosed(s: State) {
    s.walker.Closed? || s.walker.Draining? || s.walker.Done? || s.walker.RunFailed?
  }

  function WriterStep(h: HashFunction, roots: seq<Named>, s: State): Option<State> {
    match s.writer
    case Receiving =>
      if s.data != [] then Some(s.(writer := Writing(s.data[0]), data := s.data[1..]))
      else if DataClosed(s) then Some(s.(writer := Finished(true)))
      else None
    case Writing(pos) => Some(s.(blobs := s.blobs + [pos], writer := Sending(pos)))
    case Sending(pos) =>
      if NodeAt(roots, pos).None? || !NodeAt(roots, pos).value.File? then None
      else Some(s.(channel := s.channel + [Sent(pos, EntryFor(h, roots, pos))], writer := Receiving))
    case Finished(_) => None
  }

  predicate Ended(s: State) { s.walker.Done? || s.walker.RunFailed? }

  function Step(h: HashFunction, roots: seq<Named>, s: State, a: Action): Option<State> {
    if Ended(s) then None else
    match a
    case Walk => WalkerStep(h, roots, s)
    case Write => WriterStep(h, roots, s)
    case FailWalk =>
      if s.walker.Walking? || s.walker.Draining? then Some(s.(walker := RunFailed)) else None
    case FailWrite =>
      if s.writer.Receiving? || s.writer.Writing? then Some(s.(writer := Finished(false))) else None
  }

  function Exec(h: HashFunction, roots: seq<Named>, run: seq<Action>): Option<State> {
    if run == [] then Some(Init(roots)) else
    var before := Exec(h, roots, run[..|run| - 1]);
    if before.None? then None else Step(h, roots, before.value, run[|run| - 1])
  }
}
