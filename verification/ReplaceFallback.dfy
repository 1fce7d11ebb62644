/** Replacing a file on a file system whose renames refuse existing targets (crates/io/src/fs.rs:258-305). */
module ReplaceFallback {
  import opened Prelude

  type Path = string

  /** A file or directory with what is in it. */
  datatype Node = Plain(content: Bytes) | Folder(members: map<string, Bytes>)

  type Files = map<Path, Node>

  datatype Io = Done | AlreadyExists | OtherError

  /** A call to the file system, and what it answered. */
  datatype Call =
    | Renaming(from: Path, to: Path, r: Io)
    | Stating(path: Path, found: bool)
    | Removing(path: Path, directory: bool, r: Io)

  /** What one atomic rename makes of the files. */
  function Renamed(files: Files, from: Path, to: Path): Files
    requires from in files
  {
    (files - {from})[to := files[from]]
  }

  // ----- the names `to.old0`, `to.old1`, ... -----

  function HexDigit(d: nat): char
    requires d < 16
  {
    "0123456789abcdef"[d]
  }

  /** `{:x}` */
  function Hex(n: nat): (s: string)
    ensures s != []
  {
    if n < 16 then [HexDigit(n)] else Hex(n / 16) + [HexDigit(n % 16)]
  }

  function OldName(to: Path, i: nat): Path { to + ".old" + Hex(i) }

  function DigitValue(c: char): nat {
    if '0' <= c <= '9' then (c - '0') as nat else if 'a' <= c <= 'f' then (c - 'a') as nat + 10 else 0
  }

  function HexValue(s: string): nat {
    if s == [] then 0 else 16 * HexValue(s[..|s| - 1]) + DigitValue(s[|s| - 1])
  }

  /** The number in lower-case digits of base sixteen, without leading zeros. */
  lemma {:induction false} HexMeans(n: nat)
    ensures HexValue(Hex(n)) == n
    ensures forall i :: 0 <= i < |Hex(n)| ==> '0' <= Hex(n)[i] <= '9' || 'a' <= Hex(n)[i] <= 'f'
    ensures n > 0 ==> Hex(n)[0] != '0'
  {
    hide HexDigit, DigitValue;
    DigitMeans(n % 16);
    if n >= 16 {
      HexMeans(n / 16);
      assert Hex(n)[..|Hex(n)| - 1] == Hex(n / 16);
    }
  }

  lemma DigitMeans(d: nat)
    requires d < 16
    ensures DigitValue(HexDigit(d)) == d
    ensures '0' <= HexDigit(d) <= '9' || 'a' <= HexDigit(d) <= 'f'
    ensures d > 0 ==> HexDigit(d) != '0'
  {
  }

  /** The first name tried, the eleventh and the seventeenth. */
  lemma OldNames(to: Path)
    ensures OldName(to, 0) == to + ".old0" && OldName(to, 10) == to + ".olda" && OldName(to, 16) == to + ".old10"
  {
    assert Hex(0) == "0" && Hex(10) == "a";
    assert Hex(16) == Hex(1) + "0" == "10";
    assert to + ".old" + "0" == to + ".old0" && to + ".old" + "a" == to + ".olda" && to + ".old" + "10" == to + ".old10";
  }

  lemma DigitsDiffer(a: nat, b: nat)
    requires a < 16 && b < 16 && HexDigit(a) == HexDigit(b)
    ensures a == b
  {
  }

  lemma {:induction false} HexInjective(a: nat, b: nat)
    requires Hex(a) == Hex(b)
    ensures a == b
    decreases a
  {
    var s := Hex(a);
    assert s[|s| - 1] == HexDigit(a % 16) == HexDigit(b % 16);
    DigitsDiffer(a % 16, b % 16);
    if a >= 16 && b >= 16 {
      assert Hex(a / 16) == s[..|s| - 1] == Hex(b / 16);
      HexInjective(a / 16, b / 16);
    }
  }

  lemma NamesDiffer(to: Path, a: nat, b: nat)
    requires OldName(to, a) == OldName(to, b)
    ensures a == b
  {
    assert OldName(to, a)[|to| + 4..] == Hex(a);
    assert OldName(to, b)[|to| + 4..] == Hex(b);
    HexInjective(a, b);
  }

  ghost predicate Taken(files: Files, to: Path, i: nat) {
    forall k: nat :: k < i ==> OldName(to, k) in files
  }

  ghost function Names(to: Path, i: nat): set<Path> {
    if i == 0 then {} else Names(to, i - 1) + {OldName(to, i - 1)}
  }

  lemma {:induction false} NamesOf(to: Path, i: nat, p: Path)
    requires p in Names(to, i)
    ensures exists k: nat :: k < i && p == OldName(to, k)
  {
    hide OldName;
    if p in Names(to, i - 1) {
      NamesOf(to, i - 1, p);
      var k: nat :| k < i - 1 && p == OldName(to, k);
      assert k < i;
    } else {
      assert i - 1 < i && p == OldName(to, i - 1);
    }
  }

  lemma {:induction false} NamesAreMany(to: Path, i: nat)
    ensures |Names(to, i)| == i
  {
    hide OldName;
    if i > 0 {
      NamesAreMany(to, i - 1);
      if OldName(to, i - 1) in Names(to, i - 1) {
        NamesOf(to, i - 1, OldName(to, i - 1));
        var k: nat :| k < i - 1 && OldName(to, i - 1) == OldName(to, k);
        NamesDiffer(to, i - 1, k);
        assert false;
      }
    }
  }

  lemma {:induction false} SubsetSize<T>(a: set<T>, b: set<T>)
    requires a <= b
    ensures |a| <= |b|
  {
    if a != {} {
      var x :| x in a;
      SubsetSize(a - {x}, b - {x});
    }
  }

  /** There are no more names taken than there are files. */
  lemma TakenBound(files: Files, to: Path, i: nat)
    requires Taken(files, to, i)
    ensures i <= |files|
  {
    NamesAreMany(to, i);
    forall p | p in Names(to, i)
      ensures p in files.Keys
    {
      NamesOf(to, i, p);
      var k: nat :| k < i && p == OldName(to, k);
    }
    SubsetSize(Names(to, i), files.Keys);
    assert |files.Keys| == |files|;
  }

  // ----- the file system -----

  class FileSystem {
    var files: Files
    const sound: bool               // nothing fails that could be done
    ghost var history: seq<Files>   // every state so far, the current one last
    ghost var calls: seq<Call>

    ghost predicate Valid()
      reads this
    {
      history != [] && history[|history| - 1] == files
    }

    constructor (files: Files, sound: bool)
      ensures Valid() && this.files == files && this.sound == sound && history == [files] && calls == []
    {
      this.files, this.sound, history, calls := files, sound, [files], [];
    }

    /** Atomic; refuses existing targets; may fail for other reasons, and then changes nothing. */
    method Rename(from: Path, to: Path) returns (r: Io)
      requires Valid()
      modifies this
      ensures Valid()
      ensures r == Done ==> from in old(files) && to !in old(files) && files == Renamed(old(files), from, to)
      ensures r == Done ==> history == old(history) + [files]
      ensures r == AlreadyExists ==> from in files && to in files
      ensures r != Done ==> files == old(files) && history == old(history)
      ensures sound && from in old(files) ==> r == if to in old(files) then AlreadyExists else Done
      ensures calls == old(calls) + [Renaming(from, to, r)]
    {
      var broken: bool := *;
      if (broken && !sound) || from !in files {
        r := OtherError;
      } else if to in files {
        r := AlreadyExists;
      } else {
        files := Renamed(files, from, to);
        history := history + [files];
        r := Done;
      }
      calls := calls + [Renaming(from, to, r)];
    }

    /** `symlink_metadata`: whether it is a directory. */
    method Stat(path: Path) returns (directory: Option<bool>)
      modifies this`calls
      ensures directory.Some? ==> path in files && directory.value == files[path].Folder?
      ensures sound && path in files ==> directory.Some?
      ensures calls == old(calls) + [Stating(path, directory.Some?)]
    {
      var broken: bool := *;
      if (broken && !sound) || path !in files {
        directory := None;
      } else {
        directory := Some(files[path].Folder?);
      }
      calls := calls + [Stating(path, directory.Some?)];
    }

    /** `remove_file` or `remove_dir_all`; a failure may leave part of a directory behind. */
    method Remove(path: Path, directory: bool) returns (r: Io)
      requires Valid()
      modifies this
      ensures Valid()
      ensures r == Done ==> path in old(files) && old(files)[path].Folder? == directory && files == old(files) - {path}
      ensures r != Done ==> files == old(files) || (path in files && path in old(files) && files == old(files)[path := files[path]])
      ensures r != Done && !directory ==> files == old(files)
      ensures history == old(history) || history == old(history) + [files]
      ensures sound && path in old(files) && old(files)[path].Folder? == directory ==> r == Done
      ensures calls == old(calls) + [Removing(path, directory, r)]
    {
      var broken: bool := *;
      if path !in files || files[path].Folder? != directory {
        r := OtherError;
      } else if broken && !sound {
        if directory {
          var rest: map<string, Bytes> := *;
          files := files[path := Folder(rest)];
          history := history + [files];
        }
        r := OtherError;
      } else {
        files := files - {path};
        history := history + [files];
        r := Done;
      }
      calls := calls + [Removing(path, directory, r)];
    }
  }

  // ----- replacing -----

  predicate Holds(now: Files, p: Path, n: Node) { p in now && now[p] == n }

  /**
   Nothing is lost: the target holds the new node, or both old and new exist; every other file is as it was, and the only
   new name there can be was not taken.
   */
  ghost predicate Intact(was: Files, now: Files, from: Path, to: Path, i: nat) {
    && (forall p :: p in was && p != from && p != to ==> Holds(now, p, was[p]))
    && (forall p :: p in now && p != to && p != OldName(to, i) ==> Holds(was, p, now[p]))
    && (from in was && to in was ==>
        || Holds(now, to, was[from])
        || ((Holds(now, from, was[from]) || from == to) && (Holds(now, to, was[to]) || Holds(now, OldName(to, i), was[to]))))
  }

  datatype Outcome =
    | Replaced
    | Refused                 // nothing has changed
    | Stranded                // the new file did not go in and the old one did not go back
    | Leftover(rest: Node)    // the new file is in, the old one could not be removed

  /** The files as each outcome leaves them. */
  ghost predicate LeftAs(was: Files, now: Files, from: Path, to: Path, i: nat, o: Outcome) {
    match o
    case Replaced => from in was && now == Renamed(was, from, to)
    case Refused => now == was
    case Stranded => to in was && OldName(to, i) !in was && now == Renamed(was, to, OldName(to, i))
    case Leftover(rest) =>
      from in was && to in was && OldName(to, i) !in was && now == Renamed(was, from, to)[OldName(to, i) := rest]
  }

  lemma NameIsNew(to: Path, i: nat)
    ensures OldName(to, i) != to
  {
    assert |OldName(to, i)| > |to|;
  }

  /** The calls of a search that has met i names already taken. */
  ghost function Searched(to: Path, i: nat): (calls: seq<Call>)
    ensures |calls| == i
  {
    seq(i, (k: nat) => Renaming(to, OldName(to, k), AlreadyExists))
  }

  ghost predicate IsRename(c: Call, from: Path, to: Path) { c.Renaming? && c.from == from && c.to == to }

  /** With the old file out of the way: two calls, and what their answers make of the outcome. */
  ghost predicate Concluded(calls: seq<Call>, from: Path, to: Path, i: nat, directory: bool, o: Outcome) {
    && |calls| == 2 && IsRename(calls[0], from, to)
    && if calls[0].r == Done then
         && calls[1].Removing? && calls[1].path == OldName(to, i) && calls[1].directory == directory
         && (if calls[1].r == Done then o == Replaced else o.Leftover?)
       else IsRename(calls[1], OldName(to, i), to) && o == if calls[1].r == Done then Refused else Stranded
  }

  /** All calls of a replacement, and what their answers make of the outcome. */
  ghost predicate Story(calls: seq<Call>, from: Path, to: Path, i: nat, directory: bool, o: Outcome) {
    && calls != [] && IsRename(calls[0], from, to)
    && if calls[0].r == Done then |calls| == 1 && o == Replaced
       else if calls[0].r == OtherError then |calls| == 1 && o == Refused
       else
         && |calls| >= 2 && calls[1].Stating? && calls[1].path == to
         && if !calls[1].found then |calls| == 2 && o == Refused
            else
              && |calls| >= i + 3 && calls[2..i + 2] == Searched(to, i)
              && IsRename(calls[i + 2], to, OldName(to, i)) && calls[i + 2].r != AlreadyExists
              && if calls[i + 2].r == OtherError then |calls| == i + 3 && o == Refused
                 else Concluded(calls[i + 3..], from, to, i, directory, o)
  }

  /** Moves the old file out of the way, under the first name that is free. */
  method SetAside(fs: FileSystem, to: Path) returns (r: Io, i: nat)
    requires fs.Valid() && to in fs.files
    modifies fs
    ensures fs.Valid() && r != AlreadyExists && i <= |old(fs.files)|
    ensures Taken(old(fs.files), to, i)
    ensures r == Done ==> OldName(to, i) !in old(fs.files)
    ensures r == Done ==>
      fs.files == Renamed(old(fs.files), to, OldName(to, i)) && fs.history == old(fs.history) + [fs.files]
    ensures r != Done ==> fs.files == old(fs.files) && fs.history == old(fs.history)
    ensures fs.sound ==> r == Done
    ensures fs.calls == old(fs.calls) + Searched(to, i) + [Renaming(to, OldName(to, i), r)]
  {
    i := 0;
    while true
      invariant fs.Valid() && fs.files == old(fs.files) && fs.history == old(fs.history)
      invariant Taken(fs.files, to, i) && i <= |fs.files|
      invariant fs.calls == old(fs.calls) + Searched(to, i)
      decreases |fs.files| - i
    {
      r := fs.Rename(to, OldName(to, i));
      if r != AlreadyExists {
        return;
      }
      TakenBound(fs.files, to, i + 1);
      assert Searched(to, i + 1) == Searched(to, i) + [Renaming(to, OldName(to, i), AlreadyExists)];
      i := i + 1;
    }
  }

  // ----- the four states a replacement can pass through -----

  lemma DirectIntact(was: Files, from: Path, to: Path)
    requires from in was && to !in was
    ensures Intact(was, Renamed(was, from, to), from, to, 0)
  {
  }

  lemma AsideIntact(was: Files, from: Path, to: Path, i: nat)
    requires from in was && to in was && OldName(to, i) !in was
    ensures Intact(was, Renamed(was, to, OldName(to, i)), from, to, i)
  {
    NameIsNew(to, i);
  }

  lemma ReplacedIntact(was: Files, from: Path, to: Path, i: nat, rest: Node)
    requires from in was && to in was && OldName(to, i) !in was && from != to
    ensures var aside := Renamed(was, to, OldName(to, i));
      && from in aside
      && Renamed(aside, from, to)[OldName(to, i) := rest] == Renamed(was, from, to)[OldName(to, i) := rest]
      && Renamed(aside, from, to) - {OldName(to, i)} == Renamed(was, from, to)
    ensures Intact(was, Renamed(was, from, to)[OldName(to, i) := rest], from, to, i)
    ensures Intact(was, Renamed(was, from, to), from, to, i)
  {
    NameIsNew(to, i);
  }

  lemma BackIntact(was: Files, from: Path, to: Path, i: nat)
    requires to in was && OldName(to, i) !in was
    ensures Renamed(Renamed(was, to, OldName(to, i)), OldName(to, i), to) == was
    ensures Intact(was, was, from, to, i)
  {
    NameIsNew(to, i);
  }

  /** With the old file out of the way: the new one in and the old one gone, or the old one back. */
  method Finish(fs: FileSystem, ghost was: Files, from: Path, to: Path, i: nat, isDir: bool)
    returns (ok: bool, ghost o: Outcome, ghost calls: seq<Call>)
    requires fs.Valid() && from in was && to in was && OldName(to, i) !in was
    requires fs.files == Renamed(was, to, OldName(to, i)) && (was[to].Folder? <==> isDir)
    modifies fs
    ensures fs.sound ==> o == if from != to then Replaced else Refused
    ensures fs.Valid() && (ok <==> o == Replaced) && LeftAs(was, fs.files, from, to, i, o)
    ensures fs.calls == old(fs.calls) + calls && Concluded(calls, from, to, i, isDir, o)
    ensures old(fs.history) <= fs.history
    ensures forall k :: |old(fs.history)| <= k < |fs.history| ==> Intact(was, fs.history[k], from, to, i)
  {
    hide Intact;
    NameIsNew(to, i);
    BackIntact(was, from, to, i);
    var r := fs.Rename(from, to);
    calls := [Renaming(from, to, r)];
    if r == Done {
      ReplacedIntact(was, from, to, i, was[to]);
      assert fs.files == fs.files[OldName(to, i) := was[to]];
      r := fs.Remove(OldName(to, i), isDir);
      calls := calls + [Removing(OldName(to, i), isDir, r)];
      ok := r == Done;
      if ok {
        o := Replaced;
      } else {
        ReplacedIntact(was, from, to, i, fs.files[OldName(to, i)]);
        o := Leftover(fs.files[OldName(to, i)]);
      }
    } else {
      ok := false;
      r := fs.Rename(OldName(to, i), to);
      calls := calls + [Renaming(OldName(to, i), to, r)];
      o := if r == Done then Refused else Stranded;
    }
  }

  lemma ShortStories(from: Path, to: Path, i: nat, directory: bool)
    ensures Story([Renaming(from, to, Done)], from, to, i, directory, Replaced)
    ensures Story([Renaming(from, to, OtherError)], from, to, i, directory, Refused)
    ensures Story([Renaming(from, to, AlreadyExists), Stating(to, false)], from, to, i, directory, Refused)
  {
  }

  lemma StoryGoesOn(from: Path, to: Path, i: nat, r: Io, rest: seq<Call>, directory: bool, o: Outcome)
    requires r != AlreadyExists
    requires if r == OtherError then rest == [] && o == Refused else Concluded(rest, from, to, i, directory, o)
    ensures Story([Renaming(from, to, AlreadyExists), Stating(to, true)] + Searched(to, i) + [Renaming(to, OldName(to, i), r)]
                    + rest, from, to, i, directory, o)
  {
    hide Searched, Concluded, OldName;
    var calls := [Renaming(from, to, AlreadyExists), Stating(to, true)] + Searched(to, i) + [Renaming(to, OldName(to, i), r)] + rest;
    assert calls[2..i + 2] == Searched(to, i) && calls[i + 3..] == rest;
  }

  /**
   Replaces `to` by `from`. The answers of the calls determine the outcome, the outcome determines the files, and nothing is
   lost on the way.
   */
  method MoveReplaceFallback(fs: FileSystem, from: Path, to: Path)
    returns (ok: bool, ghost i: nat, ghost o: Outcome, ghost calls: seq<Call>)
    requires fs.Valid()
    modifies fs
    ensures fs.Valid() && (ok <==> o == Replaced)
    ensures i <= |old(fs.files)|
    ensures fs.sound ==> o == if from in old(fs.files) && from != to then Replaced else Refused
    ensures LeftAs(old(fs.files), fs.files, from, to, i, o)
    ensures fs.calls == old(fs.calls) + calls
    ensures Story(calls, from, to, i, to in old(fs.files) && old(fs.files)[to].Folder?, o)
    ensures old(fs.history) <= fs.history
    ensures forall k :: |old(fs.history)| <= k < |fs.history| ==> Intact(old(fs.files), fs.history[k], from, to, i)
  {
    hide Intact, OldName, Taken, Concluded, Searched, Story;
    ShortStories(from, to, 0, to in fs.files && fs.files[to].Folder?);
    i, o := 0, Refused;
    var r := fs.Rename(from, to);
    calls := [Renaming(from, to, r)];
    if r == Done {
      DirectIntact(old(fs.files), from, to);
      return true, i, Replaced, calls;
    } else if r == OtherError {
      return false, i, o, calls;
    }
    var stat := fs.Stat(to);
    calls := [Renaming(from, to, AlreadyExists), Stating(to, stat.Some?)];
    if stat.None? {
      return false, i, o, calls;
    }
    var j;
    r, j := SetAside(fs, to);
    i := j;
    ghost var soFar := calls + Searched(to, j) + [Renaming(to, OldName(to, j), r)];
    assert fs.calls == old(fs.calls) + soFar;
    ghost var rest := [];
    if r == Done {
      AsideIntact(old(fs.files), from, to, j);
      ok, o, rest := Finish(fs, old(fs.files), from, to, j, stat.value);
    } else {
      ok := false;
    }
    assert stat.value == (to in old(fs.files) && old(fs.files)[to].Folder?);
    StoryGoesOn(from, to, j, r, rest, stat.value, o);
    calls := soFar + rest;
  }
}
