/**
 * `CgroupOptions`: where a spawned process is placed in the control-group
 * hierarchy, and which controller attributes are written for it.
 *
 * The kernel's cgroup pseudo-filesystem is modelled as a value `Fs`; each
 * operation that touches it takes one and returns the next, so that every
 * effect, and every effect that did NOT happen, is visible in the result.
 */
module CgroupOptions {
  import opened IntrusiveForwardList
  import Decimal
  import opened CharBuffer
  import opened Optional

  /** One pending attribute write: `Set(name, value)`. */
  datatype SetItem = SetItem(name: string, value: string)

  /** A location below one controller hierarchy: the mount's name, then the path components. */
  datatype Path = Path(mount: string, rel: seq<string>)

  function Child(dir: Path, name: string): Path {
    Path(dir.mount, dir.rel + [name])
  }

  function LeafDir(mount: string, leaf: string): Path {
    Path(mount, [leaf])
  }

  function SessionDir(mount: string, leaf: string, session: string): Path {
    Path(mount, [leaf, session])
  }

  /** The membership file a process is placed in: the session's if there is one, else the leaf's. */
  function ProcsFile(mount: string, leaf: string, session: Option<string>): Path {
    match session
    case None => Child(LeafDir(mount, leaf), "cgroup.procs")
    case Some(s) => Child(SessionDir(mount, leaf, s), "cgroup.procs")
  }

  /**
   * The cgroup filesystem:
   * - `dirs`: directories that exist;
   * - `files`: what was last written to each attribute file;
   * - `broken`: paths where `mkdirat` fails with an error other than EEXIST,
   *   or where writing an existing file fails;
   * - `absent`: files `TryWriteExistingFile` does not find, which the code
   *   skips silently.
   */
  datatype Fs = Fs(dirs: set<Path>, files: map<Path, string>, broken: set<Path>, absent: set<Path>)

  /** What the process-wide `CgroupState` offers. */
  datatype CgroupState = CgroupState(
    enabled: bool,
    mounts: seq<string>,                  // one entry per mounted hierarchy
    controllers: map<string, string>,     // controller name -> the mount serving it
    memoryV2: bool)

  /** Every controller is served by one of the mounts (the source asserts the lookup finds it). */
  predicate WellFormed(state: CgroupState) {
    forall c :: c in state.controllers ==> state.controllers[c] in state.mounts
  }

  datatype Error =
    | Disabled                           // "Control groups are disabled"
    | MkdirFailed(path: Path)            // "mkdir('%s') failed"
    | WriteFailed(path: Path)            // "write('%s') failed"
    | ControllerUnavailable(controller: string)

  datatype Outcome = Ok | Failed(error: Error)

  /** An outcome and the filesystem it leaves behind. */
  datatype Run = Run(outcome: Outcome, fs: Fs)

  /** `mkdirat(..., 0777)` where EEXIST counts as success, followed by `OpenPath`. */
  function Mkdir(fs: Fs, p: Path): (r: Run)
    ensures r.outcome.Failed? <==> p in fs.broken
    ensures r.outcome.Failed? ==> r == Run(Failed(MkdirFailed(p)), fs)
    ensures r.outcome.Ok? ==> r.fs == fs.(dirs := fs.dirs + {p})
  {
    if p in fs.broken then Run(Failed(MkdirFailed(p)), fs)
    else if p in fs.dirs then Run(Ok, fs)     // EEXIST
    else Run(Ok, fs.(dirs := fs.dirs + {p}))
  }

  /** `MakeCgroup(group_fd, sub_group)`: creates (or finds) a sub-group and opens it. */
  function MakeCgroup(fs: Fs, group: Path, subGroup: string): (r: Run)
    ensures r.outcome.Failed? <==> Child(group, subGroup) in fs.broken
    ensures r.outcome.Ok? ==> r.fs.dirs == fs.dirs + {Child(group, subGroup)}
    ensures r.fs.files == fs.files
  {
    Mkdir(fs, Child(group, subGroup))
  }

  /** `MkdirOpenPath(parent_fd, name)`: the same step, used for the session sub-group. */
  function MkdirOpenPath(fs: Fs, parent: Path, name: string): (r: Run)
    ensures r.outcome.Failed? <==> Child(parent, name) in fs.broken
    ensures r.outcome.Ok? ==> r.fs.dirs == fs.dirs + {Child(parent, name)}
    ensures r.fs.files == fs.files
  {
    Mkdir(fs, Child(parent, name))
  }

  /** `WriteFile(fd, path, data)`: fails only on a write error; a missing file is skipped. */
  function WriteFile(fs: Fs, dir: Path, name: string, data: string): (r: Run)
    ensures r.outcome.Failed? <==> Child(dir, name) in fs.broken
    ensures r.outcome.Failed? ==> r == Run(Failed(WriteFailed(Child(dir, name))), fs)
    ensures r.outcome.Ok? && Child(dir, name) !in fs.absent ==> r.fs == fs.(files := fs.files[Child(dir, name) := data])
    ensures r.outcome.Ok? && Child(dir, name) in fs.absent ==> r.fs == fs
  {
    var p := Child(dir, name);
    if p in fs.broken then Run(Failed(WriteFailed(p)), fs)
    else if p in fs.absent then Run(Ok, fs)
    else Run(Ok, fs.(files := fs.files[p := data]))
  }

  /** The contents of the file at `p`, if any was written. */
  function FileAt(fs: Fs, p: Path): Option<string> {
    if p in fs.files then Some(fs.files[p]) else None
  }

  /** The directories `MoveToNewCgroup` creates below one mount. */
  function PlacementDirs(mount: string, leaf: string, session: Option<string>): set<Path> {
    {LeafDir(mount, leaf)} + (match session case None => {} case Some(s) => {SessionDir(mount, leaf, s)})
  }

  /**
   * `MoveToNewCgroup`: creates the leaf, the session below it if any, and
   * writes the pid into the membership file of the innermost of the two.
   */
  function MoveToNewCgroup(fs: Fs, mount: string, leaf: string, session: Option<string>, pid: string): (r: Run)
    ensures r.fs.broken == fs.broken && r.fs.absent == fs.absent
    ensures fs.dirs <= r.fs.dirs <= fs.dirs + PlacementDirs(mount, leaf, session)
    ensures r.outcome.Ok? <==> PlacementDirs(mount, leaf, session) !! fs.broken && ProcsFile(mount, leaf, session) !in fs.broken
    ensures r.outcome.Ok? ==> PlacementDirs(mount, leaf, session) <= r.fs.dirs
    ensures r.outcome.Failed? ==> r.outcome.error.MkdirFailed? || r.outcome.error.WriteFailed?
    ensures forall p :: p != ProcsFile(mount, leaf, session) ==> FileAt(r.fs, p) == FileAt(fs, p)
    ensures r.outcome.Ok? && ProcsFile(mount, leaf, session) !in fs.absent ==> FileAt(r.fs, ProcsFile(mount, leaf, session)) == Some(pid)
    ensures FileAt(r.fs, ProcsFile(mount, leaf, session)) in {FileAt(fs, ProcsFile(mount, leaf, session)), Some(pid)}
  {
    assert Child(Path(mount, []), leaf) == LeafDir(mount, leaf);
    var r := MakeCgroup(fs, Path(mount, []), leaf);
    if r.outcome.Failed? then r
    else match session
      case Some(s) =>
        assert Child(LeafDir(mount, leaf), s) == SessionDir(mount, leaf, s);
        var r2 := MkdirOpenPath(r.fs, LeafDir(mount, leaf), s);
        if r2.outcome.Failed? then r2
        else WriteFile(r2.fs, SessionDir(mount, leaf, s), "cgroup.procs", pid)
      case None =>
        WriteFile(r.fs, LeafDir(mount, leaf), "cgroup.procs", pid)
  }

  /** The membership files of the leaf (or session) on every mount. */
  function ProcsFiles(mounts: seq<string>, leaf: string, session: Option<string>): set<Path> {
    set m | m in mounts :: ProcsFile(m, leaf, session)
  }

  /** The placement loop of `Apply`: `MoveToNewCgroup` on every mount, in order, failing fast. */
  function PlaceAll(fs: Fs, mounts: seq<string>, leaf: string, session: Option<string>, pid: string): (r: Run)
    ensures r.fs.broken == fs.broken && r.fs.absent == fs.absent && fs.dirs <= r.fs.dirs
    ensures r.outcome.Failed? ==> r.outcome.error.MkdirFailed? || r.outcome.error.WriteFailed?
    ensures forall p :: p !in ProcsFiles(mounts, leaf, session) ==> FileAt(r.fs, p) == FileAt(fs, p)
    decreases |mounts|
  {
    if mounts == [] then Run(Ok, fs)
    else
      var r := MoveToNewCgroup(fs, mounts[0], leaf, session, pid);
      if r.outcome.Failed? then r
      else
        var r' := PlaceAll(r.fs, mounts[1..], leaf, session, pid);
        assert ProcsFiles(mounts[1..], leaf, session) <= ProcsFiles(mounts, leaf, session);
        r'
  }

  predicate Dotted(name: string) {
    exists i :: 0 <= i < |name| && name[i] == '.'
  }

  predicate AllDotted(items: seq<SetItem>) {
    forall i :: 0 <= i < |items| ==> Dotted(items[i].name)
  }

  /** `strchr(name, '.')`: the index of the first dot. */
  function FirstDot(name: string): (k: nat)
    requires Dotted(name)
    ensures k < |name| && name[k] == '.'
    ensures forall i :: 0 <= i < k ==> name[i] != '.'
  {
    if name[0] == '.' then 0
    else
      assert name[1..][..] == name[1..] && exists i :: 0 <= i < |name[1..]| && name[1..][i] == '.' by {
        var i :| 0 <= i < |name| && name[i] == '.';
        assert name[1..][i - 1] == '.';
      }
      1 + FirstDot(name[1..])
  }

  /** The controller an attribute belongs to: the text before its first dot. */
  function Controller(name: string): (c: string)
    requires Dotted(name)
    ensures |c| < |name| && name[|c|] == '.'
    ensures c == name[..|c|] && forall i :: 0 <= i < |c| ==> c[i] != '.'
  {
    name[..FirstDot(name)]
  }

  /** The file name actually written: the legacy memory limit maps to its unified-hierarchy name. */
  function TranslateName(name: string, memoryV2: bool): (f: string)
    ensures f == "memory.max" <==> (name == "memory.max" || (memoryV2 && name == "memory.limit_in_bytes"))
    ensures f != name ==> memoryV2 && name == "memory.limit_in_bytes"
  {
    if memoryV2 && name == "memory.limit_in_bytes" then "memory.max" else name
  }

  /** Whether the controller of an attribute is known to the state. */
  predicate Resolvable(item: SetItem, state: CgroupState) {
    Dotted(item.name) && Controller(item.name) in state.controllers
  }

  /** The file an attribute is written to: its name, translated, in the controller's leaf directory. */
  function Target(item: SetItem, state: CgroupState, leaf: string): (p: Path)
    requires Resolvable(item, state)
    ensures WellFormed(state) ==> p.mount in state.mounts
    ensures p.rel == [leaf, TranslateName(item.name, state.memoryV2)]
  {
    Child(LeafDir(state.controllers[Controller(item.name)], leaf), TranslateName(item.name, state.memoryV2))
  }

  /** One iteration of the attribute loop of `Apply`. */
  function WriteAttribute(fs: Fs, item: SetItem, state: CgroupState, leaf: string): (r: Run)
    requires Dotted(item.name)
    ensures !Resolvable(item, state) ==> r == Run(Failed(ControllerUnavailable(Controller(item.name))), fs)
    ensures Resolvable(item, state) && Target(item, state, leaf) in fs.broken ==>
      r == Run(Failed(WriteFailed(Target(item, state, leaf))), fs)
    ensures Resolvable(item, state) && Target(item, state, leaf) in fs.absent - fs.broken ==> r == Run(Ok, fs)
    ensures Resolvable(item, state) && Target(item, state, leaf) !in fs.broken + fs.absent ==>
      r == Run(Ok, fs.(files := fs.files[Target(item, state, leaf) := item.value]))
  {
    var c := Controller(item.name);
    if c !in state.controllers then Run(Failed(ControllerUnavailable(c)), fs)
    else WriteFile(fs, LeafDir(state.controllers[c], leaf), TranslateName(item.name, state.memoryV2), item.value)
  }

  /** The files the attribute loop may write. */
  function Targets(items: seq<SetItem>, state: CgroupState, leaf: string): set<Path>
    requires AllDotted(items)
  {
    set i | 0 <= i < |items| && Resolvable(items[i], state) :: Target(items[i], state, leaf)
  }

  /** The attribute loop of `Apply`: every item in list order, failing fast. */
  function WriteAttributes(fs: Fs, items: seq<SetItem>, state: CgroupState, leaf: string): (r: Run)
    requires AllDotted(items)
    ensures r.fs.dirs == fs.dirs && r.fs.broken == fs.broken && r.fs.absent == fs.absent
    ensures r.outcome.Failed? ==> r.outcome.error.WriteFailed? || r.outcome.error.ControllerUnavailable?
    ensures r.outcome.Failed? && r.outcome.error.ControllerUnavailable? ==> r.outcome.error.controller !in state.controllers
    decreases |items|
  {
    if items == [] then Run(Ok, fs)
    else
      var r := WriteAttribute(fs, items[0], state, leaf);
      if r.outcome.Failed? then r else WriteAttributes(r.fs, items[1..], state, leaf)
  }

  /** What `Apply(state, pid)` does, given the options' leaf, session and attribute list. */
  function ApplySpec(name: Option<string>, session: Option<string>, items: seq<SetItem>,
                     state: CgroupState, pid: nat, fs: Fs): (r: Run)
    requires AllDotted(items)
    ensures name.None? ==> r == Run(Ok, fs)
    ensures r.outcome == Failed(Disabled) <==> name.Some? && !state.enabled
    ensures r.outcome == Failed(Disabled) ==> r.fs == fs
    ensures r.fs.broken == fs.broken && r.fs.absent == fs.absent && fs.dirs <= r.fs.dirs
    ensures r.outcome.Failed? && r.outcome.error.ControllerUnavailable? ==> r.outcome.error.controller !in state.controllers
  {
    if name.None? then Run(Ok, fs)
    else if !state.enabled then Run(Failed(Disabled), fs)
    else
      var r := PlaceAll(fs, state.mounts, name.value, session, Decimal.Text(pid));
      if r.outcome.Failed? then r else WriteAttributes(r.fs, items, state, name.value)
  }

  /** The identity fragment `MakeId` appends. */
  function CgroupId(name: Option<string>, session: Option<string>): string
  {
    if name.None? then "" else Named(";cg", name) + Named("/", session)
  }

  /**
   * The body of `MakeId` on the two names: ";cg" and the name, then, with a
   * session, `*p++ = '/'` over the terminator `stpcpy` left and the session.
   */
  method AppendCgroupId(buf: array<char>, p: nat, name: Option<string>, session: Option<string>) returns (q: nat)
    requires (name.Some? ==> NoNul(name.value)) && (session.Some? ==> NoNul(session.value))
    requires p + |CgroupId(name, session)| < buf.Length
    modifies buf
    ensures q == p + |CgroupId(name, session)| && buf[p..q] == CgroupId(name, session)
    ensures forall i :: 0 <= i < buf.Length && !(p <= i <= q) ==> buf[i] == old(buf[i])
  {
    q := AppendNamed(buf, p, p, ";cg", name);
    if name.Some? {
      // `*p++ = '/'` overwrites the terminator `stpcpy` left
      q := AppendNamed(buf, p, q, "/", session);
    }
  }

  /** After a successful placement every mount has the leaf (and session) and the pid in the membership file. */
  lemma {:induction false} PlacedEverywhere(fs: Fs, mounts: seq<string>, leaf: string, session: Option<string>, pid: string)
    requires PlaceAll(fs, mounts, leaf, session, pid).outcome.Ok?
    ensures var r := PlaceAll(fs, mounts, leaf, session, pid);
      forall m :: m in mounts ==>
        PlacementDirs(m, leaf, session) <= r.fs.dirs &&
        (ProcsFile(m, leaf, session) !in fs.absent ==> FileAt(r.fs, ProcsFile(m, leaf, session)) == Some(pid))
    decreases |mounts|
  {
    if mounts != [] {
      var r1 := MoveToNewCgroup(fs, mounts[0], leaf, session, pid);
      var rest := mounts[1..];
      PlacedEverywhere(r1.fs, rest, leaf, session, pid);
      if ProcsFile(mounts[0], leaf, session) !in fs.absent {
        PlacedFirstStays(r1.fs, rest, leaf, session, pid, mounts[0]);
      }
      forall m | m in mounts
        ensures m == mounts[0] || m in rest
      {
        assert mounts == [mounts[0]] + rest;
      }
    }
  }

  /** The placement loop only ever writes the pid: a membership file already holding it keeps it. */
  lemma {:induction false} PlacedFirstStays(fs: Fs, mounts: seq<string>, leaf: string, session: Option<string>, pid: string, m: string)
    requires FileAt(fs, ProcsFile(m, leaf, session)) == Some(pid)
    ensures FileAt(PlaceAll(fs, mounts, leaf, session, pid).fs, ProcsFile(m, leaf, session)) == Some(pid)
    decreases |mounts|
  {
    if mounts != [] {
      var r1 := MoveToNewCgroup(fs, mounts[0], leaf, session, pid);
      if r1.outcome.Ok? {
        PlacedFirstStays(r1.fs, mounts[1..], leaf, session, pid, m);
      }
    }
  }

  /** Running the attribute loop over `a + b` is running it over `a`, then (if that succeeded) over `b`. */
  lemma {:induction false} WriteAttributesAppend(fs: Fs, a: seq<SetItem>, b: seq<SetItem>, state: CgroupState, leaf: string)
    requires AllDotted(a) && AllDotted(b)
    ensures AllDotted(a + b)
    ensures var r := WriteAttributes(fs, a, state, leaf);
      WriteAttributes(fs, a + b, state, leaf) == (if r.outcome.Failed? then r else WriteAttributes(r.fs, b, state, leaf))
    decreases |a|
  {
    if a == [] {
      assert a + b == b;
    } else {
      assert (a + b)[1..] == a[1..] + b;
      var r1 := WriteAttribute(fs, a[0], state, leaf);
      if r1.outcome.Ok? {
        WriteAttributesAppend(r1.fs, a[1..], b, state, leaf);
      }
    }
  }

  /** The attribute loop changes no file outside its targets. */
  lemma {:induction false} WriteAttributesFrame(fs: Fs, items: seq<SetItem>, state: CgroupState, leaf: string, p: Path)
    requires AllDotted(items)
    requires p !in Targets(items, state, leaf)
    ensures FileAt(WriteAttributes(fs, items, state, leaf).fs, p) == FileAt(fs, p)
    decreases |items|
  {
    if items != [] {
      var r1 := WriteAttribute(fs, items[0], state, leaf);
      if r1.outcome.Ok? {
        assert Resolvable(items[0], state) && Target(items[0], state, leaf) != p;
        forall q | q in Targets(items[1..], state, leaf)
          ensures q in Targets(items, state, leaf)
        {
          var j :| 0 <= j < |items[1..]| && Resolvable(items[1..][j], state) && Target(items[1..][j], state, leaf) == q;
          assert items[1..][j] == items[j + 1];
        }
        WriteAttributesFrame(r1.fs, items[1..], state, leaf, p);
      }
    }
  }

  /** The attribute loop succeeds iff every controller is known and no target file fails. */
  lemma {:induction false} WriteAttributesOk(fs: Fs, items: seq<SetItem>, state: CgroupState, leaf: string)
    requires AllDotted(items)
    ensures WriteAttributes(fs, items, state, leaf).outcome.Ok?
        <==> forall i :: 0 <= i < |items| ==> Resolvable(items[i], state) && Target(items[i], state, leaf) !in fs.broken
    decreases |items|
  {
    if items != [] {
      var r1 := WriteAttribute(fs, items[0], state, leaf);
      WriteAttributesOk(r1.fs, items[1..], state, leaf);
      forall i | 0 < i < |items|
        ensures items[1..][i - 1] == items[i]
      {
      }
    }
  }

  /** The placement loop succeeds iff no directory or membership file on any mount fails. */
  lemma {:induction false} PlaceAllOk(fs: Fs, mounts: seq<string>, leaf: string, session: Option<string>, pid: string)
    ensures PlaceAll(fs, mounts, leaf, session, pid).outcome.Ok?
        <==> forall m :: m in mounts ==> PlacementDirs(m, leaf, session) !! fs.broken && ProcsFile(m, leaf, session) !in fs.broken
    decreases |mounts|
  {
    if mounts != [] {
      var r1 := MoveToNewCgroup(fs, mounts[0], leaf, session, pid);
      PlaceAllOk(r1.fs, mounts[1..], leaf, session, pid);
      assert mounts == [mounts[0]] + mounts[1..];
    }
  }

  /**
   * An attribute whose controller is unknown stops the loop: the writes
   * before it stay, and none after it happens.
   */
  lemma UnknownControllerStops(fs: Fs, items: seq<SetItem>, state: CgroupState, leaf: string, i: nat)
    requires AllDotted(items) && i < |items|
    requires !Resolvable(items[i], state)
    requires WriteAttributes(fs, items[..i], state, leaf).outcome.Ok?
    ensures WriteAttributes(fs, items, state, leaf)
         == Run(Failed(ControllerUnavailable(Controller(items[i].name))), WriteAttributes(fs, items[..i], state, leaf).fs)
  {
    assert items == items[..i] + items[i..];
    WriteAttributesAppend(fs, items[..i], items[i..], state, leaf);
  }

  /**
   * Of several attributes aimed at the same file, the value of the one handled
   * LAST is what the file holds after a successful loop.
   */
  lemma LastWriteWins(fs: Fs, items: seq<SetItem>, state: CgroupState, leaf: string, i: nat)
    requires AllDotted(items) && i < |items| && Resolvable(items[i], state)
    requires WriteAttributes(fs, items, state, leaf).outcome.Ok?
    requires Target(items[i], state, leaf) !in fs.absent
    requires forall j :: i < j < |items| && Resolvable(items[j], state) ==> Target(items[j], state, leaf) != Target(items[i], state, leaf)
    ensures FileAt(WriteAttributes(fs, items, state, leaf).fs, Target(items[i], state, leaf)) == Some(items[i].value)
  {
    var before := items[..i];
    var rest := items[i..];
    SplitAt(items, i);
    WriteAttributesAppend(fs, before, rest, state, leaf);
    forall k | 1 <= k < |rest| && Resolvable(rest[k], state)
      ensures Target(rest[k], state, leaf) != Target(rest[0], state, leaf)
    {
      assert rest[k] == items[i + k];
    }
    WrittenThenKept(WriteAttributes(fs, before, state, leaf).fs, rest, state, leaf);
  }

  /** A write followed by writes to other files: the first write's value stays. */
  lemma WrittenThenKept(fs: Fs, items: seq<SetItem>, state: CgroupState, leaf: string)
    requires AllDotted(items) && items != [] && Resolvable(items[0], state)
    requires WriteAttributes(fs, items, state, leaf).outcome.Ok?
    requires Target(items[0], state, leaf) !in fs.absent
    requires forall k :: 1 <= k < |items| && Resolvable(items[k], state) ==> Target(items[k], state, leaf) != Target(items[0], state, leaf)
    ensures FileAt(WriteAttributes(fs, items, state, leaf).fs, Target(items[0], state, leaf)) == Some(items[0].value)
  {
    var p := Target(items[0], state, leaf);
    var r1 := WriteAttribute(fs, items[0], state, leaf);
    assert FileAt(r1.fs, p) == Some(items[0].value);
    forall q | q in Targets(items[1..], state, leaf)
      ensures q != p
    {
      var j :| 0 <= j < |items[1..]| && Resolvable(items[1..][j], state) && Target(items[1..][j], state, leaf) == q;
      assert items[1..][j] == items[j + 1];
    }
    WriteAttributesFrame(r1.fs, items[1..], state, leaf, p);
  }

  /**
   * `Set` prepends, so after the calls `calls[0]`, ..., `calls[n-1]` on an
   * empty object the list is their reverse, and of several calls aimed at
   * the same file the EARLIEST call's value ends up in it.
   */
  lemma EarliestSetWins(fs: Fs, calls: seq<SetItem>, state: CgroupState, leaf: string, c: nat)
    requires AllDotted(calls) && c < |calls| && Resolvable(calls[c], state)
    requires AllDotted(Reversed(calls))
    requires WriteAttributes(fs, Reversed(calls), state, leaf).outcome.Ok?
    requires Target(calls[c], state, leaf) !in fs.absent
    requires forall d :: 0 <= d < c && Resolvable(calls[d], state) ==> Target(calls[d], state, leaf) != Target(calls[c], state, leaf)
    ensures FileAt(WriteAttributes(fs, Reversed(calls), state, leaf).fs, Target(calls[c], state, leaf)) == Some(calls[c].value)
  {
    var i := |calls| - 1 - c;
    ReversedAt(calls, i);
    LaterTargetsDiffer(calls, state, leaf, c);
    LastWriteWins(fs, Reversed(calls), state, leaf, i);
  }

  /** The calls before `c` come after it once the list is reversed. */
  lemma LaterTargetsDiffer(calls: seq<SetItem>, state: CgroupState, leaf: string, c: nat)
    requires AllDotted(calls) && c < |calls| && Resolvable(calls[c], state)
    requires AllDotted(Reversed(calls))
    requires forall d :: 0 <= d < c && Resolvable(calls[d], state) ==> Target(calls[d], state, leaf) != Target(calls[c], state, leaf)
    ensures |Reversed(calls)| == |calls|
    ensures var items, i := Reversed(calls), |calls| - 1 - c;
      forall j :: i < j < |items| && Resolvable(items[j], state) ==> Target(items[j], state, leaf) != Target(calls[c], state, leaf)
  {
    ReversedLength(calls);
    var items := Reversed(calls);
    forall j | |calls| - 1 - c < j < |items| && Resolvable(items[j], state)
      ensures Target(items[j], state, leaf) != Target(calls[c], state, leaf)
    {
      ReversedAt(calls, j);
    }
  }

  /** The list a sequence of `Set` calls produces on `items`: each call's item in front. */
  lemma {:induction false} SetsReverse(items: seq<SetItem>, calls: seq<SetItem>)
    ensures AfterSets(items, calls) == Reversed(calls) + items
    decreases |calls|
  {
    if calls != [] {
      SetsReverse(items, calls[..|calls| - 1]);
    }
  }

  /** The attribute list after `Set(calls[0])`, ..., `Set(calls[n-1])`, each step as `Set`'s contract says. */
  function AfterSets(items: seq<SetItem>, calls: seq<SetItem>): seq<SetItem>
    decreases |calls|
  {
    if calls == [] then items else [calls[|calls| - 1]] + AfterSets(items, calls[..|calls| - 1])
  }

  /** Where a legacy memory limit goes on the unified hierarchy: `memory.max` under the memory mount. */
  lemma MemoryLimitTarget(item: SetItem, state: CgroupState, leaf: string)
    requires item.name == "memory.limit_in_bytes" && state.memoryV2 && "memory" in state.controllers
    ensures Dotted(item.name) && Resolvable(item, state)
    ensures Target(item, state, leaf) == Path(state.controllers["memory"], [leaf, "memory.max"])
  {
    MemoryLimitController();
    MemoryLimitTranslated();
  }

  /**
   * The legacy memory limit on a unified hierarchy: with nothing failing, the
   * pid lands in every mount's membership file and the value in the memory
   * controller's `memory.max`; no file `memory.limit_in_bytes` is written.
   */
  lemma UnifiedMemoryLimit(leaf: string, session: Option<string>, item: SetItem,
                           state: CgroupState, pid: nat, fs: Fs)
    requires item.name == "memory.limit_in_bytes"
    requires WellFormed(state) && state.enabled && state.memoryV2 && "memory" in state.controllers
    requires fs.broken == {} && fs.absent == {}
    ensures AllDotted([item])
    ensures var r := ApplySpec(Some(leaf), session, [item], state, pid, fs);
      r.outcome.Ok? &&
      (forall m :: m in state.mounts ==> FileAt(r.fs, ProcsFile(m, leaf, session)) == Some(Decimal.Text(pid))) &&
      FileAt(r.fs, Path(state.controllers["memory"], [leaf, "memory.max"])) == Some(item.value) &&
      forall m :: FileAt(r.fs, Path(m, [leaf, item.name])) == FileAt(fs, Path(m, [leaf, item.name]))
  {
    MemoryLimitTarget(item, state, leaf);
    var target := Target(item, state, leaf);
    NotProcsFile(state.mounts, leaf, session, target);
    ApplyOneAttribute(leaf, session, item, state, pid, fs);
    forall m
      ensures Path(m, [leaf, item.name]) !in ProcsFiles(state.mounts, leaf, session)
      ensures Path(m, [leaf, item.name]) != target
    {
      NotProcsFile(state.mounts, leaf, session, Path(m, [leaf, item.name]));
    }
  }


  /** A file directly in a leaf directory, other than "cgroup.procs", is no membership file. */
  lemma NotProcsFile(mounts: seq<string>, leaf: string, session: Option<string>, p: Path)
    requires |p.rel| == 2 && p.rel[1] != "cgroup.procs"
    ensures p !in ProcsFiles(mounts, leaf, session)
    ensures forall m :: ProcsFile(m, leaf, session) != p
  {
    forall m
      ensures ProcsFile(m, leaf, session) != p
    {
      var q := ProcsFile(m, leaf, session);
      assert q.rel[|q.rel| - 1] == "cgroup.procs";
    }
  }

  /** The legacy memory-limit name belongs to the memory controller. */
  lemma MemoryLimitController()
    ensures Dotted("memory.limit_in_bytes") && Controller("memory.limit_in_bytes") == "memory"
  {
    ControllerOfPrefix("memory", ".limit_in_bytes");
    assert "memory" + ".limit_in_bytes" == "memory.limit_in_bytes";
  }

  /** A name made of a dot-free prefix and a suffix that starts with a dot belongs to the prefix's controller. */
  lemma ControllerOfPrefix(c: string, rest: string)
    requires forall i :: 0 <= i < |c| ==> c[i] != '.'
    requires |rest| > 0 && rest[0] == '.'
    ensures Dotted(c + rest) && Controller(c + rest) == c
  {
    FirstDotAt(c + rest, |c|);
    assert (c + rest)[..|c|] == c;
  }

  /** On a unified hierarchy the legacy memory-limit name is written as "memory.max". */
  lemma MemoryLimitTranslated()
    ensures TranslateName("memory.limit_in_bytes", true) == "memory.max"
    ensures "memory.limit_in_bytes" != "memory.max" && "memory.limit_in_bytes" != "cgroup.procs"
  {
  }

  /** The first dot is the dot with no dot before it. */
  lemma FirstDotAt(name: string, k: nat)
    requires k < |name| && name[k] == '.'
    requires forall i :: 0 <= i < k ==> name[i] != '.'
    ensures Dotted(name) && FirstDot(name) == k
  {
  }

  /**
   * `Apply` with one resolvable attribute whose file is not a membership
   * file, on a filesystem where nothing fails: the pid is placed on every
   * mount, the value lands in the attribute's file, and nothing else changes.
   */
  lemma ApplyOneAttribute(leaf: string, session: Option<string>, item: SetItem,
                          state: CgroupState, pid: nat, fs: Fs)
    requires state.enabled && fs.broken == {} && fs.absent == {} && Resolvable(item, state)
    requires forall m :: ProcsFile(m, leaf, session) != Target(item, state, leaf)
    ensures AllDotted([item])
    ensures var r := ApplySpec(Some(leaf), session, [item], state, pid, fs);
      r.outcome.Ok? &&
      (forall m :: m in state.mounts ==> FileAt(r.fs, ProcsFile(m, leaf, session)) == Some(Decimal.Text(pid))) &&
      FileAt(r.fs, Target(item, state, leaf)) == Some(item.value) &&
      forall p :: p !in ProcsFiles(state.mounts, leaf, session) && p != Target(item, state, leaf) ==> FileAt(r.fs, p) == FileAt(fs, p)
  {
    var pidText := Decimal.Text(pid);
    var placed := PlaceAll(fs, state.mounts, leaf, session, pidText);
    assert placed.outcome.Ok? && forall m :: m in state.mounts ==> FileAt(placed.fs, ProcsFile(m, leaf, session)) == Some(pidText) by {
      PlaceAllOk(fs, state.mounts, leaf, session, pidText);
      PlacedEverywhere(fs, state.mounts, leaf, session, pidText);
    }
    SingleAttribute(placed.fs, item, state, leaf);
  }

  /** A one-attribute loop over a filesystem where nothing fails writes exactly that attribute. */
  lemma SingleAttribute(fs: Fs, item: SetItem, state: CgroupState, leaf: string)
    requires fs.broken == {} && fs.absent == {} && Resolvable(item, state)
    ensures AllDotted([item])
    ensures var r := WriteAttributes(fs, [item], state, leaf);
      r.outcome.Ok? && FileAt(r.fs, Target(item, state, leaf)) == Some(item.value) &&
      forall p :: p != Target(item, state, leaf) ==> FileAt(r.fs, p) == FileAt(fs, p)
  {
  }

  /** The character after ";cg" and `k` characters of the fragment: the name's, then the separator. */
  lemma IdCharAt(n: string, s: Option<string>, k: nat)
    requires k < |n| || (k == |n| && s.Some?)
    ensures 3 + k < |CgroupId(Some(n), s)|
    ensures CgroupId(Some(n), s)[3 + k] == if k < |n| then n[k] else '/'
  {
  }

  /** Without slashes in the names, the identity fragment tells apart any two configurations. */
  lemma CgroupIdInjective(n1: Option<string>, s1: Option<string>, n2: Option<string>, s2: Option<string>)
    requires n1.Some? && n2.Some?
    requires '/' !in n1.value && '/' !in n2.value
    requires CgroupId(n1, s1) == CgroupId(n2, s2)
    ensures n1 == n2 && s1 == s2
  {
    var id := CgroupId(n1, s1);
    var a, b := n1.value, n2.value;
    if |a| < |b| {
      IdCharAt(b, s2, |a|);
      IdCharAt(a, s1, |a|);
      assert false;
    } else if |b| < |a| {
      IdCharAt(a, s1, |b|);
      IdCharAt(b, s2, |b|);
      assert false;
    }
    assert a == id[3..3 + |a|] == b;
    var tail1 := id[3 + |a|..];
    assert tail1 == Named("/", s1);
    assert tail1 == Named("/", s2);
    if s1.Some? && s2.Some? {
      assert s1.value == tail1[1..] == s2.value;
    }
  }

  /** A slash in the leaf name makes two configurations render alike: the restriction above is needed. */
  lemma CgroupIdSlashCollision()
    ensures CgroupId(Some("a/b"), None) == CgroupId(Some("a"), Some("b"))
  {
  }

  /** The copy loop of the copy constructor: appends every element of `src` to the empty `dst`, in order. */
  method CopyItems(src: ForwardList<SetItem>, dst: ForwardList<SetItem>)
    requires src.Valid() && dst.Valid() && dst.nodes == [] && src != dst
    modifies dst
    ensures dst.Valid() && dst.Contents() == src.Contents()
  {
    var tail: Cursor<SetItem> := BeforeBegin;
    var p := src.head;
    ghost var k := 0;
    while p != null
      invariant src.Valid()
      invariant dst.Valid()
      invariant 0 <= k <= |src.nodes| && |dst.nodes| == k
      invariant p == (if k < |src.nodes| then src.nodes[k] else null)
      invariant dst.Contents() == Values(src.nodes[..k])
      invariant tail == (if k == 0 then BeforeBegin else Item(dst.nodes[k - 1]))
      invariant tail.Item? ==> fresh(tail.node)
      invariant forall i :: 0 <= i < |src.nodes| ==> !fresh(src.nodes[i])
      decreases |src.nodes| - k
    {
      assert tail.Item? ==> tail.node !in src.nodes;
      tail := AppendCopy(dst, tail, p.value);
      assert Values(src.nodes[..k + 1]) == Values(src.nodes[..k]) + [p.value];
      p := p.next;
      k := k + 1;
    }
    assert src.nodes[..k] == src.nodes;
  }

  /** One round of the copy loop: a new element holding a copy of `item` is inserted after the tail. */
  method AppendCopy(dst: ForwardList<SetItem>, tail: Cursor<SetItem>, item: SetItem) returns (tail': Cursor<SetItem>)
    requires dst.Valid()
    requires tail == (if dst.nodes == [] then BeforeBegin else Item(dst.nodes[|dst.nodes| - 1]))
    modifies dst, if tail.Item? then {tail.node} else {}
    ensures dst.Valid() && |dst.nodes| == |old(dst.nodes)| + 1 && dst.nodes[..|old(dst.nodes)|] == old(dst.nodes)
    ensures tail' == Item(dst.nodes[|dst.nodes| - 1]) && fresh(tail'.node)
    ensures dst.Contents() == old(dst.Contents()) + [item]
  {
    var node := new Node(SetItem(item.name, item.value));
    ghost var before := dst.nodes;
    if before != [] {
      dst.IndexOfNode(|before| - 1);
    }
    assert dst.Index(tail) + 1 == |before|;
    tail' := dst.InsertAfter(tail, node);
    assert before[..|before|] == before && before[|before|..] == [];
    assert dst.nodes == before + [node];
  }

  /**
   * The placement loop of `Apply`: `MoveToNewCgroup` on every mount, keeping
   * each mount's leaf directory in `fds` under the mount's name.
   */
  method PlaceOnMounts(state: CgroupState, leaf: string, session: Option<string>, pidText: string, fs: Fs)
    returns (outcome: Outcome, fs': Fs, fds: map<string, Path>)
    ensures Run(outcome, fs') == PlaceAll(fs, state.mounts, leaf, session, pidText)
    ensures outcome.Ok? ==> forall m :: m in fds <==> m in state.mounts
    ensures forall m :: m in fds ==> fds[m] == LeafDir(m, leaf)
  {
    fs' := fs;
    fds := map[];
    var i := 0;
    while i < |state.mounts|
      invariant 0 <= i <= |state.mounts|
      invariant PlaceAll(fs, state.mounts, leaf, session, pidText)
             == PlaceAll(fs', state.mounts[i..], leaf, session, pidText)
      invariant forall m :: m in fds <==> m in state.mounts[..i]
      invariant forall m :: m in fds ==> fds[m] == LeafDir(m, leaf)
    {
      var mount := state.mounts[i];
      var r := MoveToNewCgroup(fs', mount, leaf, session, pidText);
      assert state.mounts[i..][1..] == state.mounts[i + 1..];
      if r.outcome.Failed? {
        return r.outcome, r.fs, fds;
      }
      fds := fds[mount := LeafDir(mount, leaf)];
      fs' := r.fs;
      PrefixGrows(state.mounts, i);
      i := i + 1;
    }
    PrefixGrows(state.mounts, i);
    outcome := Ok;
  }

  /** A sequence is its prefix followed by the rest. */
  lemma SplitAt<X>(s: seq<X>, i: nat)
    requires i <= |s|
    ensures s == s[..i] + s[i..]
  {
  }

  /** The elements of a prefix, one element longer; the whole sequence is its longest prefix. */
  lemma PrefixGrows<X>(s: seq<X>, i: nat)
    requires i <= |s|
    ensures i < |s| ==> forall x :: x in s[..i + 1] <==> x in s[..i] || x == s[i]
    ensures i == |s| ==> s[..i] == s
  {
    if i < |s| {
      assert s[..i + 1] == s[..i] + [s[i]];
    }
  }

  class CgroupOptions {
    /** The leaf group; absent means "no cgroup management for this process". */
    var name: Option<string>
    /** An optional session group nested one level below the leaf. */
    var session: Option<string>
    /** The pending attribute writes, newest `Set` first. */
    const attributes: ForwardList<SetItem>

    ghost predicate Valid()
      reads this, attributes, attributes.nodes
    {
      attributes.Valid()
    }

    /** The pending attributes in the order `Apply` handles them. */
    ghost function Items(): seq<SetItem>
      reads this, attributes
    {
      attributes.Contents()
    }

    constructor ()
      ensures Valid() && fresh(attributes)
      ensures name == None && session == None && Items() == []
    {
      name := None;
      session := None;
      attributes := new ForwardList();
    }

    /**
     * The copy constructor: copies the leaf name and the attribute list in
     * its order, appending behind a moving tail; `session` is not copied.
     */
    constructor Copy(src: CgroupOptions)
      requires src.Valid()
      ensures Valid() && fresh(attributes)
      ensures name == src.name && session == None && Items() == src.Items()
    {
      name := src.name;
      session := None;
      attributes := new ForwardList();
      new;
      CopyItems(src.attributes, attributes);
    }

    /** `Set(name, value)`: records an attribute write as the new FIRST list element. */
    method Set(attribute: string, value: string)
      requires Valid()
      modifies attributes
      ensures Valid()
      ensures Items() == [SetItem(attribute, value)] + old(Items())
    {
      var item := new Node(SetItem(attribute, value));
      attributes.PushFront(item);
    }

    /**
     * `Apply(state, pid)`: places `pid` below the leaf on every mount, then
     * writes every attribute into that controller's leaf directory.
     */
    method Apply(state: CgroupState, pid: nat, fs: Fs) returns (outcome: Outcome, fs': Fs)
      requires Valid() && WellFormed(state) && AllDotted(Items())
      ensures Run(outcome, fs') == ApplySpec(name, session, Items(), state, pid, fs)
    {
      if name.None? {
        return Ok, fs;
      }
      if !state.enabled {
        return Failed(Disabled), fs;
      }
      var leaf := name.value;
      var fds;
      outcome, fs', fds := PlaceOnMounts(state, leaf, session, Decimal.Text(pid), fs);
      if outcome.Ok? {
        outcome, fs' := WriteAll(state, leaf, fds, fs');
      }
    }

    /**
     * The attribute loop of `Apply`: each attribute's controller is looked up
     * and its file written through the directory the placement loop opened.
     */
    method WriteAll(state: CgroupState, leaf: string, fds: map<string, Path>, fs: Fs) returns (outcome: Outcome, fs': Fs)
      requires Valid() && WellFormed(state) && AllDotted(Items())
      requires forall m :: m in fds <==> m in state.mounts
      requires forall m :: m in fds ==> fds[m] == LeafDir(m, leaf)
      ensures Run(outcome, fs') == WriteAttributes(fs, Items(), state, leaf)
    {
      fs' := fs;
      ghost var items := Items();
      var p := attributes.head;
      ghost var k := 0;
      while p != null
        invariant 0 <= k <= |items|
        invariant p == (if k < |items| then attributes.nodes[k] else null)
        invariant WriteAttributes(fs, items, state, leaf) == WriteAttributes(fs', items[k..], state, leaf)
        decreases |items| - k
      {
        var item := p.value;
        assert item == items[k];
        var controller := Controller(item.name);
        if controller !in state.controllers {
          return Failed(ControllerUnavailable(controller)), fs';
        }
        var fd := fds[state.controllers[controller]];
        var r := WriteFile(fs', fd, TranslateName(item.name, state.memoryV2), item.value);
        assert items[k..][1..] == items[k + 1..];
        if r.outcome.Failed? {
          return r.outcome, r.fs;
        }
        fs' := r.fs;
        p := p.next;
        k := k + 1;
      }
      return Ok, fs';
    }

    /** `MakeId(p)`: appends the identity fragment at `p` and returns the new cursor. */
    method MakeId(buf: array<char>, p: nat) returns (q: nat)
      requires (name.Some? ==> NoNul(name.value)) && (session.Some? ==> NoNul(session.value))
      requires p + |CgroupId(name, session)| < buf.Length
      modifies buf
      ensures q == p + |CgroupId(name, session)| && buf[p..q] == CgroupId(name, session)
      ensures forall i :: 0 <= i < buf.Length && !(p <= i <= q) ==> buf[i] == old(buf[i])
    {
      q := AppendCgroupId(buf, p, name, session);
    }
  }
}
