/**
 * `NamespaceOptions`: which Linux namespaces a spawned process gets, the
 * setup steps run inside it afterwards, and the identity text that tells
 * two configurations apart in caches and logs.
 *
 * The privileged system calls are not executed: each is an `Effect` handed
 * to a `Kernel`, which records it and answers whether it succeeded. The set
 * of effects the kernel rejects is a parameter of the model.
 */
module NamespaceOptions {
  import opened Optional
  import opened CharBuffer

  /** The `CLONE_NEW*` bits of `<sched.h>`. */
  const CLONE_NEWNS: bv64     := 0x0002_0000
  const CLONE_NEWCGROUP: bv64 := 0x0200_0000
  const CLONE_NEWUTS: bv64    := 0x0400_0000
  const CLONE_NEWIPC: bv64    := 0x0800_0000
  const CLONE_NEWUSER: bv64   := 0x1000_0000
  const CLONE_NEWPID: bv64    := 0x2000_0000
  const CLONE_NEWNET: bv64    := 0x4000_0000

  /** All seven of them: CLONE_NEWNS | CLONE_NEWCGROUP | CLONE_NEWUTS | CLONE_NEWIPC | CLONE_NEWUSER | CLONE_NEWPID | CLONE_NEWNET. */
  const NAMESPACE_BITS: bv64 := 0x7E02_0000

  /**
   * The mount sub-configuration, which this model treats as opaque: whether
   * it asks for a mount namespace, and the identity text it renders.
   */
  datatype MountOptions = MountOptions(enabled: bool, id: string)

  datatype NamespaceOptions = NamespaceOptions(
    enableUser: bool,
    enablePid: bool,
    enableCgroup: bool,
    enableNetwork: bool,
    enableIpc: bool,
    pidNamespace: Option<string>,       // an existing pid namespace to join
    networkNamespace: Option<string>,   // an existing network namespace to join
    hostname: Option<string>,
    mount: MountOptions)

  /** The credentials a process runs with; `groups` is terminated by a 0 entry. */
  datatype UidGid = UidGid(uid: nat, gid: nat, groups: seq<nat>)

  /** `GetCloneFlags(flags)`: `flags` with the bit of every namespace the process gets afresh. */
  function GetCloneFlags(o: NamespaceOptions, flags: bv64): (r: bv64)
    ensures r == flags | (r & NAMESPACE_BITS)
  {
    Chain(flags, o.enableUser, o.enablePid && o.pidNamespace.None?, o.enableCgroup, o.enableNetwork,
          o.enableIpc, o.mount.enabled, o.hostname.Some?)
  }

  /** The seven conditional ORs of `GetCloneFlags`, in source order. */
  function Chain(flags: bv64, user: bool, pid: bool, cgroup: bool, net: bool, ipc: bool, ns: bool, uts: bool): bv64 {
    flags
    | Bit(user, CLONE_NEWUSER)
    | Bit(pid, CLONE_NEWPID)
    | Bit(cgroup, CLONE_NEWCGROUP)
    | Bit(net, CLONE_NEWNET)
    | Bit(ipc, CLONE_NEWIPC)
    | Bit(ns, CLONE_NEWNS)
    | Bit(uts, CLONE_NEWUTS)
  }

  /** `flags |= bit` when `on` holds, as one term of the chain in `GetCloneFlags`. */
  function Bit(on: bool, bit: bv64): bv64 {
    if on then bit else 0
  }

  /** Each namespace bit is set iff it was already set or the options ask for that namespace. */
  lemma CloneFlagBits(o: NamespaceOptions, flags: bv64)
    ensures var r := GetCloneFlags(o, flags);
      ((r & CLONE_NEWUSER != 0) <==> (flags & CLONE_NEWUSER != 0 || o.enableUser)) &&
      ((r & CLONE_NEWPID != 0) <==> (flags & CLONE_NEWPID != 0 || (o.enablePid && o.pidNamespace.None?))) &&
      ((r & CLONE_NEWCGROUP != 0) <==> (flags & CLONE_NEWCGROUP != 0 || o.enableCgroup)) &&
      ((r & CLONE_NEWNET != 0) <==> (flags & CLONE_NEWNET != 0 || o.enableNetwork)) &&
      ((r & CLONE_NEWIPC != 0) <==> (flags & CLONE_NEWIPC != 0 || o.enableIpc)) &&
      ((r & CLONE_NEWNS != 0) <==> (flags & CLONE_NEWNS != 0 || o.mount.enabled)) &&
      ((r & CLONE_NEWUTS != 0) <==> (flags & CLONE_NEWUTS != 0 || o.hostname.Some?))
  {
    UserFlag(o, flags);
    PidFlag(o, flags);
    CgroupFlag(o, flags);
    NetworkFlag(o, flags);
    IpcFlag(o, flags);
    MountFlag(o, flags);
    UtsFlag(o, flags);
  }

  /** The user namespace part of `CloneFlagBits`. */
  lemma UserFlag(o: NamespaceOptions, flags: bv64)
    ensures (GetCloneFlags(o, flags) & CLONE_NEWUSER != 0) <==> (flags & CLONE_NEWUSER != 0 || o.enableUser)
  {
  }

  /** The pid namespace part of `CloneFlagBits`. */
  lemma PidFlag(o: NamespaceOptions, flags: bv64)
    ensures (GetCloneFlags(o, flags) & CLONE_NEWPID != 0) <==> (flags & CLONE_NEWPID != 0 || (o.enablePid && o.pidNamespace.None?))
  {
  }

  /** The cgroup namespace part of `CloneFlagBits`. */
  lemma CgroupFlag(o: NamespaceOptions, flags: bv64)
    ensures (GetCloneFlags(o, flags) & CLONE_NEWCGROUP != 0) <==> (flags & CLONE_NEWCGROUP != 0 || o.enableCgroup)
  {
  }

  /** The network namespace part of `CloneFlagBits`. */
  lemma NetworkFlag(o: NamespaceOptions, flags: bv64)
    ensures (GetCloneFlags(o, flags) & CLONE_NEWNET != 0) <==> (flags & CLONE_NEWNET != 0 || o.enableNetwork)
  {
  }

  /** The IPC namespace part of `CloneFlagBits`. */
  lemma IpcFlag(o: NamespaceOptions, flags: bv64)
    ensures (GetCloneFlags(o, flags) & CLONE_NEWIPC != 0) <==> (flags & CLONE_NEWIPC != 0 || o.enableIpc)
  {
  }

  /** The mount namespace part of `CloneFlagBits`. */
  lemma MountFlag(o: NamespaceOptions, flags: bv64)
    ensures (GetCloneFlags(o, flags) & CLONE_NEWNS != 0) <==> (flags & CLONE_NEWNS != 0 || o.mount.enabled)
  {
  }

  /** The UTS namespace part of `CloneFlagBits`. */
  lemma UtsFlag(o: NamespaceOptions, flags: bv64)
    ensures (GetCloneFlags(o, flags) & CLONE_NEWUTS != 0) <==> (flags & CLONE_NEWUTS != 0 || o.hostname.Some?)
  {
  }

  /** `o'` asks for at least the namespaces `o` asks for, and names the same ones to join. */
  predicate EnablesMore(o: NamespaceOptions, o': NamespaceOptions) {
    (o.enableUser ==> o'.enableUser) && (o.enablePid ==> o'.enablePid) &&
    (o.enableCgroup ==> o'.enableCgroup) && (o.enableNetwork ==> o'.enableNetwork) &&
    (o.enableIpc ==> o'.enableIpc) &&
    o'.pidNamespace == o.pidNamespace && o'.mount.enabled == o.mount.enabled && o'.hostname.Some? == o.hostname.Some?
  }

  /**
   * Turning on more `enable_*` switches never removes a clone flag: every
   * namespace bit `o` yields, `o'` yields too (the bits of `flags` are kept
   * by both, as `GetCloneFlags` ensures; `BitwiseSubset` turns these facts
   * into the sub-mask relation).
   */
  lemma CloneFlagsMonotonic(o: NamespaceOptions, o': NamespaceOptions, flags: bv64)
    requires EnablesMore(o, o')
    ensures var r, r' := GetCloneFlags(o, flags), GetCloneFlags(o', flags);
      (r & CLONE_NEWUSER != 0 ==> r' & CLONE_NEWUSER != 0) &&
      (r & CLONE_NEWPID != 0 ==> r' & CLONE_NEWPID != 0) &&
      (r & CLONE_NEWCGROUP != 0 ==> r' & CLONE_NEWCGROUP != 0) &&
      (r & CLONE_NEWNET != 0 ==> r' & CLONE_NEWNET != 0) &&
      (r & CLONE_NEWIPC != 0 ==> r' & CLONE_NEWIPC != 0) &&
      (r & CLONE_NEWNS != 0 ==> r' & CLONE_NEWNS != 0) &&
      (r & CLONE_NEWUTS != 0 ==> r' & CLONE_NEWUTS != 0)
  {
    CloneFlagBits(o, flags);
    CloneFlagBits(o', flags);
  }

  /**
   * Two results of OR-ing namespace bits onto the same `flags`: when every
   * namespace bit of the first is in the second, the first is a sub-mask.
   */
  lemma BitwiseSubset(flags: bv64, r: bv64, r': bv64)
    requires r == flags | (r & NAMESPACE_BITS) && r' == flags | (r' & NAMESPACE_BITS)
    requires r & CLONE_NEWUSER != 0 ==> r' & CLONE_NEWUSER != 0
    requires r & CLONE_NEWPID != 0 ==> r' & CLONE_NEWPID != 0
    requires r & CLONE_NEWCGROUP != 0 ==> r' & CLONE_NEWCGROUP != 0
    requires r & CLONE_NEWNET != 0 ==> r' & CLONE_NEWNET != 0
    requires r & CLONE_NEWIPC != 0 ==> r' & CLONE_NEWIPC != 0
    requires r & CLONE_NEWNS != 0 ==> r' & CLONE_NEWNS != 0
    requires r & CLONE_NEWUTS != 0 ==> r' & CLONE_NEWUTS != 0
    ensures r & r' == r
  {
  }

  /** A pid namespace is either created at clone time or joined afterwards, never both. */
  lemma PidFlagExcludesJoin(o: NamespaceOptions, flags: bv64)
    requires flags & CLONE_NEWPID == 0 && o.pidNamespace.Some?
    ensures GetCloneFlags(o, flags) & CLONE_NEWPID == 0
  {
    PidFlag(o, flags);
  }

  /** The privileged steps of namespace setup, as the kernel sees them. */
  datatype Effect =
    | DenySetGroups(pid: nat)               // "deny" into /proc/<pid>/setgroups
    | GidMap(pid: nat, gids: set<nat>)      // /proc/<pid>/gid_map
    | UidMap(pid: nat, uid: nat)            // /proc/<pid>/uid_map
    | JoinPid(name: string)                 // setns() into a named pid namespace
    | JoinNetwork(name: string)             // setns() into a named network namespace
    | UnshareNetwork                        // unshare(CLONE_NEWNET)
    | ApplyMount(mount: MountOptions)       // the mount sub-configuration's own setup
    | SetHostname(hostname: string)         // sethostname()

  /** The kernel: a log of everything attempted, and the effects it rejects. */
  class Kernel {
    var log: seq<Effect>
    const rejects: set<Effect>

    constructor (rejects: set<Effect>)
      ensures log == [] && this.rejects == rejects
    {
      log := [];
      this.rejects := rejects;
    }

    /** Attempts one effect: it is logged whether or not it succeeds. */
    method Perform(e: Effect) returns (ok: bool)
      modifies this
      ensures log == old(log) + [e] && ok == (e !in rejects)
    {
      log := log + [e];
      ok := e !in rejects;
    }
  }

  /** The effects a plan actually attempts: all of them up to and including the first rejected one. */
  function Attempted(plan: seq<Effect>, rejects: set<Effect>): seq<Effect> {
    if plan == [] then []
    else if plan[0] in rejects then [plan[0]]
    else [plan[0]] + Attempted(plan[1..], rejects)
  }

  /**
   * What is attempted is a prefix of the plan: all of it when every step is
   * accepted, otherwise everything up to the first rejected step, which is
   * the last one attempted.
   */
  lemma {:induction false} AttemptedPrefix(plan: seq<Effect>, rejects: set<Effect>)
    ensures var t := Attempted(plan, rejects);
      |t| <= |plan| && t == plan[..|t|] &&
      (Succeeds(plan, rejects) ==> t == plan) &&
      (!Succeeds(plan, rejects) ==> |t| > 0 && t[|t| - 1] in rejects) &&
      (forall i :: 0 <= i < |t| - 1 ==> t[i] !in rejects)
    decreases |plan|
  {
    if plan != [] && plan[0] !in rejects {
      AttemptedPrefix(plan[1..], rejects);
      SucceedsTail(plan, rejects);
      var t := Attempted(plan, rejects);
      var t' := Attempted(plan[1..], rejects);
      assert t == [plan[0]] + t';
      forall i | 0 <= i < |t| - 1
        ensures t[i] !in rejects
      {
        if i > 0 {
          assert t[i] == t'[i - 1];
        }
      }
    }
  }

  /** A plan succeeds iff no step is rejected. */
  predicate Succeeds(plan: seq<Effect>, rejects: set<Effect>) {
    forall i :: 0 <= i < |plan| ==> plan[i] !in rejects
  }

  /** Attempting `a + b` attempts `a`, then `b` only if all of `a` succeeded. */
  lemma {:induction false} AttemptedAppend(a: seq<Effect>, b: seq<Effect>, rejects: set<Effect>)
    ensures Attempted(a + b, rejects)
         == if Succeeds(a, rejects) then a + Attempted(b, rejects) else Attempted(a, rejects)
    decreases |a|
  {
    if a == [] {
      assert a + b == b;
    } else if a[0] in rejects {
      assert (a + b)[0] == a[0];
      assert !Succeeds(a, rejects);
    } else {
      assert (a + b)[0] == a[0] && (a + b)[1..] == a[1..] + b;
      AttemptedAppend(a[1..], b, rejects);
      SucceedsTail(a, rejects);
      if Succeeds(a, rejects) {
        assert a == [a[0]] + a[1..];
      }
    }
  }

  /** A plan whose first step is accepted succeeds iff the rest does. */
  lemma SucceedsTail(a: seq<Effect>, rejects: set<Effect>)
    requires a != [] && a[0] !in rejects
    ensures Succeeds(a, rejects) <==> Succeeds(a[1..], rejects)
  {
    if Succeeds(a[1..], rejects) {
      forall i | 0 < i < |a|
        ensures a[i] !in rejects
      {
        assert a[i] == a[1..][i - 1];
      }
    }
  }

  /** The index of the 0 terminator of a group list. */
  function Terminator(groups: seq<nat>): (k: nat)
    requires 0 in groups
    ensures k < |groups| && groups[k] == 0 && 0 !in groups[..k]
  {
    if groups[0] == 0 then 0
    else
      var k := 1 + Terminator(groups[1..]);
      assert groups[..k] == [groups[0]] + groups[1..][..k - 1];
      k
  }

  /** The gids mapped into a new user namespace: the primary gid and every supplementary group. */
  function GidSet(ids: UidGid): (gids: set<nat>)
    requires 0 in ids.groups
    ensures ids.gid in gids
    ensures forall g :: g in gids <==> g == ids.gid || g in ids.groups[..Terminator(ids.groups)]
  {
    {ids.gid} + set g | g in ids.groups[..Terminator(ids.groups)]
  }

  /** The two map writes of `SetupUidGidMap`. */
  function UidGidMapPlan(ids: UidGid, pid: nat): seq<Effect>
    requires 0 in ids.groups
  {
    [GidMap(pid, GidSet(ids)), UidMap(pid, ids.uid)]
  }

  /**
   * `SetupUidGidMap(uid_gid, pid)`: collects the gids up to the terminator
   * (duplicates collapse in the set), maps them, then maps the uid.
   */
  method SetupUidGidMap(ids: UidGid, pid: nat, kernel: Kernel) returns (ok: bool)
    requires 0 in ids.groups
    modifies kernel
    ensures kernel.log == old(kernel.log) + Attempted(UidGidMapPlan(ids, pid), kernel.rejects)
    ensures ok == Succeeds(UidGidMapPlan(ids, pid), kernel.rejects)
  {
    var gids: set<nat> := {ids.gid};
    var i := 0;
    while ids.groups[i] != 0
      invariant 0 <= i <= Terminator(ids.groups)
      invariant gids == {ids.gid} + set g | g in ids.groups[..i]
      decreases Terminator(ids.groups) - i
    {
      assert ids.groups[..i + 1] == ids.groups[..i] + [ids.groups[i]];
      gids := gids + {ids.groups[i]};
      i := i + 1;
    }
    assert i == Terminator(ids.groups);
    AttemptedThen([GidMap(pid, gids)], [UidMap(pid, ids.uid)], kernel.rejects);
    ok := kernel.Perform(GidMap(pid, gids));
    if ok {
      ok := kernel.Perform(UidMap(pid, ids.uid));
    }
  }

  /** `ReassociatePid()`: joins the named pid namespace; the name must be set. */
  method ReassociatePid(o: NamespaceOptions, kernel: Kernel) returns (ok: bool)
    requires o.pidNamespace.Some?
    modifies kernel
    ensures kernel.log == old(kernel.log) + [JoinPid(o.pidNamespace.value)]
    ensures ok == (JoinPid(o.pidNamespace.value) !in kernel.rejects)
  {
    ok := kernel.Perform(JoinPid(o.pidNamespace.value));
  }

  /** `ReassociateNetwork()`: joins the named network namespace; the name must be set. */
  method ReassociateNetwork(o: NamespaceOptions, kernel: Kernel) returns (ok: bool)
    requires o.networkNamespace.Some?
    modifies kernel
    ensures kernel.log == old(kernel.log) + [JoinNetwork(o.networkNamespace.value)]
    ensures ok == (JoinNetwork(o.networkNamespace.value) !in kernel.rejects)
  {
    ok := kernel.Perform(JoinNetwork(o.networkNamespace.value));
  }

  /** The user-namespace part of `Apply`: deny setgroups, map a non-zero gid, map the uid. */
  function UserPlan(o: NamespaceOptions, ids: UidGid): seq<Effect> {
    if o.enableUser then
      [DenySetGroups(0)] + (if ids.gid != 0 then [GidMap(0, {ids.gid})] else []) + [UidMap(0, ids.uid)]
    else []
  }

  function NetworkJoinPlan(o: NamespaceOptions): seq<Effect> {
    match o.networkNamespace
    case Some(n) => [JoinNetwork(n)]
    case None => []
  }

  function HostnamePlan(o: NamespaceOptions): seq<Effect> {
    match o.hostname
    case Some(h) => [SetHostname(h)]
    case None => []
  }

  /** The mount sub-configuration's setup, then the hostname. */
  function MountPlan(o: NamespaceOptions): seq<Effect> {
    [ApplyMount(o.mount)] + HostnamePlan(o)
  }

  /** What `Apply(uid_gid)` attempts, in order, when nothing fails. */
  function ApplyPlan(o: NamespaceOptions, ids: UidGid): seq<Effect> {
    UserPlan(o, ids) + (NetworkJoinPlan(o) + MountPlan(o))
  }

  predicate IsUserEffect(e: Effect) {
    e.DenySetGroups? || e.GidMap? || e.UidMap?
  }

  /**
   * The order `Apply` promises: setgroups is denied first, the gid map is
   * written iff gid is not 0, the uid map always, all user-namespace steps
   * come before the network, mount and hostname steps, and sethostname is
   * called iff a hostname is set, as the last step.
   */
  lemma ApplyOrder(o: NamespaceOptions, ids: UidGid)
    ensures var plan := ApplyPlan(o, ids);
      (o.enableUser ==> plan[0] == DenySetGroups(0)) &&
      (GidMap(0, {ids.gid}) in plan <==> o.enableUser && ids.gid != 0) &&
      (UidMap(0, ids.uid) in plan <==> o.enableUser) &&
      (forall i, j :: 0 <= i < |plan| && 0 <= j < |plan| && IsUserEffect(plan[i]) && !IsUserEffect(plan[j]) ==> i < j) &&
      (forall i :: 0 <= i < |plan| && plan[i].SetHostname? ==> o.hostname == Some(plan[i].hostname) && i == |plan| - 1) &&
      (o.hostname.Some? ==> plan[|plan| - 1] == SetHostname(o.hostname.value)) &&
      (forall i :: 0 <= i < |plan| ==> !plan[i].UnshareNetwork? && !plan[i].JoinPid?)
  {
    var user := UserPlan(o, ids);
    var rest := NetworkJoinPlan(o) + MountPlan(o);
    var plan := ApplyPlan(o, ids);
    assert forall i :: 0 <= i < |user| ==> IsUserEffect(user[i]);
    assert forall i :: 0 <= i < |rest| ==> !IsUserEffect(rest[i]);
    assert forall i :: 0 <= i < |plan| ==> (IsUserEffect(plan[i]) <==> i < |user|) by {
      forall i | 0 <= i < |plan|
        ensures IsUserEffect(plan[i]) <==> i < |user|
      {
        if i < |user| {
          assert plan[i] == user[i];
        } else {
          assert plan[i] == rest[i - |user|];
        }
      }
    }
  }

  /** After a failed prefix nothing more is attempted; after a successful one the rest is. */
  lemma AttemptedThen(a: seq<Effect>, b: seq<Effect>, rejects: set<Effect>)
    ensures !Succeeds(a, rejects) ==> Attempted(a + b, rejects) == Attempted(a, rejects) && !Succeeds(a + b, rejects)
    ensures Succeeds(a, rejects) ==>
      Attempted(a, rejects) == a &&
      Attempted(a + b, rejects) == a + Attempted(b, rejects) && (Succeeds(a + b, rejects) <==> Succeeds(b, rejects))
  {
    AttemptedAppend(a, b, rejects);
    AttemptedPrefix(a, rejects);
    if !Succeeds(a, rejects) {
      var i :| 0 <= i < |a| && a[i] in rejects;
      assert (a + b)[i] == a[i];
    } else {
      assert forall i :: 0 <= i < |b| ==> (a + b)[|a| + i] == b[i];
    }
  }

  /** The `enable_user` block of `Apply`: each step runs only if the previous one succeeded. */
  method ApplyUser(o: NamespaceOptions, ids: UidGid, kernel: Kernel) returns (ok: bool)
    modifies kernel
    ensures kernel.log == old(kernel.log) + Attempted(UserPlan(o, ids), kernel.rejects)
    ensures ok == Succeeds(UserPlan(o, ids), kernel.rejects)
  {
    ok := true;
    if o.enableUser {
      ghost var log0 := kernel.log;
      var gid := if ids.gid != 0 then [GidMap(0, {ids.gid})] else [];
      AttemptedThen([DenySetGroups(0)], gid + [UidMap(0, ids.uid)], kernel.rejects);
      assert UserPlan(o, ids) == [DenySetGroups(0)] + (gid + [UidMap(0, ids.uid)]);
      SingleStep(DenySetGroups(0), kernel.rejects);
      ok := kernel.Perform(DenySetGroups(0));
      if ok {
        ok := ApplyMaps(ids, kernel);
        Concat3(log0, [DenySetGroups(0)], Attempted(gid + [UidMap(0, ids.uid)], kernel.rejects));
      }
    }
  }

  /** The gid map unless the gid is 0, then the uid map, in the namespace of the current process. */
  method ApplyMaps(ids: UidGid, kernel: Kernel) returns (ok: bool)
    modifies kernel
    ensures var plan := (if ids.gid != 0 then [GidMap(0, {ids.gid})] else []) + [UidMap(0, ids.uid)];
      kernel.log == old(kernel.log) + Attempted(plan, kernel.rejects) && ok == Succeeds(plan, kernel.rejects)
  {
    ghost var log0 := kernel.log;
    var gid := if ids.gid != 0 then [GidMap(0, {ids.gid})] else [];
    AttemptedThen(gid, [UidMap(0, ids.uid)], kernel.rejects);
    SingleStep(UidMap(0, ids.uid), kernel.rejects);
    ok := true;
    if ids.gid != 0 {
      SingleStep(GidMap(0, {ids.gid}), kernel.rejects);
      ok := kernel.Perform(GidMap(0, {ids.gid}));
    }
    if ok {
      ok := kernel.Perform(UidMap(0, ids.uid));
      Concat3(log0, gid, [UidMap(0, ids.uid)]);
    }
  }

  /** The steps of `Apply` after the user namespace: network, mount, hostname. */
  method ApplyRest(o: NamespaceOptions, kernel: Kernel) returns (ok: bool)
    modifies kernel
    ensures kernel.log == old(kernel.log) + Attempted(NetworkJoinPlan(o) + MountPlan(o), kernel.rejects)
    ensures ok == Succeeds(NetworkJoinPlan(o) + MountPlan(o), kernel.rejects)
  {
    ghost var log0 := kernel.log;
    AttemptedThen(NetworkJoinPlan(o), MountPlan(o), kernel.rejects);
    ok := ApplyNetworkJoin(o, kernel);
    if ok {
      ok := ApplyMountAndHostname(o, kernel);
      Concat3(log0, NetworkJoinPlan(o), Attempted(MountPlan(o), kernel.rejects));
    }
  }

  /** `if (network_namespace != nullptr && !ReassociateNetwork()) return false`. */
  method ApplyNetworkJoin(o: NamespaceOptions, kernel: Kernel) returns (ok: bool)
    modifies kernel
    ensures kernel.log == old(kernel.log) + Attempted(NetworkJoinPlan(o), kernel.rejects)
    ensures ok == Succeeds(NetworkJoinPlan(o), kernel.rejects)
  {
    ok := true;
    if o.networkNamespace.Some? {
      SingleStep(JoinNetwork(o.networkNamespace.value), kernel.rejects);
      ok := ReassociateNetwork(o, kernel);
    }
  }

  /** The mount setup, then `sethostname()` if a hostname is set. */
  method ApplyMountAndHostname(o: NamespaceOptions, kernel: Kernel) returns (ok: bool)
    modifies kernel
    ensures kernel.log == old(kernel.log) + Attempted(MountPlan(o), kernel.rejects)
    ensures ok == Succeeds(MountPlan(o), kernel.rejects)
  {
    AttemptedThen([ApplyMount(o.mount)], HostnamePlan(o), kernel.rejects);
    SingleStep(ApplyMount(o.mount), kernel.rejects);
    ok := kernel.Perform(ApplyMount(o.mount));
    if ok && o.hostname.Some? {
      SingleStep(SetHostname(o.hostname.value), kernel.rejects);
      ok := kernel.Perform(SetHostname(o.hostname.value));
    }
  }

  lemma Concat3(x: seq<Effect>, y: seq<Effect>, z: seq<Effect>)
    ensures x + y + z == x + (y + z)
  {
  }

  /** A one-step plan attempts its step and succeeds iff the kernel accepts it. */
  lemma SingleStep(e: Effect, rejects: set<Effect>)
    ensures Attempted([e], rejects) == [e]
    ensures Succeeds([e], rejects) <==> e !in rejects
  {
    assert [e][1..] == [];
  }

  /**
   * `Apply(uid_gid)`: the user-namespace maps of the current process, then
   * joins the network namespace, then the mount setup, then the hostname.
   * The first failing step aborts the rest.
   */
  method Apply(o: NamespaceOptions, ids: UidGid, kernel: Kernel) returns (ok: bool)
    modifies kernel
    ensures kernel.log == old(kernel.log) + Attempted(ApplyPlan(o, ids), kernel.rejects)
    ensures ok == Succeeds(ApplyPlan(o, ids), kernel.rejects)
  {
    ghost var log0 := kernel.log;
    AttemptedThen(UserPlan(o, ids), NetworkJoinPlan(o) + MountPlan(o), kernel.rejects);
    ok := ApplyUser(o, ids, kernel);
    if ok {
      ok := ApplyRest(o, kernel);
      Concat3(log0, UserPlan(o, ids), Attempted(NetworkJoinPlan(o) + MountPlan(o), kernel.rejects));
    }
  }

  /** What `ApplyNetwork()` attempts: join the named namespace, else unshare a fresh one if enabled. */
  function ApplyNetworkPlan(o: NamespaceOptions): (plan: seq<Effect>)
    ensures |plan| <= 1
    ensures forall n :: JoinNetwork(n) in plan <==> o.networkNamespace == Some(n)
    ensures UnshareNetwork in plan <==> o.networkNamespace.None? && o.enableNetwork
    ensures plan == [] <==> o.networkNamespace.None? && !o.enableNetwork
  {
    match o.networkNamespace
    case Some(n) => [JoinNetwork(n)]
    case None => if o.enableNetwork then [UnshareNetwork] else []
  }

  /** `ApplyNetwork()`: at most one of the two network steps runs. */
  method ApplyNetwork(o: NamespaceOptions, kernel: Kernel) returns (ok: bool)
    modifies kernel
    ensures kernel.log == old(kernel.log) + ApplyNetworkPlan(o)
    ensures ok == Succeeds(ApplyNetworkPlan(o), kernel.rejects)
  {
    ok := true;
    if o.networkNamespace.Some? {
      ok := ReassociateNetwork(o, kernel);
    } else if o.enableNetwork {
      ok := kernel.Perform(UnshareNetwork);
    }
  }

  /** The identity text `MakeId` appends, token by token in its fixed order. */
  function NamespaceId(o: NamespaceOptions): string {
    HeadId(o) + NetworkId(o) + TailId(o)
  }

  /** The user, pid and cgroup tokens. */
  function HeadId(o: NamespaceOptions): string {
    Flag(o.enableUser, ";uns") + PidId(o) + Flag(o.enableCgroup, ";cns")
  }

  /** The pid tokens: a fresh pid namespace and, independently, the name of one to join. */
  function PidId(o: NamespaceOptions): string {
    Flag(o.enablePid, ";pns") + Named(";pns=", o.pidNamespace)
  }

  /** The network token: only when a network namespace is enabled, and then with its name if one is set. */
  function NetworkId(o: NamespaceOptions): string {
    if o.enableNetwork then ";nns" + Named("=", o.networkNamespace) else ""
  }

  /** The IPC token, the mount identity and the hostname token. */
  function TailId(o: NamespaceOptions): string {
    Flag(o.enableIpc, ";ins") + o.mount.id + Named(";uts=", o.hostname)
  }

  /**
   * The identity text is not injective: with the network namespace disabled,
   * the name of a network namespace to join leaves no trace in it.
   */
  lemma NetworkNameUnseen(o: NamespaceOptions, n: string)
    requires !o.enableNetwork
    ensures NamespaceId(o.(networkNamespace := Some(n))) == NamespaceId(o.(networkNamespace := None))
    ensures o.(networkNamespace := Some(n)) != o.(networkNamespace := None)
  {
  }

  /** The names `MakeId` copies as C strings contain no NUL. */
  predicate CStrings(o: NamespaceOptions) {
    (o.pidNamespace.Some? ==> NoNul(o.pidNamespace.value)) &&
    (o.networkNamespace.Some? ==> NoNul(o.networkNamespace.value)) &&
    (o.hostname.Some? ==> NoNul(o.hostname.value))
  }

  method AppendHeadId(o: NamespaceOptions, buf: array<char>, start: nat, p: nat) returns (q: nat)
    requires CStrings(o)
    requires start <= p && p + |HeadId(o)| < buf.Length
    modifies buf
    ensures q == p + |HeadId(o)| && buf[start..q] == old(buf[start..p]) + HeadId(o)
    ensures forall i :: 0 <= i < buf.Length && !(p <= i <= q) ==> buf[i] == old(buf[i])
  {
    ghost var before := buf[start..p];
    q := AppendFlag(buf, start, p, o.enableUser, ";uns");
    q := AppendPidId(o, buf, start, q);
    q := AppendFlag(buf, start, q, o.enableCgroup, ";cns");
    Regroup(before, Flag(o.enableUser, ";uns"), PidId(o), Flag(o.enableCgroup, ";cns"));
  }

  method AppendPidId(o: NamespaceOptions, buf: array<char>, start: nat, p: nat) returns (q: nat)
    requires CStrings(o)
    requires start <= p && p + |PidId(o)| < buf.Length
    modifies buf
    ensures q == p + |PidId(o)| && buf[start..q] == old(buf[start..p]) + PidId(o)
    ensures forall i :: 0 <= i < buf.Length && !(p <= i <= q) ==> buf[i] == old(buf[i])
  {
    q := AppendFlag(buf, start, p, o.enablePid, ";pns");
    q := AppendNamed(buf, start, q, ";pns=", o.pidNamespace);
  }

  method AppendNetworkId(o: NamespaceOptions, buf: array<char>, start: nat, p: nat) returns (q: nat)
    requires CStrings(o)
    requires start <= p && p + |NetworkId(o)| < buf.Length
    modifies buf
    ensures q == p + |NetworkId(o)| && buf[start..q] == old(buf[start..p]) + NetworkId(o)
    ensures forall i :: 0 <= i < buf.Length && !(p <= i <= q) ==> buf[i] == old(buf[i])
  {
    q := p;
    if o.enableNetwork {
      q := Append(buf, start, q, ";nns");
      q := AppendNamed(buf, start, q, "=", o.networkNamespace);
    }
  }

  method AppendTailId(o: NamespaceOptions, buf: array<char>, start: nat, p: nat) returns (q: nat)
    requires CStrings(o)
    requires start <= p && p + |TailId(o)| < buf.Length
    modifies buf
    ensures q == p + |TailId(o)| && buf[start..q] == old(buf[start..p]) + TailId(o)
    ensures forall i :: 0 <= i < buf.Length && !(p <= i <= q) ==> buf[i] == old(buf[i])
  {
    ghost var before := buf[start..p];
    q := AppendFlag(buf, start, p, o.enableIpc, ";ins");
    q := Append(buf, start, q, o.mount.id);
    q := AppendNamed(buf, start, q, ";uts=", o.hostname);
    Regroup(before, Flag(o.enableIpc, ";ins"), o.mount.id, Named(";uts=", o.hostname));
  }

  /** `MakeId(p)`: appends the identity text at `p` and returns the position after it. */
  method MakeId(o: NamespaceOptions, buf: array<char>, p: nat) returns (q: nat)
    requires CStrings(o)
    requires p + |NamespaceId(o)| < buf.Length
    modifies buf
    ensures q == p + |NamespaceId(o)| && buf[p..q] == NamespaceId(o)
    ensures forall i :: 0 <= i < buf.Length && !(p <= i <= q) ==> buf[i] == old(buf[i])
  {
    assert |NamespaceId(o)| == |HeadId(o)| + |NetworkId(o)| + |TailId(o)|;
    q := AppendHeadId(o, buf, p, p);
    assert buf[p..q] == HeadId(o);
    q := AppendNetworkId(o, buf, p, q);
    assert buf[p..q] == HeadId(o) + NetworkId(o);
    q := AppendTailId(o, buf, p, q);
  }
}
