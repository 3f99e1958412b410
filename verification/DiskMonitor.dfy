// Disk-full hysteresis per watched path, and how it drives the cluster guard.
module DiskMonitor {
  import opened ClusterGuard
  import opened Common

  datatype PathState = Normal | ReadOnly

  datatype Config = Config(full: real, recovery: real, node: string, paths: seq<string>)

  // ----- one path

  function NextState(cfg: Config, state: PathState, usage: real): PathState {
    if state == Normal && usage > cfg.full then ReadOnly
    else if state == ReadOnly && usage <= cfg.recovery then Normal
    else state
  }

  // The state after a path's usage was observed, oldest observation first.
  function StateAfter(cfg: Config, usages: seq<real>): PathState {
    if usages == [] then Normal
    else NextState(cfg, StateAfter(cfg, usages[..|usages| - 1]), usages[|usages| - 1])
  }

  // Some observation exceeded the full threshold and none after it was at or
  // below recovery.
  ghost predicate Tripped(cfg: Config, usages: seq<real>) {
    exists i :: 0 <= i < |usages| && usages[i] > cfg.full && forall j :: i < j < |usages| ==> usages[j] > cfg.recovery
  }

  lemma {:induction false} ReadOnlyMeansTripped(cfg: Config, usages: seq<real>)
    requires StateAfter(cfg, usages) == ReadOnly
    ensures Tripped(cfg, usages)
  {
    var n := |usages| - 1;
    if StateAfter(cfg, usages[..n]) == ReadOnly {
      ReadOnlyMeansTripped(cfg, usages[..n]);
      var i :| 0 <= i < n && usages[..n][i] > cfg.full && forall j :: i < j < n ==> usages[..n][j] > cfg.recovery;
      assert usages[i] > cfg.full && forall j :: i < j < |usages| ==> usages[j] > cfg.recovery by {
        forall j | i < j < |usages| ensures usages[j] > cfg.recovery {
          if j < n { assert usages[..n][j] == usages[j]; }
        }
      }
    } else {
      assert usages[n] > cfg.full;
    }
  }

  lemma {:induction false} TrippedMeansReadOnly(cfg: Config, usages: seq<real>)
    requires cfg.recovery <= cfg.full && Tripped(cfg, usages)
    ensures StateAfter(cfg, usages) == ReadOnly
  {
    var i :| 0 <= i < |usages| && usages[i] > cfg.full && forall j :: i < j < |usages| ==> usages[j] > cfg.recovery;
    var n := |usages| - 1;
    if i < n {
      assert usages[..n][i] > cfg.full && forall j :: i < j < n ==> usages[..n][j] > cfg.recovery;
      TrippedMeansReadOnly(cfg, usages[..n]);
    }
  }

  // For every history a path is read-only iff it has tripped, if and only if
  // the recovery threshold is not above the full one.
  lemma HysteresisExact(cfg: Config)
    ensures (forall usages :: StateAfter(cfg, usages) == ReadOnly <==> Tripped(cfg, usages)) <==> cfg.recovery <= cfg.full
  {
    forall usages ensures StateAfter(cfg, usages) == ReadOnly ==> Tripped(cfg, usages) {
      if StateAfter(cfg, usages) == ReadOnly { ReadOnlyMeansTripped(cfg, usages); }
    }
    if cfg.recovery <= cfg.full {
      forall usages ensures Tripped(cfg, usages) ==> StateAfter(cfg, usages) == ReadOnly {
        if Tripped(cfg, usages) { TrippedMeansReadOnly(cfg, usages); }
      }
    } else {
      var u := [cfg.recovery, cfg.recovery];
      assert u[..1] == [cfg.recovery] && u[..1][..0] == [];
      assert u[1] > cfg.full && Tripped(cfg, u);
      assert StateAfter(cfg, u[..1]) == ReadOnly;
      assert u[..|u| - 1] == u[..1];
      assert StateAfter(cfg, u) == Normal;
    }
  }

  // ----- one poll

  // `seen` records, per path, the usages its probes returned.
  datatype System = System(states: map<string, PathState>, guard: GuardState, seen: map<string, seq<real>>)

  function Start(cfg: Config): System {
    System(map p | p in cfg.paths :: Normal, FRESH, map p | p in cfg.paths :: [])
  }

  function PathReason(cfg: Config, path: string, usage: real): Reason {
    DiskFull(cfg.node, path, usage)
  }

  // One path, its probe having answered. The guard is told of a change of state
  // only, and always after the state has changed.
  function Observe(cfg: Config, s: System, path: string, usage: real, now: int): System
    requires path in s.states && path in s.seen
  {
    var next := NextState(cfg, s.states[path], usage);
    var r := PathReason(cfg, path, usage);
    System(s.states[path := next],
           if next == s.states[path] then s.guard else if next == ReadOnly then AddReason(s.guard, r, now) else RemoveReason(s.guard, r),
           s.seen[path := s.seen[path] + [usage]])
  }

  // What a poll meets: probes may fail, and so may the Raft write that follows
  // the change at the i-th path; that ends the poll.
  datatype Poll = Poll(probe: string -> Option<real>, raftOk: nat -> bool, now: int)

  function Writes(cfg: Config, s: System, path: string, usage: real): bool
    requires path in s.states
  {
    NextState(cfg, s.states[path], usage) != s.states[path]
  }

  function PollFrom(cfg: Config, s: System, poll: Poll, i: nat): System
    requires i <= |cfg.paths| && forall p :: p in cfg.paths ==> p in s.states && p in s.seen
    decreases |cfg.paths| - i
  {
    if i == |cfg.paths| then s
    else
      var path := cfg.paths[i];
      var usage := poll.probe(path);
      if usage.None? then PollFrom(cfg, s, poll, i + 1)
      else
        var next := Observe(cfg, s, path, usage.value, poll.now);
        if Writes(cfg, s, path, usage.value) && !poll.raftOk(i) then next else PollFrom(cfg, next, poll, i + 1)
  }

  // The usages of one path among the answers of these probes.
  function Answers(poll: Poll, paths: seq<string>, path: string): seq<real> {
    if paths == [] then []
    else (if paths[0] == path && poll.probe(path).Some? then [poll.probe(path).value] else []) + Answers(poll, paths[1..], path)
  }

  lemma ObserveSees(cfg: Config, s: System, at: string, usage: real, now: int, path: string)
    requires at in s.states && at in s.seen && path in s.seen
    ensures var next := Observe(cfg, s, at, usage, now);
      && next.states.Keys == s.states.Keys && next.seen.Keys == s.seen.Keys
      && next.seen[path] == s.seen[path] + if at == path then [usage] else []
  {
  }

  // What one more path adds to the answers.
  lemma AnswersMore(poll: Poll, paths: seq<string>, i: nat, k: nat, path: string, before: seq<real>)
    requires i < k <= |paths|
    ensures var here := if paths[i] == path && poll.probe(path).Some? then [poll.probe(path).value] else [];
      before + Answers(poll, paths[i..k], path) == (before + here) + Answers(poll, paths[i + 1..k], path)
  {
    var here := if paths[i] == path && poll.probe(path).Some? then [poll.probe(path).value] else [];
    assert paths[i..k][1..] == paths[i + 1..k];
    Regroup(before, here, Answers(poll, paths[i + 1..k], path));
  }

  ghost predicate Watched(cfg: Config, s: System) {
    forall p :: p in cfg.paths ==> p in s.states && p in s.seen
  }

  // A poll observes its paths in order, each probe's answer once, up to the
  // first whose Raft write fails; without such a failure it observes them all.
  lemma {:induction false} PollObserves(cfg: Config, s: System, poll: Poll, i: nat, path: string) returns (k: nat)
    requires i <= |cfg.paths| && Watched(cfg, s) && path in s.seen
    ensures i <= k <= |cfg.paths| && (k < |cfg.paths| ==> k > i && !poll.raftOk(k - 1))
    ensures path in PollFrom(cfg, s, poll, i).seen
    ensures PollFrom(cfg, s, poll, i).seen[path] == s.seen[path] + Answers(poll, cfg.paths[i..k], path)
    decreases |cfg.paths| - i, 1
  {
    if i == |cfg.paths| {
      k := i;
      assert Answers(poll, cfg.paths[i..i], path) == [];
    } else {
      var at := cfg.paths[i];
      var usage := poll.probe(at);
      if usage.None? {
        k := PollObserves(cfg, s, poll, i + 1, path);
        assert s.seen[path] + [] == s.seen[path];
      } else {
        var next := Observe(cfg, s, at, usage.value, poll.now);
        ObserveSees(cfg, s, at, usage.value, poll.now, path);
        k := PollGoesOn(cfg, s, next, poll, i, path);
      }
      AnswersMore(poll, cfg.paths, i, k, path, s.seen[path]);
    }
  }

  lemma {:induction false} PollGoesOn(cfg: Config, s: System, next: System, poll: Poll, i: nat, path: string) returns (k: nat)
    requires i < |cfg.paths| && Watched(cfg, s) && Watched(cfg, next) && path in next.seen
    requires poll.probe(cfg.paths[i]).Some? && next == Observe(cfg, s, cfg.paths[i], poll.probe(cfg.paths[i]).value, poll.now)
    ensures i < k <= |cfg.paths| && (k < |cfg.paths| ==> !poll.raftOk(k - 1))
    ensures path in PollFrom(cfg, s, poll, i).seen
    ensures PollFrom(cfg, s, poll, i).seen[path] == next.seen[path] + Answers(poll, cfg.paths[i + 1..k], path)
    decreases |cfg.paths| - i, 0
  {
    if Writes(cfg, s, cfg.paths[i], poll.probe(cfg.paths[i]).value) && !poll.raftOk(i) {
      k := i + 1;
      assert Answers(poll, cfg.paths[k..k], path) == [];
    } else {
      k := PollObserves(cfg, next, poll, i + 1, path);
    }
  }

  // ----- every run

  datatype Event = Polled(poll: Poll) | Added(r: Reason, now: int) | Removed(r: Reason)

  // Reasons the monitor owns: disk-full reasons of its node and paths.
  predicate Own(cfg: Config, r: Reason) {
    r.DiskFull? && r.node == cfg.node && r.path in cfg.paths
  }

  // The guard holds a path's reason iff the path is read-only.
  ghost predicate Mirrors(cfg: Config, s: System, path: string)
    requires path in s.states
  {
    HasSource(s.guard, PathReason(cfg, path, 0.0)) <==> s.states[path] == ReadOnly
  }

  ghost predicate Inv(cfg: Config, s: System) {
    && Consistent(s.guard)
    && s.states.Keys == s.seen.Keys == (set p | p in cfg.paths)
    && forall p :: p in s.states ==> s.states[p] == StateAfter(cfg, s.seen[p]) && Mirrors(cfg, s, p)
  }

  lemma ObserveKeepsInv(cfg: Config, s: System, path: string, usage: real, now: int)
    requires Inv(cfg, s) && path in s.states
    ensures Inv(cfg, Observe(cfg, s, path, usage, now))
  {
    var next := Observe(cfg, s, path, usage, now);
    var us := s.seen[path];
    assert (us + [usage])[..|us|] == us;
    AddExact(s.guard, PathReason(cfg, path, usage), now);
    RemoveExact(s.guard, PathReason(cfg, path, usage));
    forall p | p in next.states ensures Mirrors(cfg, next, p) {
      assert Mirrors(cfg, s, p);
      assert SameSource(PathReason(cfg, path, usage), PathReason(cfg, p, 0.0)) <==> p == path;
    }
  }

  lemma {:induction false} PollKeepsInv(cfg: Config, s: System, poll: Poll, i: nat)
    requires Inv(cfg, s) && i <= |cfg.paths|
    ensures Inv(cfg, PollFrom(cfg, s, poll, i))
    decreases |cfg.paths| - i
  {
    if i < |cfg.paths| {
      var path := cfg.paths[i];
      var usage := poll.probe(path);
      if usage.None? {
        PollKeepsInv(cfg, s, poll, i + 1);
      } else {
        var next := Observe(cfg, s, path, usage.value, poll.now);
        ObserveKeepsInv(cfg, s, path, usage.value, poll.now);
        if !(Writes(cfg, s, path, usage.value) && !poll.raftOk(i)) { PollKeepsInv(cfg, next, poll, i + 1); }
      }
    }
  }

  // Reasons from elsewhere may come and go between polls.
  function Step(cfg: Config, s: System, e: Event): System
    requires Inv(cfg, s)
  {
    match e
    case Polled(poll) => PollFrom(cfg, s, poll, 0)
    case Added(r, now) => if Own(cfg, r) then s else s.(guard := AddReason(s.guard, r, now))
    case Removed(r) => if Own(cfg, r) then s else s.(guard := RemoveReason(s.guard, r))
  }

  lemma StepKeepsInv(cfg: Config, s: System, e: Event)
    requires Inv(cfg, s)
    ensures Inv(cfg, Step(cfg, s, e))
  {
    match e
    case Polled(poll) => PollKeepsInv(cfg, s, poll, 0);
    case Added(r, now) => OthersKeepInv(cfg, s, r, now);
    case Removed(r) => OthersKeepInv(cfg, s, r, 0);
  }

  lemma OthersKeepInv(cfg: Config, s: System, r: Reason, now: int)
    requires Inv(cfg, s)
    ensures !Own(cfg, r) ==> Inv(cfg, s.(guard := AddReason(s.guard, r, now))) && Inv(cfg, s.(guard := RemoveReason(s.guard, r)))
  {
    if !Own(cfg, r) {
      AddExact(s.guard, r, now);
      RemoveExact(s.guard, r);
      var added, removed := s.(guard := AddReason(s.guard, r, now)), s.(guard := RemoveReason(s.guard, r));
      forall p | p in s.states ensures Mirrors(cfg, added, p) && Mirrors(cfg, removed, p) {
        assert Mirrors(cfg, s, p) && p in cfg.paths;
        assert !SameSource(r, PathReason(cfg, p, 0.0));
      }
    }
  }

  lemma StartInv(cfg: Config)
    ensures Inv(cfg, Start(cfg))
  {
  }

  ghost function Run(cfg: Config, events: seq<Event>): (s: System)
    ensures Inv(cfg, s)
  {
    if events == [] then
      StartInv(cfg);
      Start(cfg)
    else
      var before := Run(cfg, events[..|events| - 1]);
      StepKeepsInv(cfg, before, events[|events| - 1]);
      Step(cfg, before, events[|events| - 1])
  }

  // In every run, with failing probes and failing Raft writes: a watched path is
  // read-only iff its observations tripped it, the guard holds its reason iff it
  // is read-only, no source appears twice, and writes are refused iff some
  // reason is left.
  lemma GuardFollowsDisks(cfg: Config, events: seq<Event>, path: string)
    requires cfg.recovery <= cfg.full && path in cfg.paths
    ensures var s := Run(cfg, events);
      && path in s.states && path in s.seen
      && (s.states[path] == ReadOnly <==> Tripped(cfg, s.seen[path]))
      && (HasSource(s.guard, PathReason(cfg, path, 0.0)) <==> Tripped(cfg, s.seen[path]))
      && OnePerSource(s.guard.reasons)
      && (s.guard.enabled <==> s.guard.reasons != [])
  {
    var s := Run(cfg, events);
    HysteresisExact(cfg);
    assert path in s.states && Mirrors(cfg, s, path);
  }

  // ----- the monitor

  class QnDiskMonitor {
    const config: Config
    const guard: Guard
    var states: map<string, PathState>
    ghost var seen: map<string, seq<real>>

    constructor (cfg: Config, g: Guard)
      requires g.state == FRESH
      ensures config == cfg && guard == g && View() == Start(cfg) && Valid()
    {
      config := cfg;
      guard := g;
      states := map p | p in cfg.paths :: Normal;
      seen := map p | p in cfg.paths :: [];
      new;
      StartInv(cfg);
    }

    ghost function View(): System
      reads this, guard
    {
      System(states, guard.state, seen)
    }

    ghost predicate Valid()
      reads this, guard
    {
      Inv(config, View())
    }

    method PollOnce(poll: Poll) returns (ok: bool)
      requires Valid()
      modifies this, guard
      ensures Valid() && View() == PollFrom(config, old(View()), poll, 0)
    {
      var i := 0;
      ghost var goal := PollFrom(config, View(), poll, 0);
      while i < |config.paths|
        invariant 0 <= i <= |config.paths| && Valid()
        invariant goal == PollFrom(config, View(), poll, i)
      {
        var path := config.paths[i];
        var usage := poll.probe(path);
        if usage.Some? {
          ok := ObservePath(path, usage.value, poll.now, poll.raftOk(i));
          if !ok { return; }
        }
        i := i + 1;
      }
      ok := true;
    }

    method ObservePath(path: string, usage: real, now: int, raftOk: bool) returns (ok: bool)
      requires Valid() && path in states
      modifies this, guard
      ensures Valid() && View() == Observe(config, old(View()), path, usage, now)
      ensures ok <==> Writes(config, old(View()), path, usage) ==> raftOk
    {
      ObserveKeepsInv(config, View(), path, usage, now);
      seen := seen[path := seen[path] + [usage]];
      ok := true;
      if states[path] == Normal && usage > config.full {
        states := states[path := ReadOnly];
        ok := guard.Add(DiskFull(config.node, path, usage), now, raftOk);
      } else if states[path] == ReadOnly && usage <= config.recovery {
        states := states[path := Normal];
        ok := guard.Remove(DiskFull(config.node, path, usage), raftOk);
      } else {
        assert states[path := states[path]] == states;
      }
    }
  }
}
