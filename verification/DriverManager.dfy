/** The driver manager: manifests, dependencies, and bindings of devices to domains (src/driver/driver_manager.c). */
module DriverManagers {
  import opened Bytes
  import opened Supervisors

  const MANIFEST_MAX := 32
  const BINDING_MAX := 16

  type Name = string

  datatype DriverManifest = DriverManifest(name: Name, dependencies: seq<Name>, priority: nat, domain: Manifest)

  datatype Slot = Empty | Filled(manifest: DriverManifest)

  datatype Binding = Unbound | Bound(device: nat, slot: nat, domain: nat, enabled: bool)

  /**
    What the outside answers during one start: the device is active, it can be
    retained, for each manifest slot whether it suits the device, whether a
    domain may be created and set up for it, how its launch and its undoing turn
    out; and what the rest of the kernel does to the supervisor before the n-th
    call into it.
   */
  datatype StartAnswers = StartAnswers(
    present: bool, retained: bool, suits: nat -> bool, admits: nat -> bool, configured: nat -> bool,
    launch: nat -> Answers, undo: nat -> Answers, others: nat -> seq<Op>)

  /** What the rest of the kernel does before a call, and how the call's own foreign parts turn out. */
  datatype Turn = Turn(others: seq<Op>, answers: Answers)

  // ---- the dependency graph -----------------------------------------------

  predicate Named(slot: Slot, name: Name)
  {
    slot.Filled? && slot.manifest.name == name
  }

  /** manifest_slot_by_name: the first active slot with the name, or -1. */
  function SlotByName(slots: seq<Slot>, name: Name): (r: int)
    ensures -1 <= r < |slots|
    ensures r >= 0 ==> Named(slots[r], name) && forall k :: 0 <= k < r ==> !Named(slots[k], name)
    ensures r < 0 ==> forall k :: 0 <= k < |slots| ==> !Named(slots[k], name)
  {
    if slots == [] then -1
    else
      var n := |slots| - 1;
      var r := SlotByName(slots[..n], name);
      if r >= 0 then r else if Named(slots[n], name) then n else -1
  }

  /** Slot `u` depends on slot `v`. */
  ghost predicate Edge(slots: seq<Slot>, u: nat, v: nat)
  {
    && u < |slots| && slots[u].Filled?
    && exists i ::
      0 <= i < |slots[u].manifest.dependencies| && SlotByName(slots, slots[u].manifest.dependencies[i]) == v
  }

  ghost predicate Path(slots: seq<Slot>, p: seq<nat>)
  {
    |p| >= 2 && forall i :: 0 <= i < |p| - 1 ==> Edge(slots, p[i], p[i + 1])
  }

  ghost predicate PathBetween(slots: seq<Slot>, p: seq<nat>, u: nat, v: nat)
  {
    Path(slots, p) && p[0] == u && p[|p| - 1] == v
  }

  /** `u` depends on `v`, directly or through others. */
  ghost predicate Reaches(slots: seq<Slot>, u: nat, v: nat)
  {
    exists p :: PathBetween(slots, p, u, v)
  }

  ghost predicate Acyclic(slots: seq<Slot>)
  {
    forall u: nat :: !Reaches(slots, u, u)
  }

  lemma EdgeReaches(slots: seq<Slot>, u: nat, v: nat)
    requires Edge(slots, u, v)
    ensures Reaches(slots, u, v)
  {
    var p := [u, v];
    assert forall i :: 0 <= i < |p| - 1 ==> Edge(slots, p[i], p[i + 1]);
    assert PathBetween(slots, p, u, v);
  }

  lemma ReachesStep(slots: seq<Slot>, u: nat, v: nat, w: nat)
    requires Reaches(slots, u, v) && Edge(slots, v, w)
    ensures Reaches(slots, u, w)
  {
    var p :| PathBetween(slots, p, u, v);
    var q := p + [w];
    forall i | 0 <= i < |q| - 1
      ensures Edge(slots, q[i], q[i + 1])
    {
      if i < |p| - 1 {
        assert Edge(slots, p[i], p[i + 1]);
      }
    }
    assert PathBetween(slots, q, u, w);
  }

  // ---- finished slots -----------------------------------------------------

  /** Successors of finished slots are finished, and no finished slot reaches itself. */
  ghost predicate Settled(slots: seq<Slot>, black: set<nat>)
  {
    && (forall u: nat, v: nat :: u in black && Edge(slots, u, v) ==> v in black)
    && (forall u: nat :: u in black ==> !Reaches(slots, u, u))
  }

  /** A path that starts finished stays finished. */
  lemma {:induction false} StaysBlack(slots: seq<Slot>, black: set<nat>, p: seq<nat>)
    requires Settled(slots, black) && Path(slots, p) && p[0] in black
    ensures forall i :: 0 <= i < |p| ==> p[i] in black
  {
    assert Edge(slots, p[0], p[1]);
    if |p| > 2 {
      var rest := p[1..];
      forall i | 0 <= i < |rest| - 1
        ensures Edge(slots, rest[i], rest[i + 1])
      {
        assert Edge(slots, p[i + 1], p[i + 2]);
      }
      StaysBlack(slots, black, rest);
      forall i | 1 <= i < |p|
        ensures p[i] in black
      {
        assert p[i] == rest[i - 1];
      }
    }
  }

  /** A slot all of whose dependencies are finished can be finished itself. */
  lemma Finish(slots: seq<Slot>, black: set<nat>, u: nat)
    requires Settled(slots, black) && u !in black
    requires forall v: nat :: Edge(slots, u, v) ==> v in black
    ensures Settled(slots, black + {u})
  {
    if Reaches(slots, u, u) {
      var p :| PathBetween(slots, p, u, u);
      assert Edge(slots, p[0], p[1]);
      if |p| > 2 {
        var rest := p[1..];
        forall i | 0 <= i < |rest| - 1
          ensures Edge(slots, rest[i], rest[i + 1])
        {
          assert Edge(slots, p[i + 1], p[i + 2]);
        }
        assert rest[|rest| - 1] == u;
        StaysBlack(slots, black, rest);
      }
    }
  }

  /** The slots marked in a colour array. */
  ghost function Marked(marks: array<bool>): set<nat>
    reads marks
  {
    set i | 0 <= i < marks.Length && marks[i]
  }

  ghost function Unmarked(marks: array<bool>): set<nat>
    reads marks
  {
    set i | 0 <= i < marks.Length && !marks[i]
  }

  /**
    dependency_cycle_visit: the depth-first search from one slot.  It fails
    exactly when it meets a slot it is still inside of, and then there is a
    cycle; otherwise the slot and all it depends on are finished.
   */
  method Visit(slots: seq<Slot>, slot: nat, visiting: array<bool>, visited: array<bool>) returns (cycle: bool)
    requires visiting != visited && visiting.Length == visited.Length == |slots| && slot < |slots|
             && slots[slot].Filled?
    requires Marked(visiting) !! Marked(visited) && Settled(slots, Marked(visited))
    requires forall g: nat :: g in Marked(visiting) ==> Reaches(slots, g, slot)
    modifies visiting, visited
    decreases |Unmarked(visiting)|
    ensures cycle ==> !Acyclic(slots)
    ensures !cycle ==> Marked(visiting) == old(Marked(visiting)) && slot in Marked(visited)
    ensures !cycle ==>
      old(Marked(visited)) <= Marked(visited) && Marked(visiting) !! Marked(visited) && Settled(slots, Marked(visited))
  {
    hide Settled, Reaches, Acyclic, Edge;
    if visiting[slot] {
      CycleAt(slots, slot);
      return true;
    }
    if visited[slot] {
      return false;
    }
    ghost var grey, black := Marked(visiting), Marked(visited);
    visiting[slot] := true;
    assert Marked(visiting) == grey + {slot};
    assert Unmarked(visiting) == old(Unmarked(visiting)) - {slot};
    var manifest := slots[slot].manifest;
    var index := 0;
    while index < |manifest.dependencies|
      invariant 0 <= index <= |manifest.dependencies|
      invariant Marked(visiting) == grey + {slot} && Marked(visiting) !! Marked(visited) && black <= Marked(visited)
      invariant Settled(slots, Marked(visited))
      invariant forall i :: 0 <= i < index ==>
        SlotByName(slots, manifest.dependencies[i]) < 0
        || SlotByName(slots, manifest.dependencies[i]) in Marked(visited)
      invariant |Unmarked(visiting)| < |old(Unmarked(visiting))|
    {
      var dependency := SlotByName(slots, manifest.dependencies[index]);
      if dependency >= 0 {
        EdgeTo(slots, slot, index);
        GreyReach(slots, grey, slot, dependency);
        SameUnmarked(visiting, grey + {slot});
        cycle := Visit(slots, dependency, visiting, visited);
        if cycle {
          return;
        }
        SameUnmarked(visiting, grey + {slot});
      }
      index := index + 1;
    }
    DepsBlack(slots, slot, Marked(visited));
    Finish(slots, Marked(visited), slot);
    ghost var done := Marked(visited);
    visiting[slot] := false;
    visited[slot] := true;
    assert Marked(visiting) == grey;
    assert Marked(visited) == done + {slot};
    cycle := false;
  }

  lemma CycleAt(slots: seq<Slot>, u: nat)
    requires Reaches(slots, u, u)
    ensures !Acyclic(slots)
  {
  }

  lemma EdgeTo(slots: seq<Slot>, u: nat, i: nat)
    requires u < |slots| && slots[u].Filled? && i < |slots[u].manifest.dependencies|
    requires SlotByName(slots, slots[u].manifest.dependencies[i]) >= 0
    ensures Edge(slots, u, SlotByName(slots, slots[u].manifest.dependencies[i]))
  {
  }

  lemma GreyReach(slots: seq<Slot>, grey: set<nat>, slot: nat, dependency: nat)
    requires Edge(slots, slot, dependency) && forall g: nat :: g in grey ==> Reaches(slots, g, slot)
    ensures forall g: nat :: g in grey + {slot} ==> Reaches(slots, g, dependency)
  {
    forall g: nat | g in grey + {slot}
      ensures Reaches(slots, g, dependency)
    {
      if g == slot {
        EdgeReaches(slots, slot, dependency);
      } else {
        ReachesStep(slots, g, slot, dependency);
      }
    }
  }

  lemma DepsBlack(slots: seq<Slot>, u: nat, black: set<nat>)
    requires u < |slots| && slots[u].Filled?
    requires forall i :: 0 <= i < |slots[u].manifest.dependencies| ==>
      SlotByName(slots, slots[u].manifest.dependencies[i]) < 0
      || SlotByName(slots, slots[u].manifest.dependencies[i]) in black
    ensures forall v: nat :: Edge(slots, u, v) ==> v in black
  {
  }

  lemma SameUnmarked(marks: array<bool>, marked: set<nat>)
    requires Marked(marks) == marked
    ensures Unmarked(marks) == set i | 0 <= i < marks.Length && i !in marked
  {
    assert forall i :: 0 <= i < marks.Length ==> (marks[i] <==> i in marked);
  }

  /** dependency_cycle: reports a cycle exactly when there is one. */
  method DependencyCycle(slots: seq<Slot>) returns (cycle: bool)
    ensures cycle <==> !Acyclic(slots)
  {
    hide Reaches, Edge;
    var visiting := new bool[|slots|](_ => false);
    var visited := new bool[|slots|](_ => false);
    assert Marked(visiting) == {} && Marked(visited) == {};
    var index := 0;
    while index < |slots|
      invariant 0 <= index <= |slots| && fresh(visiting) && fresh(visited) && visiting != visited
      invariant Marked(visiting) == {} && Settled(slots, Marked(visited))
      invariant forall u: nat :: u < index && slots[u].Filled? ==> u in Marked(visited)
    {
      if slots[index].Filled? {
        cycle := Visit(slots, index, visiting, visited);
        if cycle {
          return;
        }
      }
      index := index + 1;
    }
    AllSettled(slots, Marked(visited));
    cycle := false;
  }

  /** Once every active slot is finished there is no cycle anywhere. */
  lemma AllSettled(slots: seq<Slot>, black: set<nat>)
    requires Settled(slots, black) && forall u: nat :: u < |slots| && slots[u].Filled? ==> u in black
    ensures Acyclic(slots)
  {
    forall u: nat
      ensures !Reaches(slots, u, u)
    {
      if Reaches(slots, u, u) {
        ReachesFromActive(slots, u, u);
      }
    }
  }

  lemma ReachesFromActive(slots: seq<Slot>, u: nat, v: nat)
    requires Reaches(slots, u, v)
    ensures u < |slots| && slots[u].Filled?
  {
    var p :| PathBetween(slots, p, u, v);
    assert Edge(slots, p[0], p[1]);
  }

  // ---- the manager --------------------------------------------------------

  ghost predicate DistinctNames(slots: seq<Slot>)
  {
    forall i, j :: 0 <= i < j < |slots| && slots[i].Filled? && slots[j].Filled? ==>
      slots[i].manifest.name != slots[j].manifest.name
  }

  /** One binding per device, each to a manifest that is still registered and an entry of the domain table. */
  ghost predicate BindingsOk(bindings: seq<Binding>, slots: seq<Slot>)
  {
    && (forall i, j :: 0 <= i < j < |bindings| && bindings[i].Bound? && bindings[j].Bound? ==>
      bindings[i].device != bindings[j].device)
    && (forall i :: 0 <= i < |bindings| && bindings[i].Bound? ==>
          bindings[i].slot < |slots| && slots[bindings[i].slot].Filled? && bindings[i].domain < DOMAIN_MAX)
  }

  predicate BoundTo(bindings: seq<Binding>, device: nat)
  {
    exists i :: 0 <= i < |bindings| && bindings[i].Bound? && bindings[i].device == device
  }

  ghost function FreeBindings(bindings: seq<Binding>): nat
  {
    if bindings == [] then 0 else FreeBindings(bindings[1..]) + if bindings[0].Unbound? then 1 else 0
  }

  lemma {:induction false} BindTakes(bindings: seq<Binding>, i: nat, b: Binding)
    requires i < |bindings| && bindings[i].Unbound? && b.Bound?
    ensures FreeBindings(bindings[i := b]) == FreeBindings(bindings) - 1
  {
    if i == 0 {
      assert bindings[0 := b][1..] == bindings[1..];
    } else {
      assert bindings[i := b][1..] == bindings[1..][i - 1 := b];
      BindTakes(bindings[1..], i - 1, b);
    }
  }

  /** The edges left after one slot is cleared were edges before. */
  lemma ClearKeepsAcyclic(slots: seq<Slot>, k: nat)
    requires k < |slots| && DistinctNames(slots) && Acyclic(slots)
    ensures Acyclic(slots[k := Empty]) && DistinctNames(slots[k := Empty])
  {
    var cut := slots[k := Empty];
    forall u: nat, v: nat | Edge(cut, u, v)
      ensures Edge(slots, u, v)
    {
      var i :| 0 <= i < |cut[u].manifest.dependencies| && SlotByName(cut, cut[u].manifest.dependencies[i]) == v;
      var name := cut[u].manifest.dependencies[i];
      assert Named(cut[v], name);
      var w := SlotByName(slots, name);
      assert Named(slots[v], name);
    }
    forall u: nat
      ensures !Reaches(cut, u, u)
    {
      if Reaches(cut, u, u) {
        FewerEdges(cut, slots, u, u);
      }
    }
  }

  lemma FewerEdges(fewer: seq<Slot>, slots: seq<Slot>, u: nat, v: nat)
    requires Reaches(fewer, u, v) && forall a: nat, b: nat :: Edge(fewer, a, b) ==> Edge(slots, a, b)
    ensures Reaches(slots, u, v)
  {
    var p :| PathBetween(fewer, p, u, v);
    assert PathBetween(slots, p, u, v);
  }

  /** No other manifest depends on this one. */
  ghost predicate NoDependents(slots: seq<Slot>, k: nat)
  {
    forall u: nat :: u != k ==> !Edge(slots, u, k)
  }

  /** Whether another active manifest names this one. */
  method DependedOn(slots: seq<Slot>, slot: nat) returns (used: bool)
    requires slot < |slots| && slots[slot].Filled? && DistinctNames(slots)
    ensures used <==> !NoDependents(slots, slot)
  {
    var name := slots[slot].manifest.name;
    var index := 0;
    while index < |slots|
      invariant 0 <= index <= |slots|
      invariant forall u :: 0 <= u < index && u != slot && slots[u].Filled? ==> name !in slots[u].manifest.dependencies
    {
      if slots[index].Filled? && index != slot && name in slots[index].manifest.dependencies {
        assert Named(slots[SlotByName(slots, name)], name);
        assert Edge(slots, index, slot);
        return true;
      }
      index := index + 1;
    }
    used := false;
  }

  // ---- readiness and choice -----------------------------------------------

  /** Some binding of this manifest slot has its domain running. */
  ghost predicate Runs(bindings: seq<Binding>, t: Table, slot: int)
  {
    exists b ::
      && 0 <= b < |bindings| && bindings[b].Bound? && bindings[b].slot == slot
      && bindings[b].domain < |t| && t[bindings[b].domain].phase.Running?
  }

  /** Every dependency is registered and running. */
  ghost predicate Ready(slots: seq<Slot>, bindings: seq<Binding>, t: Table, k: nat)
    requires k < |slots| && slots[k].Filled?
  {
    var names := slots[k].manifest.dependencies;
    forall i :: 0 <= i < |names| ==> Runs(bindings, t, SlotByName(slots, names[i]))
  }

  /** dependencies_ready. */
  method DependenciesReady(slots: seq<Slot>, bindings: seq<Binding>, t: Table, k: nat) returns (r: bool)
    requires k < |slots| && slots[k].Filled?
    requires forall b :: 0 <= b < |bindings| && bindings[b].Bound? ==> bindings[b].domain < |t|
    ensures r <==> Ready(slots, bindings, t, k)
  {
    var names := slots[k].manifest.dependencies;
    var dependency := 0;
    while dependency < |names|
      invariant 0 <= dependency <= |names|
      invariant forall i :: 0 <= i < dependency ==> Runs(bindings, t, SlotByName(slots, names[i]))
    {
      var slot := SlotByName(slots, names[dependency]);
      if slot < 0 {
        return false;
      }
      var running := false;
      var binding := 0;
      while binding < |bindings|
        invariant 0 <= binding <= |bindings|
        invariant running <==>
          exists b ::
            && 0 <= b < binding && bindings[b].Bound? && bindings[b].slot == slot
            && t[bindings[b].domain].phase.Running?
      {
        if bindings[binding].Bound? && bindings[binding].slot == slot && t[bindings[binding].domain].phase.Running? {
          running := true;
        }
        binding := binding + 1;
      }
      if !running {
        return false;
      }
      dependency := dependency + 1;
    }
    r := true;
  }

  ghost predicate Eligible(slots: seq<Slot>, bindings: seq<Binding>, t: Table, suits: nat -> bool, k: nat)
  {
    k < |slots| && slots[k].Filled? && Ready(slots, bindings, t, k) && suits(k)
  }

  /** Slot `k` comes no later than slot `j`: lower priority value, then lower index. */
  predicate Before(slots: seq<Slot>, k: nat, j: nat)
    requires k < |slots| && slots[k].Filled? && j < |slots| && slots[j].Filled?
  {
    var p, q := slots[k].manifest.priority, slots[j].manifest.priority;
    p < q || (p == q && k <= j)
  }

  ghost predicate Candidate(slots: seq<Slot>, bindings: seq<Binding>, t: Table, attempted: seq<bool>,
      suits: nat -> bool, k: nat)
  {
    k < |attempted| && !attempted[k] && Eligible(slots, bindings, t, suits, k)
  }

  /** select_manifest: the lowest priority among the candidates, the first of equals. */
  method Select(slots: seq<Slot>, bindings: seq<Binding>, t: Table, attempted: seq<bool>, suits: nat -> bool)
    returns (selected: int)
    requires |slots| == |attempted|
    requires forall b :: 0 <= b < |bindings| && bindings[b].Bound? ==> bindings[b].domain < |t|
    ensures -1 <= selected < |slots|
    ensures selected < 0 ==> forall k: nat :: !Candidate(slots, bindings, t, attempted, suits, k)
    ensures selected >= 0 ==> Candidate(slots, bindings, t, attempted, suits, selected)
    ensures selected >= 0 ==> forall k: nat :: Candidate(slots, bindings, t, attempted, suits, k) ==>
      Before(slots, selected, k)
  {
    hide Ready;
    selected := -1;
    var index := 0;
    while index < |slots|
      invariant 0 <= index <= |slots| && -1 <= selected < index
      invariant selected < 0 ==> forall k: nat :: k < index ==> !Candidate(slots, bindings, t, attempted, suits, k)
      invariant selected >= 0 ==> Candidate(slots, bindings, t, attempted, suits, selected)
      invariant selected >= 0 ==> forall k: nat :: k < index && Candidate(slots, bindings, t, attempted, suits, k) ==>
        Before(slots, selected, k)
    {
      if slots[index].Filled? && !attempted[index] {
        var ready := DependenciesReady(slots, bindings, t, index);
        if ready && suits(index)
           && (selected < 0 || slots[index].manifest.priority < slots[selected].manifest.priority) {
          selected := index;
        }
      }
      index := index + 1;
    }
  }

  /** The manifest's domain would be created, set up and launched. */
  predicate ComesUp(a: StartAnswers, k: nat)
  {
    a.admits(k) && a.configured(k) && a.launch(k).spawn > 0 && a.launch(k).issued
  }

  /** A failed attempt with this manifest leaves no domain behind. */
  predicate Cleans(a: StartAnswers, k: nat)
  {
    a.admits(k) ==> a.undo(k).released
  }

  /** The best manifest that comes up, all better ones having failed without leaving a domain behind. */
  ghost predicate Wins(slots: seq<Slot>, bindings: seq<Binding>, t: Table, a: StartAnswers, k: nat)
  {
    && Eligible(slots, bindings, t, a.suits, k) && ComesUp(a, k)
    && forall j: nat :: Eligible(slots, bindings, t, a.suits, j) && j != k && Before(slots, j, k) ==>
      !ComesUp(a, j) && Cleans(a, j)
  }

  ghost predicate FirstUnbound(bindings: seq<Binding>, f: nat)
  {
    f < |bindings| && bindings[f].Unbound? && forall i :: 0 <= i < f ==> bindings[i].Bound?
  }

  /** The device is free to take, there is a binding and a domain entry for it, and a manifest wins. */
  ghost predicate Startable(slots: seq<Slot>, bindings: seq<Binding>, t: Table, device: nat, a: StartAnswers)
  {
    && a.present && a.retained && !BoundTo(bindings, device) && !Occupied(t, device) && FirstFree(t) < |t|
    && (exists f :: 0 <= f < |bindings| && bindings[f].Unbound?)
    && exists k: nat :: Wins(slots, bindings, t, a, k)
  }

  /** Nothing else touches the supervisor during the start. */
  ghost predicate Quiet(a: StartAnswers)
  {
    forall n: nat :: a.others(n) == []
  }

  ghost predicate Civil(a: StartAnswers)
  {
    forall n: nat :: AllAmbient(a.others(n))
  }

  /** The active entries are the same. */
  ghost predicate SameActive(t: Table, u: Table)
  {
    |t| == |u| && forall i :: 0 <= i < |t| ==> (t[i].active <==> u[i].active) && (t[i].active ==> u[i] == t[i])
  }

  /** Active entries are as before, and new ones are what failed attempts left in quarantine. */
  ghost predicate Leftover(t: Table, u: Table)
  {
    |t| == |u| && forall i :: 0 <= i < |t| ==>
      if t[i].active then u[i] == t[i] else u[i].active ==> u[i].phase.Quarantined?
  }

  /** One free entry has become a running domain of the device. */
  ghost predicate Launched(t: Table, u: Table, index: nat, device: nat)
  {
    && |t| == |u| && index < |t| && !t[index].active
    && u[index].active && u[index].phase.Running? && u[index].device == device
    && forall i :: 0 <= i < |t| && i != index ==> (t[i].active <==> u[i].active) && (t[i].active ==> u[i] == t[i])
  }

  lemma SameThenLaunched(t: Table, u: Table, v: Table, index: nat, device: nat)
    requires SameActive(t, u) && Launched(u, v, index, device)
    ensures Launched(t, v, index, device)
  {
  }

  /** What one undisturbed attempt with manifest `k` does to the table. */
  ghost predicate Attempt(t: Table, u: Table, device: nat, a: StartAnswers, k: nat, up: bool, index: nat)
  {
    && (up <==> !Occupied(t, device) && FirstFree(t) < |t| && ComesUp(a, k))
    && (up ==> Launched(t, u, index, device))
    && (!up ==> Leftover(t, u))
    && (!up && (Cleans(a, k) || FirstFree(t) == |t|) ==> SameActive(t, u))
    && (!up && !Cleans(a, k) && FirstFree(t) < |t| ==> Occupied(u, device))
  }

  lemma StartedEntry(t: Table, i: nat, a: Answers)
    requires i < |t|
    ensures var u := Step(t, StartOp(i, a));
      && u == t[i := u[i]]
      && (if t[i].active then u[i].active && u[i].device == t[i].device else u == t)
      && (t[i].active && t[i].phase.Stopped? ==> u[i].phase == if a.spawn > 0 && a.issued then Running else Failed)
  {
  }

  lemma DestroyedEntry(t: Table, i: nat, a: Answers)
    requires i < |t|
    ensures var u := Step(t, DestroyOp(i, a));
      && u == t[i := u[i]]
      && (t[i].active ==> if u[i].active then u[i].phase.Quarantined? && u[i].device == t[i].device else true)
      && (t[i].active && !Live(t[i].phase) && !t[i].phase.Quarantined? ==> (u[i].active <==> !a.released))
  {
  }

  /** The quarantined domain in entry `i` holds the device. */
  ghost predicate HeldBy(t: Table, i: nat, device: nat)
  {
    i < |t| && t[i].active && t[i].phase.Quarantined? && t[i].device == device
  }

  lemma {:induction false} AmbientOrderly(t: Table, ops: seq<Op>)
    requires AllAmbient(ops)
    ensures Orderly(t, ops)
    decreases |ops|
  {
    hide Step;
    if ops != [] {
      AmbientTakesNothing(t, ops[0]);
      AmbientOrderly(Step(t, ops[0]), ops[1..]);
    }
  }

  /** While it is not released, the device of a quarantined domain stays occupied. */
  lemma HeldStays(t: Table, ops: seq<Op>, device: nat)
    requires TableOk(t) && Single(t) && AllAmbient(ops)
    ensures forall i: nat :: HeldBy(t, i, device) && !Releases(ops, i) ==> Occupied(Supervisors.Run(t, ops), device)
  {
    hide TableOk, Single, Orderly, Supervisors.Run, Releases;
    AmbientOrderly(t, ops);
    forall i: nat | HeldBy(t, i, device) && !Releases(ops, i)
      ensures Occupied(Supervisors.Run(t, ops), device)
    {
      OrderlyAbsorbs(t, ops, i);
      assert Occupies(Supervisors.Run(t, ops)[i], device);
    }
  }

  lemma ReleasedThen(before: seq<Op>, ops: seq<Op>, after: seq<Op>)
    requires Grew(before + ops, after)
    ensures Grew(before, after) && forall i :: Releases(ops, i) ==> Releases(after[|before|..], i)
  {
    assert after[..|before|] == after[..|before + ops|][..|before|];
    forall i | Releases(ops, i)
      ensures Releases(after[|before|..], i)
    {
      var k :| 0 <= k < |ops| && ops[k].ReleaseOp? && ops[k].index == i;
      assert after[|before|..][k] == after[..|before + ops|][|before| + k] == ops[k];
    }
  }

  lemma SameRefl(t: Table)
    ensures SameActive(t, t) && Leftover(t, t)
  {
  }

  lemma SameCandidates(slots: seq<Slot>, bindings: seq<Binding>, t: Table, u: Table, attempted: seq<bool>,
      suits: nat -> bool)
    requires Leftover(t, u) && FreeStopped(t) && FreeStopped(u)
    ensures forall k: nat :: Candidate(slots, bindings, t, attempted, suits, k) <==>
      Candidate(slots, bindings, u, attempted, suits, k)
  {
    hide Eligible, Leftover, FreeStopped;
    forall k: nat
      ensures Candidate(slots, bindings, t, attempted, suits, k) <==> Candidate(slots, bindings, u, attempted, suits, k)
    {
      LeftoverEligible(slots, bindings, t, u, suits, k);
    }
  }

  /** A better manifest than all that come up, which failed and left a domain behind. */
  ghost predicate Spoils(slots: seq<Slot>, bindings: seq<Binding>, t: Table, a: StartAnswers, j: nat)
  {
    && Eligible(slots, bindings, t, a.suits, j) && !ComesUp(a, j) && !Cleans(a, j)
    && forall k: nat :: Eligible(slots, bindings, t, a.suits, k) && ComesUp(a, k) ==> Before(slots, j, k)
  }

  /** What the attempts so far have shown, in a table with room. */
  ghost predicate Searched(slots: seq<Slot>, bindings: seq<Binding>, t: Table, a: StartAnswers, attempted: seq<bool>,
      clean: bool)
  {
    && |attempted| == |slots|
    && (forall j: nat :: j < |attempted| && attempted[j] ==> Eligible(slots, bindings, t, a.suits, j))
    && (clean ==> forall j: nat :: j < |attempted| && attempted[j] ==> !ComesUp(a, j) && Cleans(a, j))
    && (forall j: nat, k: nat ::
      j < |attempted| && attempted[j] && Candidate(slots, bindings, t, attempted, a.suits, k) ==> Before(slots, j, k))
    && (!clean ==> exists j: nat :: Spoils(slots, bindings, t, a, j))
  }

  lemma NobodyWins(slots: seq<Slot>, bindings: seq<Binding>, t: Table, a: StartAnswers, attempted: seq<bool>,
      clean: bool)
    requires Searched(slots, bindings, t, a, attempted, clean)
    requires forall k: nat :: !Candidate(slots, bindings, t, attempted, a.suits, k)
    ensures forall k: nat :: !Wins(slots, bindings, t, a, k)
  {
    hide Ready, ComesUp, Cleans;
    if clean {
      forall k: nat
        ensures !(Eligible(slots, bindings, t, a.suits, k) && ComesUp(a, k))
      {
        assert !Candidate(slots, bindings, t, attempted, a.suits, k);
      }
    } else {
      var j: nat :| Spoils(slots, bindings, t, a, j);
      forall k: nat
        ensures !Wins(slots, bindings, t, a, k)
      {
        if Eligible(slots, bindings, t, a.suits, k) && ComesUp(a, k) {
          assert j != k && Before(slots, j, k);
        }
      }
    }
  }

  lemma FirstWins(slots: seq<Slot>, bindings: seq<Binding>, t: Table, a: StartAnswers, attempted: seq<bool>, k: nat)
    requires Searched(slots, bindings, t, a, attempted, true) && Candidate(slots, bindings, t, attempted, a.suits, k)
             && ComesUp(a, k)
    requires forall j: nat :: Candidate(slots, bindings, t, attempted, a.suits, j) ==> Before(slots, k, j)
    ensures Wins(slots, bindings, t, a, k)
  {
    hide Ready, ComesUp, Cleans;
    forall j: nat | Eligible(slots, bindings, t, a.suits, j) && j != k && Before(slots, j, k)
      ensures !ComesUp(a, j) && Cleans(a, j)
    {
      assert !Candidate(slots, bindings, t, attempted, a.suits, j);
    }
  }

  lemma OneMore(slots: seq<Slot>, bindings: seq<Binding>, t: Table, a: StartAnswers, attempted: seq<bool>, k: nat,
      clean: bool)
    requires Searched(slots, bindings, t, a, attempted, clean) && Candidate(slots, bindings, t, attempted, a.suits, k)
    requires forall j: nat :: Candidate(slots, bindings, t, attempted, a.suits, j) ==> Before(slots, k, j)
    requires clean ==> !ComesUp(a, k)
    ensures Searched(slots, bindings, t, a, attempted[k := true], clean && Cleans(a, k))
  {
    hide Ready, ComesUp, Cleans;
    var tried := attempted[k := true];
    forall j: nat, l: nat | j < |tried| && tried[j] && Candidate(slots, bindings, t, tried, a.suits, l)
      ensures Before(slots, j, l)
    {
      assert Candidate(slots, bindings, t, attempted, a.suits, l);
    }
    if clean && !Cleans(a, k) {
      forall l: nat | Eligible(slots, bindings, t, a.suits, l) && ComesUp(a, l)
        ensures Before(slots, k, l)
      {
        assert Candidate(slots, bindings, t, attempted, a.suits, l);
      }
      assert Spoils(slots, bindings, t, a, k);
    }
  }

  /** Where the undisturbed search stands. */
  ghost predicate Standing(slots: seq<Slot>, bindings: seq<Binding>, t: Table, u: Table, a: StartAnswers,
      attempted: seq<bool>, clean: bool, device: nat)
  {
    && Leftover(t, u) && (if clean then SameActive(t, u) else Occupied(u, device))
    && (if FirstFree(t) < |t| then Searched(slots, bindings, t, a, attempted, clean) else clean)
  }

  /** One attempt that fails. */
  lemma StandingFails(slots: seq<Slot>, bindings: seq<Binding>, t: Table, u: Table, v: Table, a: StartAnswers,
      attempted: seq<bool>, clean: bool, device: nat, k: nat, index: nat)
    requires Standing(slots, bindings, t, u, a, attempted, clean, device) && !Occupied(t, device) && FreeStopped(t)
             && FreeStopped(u)
    requires Candidate(slots, bindings, u, attempted, a.suits, k)
    requires forall j: nat :: Candidate(slots, bindings, u, attempted, a.suits, j) ==> Before(slots, k, j)
    requires Attempt(u, v, device, a, k, false, index) && k < |attempted|
    ensures Standing(slots, bindings, t, v, a, attempted[k := true], clean
                     && (Cleans(a, k) || FirstFree(t) == |t|), device)
  {
    hide Candidate, Searched, ComesUp, Cleans, FreeStopped, Leftover, SameActive, FirstFree, Occupied;
    SameCandidates(slots, bindings, t, u, attempted, a.suits);
    LeftoverTrans(t, u, v);
    if clean {
      SameRoom(t, u, device);
    }
    if FirstFree(t) < |t| {
      OneMore(slots, bindings, t, a, attempted, k, clean);
    }
    if clean && (Cleans(a, k) || FirstFree(t) == |t|) {
      SameActiveTrans(t, u, v);
    } else if !clean {
      StillOccupied(u, v, device);
    }
  }

  /** One attempt that succeeds: its manifest wins. */
  lemma StandingWins(slots: seq<Slot>, bindings: seq<Binding>, t: Table, u: Table, v: Table, a: StartAnswers,
      attempted: seq<bool>, clean: bool, device: nat, k: nat, index: nat)
    requires Standing(slots, bindings, t, u, a, attempted, clean, device) && FreeStopped(t) && FreeStopped(u)
    requires Candidate(slots, bindings, u, attempted, a.suits, k)
    requires forall j: nat :: Candidate(slots, bindings, u, attempted, a.suits, j) ==> Before(slots, k, j)
    requires Attempt(u, v, device, a, k, true, index)
    ensures FirstFree(t) < |t| && Wins(slots, bindings, t, a, k) && Launched(t, v, index, device)
  {
    hide Candidate, Searched, ComesUp, Cleans, FreeStopped, Leftover, SameActive, FirstFree, Occupied, Launched, Wins;
    SameCandidates(slots, bindings, t, u, attempted, a.suits);
    SameRoom(t, u, device);
    SameThenLaunched(t, u, v, index, device);
    FirstWins(slots, bindings, t, a, attempted, k);
  }

  lemma StandingEnds(slots: seq<Slot>, bindings: seq<Binding>, t: Table, u: Table, a: StartAnswers,
      attempted: seq<bool>, clean: bool, device: nat)
    requires Standing(slots, bindings, t, u, a, attempted, clean, device) && FreeStopped(t) && FreeStopped(u)
    requires forall k: nat :: !Candidate(slots, bindings, u, attempted, a.suits, k)
    ensures FirstFree(t) < |t| ==> forall k: nat :: !Wins(slots, bindings, t, a, k)
  {
    hide Candidate, Searched, FreeStopped, Leftover, SameActive, FirstFree, Occupied, Wins;
    SameCandidates(slots, bindings, t, u, attempted, a.suits);
    if FirstFree(t) < |t| {
      NobodyWins(slots, bindings, t, a, attempted, clean);
    }
  }

  lemma StandingStart(slots: seq<Slot>, bindings: seq<Binding>, t: Table, a: StartAnswers, attempted: seq<bool>,
      device: nat)
    requires |attempted| == |slots| && forall j :: 0 <= j < |attempted| ==> !attempted[j]
    ensures Standing(slots, bindings, t, t, a, attempted, true, device)
  {
    hide Searched, FirstFree;
    NothingSearched(slots, bindings, t, a, attempted);
  }

  lemma NothingSearched(slots: seq<Slot>, bindings: seq<Binding>, t: Table, a: StartAnswers, attempted: seq<bool>)
    requires |attempted| == |slots| && forall j :: 0 <= j < |attempted| ==> !attempted[j]
    ensures Searched(slots, bindings, t, a, attempted, true)
  {
  }

  /** What failed attempts leave behind makes no manifest ready or unready. */
  lemma LeftoverEligible(slots: seq<Slot>, bindings: seq<Binding>, t: Table, u: Table, suits: nat -> bool, k: nat)
    requires Leftover(t, u) && FreeStopped(t) && FreeStopped(u)
    ensures Eligible(slots, bindings, t, suits, k) <==> Eligible(slots, bindings, u, suits, k)
  {
    forall slot: int
      ensures Runs(bindings, t, slot) <==> Runs(bindings, u, slot)
    {
    }
  }

  lemma LeftoverTrans(t: Table, u: Table, v: Table)
    requires Leftover(t, u) && Leftover(u, v)
    ensures Leftover(t, v)
  {
  }

  lemma SameActiveTrans(t: Table, u: Table, v: Table)
    requires SameActive(t, u) && SameActive(u, v)
    ensures SameActive(t, v)
  {
  }

  /** The free entries and the occupied devices are those of the active entries. */
  lemma SameRoom(t: Table, u: Table, device: nat)
    requires SameActive(t, u)
    ensures (FirstFree(t) < |t| <==> FirstFree(u) < |u|) && (Occupied(t, device) <==> Occupied(u, device))
            && Leftover(t, u)
  {
    if FirstFree(u) < |u| {
      assert !t[FirstFree(u)].active;
    }
    if Occupied(u, device) {
      var i :| 0 <= i < |u| && Occupies(u[i], device);
      assert Occupies(t[i], device);
    }
    if Occupied(t, device) {
      var i :| 0 <= i < |t| && Occupies(t[i], device);
      assert Occupies(u[i], device);
    }
  }

  lemma StillOccupied(t: Table, u: Table, device: nat)
    requires Leftover(t, u) && Occupied(t, device)
    ensures Occupied(u, device)
  {
    var i :| 0 <= i < |t| && Occupies(t[i], device);
    assert Occupies(u[i], device);
  }

  lemma NotYetOccupied(t: Table, u: Table, device: nat)
    requires Leftover(t, u) && !Occupied(u, device)
    ensures !Occupied(t, device)
  {
    forall i | 0 <= i < |t|
      ensures !Occupies(t[i], device)
    {
      assert !Occupies(u[i], device);
    }
  }

  /** What can be started in a table with more leftovers could be started before. */
  lemma StartableBefore(slots: seq<Slot>, bindings: seq<Binding>, t: Table, u: Table, device: nat, a: StartAnswers)
    requires Leftover(t, u) && FreeStopped(t) && FreeStopped(u)
    ensures Startable(slots, bindings, u, device, a) ==> Startable(slots, bindings, t, device, a)
  {
    hide Eligible, ComesUp, Cleans;
    if Startable(slots, bindings, u, device, a) {
      NotYetOccupied(t, u, device);
      assert !t[FirstFree(u)].active;
      var k: nat :| Wins(slots, bindings, u, a, k);
      forall j: nat
        ensures Eligible(slots, bindings, t, a.suits, j) <==> Eligible(slots, bindings, u, a.suits, j)
      {
        LeftoverEligible(slots, bindings, t, u, a.suits, j);
      }
      EligibleFilled(slots, bindings, u, a.suits);
      assert Wins(slots, bindings, t, a, k);
    }
  }

  lemma EligibleFilled(slots: seq<Slot>, bindings: seq<Binding>, t: Table, suits: nat -> bool)
    ensures forall k: nat :: Eligible(slots, bindings, t, suits, k) ==> k < |slots| && slots[k].Filled?
  {
  }

  lemma CandidateFilled(slots: seq<Slot>, bindings: seq<Binding>, t: Table, attempted: seq<bool>, suits: nat -> bool,
      k: nat)
    requires Candidate(slots, bindings, t, attempted, suits, k)
    ensures k < |slots| && slots[k].Filled? && suits(k) && k < |attempted| && !attempted[k]
  {
  }

  /** Attempts that do not get as far as a domain. */
  lemma NotAdmitted(t: Table, device: nat, a: StartAnswers, k: nat)
    requires !a.admits(k)
    ensures forall index: nat :: Attempt(t, t, device, a, k, false, index)
  {
    hide FirstFree;
    SameRefl(t);
  }

  lemma NotCreated(t: Table, device: nat, a: StartAnswers, k: nat)
    requires Occupied(t, device) || forall i :: 0 <= i < |t| ==> t[i].active
    ensures forall index: nat :: Attempt(t, t, device, a, k, false, index)
  {
    SameRefl(t);
  }

  /** An attempt that created a domain in entry `f` and launched it. */
  lemma LaunchedAttempt(t: Table, v: Table, device: nat, a: StartAnswers, k: nat, f: nat, d: Domain)
    requires !Occupied(t, device) && f == FirstFree(t) < |t| && ComesUp(a, k)
    requires d.active && d.phase.Stopped? && d.device == device && v == Step(t[f := d], StartOp(f, a.launch(k)))
    ensures Attempt(t, v, device, a, k, true, f)
  {
    hide Step, Occupied, ComesUp, FirstFree;
    StartedEntry(t[f := d], f, a.launch(k));
    assert a.launch(k).spawn > 0 && a.launch(k).issued by {
      UpLaunches(a, k);
    }
  }

  lemma UpLaunches(a: StartAnswers, k: nat)
    requires ComesUp(a, k)
    ensures a.launch(k).spawn > 0 && a.launch(k).issued
  {
  }

  /** An attempt whose domain had to be destroyed again. */
  lemma DestroyedAttempt(t: Table, w: Table, device: nat, a: StartAnswers, k: nat, f: nat, d: Domain)
    requires !Occupied(t, device) && f == FirstFree(t) < |t| && a.admits(k) && !ComesUp(a, k)
    requires d.active && (d.phase.Stopped? || d.phase.Failed?) && d.device == device
             && w == Step(t[f := d], DestroyOp(f, a.undo(k)))
    ensures Attempt(t, w, device, a, k, false, f)
  {
    hide Step, ComesUp, FirstFree;
    DestroyedEntry(t[f := d], f, a.undo(k));
    if w[f].active {
      assert Occupies(w[f], device);
    }
  }

  /** The undisturbed launch of a fresh domain: it runs, or it has been destroyed again. */
  ghost predicate Brought(t: Table, u: Table, index: nat, a: StartAnswers, k: nat, up: bool)
    requires index < |t|
  {
    var v := if a.configured(k) then Step(t, StartOp(index, a.launch(k))) else t;
    && (up <==>
        && a.configured(k) && t[index].active && t[index].phase.Stopped?
        && a.launch(k).spawn > 0 && a.launch(k).issued)
    && u == if up then v else Step(v, DestroyOp(index, a.undo(k)))
  }

  lemma CreatedAttempt(t: Table, u: Table, device: nat, a: StartAnswers, k: nat, f: nat, m: Manifest, id: u32, up: bool)
    requires !Occupied(t, device) && f == FirstFree(t) < |t| && a.admits(k)
    requires Brought(t[f := NewDomain(m, id, device)], u, f, a, k, up)
    ensures Attempt(t, u, device, a, k, up, f)
  {
    hide Step, NewDomain, Occupied, FirstFree, Attempt;
    NewDomainIs(m, id, device);
    var t' := t[f := NewDomain(m, id, device)];
    StartedEntry(t', f, a.launch(k));
    if up {
      LaunchedAttempt(t, u, device, a, k, f, t'[f]);
    } else {
      var v := if a.configured(k) then Step(t', StartOp(f, a.launch(k))) else t';
      assert v == t[f := v[f]];
      DestroyedAttempt(t, u, device, a, k, f, v[f]);
    }
  }

  /** How an undisturbed search ends. */
  ghost predicate Found(slots: seq<Slot>, bindings: seq<Binding>, t: Table, u: Table, a: StartAnswers, device: nat,
      up: bool, chosen: nat, index: nat)
  {
    && (up <==> FirstFree(t) < |t| && exists k: nat :: Wins(slots, bindings, t, a, k))
    && (up ==> Wins(slots, bindings, t, a, chosen) && Launched(t, u, index, device))
    && (!up ==> Leftover(t, u))
  }

  lemma FoundNone(slots: seq<Slot>, bindings: seq<Binding>, t: Table, u: Table, a: StartAnswers, attempted: seq<bool>,
      clean: bool, device: nat)
    requires Standing(slots, bindings, t, u, a, attempted, clean, device)
    requires FirstFree(t) < |t| ==> forall k: nat :: !Wins(slots, bindings, t, a, k)
    ensures Found(slots, bindings, t, u, a, device, false, 0, 0)
  {
    hide Wins, Leftover, Searched, SameActive;
  }

  lemma FoundOne(slots: seq<Slot>, bindings: seq<Binding>, t: Table, u: Table, a: StartAnswers, device: nat, k: nat,
      index: nat)
    requires FirstFree(t) < |t| && Wins(slots, bindings, t, a, k) && Launched(t, u, index, device)
    ensures Found(slots, bindings, t, u, a, device, true, k, index)
  {
    hide Wins, Launched;
  }

  lemma GrewTrans(a: seq<Op>, b: seq<Op>, c: seq<Op>)
    requires Grew(a, b) && Grew(b, c)
    ensures Grew(a, c)
  {
    assert c[..|a|] == c[..|b|][..|a|];
  }

  // ---- sweeps -------------------------------------------------------------

  ghost predicate Calm(world: nat -> StartAnswers)
  {
    forall n: nat :: Quiet(world(n))
  }

  ghost predicate AllCivil(world: nat -> StartAnswers)
  {
    forall n: nat :: Civil(world(n))
  }

  /** The first `count` of the devices cannot be started. */
  ghost predicate NothingLeft(slots: seq<Slot>, bindings: seq<Binding>, t: Table, devices: seq<nat>, count: nat,
      world: nat -> StartAnswers, base: nat)
    requires count <= |devices|
  {
    forall i :: 0 <= i < count ==> !Startable(slots, bindings, t, devices[i], world(base + i))
  }

  lemma StillNothing(slots: seq<Slot>, bindings: seq<Binding>, t: Table, u: Table, devices: seq<nat>, count: nat,
      world: nat -> StartAnswers, base: nat)
    requires count <= |devices| && NothingLeft(slots, bindings, t, devices, count, world, base)
    requires Leftover(t, u) && FreeStopped(t) && FreeStopped(u)
    ensures NothingLeft(slots, bindings, u, devices, count, world, base)
  {
    hide Startable, Leftover, FreeStopped;
    forall i | 0 <= i < count
      ensures !Startable(slots, bindings, u, devices[i], world(base + i))
    {
      StartableBefore(slots, bindings, t, u, devices[i], world(base + i));
    }
  }

  /** Bindings were only added, for listed devices. */
  ghost predicate Extends(bindings: seq<Binding>, more: seq<Binding>, devices: seq<nat>)
  {
    && |bindings| == |more|
    && (forall i :: 0 <= i < |bindings| && bindings[i].Bound? ==> more[i] == bindings[i])
    && (forall i :: 0 <= i < |bindings| && bindings[i].Unbound? && more[i].Bound? ==>
      more[i].device in devices && more[i].enabled)
  }

  lemma ExtendsRefl(bindings: seq<Binding>, devices: seq<nat>)
    ensures Extends(bindings, bindings, devices)
  {
  }

  lemma ExtendsMore(first: seq<Binding>, bindings: seq<Binding>, devices: seq<nat>, free: nat, b: Binding)
    requires Extends(first, bindings, devices) && FirstUnbound(bindings, free) && b.Bound? && b.device in devices
             && b.enabled
    ensures Extends(first, bindings[free := b], devices)
  {
  }

  /** Active entries are as before. */
  ghost predicate Persists(t: Table, u: Table)
  {
    |t| == |u| && forall i :: 0 <= i < |t| && t[i].active ==> u[i] == t[i]
  }

  /** The new bindings run, and so does everything they depend on. */
  ghost predicate Sustained(first: seq<Binding>, bindings: seq<Binding>, slots: seq<Slot>, t: Table)
    requires |first| == |bindings|
  {
    forall i :: 0 <= i < |bindings| && first[i].Unbound? && bindings[i].Bound? ==>
      Upheld(bindings, slots, t, bindings[i])
  }

  ghost predicate Upheld(bindings: seq<Binding>, slots: seq<Slot>, t: Table, b: Binding)
    requires b.Bound?
  {
    && b.domain < |t| && t[b.domain].active && t[b.domain].phase.Running?
    && b.slot < |slots| && slots[b.slot].Filled? && Ready(slots, bindings, t, b.slot)
  }

  /** A new binding and new domains stop nothing. */
  lemma ReadyMore(slots: seq<Slot>, bindings: seq<Binding>, more: seq<Binding>, t: Table, u: Table, k: nat)
    requires k < |slots| && slots[k].Filled? && Ready(slots, bindings, t, k) && Persists(t, u) && FreeStopped(t)
    requires |bindings| == |more| && forall i :: 0 <= i < |bindings| && bindings[i].Bound? ==> more[i] == bindings[i]
    ensures Ready(slots, more, u, k)
  {
    var names := slots[k].manifest.dependencies;
    forall i | 0 <= i < |names|
      ensures Runs(more, u, SlotByName(slots, names[i]))
    {
      var slot := SlotByName(slots, names[i]);
      assert Runs(bindings, t, slot);
      var j :| 0 <= j < |bindings| && bindings[j].Bound? && bindings[j].slot == slot && bindings[j].domain < |t|
      && t[bindings[j].domain].phase.Running?;
      assert more[j] == bindings[j];
    }
  }

  lemma SustainedMore(first: seq<Binding>, bindings: seq<Binding>, slots: seq<Slot>, t: Table, u: Table)
    requires |first| == |bindings| && Sustained(first, bindings, slots, t) && Persists(t, u) && FreeStopped(t)
    ensures Sustained(first, bindings, slots, u)
  {
    hide Ready, FreeStopped;
    forall i | 0 <= i < |bindings| && first[i].Unbound? && bindings[i].Bound?
      ensures Upheld(bindings, slots, u, bindings[i])
    {
      ReadyMore(slots, bindings, bindings, t, u, bindings[i].slot);
    }
  }

  lemma SustainedStart(first: seq<Binding>, bindings: seq<Binding>, slots: seq<Slot>, t: Table, u: Table,
      a: StartAnswers, device: nat, free: nat, chosen: nat, index: nat)
    requires |first| == |bindings| && Sustained(first, bindings, slots, t) && FreeStopped(t)
             && FirstUnbound(bindings, free)
    requires Wins(slots, bindings, t, a, chosen) && Launched(t, u, index, device)
    ensures Sustained(first, bindings[free := Bound(device, chosen, index, true)], slots, u)
  {
    hide Ready, FreeStopped, ComesUp, Cleans;
    var b := Bound(device, chosen, index, true);
    var more := bindings[free := b];
    assert Persists(t, u);
    forall i | 0 <= i < |more| && first[i].Unbound? && more[i].Bound?
      ensures Upheld(more, slots, u, more[i])
    {
      if i == free {
        ReadyMore(slots, bindings, more, t, u, chosen);
      } else {
        assert Upheld(bindings, slots, t, bindings[i]);
        ReadyMore(slots, bindings, more, t, u, bindings[i].slot);
      }
    }
  }

  lemma LeftoverPersists(t: Table, u: Table)
    requires Leftover(t, u)
    ensures Persists(t, u)
  {
  }

  lemma NothingYet(slots: seq<Slot>, bindings: seq<Binding>, t: Table, devices: seq<nat>, world: nat -> StartAnswers,
      base: nat)
    ensures NothingLeft(slots, bindings, t, devices, 0, world, base)
  {
  }

  lemma NothingMore(slots: seq<Slot>, bindings: seq<Binding>, t: Table, u: Table, devices: seq<nat>, count: nat,
      world: nat -> StartAnswers, base: nat)
    requires count < |devices| && NothingLeft(slots, bindings, t, devices, count, world, base)
    requires Leftover(t, u) && FreeStopped(t) && FreeStopped(u)
             && !Startable(slots, bindings, t, devices[count], world(base + count))
    ensures NothingLeft(slots, bindings, u, devices, count + 1, world, base)
  {
    hide Startable, Leftover, FreeStopped;
    assert NothingLeft(slots, bindings, t, devices, count + 1, world, base);
    StillNothing(slots, bindings, t, u, devices, count + 1, world, base);
  }

  lemma SustainedRefl(bindings: seq<Binding>, slots: seq<Slot>, t: Table)
    ensures Sustained(bindings, bindings, slots, t)
  {
  }

  /** Why a valid manifest is rejected: its name is taken, the table is full, or it would close a cycle. */
  ghost predicate Unwelcome(slots: seq<Slot>, manifest: DriverManifest)
  {
    || SlotByName(slots, manifest.name) >= 0
    || (forall k :: 0 <= k < |slots| ==> slots[k].Filled?)
    || (exists k ::
      0 <= k < |slots| && slots[k] == Empty && (forall j :: 0 <= j < k ==> slots[j].Filled?)
      && !Acyclic(slots[k := Filled(manifest)]))
  }

  lemma BindingParts(bindings: seq<Binding>, slots: seq<Slot>, i: nat)
    requires BindingsOk(bindings, slots) && i < |bindings| && bindings[i].Bound?
    ensures bindings[i].slot < |slots| && slots[bindings[i].slot].Filled? && bindings[i].domain < DOMAIN_MAX
    ensures forall flag: bool :: BindingsOk(bindings[i := bindings[i].(enabled := flag)], slots)
  {
  }

  lemma DomainsInside(bindings: seq<Binding>, slots: seq<Slot>)
    requires BindingsOk(bindings, slots)
    ensures forall b :: 0 <= b < |bindings| && bindings[b].Bound? ==> bindings[b].domain < DOMAIN_MAX
  {
  }

  ghost predicate AtMostDisabled(b: Binding, c: Binding)
  {
    c == b || (b.Bound? && b.enabled && c == b.(enabled := false))
  }

  /** The binding's domain is running as this task. */
  predicate RunsTask(b: Binding, t: Table, pid: int)
  {
    b.Bound? && b.domain < |t| && t[b.domain].phase.Running? && t[b.domain].pid == pid
  }

  function WithoutFirst(devices: seq<nat>, device: nat): seq<nat>
  {
    if devices == [] then []
    else if devices[0] == device then devices[1..]
    else [devices[0]] + WithoutFirst(devices[1..], device)
  }

  lemma DroppedOne(bindings: seq<Binding>, i: nat)
    requires i < |bindings| && bindings[i].Bound?
    requires forall j, k :: 0 <= j < k < |bindings| && bindings[j].Bound? && bindings[k].Bound? ==>
      bindings[j].device != bindings[k].device
    ensures !BoundTo(bindings[i := Unbound], bindings[i].device)
    ensures forall d: nat :: d != bindings[i].device ==> (BoundTo(bindings[i := Unbound], d) <==> BoundTo(bindings, d))
  {
    var less := bindings[i := Unbound];
    forall d: nat | d != bindings[i].device
      ensures BoundTo(less, d) <==> BoundTo(bindings, d)
    {
      if BoundTo(bindings, d) {
        var k :| 0 <= k < |bindings| && bindings[k].Bound? && bindings[k].device == d;
        assert less[k] == bindings[k];
      }
    }
  }

  // ---- bindings and their domains -----------------------------------------

  /** Every binding's domain is an active one of its device. */
  ghost predicate Coherent(bindings: seq<Binding>, t: Table)
  {
    forall i :: 0 <= i < |bindings| && bindings[i].Bound? ==>
      bindings[i].domain < |t| && t[bindings[i].domain].active && t[bindings[i].domain].device == bindings[i].device
  }

  /** The call gives the domain's entry back: a destroy whose every part succeeds, or a release from quarantine. */
  predicate Frees(d: Domain, op: Op)
  {
    match op
    case DestroyOp(_, a) =>
      !d.phase.Quarantined? && a.released && !(Live(d.phase) && (!a.tornDown || (d.pid > 0 && !a.terminated)))
    case ReleaseOp(_, a) => d.phase.Quarantined? && a.released
    case _ => false
  }

  /** The call frees the domain of a binding behind the manager's back. */
  ghost predicate Strands(bindings: seq<Binding>, t: Table, op: Op)
  {
    exists i :: 0 <= i < |bindings| && bindings[i].Bound? && bindings[i].domain < |t|
                && OnOne(op) && op.index == bindings[i].domain && Frees(t[bindings[i].domain], op)
  }

  lemma FreedExactly(d: Domain, op: Op)
    requires OnOne(op) && d.active
    ensures !StepOne(d, op).active <==> Frees(d, op)
  {
  }

  lemma BulkStays(d: Domain, code: int, ticks: u32, a: Answers)
    requires d.active
    ensures Died(d, code, ticks, a).active && Ticked(d, ticks, a).active
  {
  }

  /** One call: an active entry is freed exactly by a call that frees it, and keeps its device otherwise. */
  lemma EntryStays(t: Table, op: Op, e: nat)
    requires e < |t| && t[e].active
    ensures Step(t, op)[e].active <==> !(OnOne(op) && op.index == e && Frees(t[e], op))
    ensures Step(t, op)[e].active ==> Step(t, op)[e].device == t[e].device
  {
    hide Step, StepOne, Died, Ticked, NewDomain, FirstFree, Frees;
    StepEntry(t, op, e);
    if OnOne(op) && op.index == e {
      FreedExactly(t[e], op);
    } else if op.DiedOp? {
      BulkStays(t[e], op.code, op.ticks, op.all(e));
    } else if op.TickOp? {
      BulkStays(t[e], 0, op.ticks, op.all(e));
    }
    if Step(t, op)[e].active {
      StepDevice(t, op, e);
    }
  }

  /** A call keeps bindings and domains coherent exactly when it strands none. */
  lemma CoherentExact(bindings: seq<Binding>, t: Table, op: Op)
    requires Coherent(bindings, t)
    ensures Coherent(bindings, Step(t, op)) <==> !Strands(bindings, t, op)
  {
    hide Step, Frees;
    forall i | 0 <= i < |bindings| && bindings[i].Bound?
      ensures var e := bindings[i].domain;
        && (Step(t, op)[e].active <==> !(OnOne(op) && op.index == e && Frees(t[e], op)))
        && (Step(t, op)[e].active ==> Step(t, op)[e].device == bindings[i].device)
    {
      EntryStays(t, op, bindings[i].domain);
    }
    if Strands(bindings, t, op) {
      var i :| 0 <= i < |bindings| && bindings[i].Bound? && bindings[i].domain < |t|
        && OnOne(op) && op.index == bindings[i].domain && Frees(t[bindings[i].domain], op);
      assert !Step(t, op)[bindings[i].domain].active;
    }
  }

  /** The calls strand no binding. */
  ghost predicate Spares(bindings: seq<Binding>, t: Table, ops: seq<Op>)
    decreases |ops|
  {
    ops == [] || (!Strands(bindings, t, ops[0]) && Spares(bindings, Step(t, ops[0]), ops[1..]))
  }

  ghost predicate Throughout(bindings: seq<Binding>, t: Table, ops: seq<Op>)
    decreases |ops|
  {
    Coherent(bindings, t) && (ops == [] || Throughout(bindings, Step(t, ops[0]), ops[1..]))
  }

  /** Over any run: coherent in every state exactly when no call strands a binding. */
  lemma {:induction false} CoherentRun(bindings: seq<Binding>, t: Table, ops: seq<Op>)
    requires Coherent(bindings, t)
    ensures Throughout(bindings, t, ops) <==> Spares(bindings, t, ops)
    ensures Spares(bindings, t, ops) ==> Coherent(bindings, Supervisors.Run(t, ops))
    decreases |ops|
  {
    hide Step, Strands, Coherent;
    if ops != [] {
      CoherentExact(bindings, t, ops[0]);
      if !Strands(bindings, t, ops[0]) {
        CoherentRun(bindings, Step(t, ops[0]), ops[1..]);
      } else {
        NotThroughout(bindings, Step(t, ops[0]), ops[1..]);
      }
    }
  }

  lemma NotThroughout(bindings: seq<Binding>, t: Table, ops: seq<Op>)
    requires !Coherent(bindings, t)
    ensures !Throughout(bindings, t, ops)
  {
  }

  /** What stranding leads to: the freed entry goes to another device, and the old binding still names it. */
  lemma StaleBinding(bindings: seq<Binding>, t: Table, i: nat, a: Answers, m: Manifest, id: u32, other: nat)
    requires Coherent(bindings, t) && i < |bindings| && bindings[i].Bound? && other != bindings[i].device
    requires Frees(t[bindings[i].domain], DestroyOp(bindings[i].domain, a)) && !Occupied(t, other)
    requires forall k :: 0 <= k < bindings[i].domain ==> t[k].active
    ensures var u := Step(Step(t, DestroyOp(bindings[i].domain, a)), Create(m, id, other));
      u[bindings[i].domain].active && u[bindings[i].domain].device == other && !Coherent(bindings, u)
  {
    hide Frees, NewDomain, Occupied, FirstFree, StepOne;
    var e := bindings[i].domain;
    var v := Step(t, DestroyOp(e, a));
    EntryStays(t, DestroyOp(e, a), e);
    OneStep(t, DestroyOp(e, a));
    StillFree(t, v, e, other);
    NewDomainIs(m, id, other);
    FirstIs(v, e);
  }

  lemma OneStep(t: Table, op: Op)
    requires OnOne(op)
    ensures forall k :: 0 <= k < |t| && k != op.index ==> Step(t, op)[k] == t[k]
  {
    hide StepOne;
  }

  lemma StillFree(t: Table, v: Table, e: nat, device: nat)
    requires e < |t| == |v| && !v[e].active && (forall k :: 0 <= k < |t| && k != e ==> v[k] == t[k])
    requires !Occupied(t, device)
    ensures !Occupied(v, device)
  {
  }

  lemma FirstIs(t: Table, e: nat)
    requires e < |t| && !t[e].active && forall k :: 0 <= k < e ==> t[k].active
    ensures FirstFree(t) == e
  {
  }

  /** An undisturbed start extends the coherence to the new binding. */
  lemma LaunchCoheres(bindings: seq<Binding>, t: Table, u: Table, free: nat, chosen: nat, index: nat, device: nat)
    requires Coherent(bindings, t) && free < |bindings| && Launched(t, u, index, device)
    ensures Coherent(bindings[free := Bound(device, chosen, index, true)], u)
  {
  }

  /** While nothing strands it, what a removal takes away is the device's own domain. */
  lemma RemovesOwn(bindings: seq<Binding>, t: Table, i: nat, x: Turn)
    requires Coherent(bindings, t) && Spares(bindings, t, x.others) && i < |bindings| && bindings[i].Bound?
    ensures bindings[i].domain < |t|
    ensures Supervisors.Run(t, x.others)[bindings[i].domain].device == bindings[i].device
  {
    hide Supervisors.Run, Spares;
    CoherentRun(bindings, t, x.others);
  }

  /** The supervisor cannot vouch for the domain any more: it is quarantined or gone. */
  ghost predicate Refused(d: Domain)
  {
    !d.active || d.phase.Quarantined?
  }

  /** Removal and destruction of one domain, with whatever happens before each. */
  ghost function DroppedTable(t: Table, e: nat, x: Turn, y: Turn): (r: Table)
    ensures |r| == |t|
  {
    var u := Step(Supervisors.Run(t, x.others), RemoveOp(e, x.answers));
    Step(Supervisors.Run(u, y.others), DestroyOp(e, y.answers))
  }

  ghost predicate RemovalFails(t: Table, e: nat, x: Turn)
    requires e < |t|
  {
    Refused(Step(Supervisors.Run(t, x.others), RemoveOp(e, x.answers))[e])
  }

  ghost predicate Missing(b: Binding, list: seq<nat>)
  {
    b.Bound? && b.device !in list
  }

  /** One table per visited binding: the missing ones lose their domains, in order. */
  ghost predicate DropTrace(trace: seq<Table>, bindings: seq<Binding>, list: seq<nat>, xs: nat -> Turn, ys: nat -> Turn)
  {
    && 0 < |trace| <= |bindings| + 1
    && forall i: nat :: i + 1 < |trace| ==>
      trace[i + 1] ==
      if Missing(bindings[i], list) then DroppedTable(trace[i], bindings[i].domain, xs(i), ys(i)) else trace[i]
  }

  ghost predicate SomeFailed(trace: seq<Table>, bindings: seq<Binding>, list: seq<nat>, xs: nat -> Turn)
  {
    exists i: nat ::
      && i + 1 < |trace| && i < |bindings| && Missing(bindings[i], list)
      && bindings[i].domain < |trace[i]| && RemovalFails(trace[i], bindings[i].domain, xs(i))
  }

  lemma NoDrops(t: Table, bindings: seq<Binding>, list: seq<nat>, xs: nat -> Turn, ys: nat -> Turn)
    ensures DropTrace([t], bindings, list, xs, ys) && !SomeFailed([t], bindings, list, xs)
  {
  }

  lemma DropVisit(trace: seq<Table>, bindings: seq<Binding>, list: seq<nat>, xs: nat -> Turn, ys: nat -> Turn, u: Table)
    requires DropTrace(trace, bindings, list, xs, ys) && |trace| <= |bindings|
    requires var i := |trace| - 1;
      && (bindings[i].Bound? ==> bindings[i].domain < |trace[i]|)
      && u == if Missing(bindings[i], list) then DroppedTable(trace[i], bindings[i].domain, xs(i), ys(i)) else trace[i]
    ensures var i := |trace| - 1;
      && DropTrace(trace + [u], bindings, list, xs, ys)
      && (SomeFailed(trace + [u], bindings, list, xs) <==>
        || SomeFailed(trace, bindings, list, xs)
        || (Missing(bindings[i], list) && RemovalFails(trace[i], bindings[i].domain, xs(i))))
  {
    hide DroppedTable, RemovalFails;
    var more, n := trace + [u], |trace| - 1;
    assert more[n] == trace[n] && more[n + 1] == u;
    forall i: nat | i + 1 < |more|
      ensures more[i + 1] ==
              if Missing(bindings[i], list) then DroppedTable(more[i], bindings[i].domain, xs(i), ys(i)) else more[i]
    {
      if i < n {
        assert more[i] == trace[i] && more[i + 1] == trace[i + 1];
      }
    }
    if SomeFailed(more, bindings, list, xs) {
      var i: nat :| i + 1 < |more| && i < |bindings| && Missing(bindings[i], list)
        && bindings[i].domain < |more[i]| && RemovalFails(more[i], bindings[i].domain, xs(i));
      assert more[i] == trace[i];
    }
    if SomeFailed(trace, bindings, list, xs) {
      var i: nat :| i + 1 < |trace| && i < |bindings| && Missing(bindings[i], list)
        && bindings[i].domain < |trace[i]| && RemovalFails(trace[i], bindings[i].domain, xs(i));
      assert more[i] == trace[i];
    }
  }

  /**
    A restart: the domain is stopped; if that succeeds and the dependencies run
    it is started again, and the binding ends enabled unless a call failed.
   */
  ghost predicate RestartLaw(
    slots: seq<Slot>, bindings: seq<Binding>, t: Table, u: Table, b: Binding, x: Turn, y: Turn, ok: bool)
  {
    && b.Bound? && b.domain < |t| && b.slot < |slots| && slots[b.slot].Filled?
    && var e, stopped := b.domain, Step(Supervisors.Run(t, x.others), StopOp(b.domain, x.answers));
       if Refused(stopped[e]) then !ok && u == stopped
       else
         var v := Supervisors.Run(stopped, y.others);
         if !Ready(slots, bindings, v, b.slot) then ok && u == v
         else
           && u == Step(v, StartOp(e, y.answers))
           && (ok <==> v[e].active && v[e].phase.Stopped? && y.answers.spawn > 0 && y.answers.issued)
  }

  /**
    One turn of a tick.  An enabled domain is stopped when it runs without its
    dependencies and started when it is stopped and they run; afterwards it is
    enabled exactly when it got there.
   */
  ghost predicate TurnLaw(
    slots: seq<Slot>, bindings: seq<Binding>, bindings': seq<Binding>, t: Table, t': Table, i: nat, x: Turn)
    requires i < |bindings|
  {
    var b := bindings[i];
    if b.Unbound? || !b.enabled then bindings' == bindings && t' == t
    else
      && b.domain < |t| == |t'| && b.slot < |slots| && slots[b.slot].Filled?
      && var e, u := b.domain, Supervisors.Run(t, x.others);
         var ready := Ready(slots, bindings, u, b.slot);
         var goal := if ready then Running else Stopped;
         if u[e].phase == if ready then Stopped else Running then
           && t' == Step(u, if ready then StartOp(e, x.answers) else StopOp(e, x.answers))
           && bindings' == bindings[i := b.(enabled := t'[e].active && t'[e].phase == goal)]
         else bindings' == bindings && t' == u
  }

  /** A start takes no running manifest away, and a stop adds none. */
  lemma RunsBeside(bindings: seq<Binding>, bindings': seq<Binding>, t: Table, t': Table, i: nat, slot: int, up: bool)
    requires i < |bindings| && bindings[i].Bound? && bindings[i].domain < |t|
    requires bindings' == bindings[i := bindings[i].(enabled := true)]
    requires |t'| == |t| && t' == t[bindings[i].domain := t'[bindings[i].domain]]
    requires t'[bindings[i].domain].phase == if up then Running else Stopped
    ensures up && Runs(bindings, t, slot) ==> Runs(bindings', t', slot)
    ensures !up && Runs(bindings', t', slot) ==> Runs(bindings, t, slot)
  {
    if up && Runs(bindings, t, slot) {
      var j :| 0 <= j < |bindings| && bindings[j].Bound? && bindings[j].slot == slot
        && bindings[j].domain < |t| && t[bindings[j].domain].phase.Running?;
      assert bindings'[j].Bound? && bindings'[j].slot == slot && t'[bindings'[j].domain].phase.Running?;
    }
    if !up && Runs(bindings', t', slot) {
      var j :| 0 <= j < |bindings'| && bindings'[j].Bound? && bindings'[j].slot == slot
        && bindings'[j].domain < |t'| && t'[bindings'[j].domain].phase.Running?;
      assert bindings[j].Bound? && bindings[j].slot == slot && t[bindings[j].domain].phase.Running?;
    }
  }

  /** After its turn a binding that is still enabled runs only with its dependencies, and waits only without them. */
  lemma TurnSettles(
    slots: seq<Slot>, bindings: seq<Binding>, bindings': seq<Binding>, t: Table, t': Table, i: nat, x: Turn)
    requires i < |bindings| && TurnLaw(slots, bindings, bindings', t, t', i, x)
    requires i < |bindings'| && bindings'[i].Bound? && bindings'[i].enabled
    ensures var b := bindings'[i];
      && b.domain < |t'| && b.slot < |slots| && slots[b.slot].Filled?
      && (t'[b.domain].phase.Running? ==> Ready(slots, bindings', t', b.slot))
      && (t'[b.domain].phase.Stopped? ==> !Ready(slots, bindings', t', b.slot))
  {
    hide Supervisors.Run, Step, Runs, SlotByName;
    var b, u := bindings[i], Supervisors.Run(t, x.others);
    var e, names, ready := b.domain, slots[b.slot].manifest.dependencies, Ready(slots, bindings, u, b.slot);
    if u[e].phase == if ready then Stopped else Running {
      OneEntry(u, e, x.answers);
      forall k | 0 <= k < |names|
        ensures var s := SlotByName(slots, names[k]);
          && (ready ==> Runs(bindings', t', s)) && (!ready && Runs(bindings', t', s) ==> Runs(bindings, u, s))
      {
        RunsBeside(bindings, bindings', u, t', i, SlotByName(slots, names[k]), ready);
      }
    }
  }

  lemma OneEntry(t: Table, i: nat, a: Answers)
    requires i < |t|
    ensures var u := Step(t, StartOp(i, a)); u == t[i := u[i]]
    ensures var u := Step(t, StopOp(i, a)); u == t[i := u[i]]
  {
    hide StepOne;
  }

  /** A whole tick, one turn after the other. */
  ghost predicate TickTrace(slots: seq<Slot>, states: seq<(seq<Binding>, Table)>, turns: nat -> Turn)
  {
    forall i: nat :: i + 1 < |states| ==>
      && i < |states[i].0|
      && TurnLaw(slots, states[i].0, states[i + 1].0, states[i].1, states[i + 1].1, i, turns(i))
  }

  lemma TickVisit(slots: seq<Slot>, states: seq<(seq<Binding>, Table)>, next: (seq<Binding>, Table), turns: nat -> Turn)
    requires TickTrace(slots, states, turns) && |states| > 0
    requires var i := |states| - 1;
      i < |states[i].0| && TurnLaw(slots, states[i].0, next.0, states[i].1, next.1, i, turns(i))
    ensures TickTrace(slots, states + [next], turns)
  {
    hide TurnLaw;
    var more := states + [next];
    forall i: nat | i + 1 < |more|
      ensures i < |more[i].0| && TurnLaw(slots, more[i].0, more[i + 1].0, more[i].1, more[i + 1].1, i, turns(i))
    {
      assert more[i] == states[i];
      assert i + 1 < |states| ==> more[i + 1] == states[i + 1];
    }
  }

  lemma StoppedEntry(t: Table, i: nat, a: Answers)
    requires i < |t| && t[i].phase.Running?
    ensures var u := Step(t, StopOp(i, a))[i];
      Refused(u) <==> !(u.active && u.phase.Stopped?)
  {
  }

  lemma DropGrows(log: seq<Op>, after: seq<Op>, x: Turn, y: Turn, e: nat)
    requires after == log + x.others + [RemoveOp(e, x.answers)] + y.others + [DestroyOp(e, y.answers)]
    ensures Grew(log, after)
  {
  }

  /** The supervisor's log has only grown. */
  ghost predicate Grew(before: seq<Op>, after: seq<Op>)
  {
    |before| <= |after| && after[..|before|] == before
  }

  class Manager {
    var slots: seq<Slot>
    var bindings: seq<Binding>
    /** The managed devices. */
    var devices: seq<nat>
    const sup: Supervisor

    ghost predicate Valid()
      reads this, sup
    {
      && |slots| == MANIFEST_MAX && |bindings| == BINDING_MAX
      && DistinctNames(slots) && Acyclic(slots) && BindingsOk(bindings, slots)
      && sup.Valid() && NoneRemoved(sup.domains, -1)
    }

    /** driver_manager_init. */
    constructor (sup: Supervisor)
      requires sup.Valid() && NoneRemoved(sup.domains, -1)
      ensures Valid() && this.sup == sup && devices == [] && forall i :: 0 <= i < MANIFEST_MAX ==> slots[i] == Empty
      ensures forall i :: 0 <= i < BINDING_MAX ==> bindings[i] == Unbound
    {
      this.sup := sup;
      slots := seq(MANIFEST_MAX, _ => Empty);
      bindings := seq(BINDING_MAX, _ => Unbound);
      devices := [];
      new;
      forall u: nat
        ensures !Reaches(slots, u, u)
      {
        if Reaches(slots, u, u) {
          ReachesFromActive(slots, u, u);
        }
      }
    }

    /**
      driver_manager_unregister: refused while the manifest is bound or depended
      on.
     */
    method Unregister(id: int) returns (ok: bool)
      requires Valid()
      modifies this`slots
      ensures Valid()
      ensures ok <==>
        && 1 <= id <= MANIFEST_MAX && old(slots)[id - 1].Filled?
        && NoDependents(old(slots), id - 1)
        && forall k :: 0 <= k < BINDING_MAX && bindings[k].Bound? ==> bindings[k].slot != id - 1
      ensures slots == if ok then old(slots)[id - 1 := Empty] else old(slots)
    {
      hide Acyclic, NoDependents;
      if id <= 0 || id > MANIFEST_MAX || slots[id - 1].Empty? {
        return false;
      }
      var slot := id - 1;
      var index := 0;
      while index < BINDING_MAX
        invariant 0 <= index <= BINDING_MAX
        invariant forall k :: 0 <= k < index && bindings[k].Bound? ==> bindings[k].slot != slot
      {
        if bindings[index].Bound? && bindings[index].slot == slot {
          return false;
        }
        index := index + 1;
      }
      var used := DependedOn(slots, slot);
      if used {
        return false;
      }
      ClearKeepsAcyclic(slots, slot);
      slots := slots[slot := Empty];
      ok := true;
    }

    /** A fresh domain is launched, or destroyed again. */
    method BringUp(index: nat, k: nat, a: StartAnswers, n: nat) returns (up: bool)
      requires Valid() && Civil(a) && index < DOMAIN_MAX
      modifies sup
      ensures Valid() && Grew(old(sup.log), sup.log) && sup.first == old(sup.first)
      ensures Quiet(a) ==> Brought(old(sup.domains), sup.domains, index, a, k, up)
    {
      hide Acyclic, NoneRemoved, DistinctNames, Step, Supervisors.Run, TableOk, Single, Orderly, FreeStopped,
           BindingsOk;
      up := false;
      ghost var t := sup.domains;
      if a.configured(k) {
        sup.Meanwhile(a.others(n), -1);
        RunNone(t);
        StepPhases(sup.domains, StartOp(index, a.launch(k)), -1);
        up := sup.StartDomain(index, a.launch(k));
      }
      if !up {
        ghost var u := sup.domains;
        sup.Meanwhile(a.others(n + 1), -1);
        RunNone(u);
        sup.DestroyDomain(index, a.undo(k));
      }
    }

    /** One turn of the loop of driver_manager_start_device, up to the launch. */
    method TryManifest(device: nat, k: nat, a: StartAnswers, n: nat) returns (up: bool, index: nat)
      requires Valid() && k < |slots| && slots[k].Filled? && Civil(a)
      modifies sup
      ensures Valid() && Grew(old(sup.log), sup.log) && sup.first == old(sup.first)
      ensures up ==> index < DOMAIN_MAX
      ensures Quiet(a) ==> Attempt(old(sup.domains), sup.domains, device, a, k, up, index)
    {
      hide Acyclic, NoneRemoved, DistinctNames, Step, Supervisors.Run, TableOk, Single, Orderly, FreeStopped,
           BindingsOk, Attempt, NewDomain, FirstFree, Brought;
      index := 0;
      ghost var t := sup.domains;
      if !a.admits(k) {
        NotAdmitted(t, device, a, k);
        return false, 0;
      }
      sup.Meanwhile(a.others(n), -1);
      RunNone(t);
      ghost var m, id := slots[k].manifest.domain, sup.nextId;
      var made := sup.CreateDomain(slots[k].manifest.domain, device);
      if made < 0 {
        if Quiet(a) {
          NotCreated(t, device, a, k);
        }
        return false, 0;
      }
      index := made;
      ghost var log := sup.log;
      up := BringUp(index, k, a, n + 1);
      GrewTrans(old(sup.log), log, sup.log);
      if Quiet(a) {
        CreatedAttempt(t, sup.domains, device, a, k, index, m, id, up);
      }
    }

    /** The loop of driver_manager_start_device. */
    method FindManifest(device: nat, a: StartAnswers) returns (up: bool, chosen: nat, index: nat, n: nat)
      requires Valid() && Civil(a) && !Occupied(sup.domains, device)
      modifies sup
      ensures Valid() && Grew(old(sup.log), sup.log) && sup.first == old(sup.first)
      ensures up ==> index < DOMAIN_MAX && chosen < |slots| && slots[chosen].Filled? && a.suits(chosen)
      ensures Quiet(a) ==> Found(slots, bindings, old(sup.domains), sup.domains, a, device, up, chosen, index)
    {
      hide Acyclic, NoneRemoved, DistinctNames, TableOk, Single, Orderly, Supervisors.Run, Standing, Candidate,
           FreeStopped, Found, Attempt, Before;
      up, chosen, index, n := false, 0, 0, 1;
      ghost var t := sup.domains;
      var attempted := seq(MANIFEST_MAX, _ => false);
      ghost var left, clean := set i | 0 <= i < MANIFEST_MAX && !attempted[i], true;
      StandingStart(slots, bindings, t, a, attempted, device);
      while true
        invariant Valid() && Grew(old(sup.log), sup.log) && sup.first == old(sup.first)
        invariant |attempted| == MANIFEST_MAX && forall i :: i in left <==> 0 <= i < MANIFEST_MAX && !attempted[i]
        invariant Quiet(a) ==> Standing(slots, bindings, t, sup.domains, a, attempted, clean, device)
        decreases |left|
      {
        ghost var u, log := sup.domains, sup.log;
        sup.Meanwhile(a.others(n), -1);
        RunNone(u);
        var selected := Select(slots, bindings, sup.domains, attempted, a.suits);
        if selected < 0 {
          if Quiet(a) {
            StandingEnds(slots, bindings, t, u, a, attempted, clean, device);
            FoundNone(slots, bindings, t, u, a, attempted, clean, device);
          }
          return false, 0, 0, n;
        }
        CandidateFilled(slots, bindings, sup.domains, attempted, a.suits, selected);
        var made;
        up, made := TryManifest(device, selected, a, n + 1);
        n := n + 4;
        if up {
          if Quiet(a) {
            StandingWins(slots, bindings, t, u, sup.domains, a, attempted, clean, device, selected, made);
            FoundOne(slots, bindings, t, sup.domains, a, device, selected, made);
          }
          return true, selected, made, n;
        }
        if Quiet(a) {
          StandingFails(slots, bindings, t, u, sup.domains, a, attempted, clean, device, selected, made);
          clean := clean && (Cleans(a, selected) || FirstFree(t) == |t|);
        }
        attempted := attempted[selected := true];
        left := left - {selected};
      }
    }

    /**
      driver_manager_start_device: manifests are tried in order of priority until
      one comes up, which, if nothing interferes, is the same as taking the one
      that wins.  A quarantined device is refused whatever happens meanwhile.
     */
    method StartDevice(device: nat, a: StartAnswers)
      returns (started: bool, ghost free: nat, ghost chosen: nat, ghost index: nat)
      requires Valid() && Civil(a)
      modifies this`bindings, sup
      ensures Valid() && Grew(old(sup.log), sup.log) && sup.first == old(sup.first)
      ensures started ==> FirstUnbound(old(bindings), free) && !BoundTo(old(bindings), device) && index < DOMAIN_MAX
      ensures started ==> chosen < |slots| && slots[chosen].Filled? && a.suits(chosen)
      ensures bindings == if started then old(bindings)[free := Bound(device, chosen, index, true)] else old(bindings)
      ensures Quiet(a) ==> (started <==> Startable(slots, old(bindings), old(sup.domains), device, a))
      ensures Quiet(a) && started ==>
        Wins(slots, old(bindings), old(sup.domains), a, chosen)
        && Launched(old(sup.domains), sup.domains, index, device)
      ensures Quiet(a) && !started ==> Leftover(old(sup.domains), sup.domains)
      ensures forall i: nat :: HeldBy(old(sup.domains), i, device) && !Releases(sup.log[|old(sup.log)|..], i) ==>
        !started
    {
      hide Acyclic, NoneRemoved, DistinctNames, TableOk, Single, Orderly, Supervisors.Run, Wins, Leftover, FreeStopped,
           Launched, Releases, HeldBy, FirstFree;
      free, chosen, index, started := 0, 0, 0, false;
      ghost var t, before := sup.domains, sup.log;
      HeldStays(t, a.others(0), device);
      sup.Meanwhile(a.others(0), -1);
      ghost var log := sup.log;
      RunNone(t);
      SameRefl(t);
      ReleasedThen(before, a.others(0), sup.log);
      if !a.present || BoundTo(bindings, device) || Occupied(sup.domains, device) {
        return;
      }
      var place := 0;
      while place < BINDING_MAX && bindings[place].Bound?
        invariant 0 <= place <= BINDING_MAX && forall i :: 0 <= i < place ==> bindings[i].Bound?
      {
        place := place + 1;
      }
      if place == BINDING_MAX {
        return;
      }
      var up, selected, made, n := FindManifest(device, a);
      GrewTrans(before, log, sup.log);
      if !up {
        return;
      }
      if !a.retained {
        ghost var tried := sup.log;
        UndoLaunch(made, a, n, selected, device, t);
        GrewTrans(before, tried, sup.log);
        return;
      }
      ReleasedThen(before, a.others(0), sup.log);
      free, chosen, index, started := place, selected, made, true;
      bindings := bindings[place := Bound(device, selected, made, true)];
    }

    /**
      driver_manager_start_all: sweeps until a sweep starts nothing.  Call number
      `base + i` of the last sweep asked for device `i`, in vain.
     */
    method StartAll(list: seq<nat>, world: nat -> StartAnswers) returns (started: nat, ghost base: nat)
      requires Valid() && AllCivil(world)
      modifies this`bindings, sup
      ensures Valid() && Grew(old(sup.log), sup.log) && sup.first == old(sup.first)
      ensures Extends(old(bindings), bindings, list)
      ensures started + FreeBindings(bindings) == FreeBindings(old(bindings))
      ensures Calm(world) ==> NothingLeft(slots, bindings, sup.domains, list, |list|, world, base)
      ensures Calm(world) ==> Sustained(old(bindings), bindings, slots, sup.domains)
    {
      hide Acyclic, FreeBindings, BoundTo, Startable, Wins, BindingsOk, DistinctNames, Extends, NoneRemoved, TableOk,
           Single, Orderly, Supervisors.Run, FreeStopped, NothingLeft, Sustained, Leftover, Launched, Quiet, HeldBy,
           Releases;
      started, base := 0, 0;
      var call := 0;
      ExtendsRefl(bindings, list);
      SustainedRefl(bindings, slots, sup.domains);
      while true
        invariant Valid() && Grew(old(sup.log), sup.log) && sup.first == old(sup.first) && slots == old(slots)
        invariant started + FreeBindings(bindings) == FreeBindings(old(bindings))
                  && Extends(old(bindings), bindings, list)
        invariant Calm(world) ==> Sustained(old(bindings), bindings, slots, sup.domains)
        decreases FreeBindings(bindings)
      {
        base := call;
        var progress := 0;
        var index := 0;
        ghost var before := bindings;
        NothingYet(slots, bindings, sup.domains, list, world, base);
        while index < |list|
          invariant Valid() && Grew(old(sup.log), sup.log) && sup.first == old(sup.first) && slots == old(slots)
          invariant 0 <= index <= |list| && call == base + index
          invariant started + FreeBindings(bindings) == FreeBindings(old(bindings))
                    && Extends(old(bindings), bindings, list)
          invariant Calm(world) ==> Sustained(old(bindings), bindings, slots, sup.domains)
          invariant FreeBindings(bindings) + progress == FreeBindings(before)
          invariant progress == 0 && Calm(world) ==> NothingLeft(slots, bindings, sup.domains, list, index, world, base)
        {
          ghost var was, t, log := bindings, sup.domains, sup.log;
          var ok;
          ghost var free, chosen, entry;
          ok, free, chosen, entry := StartDevice(list[index], world(call));
          GrewTrans(old(sup.log), log, sup.log);
          if ok {
            BindTakes(was, free, Bound(list[index], chosen, entry, true));
            ExtendsMore(old(bindings), was, list, free, Bound(list[index], chosen, entry, true));
            if Calm(world) {
              SustainedStart(old(bindings), was, slots, t, sup.domains, world(call), list[index], free, chosen, entry);
            }
            started := started + 1;
            progress := progress + 1;
          } else if Calm(world) {
            LeftoverPersists(t, sup.domains);
            SustainedMore(old(bindings), bindings, slots, t, sup.domains);
            if progress == 0 {
              NothingMore(slots, bindings, t, sup.domains, list, index, world, base);
            }
          }
          call := call + 1;
          index := index + 1;
        }
        if progress == 0 {
          return;
        }
      }
    }

    /**
      driver_manager_register: the first free slot takes the manifest unless it is
      invalid, its name is taken or it would close a cycle, and a rejected
      manifest leaves the table as it was; then the managed devices are swept.
     */
    method Register(manifest: DriverManifest, valid: bool, world: nat -> StartAnswers)
      returns (id: int, ghost base: nat)
      requires Valid() && AllCivil(world)
      modifies this`slots, this`bindings, sup
      ensures Valid() && Grew(old(sup.log), sup.log) && sup.first == old(sup.first)
      ensures id == -1 || 1 <= id <= MANIFEST_MAX
      ensures id == -1 ==> slots == old(slots) && bindings == old(bindings) && sup.log == old(sup.log)
      ensures id > 0 ==> old(slots)[id - 1] == Empty && slots == old(slots)[id - 1 := Filled(manifest)]
      ensures id > 0 ==> forall k :: 0 <= k < id - 1 ==> old(slots)[k].Filled?
      ensures id == -1 <==> !valid || Unwelcome(old(slots), manifest)
      ensures id > 0 ==> Extends(old(bindings), bindings, devices)
      ensures id > 0 && Calm(world) ==> NothingLeft(slots, bindings, sup.domains, devices, |devices|, world, base)
    {
      hide Acyclic, NoneRemoved, TableOk, Single, Orderly, Supervisors.Run, FreeStopped, NothingLeft, Sustained,
           Extends;
      base := 0;
      if !valid || SlotByName(slots, manifest.name) >= 0 {
        return -1, base;
      }
      var index := 0;
      while index < MANIFEST_MAX && slots[index].Filled?
        invariant 0 <= index <= MANIFEST_MAX && forall k :: 0 <= k < index ==> slots[k].Filled?
      {
        index := index + 1;
      }
      if index == MANIFEST_MAX {
        return -1, base;
      }
      slots := slots[index := Filled(manifest)];
      var cycle := DependencyCycle(slots);
      if cycle {
        slots := slots[index := Empty];
        assert slots == old(slots);
        return -1, base;
      }
      id := index + 1;
      var started;
      started, base := StartAll(devices, world);
    }

    /**
      Whatever manager calls are made and whatever the rest of the kernel does in
      between, a quarantined domain that nobody releases stays, alone on its
      device and without a task on it.
     */
    lemma ManagerAbsorbs(k: nat, i: nat)
      requires Valid() && k <= |sup.log| && !Releases(sup.log[k..], i)
      requires var t := Supervisors.Run(sup.first, sup.log[..k]); i < |t| && t[i].active && t[i].phase.Quarantined?
      ensures Sealed(sup.domains, i) && sup.domains[i].device == Supervisors.Run(sup.first, sup.log[..k])[i].device
    {
      hide Supervisors.Run, Orderly, TableOk, Single, Sealed, Acyclic, BindingsOk, DistinctNames;
      assert sup.log[..|sup.log|] == sup.log && sup.log[k..|sup.log|] == sup.log[k..];
      sup.QuarantineHolds(k, |sup.log|, i);
    }

    /** Bindings that were coherent stay so for as long as no recorded call strands one. */
    lemma CoherentSince(k: nat)
      requires Valid() && k <= |sup.log| && Coherent(bindings, Supervisors.Run(sup.first, sup.log[..k]))
      requires Spares(bindings, Supervisors.Run(sup.first, sup.log[..k]), sup.log[k..])
      ensures Coherent(bindings, sup.domains)
    {
      hide Acyclic, NoneRemoved, TableOk, Single, Orderly, FreeStopped, BindingsOk, DistinctNames, Spares, Coherent,
           Supervisors.Run;
      assert sup.log == sup.log[..k] + sup.log[k..];
      RunConcat(sup.first, sup.log[..k], sup.log[k..]);
      CoherentRun(bindings, Supervisors.Run(sup.first, sup.log[..k]), sup.log[k..]);
    }

    // ---- stopping, restarting, removing -----------------------------------

    method FindBinding(device: nat) returns (i: int)
      requires Valid()
      ensures -1 <= i < BINDING_MAX
      ensures i >= 0 ==> bindings[i].Bound? && bindings[i].device == device
      ensures i < 0 ==> !BoundTo(bindings, device)
    {
      hide Acyclic, NoneRemoved, TableOk, Single, Orderly, Supervisors.Run, FreeStopped;
      i := 0;
      while i < BINDING_MAX
        invariant 0 <= i <= BINDING_MAX && forall k :: 0 <= k < i ==>
          !(bindings[k].Bound? && bindings[k].device == device)
      {
        if bindings[i].Bound? && bindings[i].device == device {
          return;
        }
        i := i + 1;
      }
      i := -1;
    }

    /** driver_manager_stop_device: a graceful request where the domain takes one, a stop otherwise. */
    method StopDevice(device: nat, x: Turn, now: u32) returns (found: bool, ghost i: int)
      requires Valid() && AllAmbient(x.others)
      modifies this`bindings, sup
      ensures Valid() && sup.first == old(sup.first)
      ensures found <==> BoundTo(old(bindings), device)
      ensures !found ==> bindings == old(bindings) && sup.log == old(sup.log)
      ensures found ==> 0 <= i < BINDING_MAX && old(bindings)[i].Bound? && old(bindings)[i].device == device
      ensures found ==> bindings == old(bindings)[i := old(bindings)[i].(enabled := false)]
      ensures found ==>
        var e := old(bindings)[i].domain;
        && e < |old(sup.domains)|
        && var graceful := Supervisors.Run(old(sup.domains), x.others)[e].setup.graceful;
           sup.log == old(sup.log) + x.others
             + [if graceful then RequestStopOp(e, now, x.answers) else StopOp(e, x.answers)]
    {
      hide Acyclic, NoneRemoved, TableOk, Single, Orderly, Supervisors.Run, FreeStopped, BindingsOk, DistinctNames;
      var place := FindBinding(device);
      i := place;
      if place < 0 {
        return false, i;
      }
      found := true;
      var b := bindings[place];
      BindingParts(bindings, slots, place);
      bindings := bindings[place := b.(enabled := false)];
      sup.Meanwhile(x.others, -1);
      if sup.domains[b.domain].setup.graceful {
        StepPhases(sup.domains, RequestStopOp(b.domain, now, x.answers), -1);
        sup.Perform(RequestStopOp(b.domain, now, x.answers));
      } else {
        StepPhases(sup.domains, StopOp(b.domain, x.answers), -1);
        var _ := sup.StopDomain(b.domain, x.answers);
      }
    }

    /** driver_manager_restart_device: stop, then start again if the dependencies run. */
    method RestartDevice(device: nat, x: Turn, y: Turn) returns (ok: bool, ghost i: int)
      requires Valid() && AllAmbient(x.others) && AllAmbient(y.others)
      modifies this`bindings, sup
      ensures Valid() && sup.first == old(sup.first) && Grew(old(sup.log), sup.log)
      ensures !BoundTo(old(bindings), device) ==> !ok && bindings == old(bindings) && sup.log == old(sup.log)
      ensures BoundTo(old(bindings), device) ==>
        && 0 <= i < BINDING_MAX && old(bindings)[i].Bound? && old(bindings)[i].device == device
        && bindings == old(bindings)[i := old(bindings)[i].(enabled := ok)]
      ensures BoundTo(old(bindings), device) ==>
        && RestartLaw(slots, old(bindings)[i := old(bindings)[i].(enabled := true)], old(sup.domains), sup.domains,
                      old(bindings)[i], x, y, ok)
    {
      hide Acyclic, NoneRemoved, TableOk, Single, Orderly, Supervisors.Run, FreeStopped, Step, Ready, BindingsOk,
           DistinctNames;
      var place := FindBinding(device);
      i := place;
      if place < 0 {
        return false, i;
      }
      var b := bindings[place];
      BindingParts(bindings, slots, place);
      var was := bindings;
      bindings := was[place := b.(enabled := false)];
      sup.Meanwhile(x.others, -1);
      StepPhases(sup.domains, StopOp(b.domain, x.answers), -1);
      var failed := sup.StopDomain(b.domain, x.answers);
      if failed {
        return false, i;
      }
      bindings := was[place := b.(enabled := true)];
      DomainsInside(bindings, slots);
      sup.Meanwhile(y.others, -1);
      var ready := DependenciesReady(slots, bindings, sup.domains, b.slot);
      if !ready {
        return true, i;
      }
      StepPhases(sup.domains, StartOp(b.domain, y.answers), -1);
      ok := sup.StartDomain(b.domain, y.answers);
      if !ok {
        bindings := was[place := b.(enabled := false)];
      }
    }

    /** driver_domain_remove followed by clear_binding: whatever the answers, no removed domain is left behind. */
    method DropBinding(i: nat, x: Turn, y: Turn) returns (failed: bool)
      requires Valid() && i < BINDING_MAX && bindings[i].Bound? && AllAmbient(x.others) && AllAmbient(y.others)
      modifies this`bindings, sup
      ensures Valid() && sup.first == old(sup.first) && bindings == old(bindings)[i := Unbound]
      ensures var e := old(bindings)[i].domain;
        && sup.log == old(sup.log) + x.others + [RemoveOp(e, x.answers)] + y.others + [DestroyOp(e, y.answers)]
        && sup.domains == DroppedTable(old(sup.domains), e, x, y) && Refused(sup.domains[e])
        && e < |old(sup.domains)| && (failed <==> RemovalFails(old(sup.domains), e, x))
    {
      hide Acyclic, NoneRemoved, TableOk, Single, Orderly, Supervisors.Run, FreeStopped, Step;
      var e := bindings[i].domain;
      sup.Meanwhile(x.others, -1);
      failed := sup.RemoveDomain(e, x.answers);
      sup.Meanwhile(y.others, e);
      sup.DestroyDomain(e, y.answers);
      bindings := bindings[i := Unbound];
    }

    /** driver_manager_device_removed. */
    method DeviceRemoved(device: nat, x: Turn, y: Turn) returns (found: bool, failed: bool, ghost i: int)
      requires Valid() && AllAmbient(x.others) && AllAmbient(y.others)
      modifies this`bindings, this`devices, sup
      ensures Valid() && sup.first == old(sup.first) && Grew(old(sup.log), sup.log)
      ensures !BoundTo(bindings, device) && forall d: nat :: d != device ==>
        (BoundTo(bindings, d) <==> BoundTo(old(bindings), d))
      ensures devices == WithoutFirst(old(devices), device)
      ensures found <==> BoundTo(old(bindings), device) || device in old(devices)
      ensures !BoundTo(old(bindings), device) ==> sup.log == old(sup.log) && !failed
      ensures BoundTo(old(bindings), device) ==>
        && 0 <= i < BINDING_MAX && old(bindings)[i].Bound? && old(bindings)[i].device == device
        && bindings == old(bindings)[i := Unbound]
        && sup.domains == DroppedTable(old(sup.domains), old(bindings)[i].domain, x, y)
        && old(bindings)[i].domain < |old(sup.domains)|
        && (failed <==> RemovalFails(old(sup.domains), old(bindings)[i].domain, x))
    {
      hide Acyclic, NoneRemoved, TableOk, Single, Orderly, Supervisors.Run, FreeStopped, Step, RemovalFails,
           DroppedTable;
      failed := false;
      var place := FindBinding(device);
      i := place;
      if place >= 0 {
        BindingParts(bindings, slots, place);
        failed := DropBinding(place, x, y);
        DroppedOne(old(bindings), place);
      }
      found := place >= 0 || device in devices;
      devices := WithoutFirst(devices, device);
    }

    /** The first half of driver_manager_set_devices: bindings of devices that are gone are dropped. */
    method DropMissing(list: seq<nat>, xs: nat -> Turn, ys: nat -> Turn)
      returns (failed: bool, ghost trace: seq<Table>)
      requires Valid() && forall n: nat :: AllAmbient(xs(n).others) && AllAmbient(ys(n).others)
      modifies this`bindings, sup
      ensures Valid() && sup.first == old(sup.first) && Grew(old(sup.log), sup.log)
      ensures forall i :: 0 <= i < BINDING_MAX ==>
        bindings[i] == if Missing(old(bindings)[i], list) then Unbound else old(bindings)[i]
      ensures DropTrace(trace, old(bindings), list, xs, ys) && |trace| == BINDING_MAX + 1
      ensures trace[0] == old(sup.domains) && trace[BINDING_MAX] == sup.domains
      ensures failed <==> SomeFailed(trace, old(bindings), list, xs)
    {
      hide Acyclic, NoneRemoved, TableOk, Single, Orderly, Supervisors.Run, FreeStopped, Step, DistinctNames,
           DroppedTable, RemovalFails, DropTrace, SomeFailed, BindingsOk;
      failed, trace := false, [sup.domains];
      NoDrops(sup.domains, bindings, list, xs, ys);
      var i := 0;
      while i < BINDING_MAX
        invariant Valid() && 0 <= i <= BINDING_MAX && sup.first == old(sup.first) && Grew(old(sup.log), sup.log)
        invariant forall k :: 0 <= k < BINDING_MAX ==>
          bindings[k] == if k < i && Missing(old(bindings)[k], list) then Unbound else old(bindings)[k]
        invariant |trace| == i + 1 && trace[0] == old(sup.domains) && trace[i] == sup.domains
        invariant DropTrace(trace, old(bindings), list, xs, ys)
        invariant failed <==> SomeFailed(trace, old(bindings), list, xs)
      {
        ghost var log, t := sup.log, sup.domains;
        DomainsInside(bindings, slots);
        if bindings[i].Bound? && bindings[i].device !in list {
          var bad := DropBinding(i, xs(i), ys(i));
          failed := failed || bad;
          DropGrows(log, sup.log, xs(i), ys(i), old(bindings)[i].domain);
          GrewTrans(old(sup.log), log, sup.log);
        }
        DropVisit(trace, old(bindings), list, xs, ys, sup.domains);
        trace := trace + [sup.domains];
        i := i + 1;
      }
    }

    /** driver_manager_set_devices, once the new devices are retained. */
    method SetDevices(list: seq<nat>, xs: nat -> Turn, ys: nat -> Turn, world: nat -> StartAnswers)
      returns (failed: bool, started: nat, ghost base: nat, ghost trace: seq<Table>)
      requires Valid() && AllCivil(world) && forall n: nat :: AllAmbient(xs(n).others) && AllAmbient(ys(n).others)
      modifies this`bindings, this`devices, sup
      ensures Valid() && sup.first == old(sup.first) && Grew(old(sup.log), sup.log) && devices == list
      ensures forall i :: 0 <= i < BINDING_MAX && bindings[i].Bound? ==> bindings[i].device in list
      ensures forall i :: 0 <= i < BINDING_MAX && old(bindings)[i].Bound? && old(bindings)[i].device in list ==>
        bindings[i] == old(bindings)[i]
      ensures DropTrace(trace, old(bindings), list, xs, ys) && |trace| == BINDING_MAX + 1
      ensures trace[0] == old(sup.domains) && (failed <==> SomeFailed(trace, old(bindings), list, xs))
      ensures Calm(world) ==> NothingLeft(slots, bindings, sup.domains, list, |list|, world, base)
    {
      hide Acyclic, NoneRemoved, TableOk, Single, Orderly, Supervisors.Run, FreeStopped, Step, DistinctNames,
           BindingsOk, NothingLeft, Sustained, DropTrace, SomeFailed;
      failed, trace := DropMissing(list, xs, ys);
      ghost var log := sup.log;
      devices := list;
      started, base := StartAll(list, world);
      GrewTrans(old(sup.log), log, sup.log);
    }

    /** driver_manager_task_exiting: a clean exit disables the binding of the task. */
    method TaskExiting(pid: int, code: int)
      requires Valid()
      modifies this`bindings
      ensures Valid()
      ensures forall i :: 0 <= i < BINDING_MAX ==>
        var b := old(bindings)[i];
        bindings[i] == if pid != 0 && code == 0 && RunsTask(b, sup.domains, pid) then b.(enabled := false) else b
    {
      hide Acyclic, NoneRemoved, TableOk, Single, Orderly, Supervisors.Run, FreeStopped, Step, DistinctNames;
      if pid == 0 || code != 0 {
        return;
      }
      var i := 0;
      while i < BINDING_MAX
        invariant Valid() && 0 <= i <= BINDING_MAX
        invariant forall k :: 0 <= k < BINDING_MAX ==>
          var b := old(bindings)[k];
          bindings[k] == if k < i && RunsTask(b, sup.domains, pid) then b.(enabled := false) else b
      {
        var b := bindings[i];
        if RunsTask(b, sup.domains, pid) {
          bindings := bindings[i := b.(enabled := false)];
        }
        i := i + 1;
      }
    }

    /** driver_manager_tick: stops what lost a dependency and starts what regained all of them; a failure disables. */
    method TickBindings(turns: nat -> Turn) returns (ghost states: seq<(seq<Binding>, Table)>)
      requires Valid() && forall n: nat :: AllAmbient(turns(n).others)
      modifies this`bindings, sup
      ensures Valid() && sup.first == old(sup.first) && Grew(old(sup.log), sup.log)
      ensures forall i :: 0 <= i < BINDING_MAX ==> AtMostDisabled(old(bindings)[i], bindings[i])
      ensures TickTrace(slots, states, turns) && |states| == BINDING_MAX + 1
      ensures states[0] == (old(bindings), old(sup.domains)) && states[BINDING_MAX] == (bindings, sup.domains)
    {
      hide Acyclic, NoneRemoved, TableOk, Single, Orderly, Supervisors.Run, FreeStopped, Step, DistinctNames, Ready,
           TurnLaw, BindingsOk;
      states := [(bindings, sup.domains)];
      var i := 0;
      while i < BINDING_MAX
        invariant Valid() && 0 <= i <= BINDING_MAX && sup.first == old(sup.first) && Grew(old(sup.log), sup.log)
        invariant forall k :: i <= k < BINDING_MAX ==> bindings[k] == old(bindings)[k]
        invariant forall k :: 0 <= k < BINDING_MAX ==> AtMostDisabled(old(bindings)[k], bindings[k])
        invariant |states| == i + 1 && states[0] == (old(bindings), old(sup.domains))
        invariant states[i] == (bindings, sup.domains) && TickTrace(slots, states, turns)
      {
        ghost var log, before := sup.log, states;
        TickOne(i, turns(i));
        states := before + [(bindings, sup.domains)];
        TickVisit(slots, before, (bindings, sup.domains), turns);
        GrewTrans(old(sup.log), log, sup.log);
        i := i + 1;
      }
    }

    /** One turn of the loop of driver_manager_tick. */
    method TickOne(i: nat, x: Turn)
      requires Valid() && i < BINDING_MAX && AllAmbient(x.others)
      modifies this`bindings, sup
      ensures Valid() && sup.first == old(sup.first) && Grew(old(sup.log), sup.log)
      ensures TurnLaw(slots, old(bindings), bindings, old(sup.domains), sup.domains, i, x)
      ensures bindings == old(bindings)[i := bindings[i]] && AtMostDisabled(old(bindings)[i], bindings[i])
    {
      hide Acyclic, NoneRemoved, TableOk, Single, Orderly, Supervisors.Run, FreeStopped, Step, DistinctNames, Ready,
           BindingsOk;
      var b := bindings[i];
      if b.Unbound? || !b.enabled {
        return;
      }
      BindingParts(bindings, slots, i);
      DomainsInside(bindings, slots);
      sup.Meanwhile(x.others, -1);
      var ready := DependenciesReady(slots, bindings, sup.domains, b.slot);
      if !ready && sup.domains[b.domain].phase.Running? {
        StoppedEntry(sup.domains, b.domain, x.answers);
        StepPhases(sup.domains, StopOp(b.domain, x.answers), -1);
        var failed := sup.StopDomain(b.domain, x.answers);
        if failed {
          bindings := bindings[i := b.(enabled := false)];
        }
      } else if ready && sup.domains[b.domain].phase.Stopped? {
        StartedEntry(sup.domains, b.domain, x.answers);
        StepPhases(sup.domains, StartOp(b.domain, x.answers), -1);
        var ok := sup.StartDomain(b.domain, x.answers);
        if !ok {
          bindings := bindings[i := b.(enabled := false)];
        }
      }
    }

    /** The device could not be retained after all: the new domain is destroyed. */
    method UndoLaunch(index: nat, a: StartAnswers, n: nat, k: nat, device: nat, ghost t: Table)
      requires Valid() && Civil(a) && index < DOMAIN_MAX
      modifies sup
      ensures Valid() && Grew(old(sup.log), sup.log) && sup.first == old(sup.first)
      ensures Quiet(a) && Launched(t, old(sup.domains), index, device) ==> Leftover(t, sup.domains)
    {
      hide Acyclic, NoneRemoved, DistinctNames, TableOk, Single, Orderly, Supervisors.Run, Step, FreeStopped,
           BindingsOk;
      ghost var before := sup.domains;
      RunNone(before);
      sup.Meanwhile(a.others(n), -1);
      ghost var w := sup.domains;
      sup.DestroyDomain(index, a.undo(k));
      DestroyedEntry(w, index, a.undo(k));
    }
  }
}
