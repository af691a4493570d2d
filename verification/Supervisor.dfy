/** Driver domains: launch, crash recovery, fallback and quarantine (src/driver/driver_supervisor.c). */
module Supervisors {
  import opened Bytes

  const DOMAIN_MAX := 16
  const STOP_GRACE_TICKS := 32
  const IMAGE_MAX := 16
  const REPEAT_LIMIT := 2
  const REPEAT_WINDOW := 64
  const REPEAT_LIMIT_MAX := 1024
  const REPEAT_WINDOW_MAX := 0x7FFF_FFFF

  datatype Phase = Stopped | Running | Backoff | Failed | Quarantined | Stopping | Removed

  /** What killed a task; `fault` stands for vector, error, rip and address together. */
  datatype Crash = NoCrash | Exit(code: int) | UserFault(fault: nat, code: int) | IommuFault

  datatype Profile = Profile(image: nat, capabilities: set<nat>, argument: nat)

  /** What create and the set_recovery calls fix before the first launch. */
  datatype Setup = Setup(
    restartOnFailure: bool, maxRestarts: u32, backoffTicks: u32, graceful: bool,
    fallback: Profile, fallbackEnabled: bool, onCircuit: bool, onLimit: bool, selectorEnabled: bool, selector: Crash,
    repeatLimit: u32, repeatWindow: u32)

  datatype CrashLog = CrashLog(last: Crash, pending: Crash, pendingGeneration: u32, repeatCount: u32,
    repeatDeadline: u32)

  /** History since creation: capabilities given, launches made by ticks, fallback activations. */
  datatype Past = Past(granted: set<nat>, relaunches: nat, activations: nat)

  /** One entry of the domain table. */
  datatype Domain = Domain(
    active: bool, id: u32, device: nat, phase: Phase, pid: int, generation: u32, profile: Profile,
    restartCount: u32, restartDeadline: u32, fallbackUsed: bool, stopDeadline: u32, stopAck: bool,
    setup: Setup, log: CrashLog, past: Past)

  /** How the foreign calls of one operation turned out. */
  datatype Answers = Answers(
    spawn: int, issued: bool, tornDown: bool, terminated: bool, quiesced: bool, released: bool, signalled: bool,
      pciMatches: bool)

  function Add32(a: u32, b: nat): u32
  {
    (a + b) % U32_LIMIT
  }

  /** The signed comparison of two tick counts: `deadline` has come. */
  predicate Due(ticks: u32, deadline: u32)
  {
    (ticks - deadline) % U32_LIMIT < 0x8000_0000
  }

  predicate Live(phase: Phase)
  {
    phase.Running? || phase.Stopping?
  }

  // ---- pieces -------------------------------------------------------------

  /** launch. */
  function Launch(d: Domain, a: Answers): (r: (Domain, bool))
  {
    if a.spawn <= 0 then (d, false)
    else
      var next := if d.generation + 1 == U32_LIMIT then 1 else d.generation + 1;
      var e := d.(pid := a.spawn, log := d.log.(pending := NoCrash), stopDeadline := 0, stopAck := false,
        generation := next);
      if !a.issued then (e.(pid := -1), false) else (e.(phase := Running), true)
  }

  /** recovery_fallback_activate may proceed, for the crash circuit or for the restart limit. */
  predicate FallbackFits(s: Setup, used: bool, circuit: bool, crash: Crash, a: Answers)
  {
    && s.fallbackEnabled && !used && (if circuit then s.onCircuit else s.onLimit)
    && (s.selectorEnabled ==> circuit && crash == s.selector && a.pciMatches)
  }

  /** recovery_fallback_activate. */
  function Activate(d: Domain, ticks: u32): Domain
  {
    d.(profile := d.setup.fallback, fallbackUsed := true, log := d.log.(repeatCount := 0, repeatDeadline := 0),
       restartDeadline := Add32(ticks, d.setup.backoffTicks), phase := Backoff,
         past := d.past.(activations := d.past.activations + 1))
  }

  /** crash_circuit_open: the log afterwards, and the verdict. */
  function Circuit(log: CrashLog, s: Setup, crash: Crash, ticks: u32): (r: (CrashLog, bool))
  {
    if !crash.UserFault? then (log.(repeatCount := 0, repeatDeadline := 0), false)
    else
      var next := if log.repeatCount != 0 && !Due(ticks, log.repeatDeadline) && log.last == crash
                  then log.(repeatCount := Add32(log.repeatCount, 1))
                  else log.(repeatCount := 1, repeatDeadline := Add32(ticks, s.repeatWindow));
      (next, next.repeatCount >= s.repeatLimit)
  }

  /** crash_passport_for_death. */
  function CrashOf(d: Domain, code: int): Crash
  {
    if code == 0 then NoCrash
    else if d.log.pending.UserFault? && d.log.pendingGeneration == d.generation then d.log.pending.(code := code)
    else Exit(code)
  }

  /** What becomes of a torn-down domain whose running task crashed. */
  function Recover(d: Domain, open: bool, crash: Crash, ticks: u32, a: Answers): Domain
  {
    if open then
      if FallbackFits(d.setup, d.fallbackUsed, true, crash, a) then Activate(d, ticks)
        else d.(restartDeadline := 0, phase := Failed)
    else if !d.setup.restartOnFailure then d.(phase := Failed)
    else if d.restartCount >= d.setup.maxRestarts then
      if FallbackFits(d.setup, d.fallbackUsed, false, crash, a) then Activate(d, ticks) else d.(phase := Failed)
    else
      d.(restartCount := d.restartCount + 1,
         restartDeadline := Add32(ticks, d.setup.backoffTicks * (d.restartCount + 1)), phase := Backoff)
  }

  /** driver_supervisor_task_died, for the domain whose task it was. */
  function Died(d: Domain, code: int, ticks: u32, a: Answers): Domain
  {
    var crash := CrashOf(d, code);
    var (seen, open) := if code != 0 then Circuit(d.log.(pending := NoCrash), d.setup, crash, ticks)
      else (d.log.(pending := NoCrash), false);
    var log := if code != 0 then seen.(last := crash) else seen;
    var e := d.(log := log, pid := -1, stopDeadline := 0, stopAck := false);
    if !a.tornDown then e.(phase := Quarantined)
    else if d.phase.Stopping? then e.(phase := if code == 0 && d.stopAck then Stopped else Failed)
    else if code == 0 then e.(log := e.log.(repeatCount := 0, repeatDeadline := 0), phase := Stopped)
    else Recover(e, open, crash, ticks, a)
  }

  /** driver_supervisor_tick, for one domain. */
  function Ticked(d: Domain, ticks: u32, a: Answers): Domain
  {
    if d.phase.Stopping? && Due(ticks, d.stopDeadline) then
      d.(pid := -1, stopDeadline := 0, stopAck := false,
         phase := if !a.tornDown || (d.pid > 0 && !a.terminated) then Quarantined else Stopped)
    else if d.phase.Backoff? && Due(ticks, d.restartDeadline) then
      var (e, ok) := Launch(d.(past := d.past.(relaunches := d.past.relaunches + 1)), a);
      if ok then e else e.(phase := Failed)
    else d
  }

  /** driver_domain_start. */
  function Start(d: Domain, a: Answers): Domain
  {
    if !d.phase.Stopped? then d
    else
      var (e, ok) := Launch(d, a);
      if ok then e else e.(phase := Failed)
  }

  /** driver_domain_stop: the domain it leaves, and whether it failed. */
  function Stop(d: Domain, a: Answers): (r: (Domain, bool))
  {
    if d.phase.Quarantined? then (d, true)
    else
      var failed := Live(d.phase) && (!a.tornDown || (d.pid > 0 && !a.terminated));
      (d.(phase := if failed then Quarantined else Stopped, pid := if Live(d.phase) then -1 else d.pid,
          restartDeadline := 0, stopDeadline := 0, stopAck := false), failed)
  }

  /** driver_domain_remove. */
  function Remove(d: Domain, a: Answers): Domain
  {
    var (e, failed) := Stop(d, a);
    e.(phase := if failed || !a.quiesced then Quarantined else Removed)
  }

  /** driver_domain_destroy. */
  function Destroy(d: Domain, a: Answers): Domain
  {
    if d.phase.Quarantined? then d
    else
      var (e, failed) := Stop(d, a);
      if failed then e else if !a.released then e.(phase := Quarantined)
        else e.(active := false, id := 0, device := 0, pid := -1)
  }

  /** driver_domain_admin_release. */
  function AdminRelease(d: Domain, a: Answers): Domain
  {
    if d.phase.Quarantined? then Destroy(d.(phase := Stopped), a) else d
  }

  /** driver_domain_quarantine. */
  function Quarantine(d: Domain): Domain
  {
    d.(phase := Quarantined, pid := if Live(d.phase) then -1 else d.pid,
       restartDeadline := 0, stopDeadline := 0, stopAck := false)
  }

  /** driver_domain_request_stop and its acknowledgement. */
  function RequestStop(d: Domain, now: u32, a: Answers): Domain
  {
    if d.phase.Running? && d.setup.graceful && a.signalled then
      d.(phase := Stopping, stopDeadline := Add32(now, STOP_GRACE_TICKS), stopAck := false)
    else d
  }

  function StopAck(d: Domain): Domain
  {
    if d.phase.Stopping? then d.(stopAck := true) else d
  }

  /** driver_domain_set_recovery_fallback: only before the first launch, and never with more capabilities. */
  function SetFallback(d: Domain, p: Profile): Domain
  {
    if d.phase.Stopped? && d.generation == 0 && p.image < IMAGE_MAX && p.capabilities <= d.profile.capabilities
       && p != d.profile then
      d.(fallbackUsed := false,
         setup := d.setup.(fallback := p, selectorEnabled := false, fallbackEnabled := true, onCircuit := true,
           onLimit := false))
    else d
  }

  /** driver_domain_set_recovery_fallback_triggers. */
  function SetTriggers(d: Domain, onCircuit: bool, onLimit: bool): Domain
  {
    if d.phase.Stopped? && d.generation == 0 && d.setup.fallbackEnabled && (onCircuit || onLimit) then
      d.(setup := d.setup.(onCircuit := onCircuit, onLimit := onLimit))
    else d
  }

  /** driver_domain_set_recovery_fallback_selector. */
  function SetSelector(d: Domain, selector: Crash): Domain
  {
    if d.phase.Stopped? && d.generation == 0 && d.setup.fallbackEnabled && d.setup.onCircuit && selector.UserFault? then
      d.(setup := d.setup.(selector := selector, selectorEnabled := true))
    else d
  }

  /** driver_domain_set_crash_circuit_policy. */
  function SetPolicy(d: Domain, limit: u32, window: u32): Domain
  {
    if d.phase.Stopped? && d.generation == 0 && 0 < limit <= REPEAT_LIMIT_MAX && 0 < window <= REPEAT_WINDOW_MAX then
      d.(setup := d.setup.(repeatLimit := limit, repeatWindow := window))
    else d
  }

  /** driver_supervisor_report_user_fault and driver_supervisor_report_iommu_fault. */
  function ReportFault(d: Domain, fault: nat): Domain
  {
    if d.phase.Running? then d.(log := d.log.(pending := UserFault(fault, 0), pendingGeneration := d.generation)) else d
  }

  function ReportIommu(d: Domain): Domain
  {
    if Live(d.phase)
      then d.(log := d.log.(pending := NoCrash, last := IommuFault, repeatCount := 0, repeatDeadline := 0)) else d
  }

  // ---- one domain over its life -------------------------------------------

  function One(b: bool): nat
  {
    if b then 1 else 0
  }

  /** What every step keeps of an active domain. */
  ghost predicate DomainOk(d: Domain)
  {
    && (d.pid > 0 <==> Live(d.phase))
    && d.profile.capabilities <= d.past.granted
       && (d.setup.fallbackEnabled ==> d.setup.fallback.capabilities <= d.past.granted)
    && d.restartCount <= d.setup.maxRestarts
    && d.past.relaunches + One(d.phase.Backoff?) <= d.restartCount + One(d.fallbackUsed)
    && d.past.activations == One(d.fallbackUsed)
    && (d.generation == 0 ==>
      !Live(d.phase) && !d.phase.Backoff? && d.restartCount == 0 && !d.fallbackUsed && d.past.relaunches == 0)
  }

  /** So a tick relaunches at most max_restarts + 1 times, and the fallback is put in place at most once. */
  lemma RunBound(d: Domain)
    requires DomainOk(d)
    ensures d.past.relaunches <= d.setup.maxRestarts + 1 && d.past.activations <= 1
            && d.profile.capabilities <= d.past.granted
    ensures d.pid > 0 <==> d.phase.Running? || d.phase.Stopping?
  {
  }

  /** A launch from a phase that owes no relaunch. */
  lemma LaunchOk(d: Domain, a: Answers)
    requires DomainOk(d.(phase := Stopped)) && (d.phase.Stopped? || d.phase.Backoff?) && d.pid <= 0
    ensures var (e, ok) := Launch(d, a); DomainOk(if ok then e else e.(phase := Failed))
  {
  }

  lemma DiedOk(d: Domain, code: int, ticks: u32, a: Answers)
    requires DomainOk(d) && Live(d.phase)
    ensures DomainOk(Died(d, code, ticks, a))
  {
    hide Due, Add32, Circuit, CrashOf;
  }

  lemma TickedOk(d: Domain, ticks: u32, a: Answers)
    requires DomainOk(d)
    ensures DomainOk(Ticked(d, ticks, a))
  {
    hide Due, Launch;
    if d.phase.Backoff? {
      LaunchOk(d.(past := d.past.(relaunches := d.past.relaunches + 1)), a);
    }
  }

  lemma StopOk(d: Domain, a: Answers)
    requires DomainOk(d)
    ensures DomainOk(Stop(d, a).0) && Stop(d, a).0.phase in {Quarantined, Stopped}
  {
  }

  /** The phases that owe nothing and hold no task can be exchanged freely. */
  lemma RestingOk(d: Domain, phase: Phase)
    requires DomainOk(d) && d.phase in {Stopped, Quarantined, Failed, Removed}
             && phase in {Stopped, Quarantined, Failed, Removed}
    ensures DomainOk(d.(phase := phase))
  {
  }

  lemma RemoveOk(d: Domain, a: Answers)
    requires DomainOk(d)
    ensures DomainOk(Remove(d, a))
  {
    hide DomainOk, Stop;
    StopOk(d, a);
    RestingOk(Stop(d, a).0, Quarantined);
    RestingOk(Stop(d, a).0, Removed);
  }

  lemma DestroyOk(d: Domain, a: Answers)
    requires DomainOk(d)
    ensures DomainOk(Destroy(d, a))
  {
    hide DomainOk, Stop;
    StopOk(d, a);
    RestingOk(Stop(d, a).0, Quarantined);
    ClearedOk(Stop(d, a).0);
  }

  lemma ClearedOk(d: Domain)
    requires DomainOk(d) && d.phase in {Stopped, Quarantined}
    ensures DomainOk(d.(active := false, id := 0, device := 0, pid := -1))
  {
  }

  lemma ReleaseOk(d: Domain, a: Answers)
    requires DomainOk(d)
    ensures DomainOk(AdminRelease(d, a))
  {
    hide DomainOk, Destroy;
    if d.phase.Quarantined? {
      RestingOk(d, Stopped);
      DestroyOk(d.(phase := Stopped), a);
    }
  }

  lemma QuarantineOk(d: Domain)
    requires DomainOk(d)
    ensures DomainOk(Quarantine(d))
  {
  }

  lemma SetupOk(d: Domain, p: Profile, x: bool, y: bool, c: Crash, f: nat, limit: u32, window: u32)
    requires DomainOk(d)
    ensures DomainOk(SetPolicy(d, limit, window)) && DomainOk(SetFallback(d, p)) && DomainOk(SetTriggers(d, x, y))
            && DomainOk(SetSelector(d, c))
    ensures DomainOk(ReportFault(d, f)) && DomainOk(ReportIommu(d)) && DomainOk(StopAck(d))
  {
  }

  lemma StartOk(d: Domain, now: u32, a: Answers)
    requires DomainOk(d)
    ensures DomainOk(Start(d, a)) && DomainOk(RequestStop(d, now, a))
  {
    hide Add32;
  }

  // ---- the table ----------------------------------------------------------

  type Table = seq<Domain>

  /** What create is told. */
  datatype Manifest = Manifest(profile: Profile, restartOnFailure: bool, maxRestarts: u32, backoffTicks: u32,
    graceful: bool)

  function NewDomain(m: Manifest, id: u32, device: nat): Domain
  {
    Domain(true, id, device, Stopped, -1, 0, m.profile, 0, 0, false, 0, false,
           Setup(m.restartOnFailure, m.maxRestarts, m.backoffTicks, m.graceful, Profile(0, {}, 0), false, true, false,
             false, NoCrash,
                 REPEAT_LIMIT, REPEAT_WINDOW),
           CrashLog(NoCrash, NoCrash, 0, 0, 0), Past(m.profile.capabilities, 0, 0))
  }

  /** driver_domain_for_device finds it: a domain on the device that has not been removed. */
  predicate Occupies(d: Domain, device: nat)
  {
    d.active && d.device == device && !d.phase.Removed?
  }

  predicate Occupied(t: Table, device: nat)
  {
    exists i :: 0 <= i < |t| && Occupies(t[i], device)
  }

  datatype Op =
    | Create(manifest: Manifest, id: u32, device: nat)
    | StartOp(index: nat, answers: Answers)
    | StopOp(index: nat, answers: Answers)
    | RemoveOp(index: nat, answers: Answers)
    | DestroyOp(index: nat, answers: Answers)
    | ReleaseOp(index: nat, answers: Answers)
    | QuarantineOp(index: nat)
    | RequestStopOp(index: nat, now: u32, answers: Answers)
    | StopAckOp(index: nat)
    | FallbackOp(index: nat, profile: Profile)
    | TriggersOp(index: nat, onCircuit: bool, onLimit: bool)
    | SelectorOp(index: nat, selector: Crash)
    | PolicyOp(index: nat, limit: u32, window: u32)
    | FaultOp(index: nat, fault: nat)
    | IommuOp(index: nat)
    | DiedOp(pid: int, code: int, ticks: u32, all: nat -> Answers)
    | TickOp(ticks: u32, all: nat -> Answers)

  predicate OnOne(op: Op)
  {
    !op.Create? && !op.DiedOp? && !op.TickOp?
  }

  /** The operation on one active domain. */
  function StepOne(d: Domain, op: Op): Domain
    requires OnOne(op)
  {
    match op
    case StartOp(_, a) => Start(d, a)
    case StopOp(_, a) => Stop(d, a).0
    case RemoveOp(_, a) => Remove(d, a)
    case DestroyOp(_, a) => Destroy(d, a)
    case ReleaseOp(_, a) => AdminRelease(d, a)
    case QuarantineOp(_) => if d.phase.Quarantined? then d else Quarantine(d)
    case RequestStopOp(_, now, a) => RequestStop(d, now, a)
    case StopAckOp(_) => StopAck(d)
    case FallbackOp(_, p) => SetFallback(d, p)
    case TriggersOp(_, x, y) => SetTriggers(d, x, y)
    case SelectorOp(_, c) => SetSelector(d, c)
    case PolicyOp(_, limit, window) => SetPolicy(d, limit, window)
    case FaultOp(_, f) => ReportFault(d, f)
    case IommuOp(_) => ReportIommu(d)
  }

  predicate DiesOf(d: Domain, pid: int)
  {
    d.active && Live(d.phase) && d.pid == pid
  }

  /** The first free entry, or the table's length. */
  function FirstFree(t: Table): (i: nat)
    ensures i <= |t| && (i < |t| ==> !t[i].active) && forall k :: 0 <= k < i ==> t[k].active
  {
    if t == [] || !t[0].active then 0 else 1 + FirstFree(t[1..])
  }

  function Step(t: Table, op: Op): (r: Table)
    ensures |r| == |t|
  {
    match op
    case Create(m, id, device) =>
      if Occupied(t, device) || FirstFree(t) == |t| then t else t[FirstFree(t) := NewDomain(m, id, device)]
    case DiedOp(pid, code, ticks, all) =>
      seq(|t|, i requires 0 <= i < |t| => if DiesOf(t[i], pid) then Died(t[i], code, ticks, all(i)) else t[i])
    case TickOp(ticks, all) =>
      seq(|t|, i requires 0 <= i < |t| => if t[i].active then Ticked(t[i], ticks, all(i)) else t[i])
    case _ => if op.index < |t| && t[op.index].active then t[op.index := StepOne(t[op.index], op)] else t
  }

  ghost predicate TableOk(t: Table)
  {
    forall i :: 0 <= i < |t| && t[i].active ==> DomainOk(t[i])
  }

  lemma OneOk(d: Domain, op: Op)
    requires OnOne(op) && DomainOk(d)
    ensures DomainOk(StepOne(d, op))
  {
    hide DomainOk, Start, Stop, Remove, Destroy, AdminRelease, Quarantine, RequestStop, StopAck, SetFallback,
         SetTriggers, SetSelector, SetPolicy, ReportFault, ReportIommu;
    match op
    case StartOp(_, a) => StartOk(d, 0, a);
    case StopOp(_, a) => StopOk(d, a);
    case RemoveOp(_, a) => RemoveOk(d, a);
    case DestroyOp(_, a) => DestroyOk(d, a);
    case ReleaseOp(_, a) => ReleaseOk(d, a);
    case QuarantineOp(_) => QuarantineOk(d);
    case RequestStopOp(_, now, a) => StartOk(d, now, a);
    case StopAckOp(_) => SetupOk(d, d.profile, false, false, NoCrash, 0, 0, 0);
    case FallbackOp(_, p) => SetupOk(d, p, false, false, NoCrash, 0, 0, 0);
    case TriggersOp(_, x, y) => SetupOk(d, d.profile, x, y, NoCrash, 0, 0, 0);
    case SelectorOp(_, c) => SetupOk(d, d.profile, false, false, c, 0, 0, 0);
    case PolicyOp(_, limit, window) => SetupOk(d, d.profile, false, false, NoCrash, 0, limit, window);
    case FaultOp(_, f) => SetupOk(d, d.profile, false, false, NoCrash, f, 0, 0);
    case IommuOp(_) => SetupOk(d, d.profile, false, false, NoCrash, 0, 0, 0);
  }

  lemma NewDomainOk(m: Manifest, id: u32, device: nat)
    ensures DomainOk(NewDomain(m, id, device))
  {
  }

  lemma StepOk(t: Table, op: Op)
    requires TableOk(t)
    ensures TableOk(Step(t, op))
  {
    hide DomainOk, StepOne, Died, Ticked, NewDomain;
    var r := Step(t, op);
    forall i | 0 <= i < |r| && r[i].active
      ensures DomainOk(r[i])
    {
      match op
      case Create(m, id, device) => NewDomainOk(m, id, device);
      case DiedOp(pid, code, ticks, all) => if DiesOf(t[i], pid) { DiedOk(t[i], code, ticks, all(i)); }
      case TickOp(ticks, all) => if t[i].active { TickedOk(t[i], ticks, all(i)); }
      case _ => if i == op.index && t[i].active { OneOk(t[i], op); }
    }
  }

  function Run(t: Table, ops: seq<Op>): (r: Table)
    ensures |r| == |t|
    decreases |ops|
  {
    if ops == [] then t else Run(Step(t, ops[0]), ops[1..])
  }

  /** The bounds hold in every state of every run. */
  lemma {:induction false} RunsOk(t: Table, ops: seq<Op>)
    requires TableOk(t)
    ensures TableOk(Run(t, ops))
    decreases |ops|
  {
    if ops != [] {
      StepOk(t, ops[0]);
      RunsOk(Step(t, ops[0]), ops[1..]);
    }
  }

  // ---- quarantine ---------------------------------------------------------

  /** At most one domain occupies a device. */
  ghost predicate OnePerDevice(t: Table)
  {
    forall i, j :: 0 <= i < j < |t| && t[i].active && t[j].active && !t[i].phase.Removed? && !t[j].phase.Removed? ==>
      t[i].device != t[j].device
  }

  /** The calls that bring a removed domain back to occupying its device. */
  predicate Revives(op: Op)
  {
    op.StopOp? || op.QuarantineOp? || (op.RemoveOp? && !op.answers.quiesced) || (op.DestroyOp? && !op.answers.released)
  }

  /** The call revives a removed domain whose device another domain has taken over. */
  ghost predicate Usurps(t: Table, op: Op)
  {
    && OnOne(op) && op.index < |t| && t[op.index].active && t[op.index].phase.Removed? && Revives(op)
    && exists j :: 0 <= j < |t| && j != op.index && Occupies(t[j], t[op.index].device)
  }

  lemma RemovedSteps(d: Domain, op: Op)
    requires OnOne(op) && d.active && d.phase.Removed?
    ensures StepOne(d, op).active && !StepOne(d, op).phase.Removed? <==> Revives(op)
    ensures StepOne(d, op).active ==> StepOne(d, op).device == d.device
  {
  }

  lemma KeepsDevice(d: Domain, op: Op)
    requires OnOne(op) && d.active
    ensures StepOne(d, op).active ==> StepOne(d, op).device == d.device
    ensures StepOne(d, op).active && d.phase.Removed? && !Revives(op) ==> StepOne(d, op).phase.Removed?
  {
  }

  lemma BulkKeepsDevice(d: Domain, code: int, ticks: u32, a: Answers)
    requires d.active
    ensures Died(d, code, ticks, a).active && Died(d, code, ticks, a).device == d.device
    ensures Ticked(d, ticks, a).active && Ticked(d, ticks, a).device == d.device
    ensures d.phase.Removed? ==> Ticked(d, ticks, a) == d
    ensures d.phase.Quarantined? ==> Ticked(d, ticks, a) == d
  {
    hide Due, Add32, Circuit;
  }

  /** One domain per device is kept exactly by the calls that do not usurp. */
  lemma OnePerDeviceExact(t: Table, op: Op)
    requires OnePerDevice(t)
    ensures OnePerDevice(Step(t, op)) <==> !Usurps(t, op)
  {
    hide StepOne, Died, Ticked;
    var r := Step(t, op);
    if Usurps(t, op) {
      var i := op.index;
      var j :| 0 <= j < |t| && j != i && Occupies(t[j], t[i].device);
      RemovedSteps(t[i], op);
      assert r[j] == t[j] && r[i] == StepOne(t[i], op);
    } else {
      forall i, j | 0 <= i < j < |r| && r[i].active && r[j].active && !r[i].phase.Removed? && !r[j].phase.Removed?
        ensures r[i].device != r[j].device
      {
        SameOrNew(t, op, i, j);
        SameOrNew(t, op, j, i);
      }
    }
  }

  /** Where an occupying entry of the next table comes from. */
  lemma SameOrNew(t: Table, op: Op, i: nat, j: nat)
    requires OnePerDevice(t) && !Usurps(t, op) && i < |t| && j < |t| && i != j
    requires var r := Step(t, op); r[i].active && !r[i].phase.Removed? && r[j].active && !r[j].phase.Removed?
    ensures var r := Step(t, op);
      || (Occupies(t[i], r[i].device) && t[i].active)
      || (op.Create? && i == FirstFree(t) && !Occupied(t, r[i].device))
      || (t[i].active && t[i].phase.Removed? && t[i].device == r[i].device && r[j] == t[j]
          && r[i].device != r[j].device)
  {
    hide StepOne, Died, Ticked;
    if OnOne(op) {
      if i == op.index && t[i].active {
        KeepsDevice(t[i], op);
      }
    } else if op.DiedOp? && DiesOf(t[i], op.pid) {
      BulkKeepsDevice(t[i], op.code, op.ticks, op.all(i));
    } else if op.TickOp? && t[i].active {
      BulkKeepsDevice(t[i], 0, op.ticks, op.all(i));
    }
  }

  /** A quarantined domain no call but an administrator's release can move. */
  lemma StaysQuarantined(t: Table, op: Op, i: nat)
    requires i < |t| && t[i].active && t[i].phase.Quarantined? && !(op.ReleaseOp? && op.index == i)
    ensures var e := Step(t, op)[i];
      e.active && e.phase.Quarantined? && e.device == t[i].device && e.generation == t[i].generation
  {
    hide StepOne, Died, Ticked;
    if OnOne(op) {
      if i == op.index {
        QuarantinedStep(t[i], op);
      }
    } else if op.DiedOp? {
      assert !DiesOf(t[i], op.pid);
    } else if op.TickOp? {
      BulkKeepsDevice(t[i], 0, op.ticks, op.all(i));
    }
  }

  lemma QuarantinedStep(d: Domain, op: Op)
    requires OnOne(op) && d.phase.Quarantined? && !op.ReleaseOp?
    ensures StepOne(d, op).phase.Quarantined? && StepOne(d, op).active == d.active
    ensures StepOne(d, op).device == d.device && StepOne(d, op).generation == d.generation
  {
    hide Launch, Add32;
  }

  /** No domain of the device has a task, and the device is occupied by `i` alone. */
  ghost predicate Sealed(t: Table, i: nat)
  {
    && i < |t| && t[i].active && t[i].phase.Quarantined?
    && forall j :: 0 <= j < |t| && t[j].active && t[j].device == t[i].device ==>
      t[j].pid <= 0 && (j == i || t[j].phase.Removed?)
  }

  /** In a well-kept table a quarantined domain seals its device. */
  lemma QuarantineSeals(t: Table, i: nat)
    requires TableOk(t) && OnePerDevice(t) && i < |t| && t[i].active && t[i].phase.Quarantined?
    ensures Sealed(t, i)
  {
    forall j | 0 <= j < |t| && t[j].active && t[j].device == t[i].device
      ensures t[j].pid <= 0 && (j == i || t[j].phase.Removed?)
    {
      assert DomainOk(t[j]);
    }
  }

  /** A run of calls, none of which usurps a device or releases domain `i`. */
  ghost predicate Respectful(t: Table, ops: seq<Op>, i: nat)
    decreases |ops|
  {
    ops == []
    || (!Usurps(t, ops[0]) && !(ops[0].ReleaseOp? && ops[0].index == i) && Respectful(Step(t, ops[0]), ops[1..], i))
  }

  /**
    Quarantine is absorbing: until an administrator releases it the domain
    stays, no domain of its device has a task, and no other domain occupies it.
   */
  lemma {:induction false} QuarantineAbsorbs(t: Table, ops: seq<Op>, i: nat)
    requires TableOk(t) && OnePerDevice(t) && i < |t| && t[i].active && t[i].phase.Quarantined? && Respectful(t, ops, i)
    ensures Sealed(Run(t, ops), i) && Run(t, ops)[i].device == t[i].device
            && Run(t, ops)[i].generation == t[i].generation
    decreases |ops|
  {
    hide DomainOk, Step, Usurps;
    if ops == [] {
      QuarantineSeals(t, i);
    } else {
      StepOk(t, ops[0]);
      OnePerDeviceExact(t, ops[0]);
      StaysQuarantined(t, ops[0], i);
      QuarantineAbsorbs(Step(t, ops[0]), ops[1..], i);
    }
  }

  /** What usurping does: a task starts on a quarantined device. */
  lemma LiveBesideQuarantine(t: Table, i: nat, j: nat, a: Answers)
    requires i < |t| && j < |t| && i != j && t[i].active && t[i].phase.Removed?
    requires Occupies(t[j], t[i].device) && t[j].phase.Stopped? && a.spawn > 0 && a.issued
    ensures Usurps(t, QuarantineOp(i))
    ensures var r := Step(Step(t, QuarantineOp(i)), StartOp(j, a));
      r[i].active && r[i].phase.Quarantined? && r[j].active && r[j].device == r[i].device && r[j].phase.Running?
      && r[j].pid > 0
  {
    var u := Step(t, QuarantineOp(i));
    assert u[j] == t[j];
    var r := Step(u, StartOp(j, a));
    assert r[i] == u[i];
  }

  /** And the table that lets it happen is reached by removing a domain and creating another on its device. */
  lemma RemovedThenRecreated(t: Table, m: Manifest, device: nat, a: Answers)
    requires |t| == DOMAIN_MAX && (forall i :: 0 <= i < |t| ==> !t[i].active) && a.quiesced
    ensures var r := Step(Step(Step(t, Create(m, 1, device)), RemoveOp(0, a)), Create(m, 2, device));
      r[0].active && r[0].phase.Removed? && Occupies(r[1], r[0].device) && r[1].phase.Stopped?
  {
    hide NewDomain;
    var x := Step(t, Create(m, 1, device));
    NewDomainIs(m, 1, device);
    NewDomainIs(m, 2, device);
    assert FirstFree(t) == 0 && x[0] == NewDomain(m, 1, device) && forall k :: 1 <= k < |x| ==> !x[k].active;
    var y := Step(x, RemoveOp(0, a));
    RemoveStopped(x[0], a);
    assert y[0] == Remove(x[0], a) && forall k :: 1 <= k < |y| ==> !y[k].active;
    assert FirstFree(y) == 1;
    assert !Occupied(y, device);
  }

  lemma NewDomainIs(m: Manifest, id: u32, device: nat)
    ensures var d := NewDomain(m, id, device); d.active && d.device == device && d.phase.Stopped? && d.pid == -1
  {
  }

  lemma RemoveStopped(d: Domain, a: Answers)
    requires d.active && d.phase.Stopped? && a.quiesced
    ensures var e := Remove(d, a); e.active && e.phase.Removed? && e.device == d.device
  {
  }

  // ---- orderly runs -------------------------------------------------------

  /** At most one active domain per device, removed ones included. */
  ghost predicate Single(t: Table)
  {
    forall i, j :: 0 <= i < j < |t| && t[i].active && t[j].active ==> t[i].device != t[j].device
  }

  /** A domain is created on a device whose removed domain has not been destroyed. */
  ghost predicate TakesOver(t: Table, op: Op)
  {
    && op.Create? && !Occupied(t, op.device) && FirstFree(t) < |t|
    && exists i :: 0 <= i < |t| && t[i].active && t[i].device == op.device
  }

  /** One entry of the next table, by the kind of call. */
  lemma StepEntry(t: Table, op: Op, i: nat)
    requires i < |t|
    ensures OnOne(op) ==> Step(t, op)[i] == if i == op.index && t[i].active then StepOne(t[i], op) else t[i]
    ensures op.DiedOp? ==>
      Step(t, op)[i] == if DiesOf(t[i], op.pid) then Died(t[i], op.code, op.ticks, op.all(i)) else t[i]
    ensures op.TickOp? ==> Step(t, op)[i] == if t[i].active then Ticked(t[i], op.ticks, op.all(i)) else t[i]
    ensures op.Create? && i != FirstFree(t) ==> Step(t, op)[i] == t[i]
  {
    hide StepOne, Died, Ticked, NewDomain, FirstFree, Occupied;
  }

  /** Every call but a takeover keeps an active domain on its device. */
  lemma StepDevice(t: Table, op: Op, i: nat)
    requires i < |t| && Step(t, op)[i].active && !(op.Create? && i == FirstFree(t))
    ensures t[i].active && Step(t, op)[i].device == t[i].device
  {
    hide Step, StepOne, Died, Ticked, NewDomain, FirstFree, Occupied;
    StepEntry(t, op, i);
    if OnOne(op) {
      if i == op.index && t[i].active {
        KeepsDevice(t[i], op);
      }
    } else if op.DiedOp? && DiesOf(t[i], op.pid) {
      BulkKeepsDevice(t[i], op.code, op.ticks, op.all(i));
    } else if op.TickOp? && t[i].active {
      BulkKeepsDevice(t[i], 0, op.ticks, op.all(i));
    }
  }

  /** One active domain per device is kept exactly by the calls that take nothing over. */
  lemma SingleExact(t: Table, op: Op)
    requires Single(t)
    ensures Single(Step(t, op)) <==> !TakesOver(t, op)
  {
    hide StepOne, Died, Ticked, NewDomain;
    var r := Step(t, op);
    if op.Create? {
      NewDomainIs(op.manifest, op.id, op.device);
    }
    if TakesOver(t, op) {
      var i :| 0 <= i < |t| && t[i].active && t[i].device == op.device;
      assert r[i] == t[i] && r[FirstFree(t)].device == t[i].device;
    } else {
      forall i, j | 0 <= i < j < |r| && r[i].active && r[j].active
        ensures r[i].device != r[j].device
      {
        if !(op.Create? && i == FirstFree(t)) {
          StepDevice(t, op, i);
        }
        if !(op.Create? && j == FirstFree(t)) {
          StepDevice(t, op, j);
        }
      }
    }
  }

  lemma SingleSuffices(t: Table, op: Op)
    requires Single(t)
    ensures OnePerDevice(t) && !Usurps(t, op)
  {
  }

  /** A run of calls none of which takes a device over. */
  ghost predicate Orderly(t: Table, ops: seq<Op>)
    decreases |ops|
  {
    ops == [] || (!TakesOver(t, ops[0]) && Orderly(Step(t, ops[0]), ops[1..]))
  }

  ghost predicate Releases(ops: seq<Op>, i: nat)
  {
    exists k :: 0 <= k < |ops| && ops[k].ReleaseOp? && ops[k].index == i
  }

  lemma {:induction false} OrderlyKeeps(t: Table, ops: seq<Op>)
    requires TableOk(t) && Single(t) && Orderly(t, ops)
    ensures TableOk(Run(t, ops)) && Single(Run(t, ops)) && |Run(t, ops)| == |t|
    decreases |ops|
  {
    hide TableOk, Single, Step;
    if ops != [] {
      StepOk(t, ops[0]);
      SingleExact(t, ops[0]);
      OrderlyKeeps(Step(t, ops[0]), ops[1..]);
    }
  }

  /** Orderly runs are respectful, so quarantine absorbs them without further ado. */
  lemma {:induction false} OrderlyRespects(t: Table, ops: seq<Op>, i: nat)
    requires Single(t) && Orderly(t, ops) && !Releases(ops, i)
    ensures Respectful(t, ops, i)
    decreases |ops|
  {
    hide Single, Step, Usurps;
    if ops != [] {
      SingleExact(t, ops[0]);
      SingleSuffices(t, ops[0]);
      assert forall k :: 0 <= k < |ops[1..]| ==> ops[1..][k] == ops[k + 1];
      OrderlyRespects(Step(t, ops[0]), ops[1..], i);
    }
  }

  /** In an orderly run, a quarantined domain stays until it is released, alone on a device without a task. */
  lemma OrderlyAbsorbs(t: Table, ops: seq<Op>, i: nat)
    requires TableOk(t) && Single(t) && Orderly(t, ops) && !Releases(ops, i)
    requires i < |t| && t[i].active && t[i].phase.Quarantined?
    ensures Sealed(Run(t, ops), i) && Run(t, ops)[i].device == t[i].device
            && Run(t, ops)[i].generation == t[i].generation
  {
    hide Orderly, Respectful, Run, TableOk;
    SingleSuffices(t, IommuOp(0));
    OrderlyRespects(t, ops, i);
    QuarantineAbsorbs(t, ops, i);
  }

  lemma {:induction false} RunConcat(t: Table, a: seq<Op>, b: seq<Op>)
    ensures Run(t, a + b) == Run(Run(t, a), b)
    ensures Orderly(t, a + b) <==> Orderly(t, a) && Orderly(Run(t, a), b)
    decreases |a|
  {
    hide Step, TakesOver;
    if a == [] {
      assert a + b == b;
    } else {
      assert (a + b)[0] == a[0] && (a + b)[1..] == a[1..] + b;
      RunConcat(Step(t, a[0]), a[1..], b);
    }
  }

  lemma RunOne(t: Table, op: Op)
    ensures Run(t, [op]) == Step(t, op) && (Orderly(t, [op]) <==> !TakesOver(t, op))
  {
    hide Step, TakesOver;
    assert [op][1..] == [];
    assert Run(Step(t, op), []) == Step(t, op);
  }

  /** No removed domain is left undestroyed, except perhaps entry `but`. */
  ghost predicate NoneRemoved(t: Table, but: int)
  {
    forall i :: 0 <= i < |t| && t[i].active && t[i].phase.Removed? ==> i == but
  }

  /** A destroyed entry is left in the stopped state. */
  ghost predicate FreeStopped(t: Table)
  {
    forall i :: 0 <= i < |t| && !t[i].active ==> t[i].phase.Stopped?
  }

  /** What other parts of the kernel may do at any moment: everything but creating and removing domains. */
  predicate Ambient(op: Op)
  {
    !op.Create? && !op.RemoveOp?
  }

  predicate AllAmbient(ops: seq<Op>)
  {
    forall k :: 0 <= k < |ops| ==> Ambient(ops[k])
  }

  lemma OnePhase(d: Domain, op: Op)
    requires OnOne(op) && d.active
    ensures StepOne(d, op).phase.Removed? && StepOne(d, op).active && !op.RemoveOp? ==>
      d.phase.Removed? && !op.DestroyOp?
    ensures !StepOne(d, op).active ==> StepOne(d, op).phase.Stopped?
  {
    hide Add32;
  }

  lemma BulkPhase(d: Domain, code: int, ticks: u32, a: Answers)
    ensures !d.phase.Removed? ==> !Ticked(d, ticks, a).phase.Removed?
    ensures Live(d.phase) ==> !Died(d, code, ticks, a).phase.Removed?
  {
    hide Due, Add32, Circuit, CrashOf;
  }

  lemma StepPhases(t: Table, op: Op, but: int)
    requires NoneRemoved(t, but)
    ensures Ambient(op) || op.Create? ==> NoneRemoved(Step(t, op), but)
    ensures op.DestroyOp? && op.index == but ==> NoneRemoved(Step(t, op), -1)
    ensures op.RemoveOp? && but == -1 ==> NoneRemoved(Step(t, op), op.index)
  {
    hide StepOne, Died, Ticked, NewDomain;
    if op.Create? {
      NewDomainIs(op.manifest, op.id, op.device);
    }
    forall i | 0 <= i < |t|
      ensures Step(t, op)[i].active && Step(t, op)[i].phase.Removed? ==>
        (t[i].active && t[i].phase.Removed? && !(op.DestroyOp? && op.index == i)) || (op.RemoveOp? && op.index == i)
    {
      if OnOne(op) {
        if i == op.index && t[i].active {
          OnePhase(t[i], op);
        }
      } else if op.DiedOp? && DiesOf(t[i], op.pid) {
        BulkPhase(t[i], op.code, op.ticks, op.all(i));
        BulkKeepsDevice(t[i], op.code, op.ticks, op.all(i));
      } else if op.TickOp? && t[i].active {
        BulkPhase(t[i], 0, op.ticks, op.all(i));
        BulkKeepsDevice(t[i], 0, op.ticks, op.all(i));
      }
    }
  }

  lemma AmbientTakesNothing(t: Table, op: Op)
    ensures !op.Create? ==> !TakesOver(t, op)
  {
  }

  /** Without a removed domain on it, a device that looks free is free. */
  lemma FreeToCreate(t: Table, m: Manifest, id: u32, device: nat)
    requires NoneRemoved(t, -1)
    ensures !TakesOver(t, Create(m, id, device))
  {
  }

  // ---- the table operations in place --------------------------------------

  class Supervisor {
    var domains: Table
    var nextId: u32
    /** The table at the start and every call since. */
    ghost var first: Table
    ghost var log: seq<Op>

    ghost predicate Valid()
      reads this
    {
      && |domains| == DOMAIN_MAX && TableOk(domains) && Single(domains) && FreeStopped(domains) && nextId != 0
      && TableOk(first) && Single(first) && Orderly(first, log) && domains == Run(first, log)
    }

    /** driver_supervisor_init. */
    constructor (domains: Table)
      requires |domains| == DOMAIN_MAX && forall i :: 0 <= i < DOMAIN_MAX ==>
        !domains[i].active && domains[i].phase.Stopped?
      ensures Valid() && this.domains == domains && nextId == 1 && log == []
    {
      this.domains := domains;
      nextId := 1;
      first := domains;
      log := [];
    }

    /**
      Quarantine is absorbing: from the moment a domain is quarantined, and for
      as long as nobody releases it, every state is one in which it is alone on
      its device and no domain of the device has a task.
     */
    lemma QuarantineHolds(k: nat, l: nat, i: nat)
      requires Valid() && k <= l <= |log| && !Releases(log[k..l], i)
      requires var t := Run(first, log[..k]); i < |t| && t[i].active && t[i].phase.Quarantined?
      ensures Sealed(Run(first, log[..l]), i) && Run(first, log[..l])[i].device == Run(first, log[..k])[i].device
    {
      hide Run, Orderly, TableOk, Single, Sealed;
      assert log[..l] == log[..k] + log[k..l] && log == log[..l] + log[l..];
      RunConcat(first, log[..l], log[l..]);
      RunConcat(first, log[..k], log[k..l]);
      OrderlyKeeps(first, log[..k]);
      OrderlyAbsorbs(Run(first, log[..k]), log[k..l], i);
    }

    /** Books a call that takes nothing over. */
    ghost method Book(op: Op, next: Table)
      requires TableOk(first) && Single(first) && Orderly(first, log) && TableOk(Run(first, log))
               && Single(Run(first, log))
      requires !TakesOver(Run(first, log), op) && next == Step(Run(first, log), op)
      modifies this`log
      ensures log == old(log) + [op] && Orderly(first, log) && next == Run(first, log) && TableOk(next) && Single(next)
    {
      hide Run, Orderly, TableOk, Single, Step, TakesOver;
      ghost var t := Run(first, log);
      RunOne(t, op);
      RunConcat(first, log, [op]);
      StepOk(t, op);
      SingleExact(t, op);
      log := log + [op];
    }

    /** Any call on existing domains, as one step of the table. */
    method Perform(op: Op)
      requires Valid() && !op.Create?
      modifies this`domains, this`log
      ensures Valid() && domains == Step(old(domains), op) && log == old(log) + [op]
    {
      hide Run, Orderly, TableOk, Single, Step, NoneRemoved;
      AmbientTakesNothing(domains, op);
      StepFree(domains, op);
      domains := Step(domains, op);
      Book(op, domains);
    }

    /** What other parts of the kernel do meanwhile. */
    method Meanwhile(ops: seq<Op>, ghost but: int)
      requires Valid() && AllAmbient(ops) && NoneRemoved(domains, but)
      modifies this`domains, this`log
      ensures Valid() && domains == Run(old(domains), ops) && log == old(log) + ops && NoneRemoved(domains, but)
    {
      hide Run, Orderly, TableOk, Single, Step, NoneRemoved;
      var i := 0;
      RunNone(domains);
      while i < |ops|
        invariant Valid() && 0 <= i <= |ops| && NoneRemoved(domains, but)
        invariant domains == Run(old(domains), ops[..i]) && log == old(log) + ops[..i]
      {
        StepPhases(domains, ops[i], but);
        RunConcat(old(domains), ops[..i], [ops[i]]);
        RunOne(domains, ops[i]);
        assert ops[..i + 1] == ops[..i] + [ops[i]];
        Perform(ops[i]);
        i := i + 1;
      }
      assert ops[..i] == ops;
    }

    /** driver_domain_create: refused on an occupied device; ids never come out zero. */
    method CreateDomain(m: Manifest, device: nat) returns (index: int)
      requires Valid() && NoneRemoved(domains, -1)
      modifies this
      ensures Valid() && first == old(first) && log == old(log) + [Create(m, old(nextId), device)]
      ensures domains == Step(old(domains), Create(m, old(nextId), device)) && NoneRemoved(domains, -1)
      ensures index < 0 <==> Occupied(old(domains), device) || forall k :: 0 <= k < DOMAIN_MAX ==>
        old(domains)[k].active
      ensures index < 0 ==> domains == old(domains)
      ensures index >= 0 ==>
        index == FirstFree(old(domains)) < DOMAIN_MAX
        && domains == old(domains)[index := NewDomain(m, old(nextId), device)]
    {
      hide DomainOk, NewDomain, Run, Orderly, Single;
      FreeToCreate(domains, m, nextId, device);
      StepPhases(domains, Create(m, nextId, device), -1);
      StepFree(domains, Create(m, nextId, device));
      ghost var op, was := Create(m, nextId, device), domains;
      index := -1;
      if !Occupied(domains, device) {
        index := 0;
        while index < DOMAIN_MAX && domains[index].active
          invariant 0 <= index <= DOMAIN_MAX && forall k :: 0 <= k < index ==> domains[k].active
        {
          index := index + 1;
        }
        if index < DOMAIN_MAX {
          FreeIs(domains, index);
          domains := domains[index := NewDomain(m, nextId, device)];
          nextId := if nextId + 1 == U32_LIMIT then 1 else nextId + 1;
        } else {
          index := -1;
        }
      }
      Book(op, domains);
    }

    /** driver_domain_start; success means a task was launched. */
    method StartDomain(index: nat, a: Answers) returns (ok: bool)
      requires Valid() && index < DOMAIN_MAX
      modifies this`domains, this`log
      ensures Valid() && domains == Step(old(domains), StartOp(index, a)) && log == old(log) + [StartOp(index, a)]
      ensures ok <==> old(domains)[index].active && old(domains)[index].phase.Stopped? && domains[index].phase.Running?
      ensures ok <==> old(domains)[index].active && old(domains)[index].phase.Stopped? && a.spawn > 0 && a.issued
    {
      hide Run, Orderly, TableOk, Single;
      var d := domains[index];
      Perform(StartOp(index, a));
      ok := d.active && d.phase.Stopped? && domains[index].phase.Running?;
    }

    /** driver_domain_stop; failure means the domain is quarantined or gone. */
    method StopDomain(index: nat, a: Answers) returns (failed: bool)
      requires Valid() && index < DOMAIN_MAX
      modifies this`domains, this`log
      ensures Valid() && domains == Step(old(domains), StopOp(index, a)) && log == old(log) + [StopOp(index, a)]
      ensures failed <==> !domains[index].active || domains[index].phase.Quarantined?
    {
      hide Run, Orderly, TableOk, Single;
      var d := domains[index];
      failed := !d.active || Stop(d, a).1;
      Perform(StopOp(index, a));
    }

    /** driver_domain_remove; failure means the domain is quarantined or gone. */
    method RemoveDomain(index: nat, a: Answers) returns (failed: bool)
      requires Valid() && index < DOMAIN_MAX && NoneRemoved(domains, -1)
      modifies this`domains, this`log
      ensures Valid() && domains == Step(old(domains), RemoveOp(index, a)) && log == old(log) + [RemoveOp(index, a)]
      ensures NoneRemoved(domains, index)
      ensures failed <==> !domains[index].active || domains[index].phase.Quarantined?
    {
      hide Run, Orderly, TableOk, Single;
      var d := domains[index];
      failed := !d.active || Stop(d, a).1 || !a.quiesced;
      StepPhases(domains, RemoveOp(index, a), -1);
      Perform(RemoveOp(index, a));
    }

    /** driver_domain_destroy: whatever the domain was, it is now gone or quarantined. */
    method DestroyDomain(index: nat, a: Answers)
      requires Valid() && index < DOMAIN_MAX && (NoneRemoved(domains, index) || NoneRemoved(domains, -1))
      modifies this`domains, this`log
      ensures Valid() && domains == Step(old(domains), DestroyOp(index, a)) && log == old(log) + [DestroyOp(index, a)]
      ensures NoneRemoved(domains, -1) && (!domains[index].active || domains[index].phase.Quarantined?)
    {
      hide Run, Orderly, TableOk, Single;
      NoneRemovedBut(domains, index);
      StepPhases(domains, DestroyOp(index, a), index);
      Perform(DestroyOp(index, a));
    }

    /** driver_supervisor_task_died: every live domain of that task, in one pass. */
    method TaskDied(pid: int, code: int, ticks: u32, all: nat -> Answers)
      requires Valid()
      modifies this`domains, this`log
      ensures Valid() && domains == Step(old(domains), DiedOp(pid, code, ticks, all))
              && log == old(log) + [DiedOp(pid, code, ticks, all)]
    {
      hide DomainOk, Died, Run, Orderly, Single, TableOk;
      ghost var op := DiedOp(pid, code, ticks, all);
      ghost var goal := Step(domains, op);
      AmbientTakesNothing(domains, op);
      StepFree(domains, op);
      var i := 0;
      while i < DOMAIN_MAX
        invariant 0 <= i <= DOMAIN_MAX && |domains| == DOMAIN_MAX && log == old(log)
        invariant forall k :: 0 <= k < DOMAIN_MAX ==> domains[k] == if k < i then goal[k] else old(domains)[k]
      {
        if DiesOf(domains[i], pid) {
          domains := domains[i := Died(domains[i], code, ticks, all(i))];
        }
        i := i + 1;
      }
      assert domains == goal;
      Book(op, domains);
    }

    /** driver_supervisor_tick: stop timeouts and due relaunches, in one pass. */
    method Tick(ticks: u32, all: nat -> Answers)
      requires Valid()
      modifies this`domains, this`log
      ensures Valid() && domains == Step(old(domains), TickOp(ticks, all)) && log == old(log) + [TickOp(ticks, all)]
    {
      hide DomainOk, Ticked, Run, Orderly, Single, TableOk;
      ghost var op := TickOp(ticks, all);
      ghost var goal := Step(domains, op);
      AmbientTakesNothing(domains, op);
      StepFree(domains, op);
      var i := 0;
      while i < DOMAIN_MAX
        invariant 0 <= i <= DOMAIN_MAX && |domains| == DOMAIN_MAX && log == old(log)
        invariant forall k :: 0 <= k < DOMAIN_MAX ==> domains[k] == if k < i then goal[k] else old(domains)[k]
      {
        if domains[i].active {
          domains := domains[i := Ticked(domains[i], ticks, all(i))];
        }
        i := i + 1;
      }
      assert domains == goal;
      Book(op, domains);
    }
  }

  lemma NoneRemovedBut(t: Table, i: int)
    requires NoneRemoved(t, -1) || NoneRemoved(t, i)
    ensures NoneRemoved(t, i)
  {
  }

  lemma RunNone(t: Table)
    ensures Run(t, []) == t
  {
  }

  /** Freed entries stay in the stopped state. */
  lemma StepFree(t: Table, op: Op)
    requires FreeStopped(t)
    ensures FreeStopped(Step(t, op))
  {
    hide StepOne, Died, Ticked, NewDomain;
    if op.Create? {
      NewDomainIs(op.manifest, op.id, op.device);
    }
    forall i | 0 <= i < |t|
      ensures !Step(t, op)[i].active ==> Step(t, op)[i].phase.Stopped?
    {
      if OnOne(op) {
        if i == op.index && t[i].active {
          OnePhase(t[i], op);
        }
      } else if op.DiedOp? && DiesOf(t[i], op.pid) {
        BulkKeepsDevice(t[i], op.code, op.ticks, op.all(i));
      } else if op.TickOp? && t[i].active {
        BulkKeepsDevice(t[i], 0, op.ticks, op.all(i));
      }
    }
  }

  lemma {:induction false} FreeIs(t: Table, i: nat)
    requires i < |t| && !t[i].active && forall k :: 0 <= k < i ==> t[k].active
    ensures FirstFree(t) == i
  {
    if i > 0 {
      FreeIs(t[1..], i - 1);
    }
  }
}
