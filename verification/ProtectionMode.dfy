/**
 The protection-mode transaction: applying a mode through the protection
 controller, persisting it, committing evidence, and rolling back. Every controller
 call, file write and ledger operation may fail; its outcome is a parameter.
 */
module ProtectionMode {
  import opened Wrappers

  /** The three supported modes; any other text is `Other`. */
  datatype Mode = Monitor | Guarded | Sovereign | Other(name: nat)

  datatype Health = Starting | Degraded | Verified

  /** The mode file: absent or unreadable, or naming a mode. */
  datatype File = NoFile | Names(mode: Mode)

  /** The controller's report on application control. */
  datatype AppAnswer = AppAnswer(enforced: bool, kernel: bool)

  /** The controller's report after applying a mode. */
  datatype ModeAnswer = ModeAnswer(mode: Mode, defender: bool, telemetry: bool, defaultDeny: bool)

  const COALESCE := 30000000000

  datatype Policy = Policy(
    mode: Mode, health: Health, verifiedAt: int, kernel: bool, file: File,
    /** The controller's last answers to an apply call, absent if that call failed. */
    lastMode: Option<ModeAnswer>, lastApp: Option<AppAnswer>,
    /** The last status answer, if it came after the last confirmed application control. */
    lastStatus: Option<bool>,
    /** A transition's evidence commit failed and so did writing the old mode back; nothing was written since. */
    rollbackUnwritten: bool)

  predicate Supported(m: Mode) {
    !m.Other?
  }

  // ---------------------------------------------------------------- what counts as protected

  predicate ModeVerified(mode: Mode, a: ModeAnswer) {
    a.mode == mode && a.defender && a.telemetry && (mode == Sovereign ==> a.defaultDeny)
  }

  predicate AppVerified(mode: Mode, a: AppAnswer) {
    if mode == Sovereign then a.enforced && a.kernel else !a.enforced && !a.kernel
  }

  /** The controller's last apply answers both confirm `mode`. */
  predicate Protects(p: Policy, mode: Mode) {
    p.lastMode.Some? && ModeVerified(mode, p.lastMode.value) && p.lastApp.Some? && AppVerified(mode, p.lastApp.value)
  }

  /** Memory, mode file and verified protection all hold `mode`. */
  predicate Holds(p: Policy, mode: Mode) {
    p.mode == mode && p.file == Names(mode) && Protects(p, mode)
  }

  // ---------------------------------------------------------------- transitions

  /** The controller's answers while a mode is applied. */
  datatype Application = Application(app: Option<AppAnswer>, mode: Option<ModeAnswer>)

  function AppControl(p: Policy, mode: Mode, answer: Option<AppAnswer>): (Policy, bool) {
    var ok := answer.Some? && AppVerified(mode, answer.value);
    (p.(lastApp := answer, kernel := if ok then answer.value.kernel else p.kernel,
        lastStatus := if ok then None else p.lastStatus), ok)
  }

  function Protection(p: Policy, mode: Mode, answer: Option<ModeAnswer>): (Policy, bool) {
    (p.(lastMode := answer), answer.Some? && ModeVerified(mode, answer.value))
  }

  /** Sovereign enforces application control before the mode, the other modes release it after. */
  function ApplyMode(p: Policy, mode: Mode, a: Application): (Policy, bool) {
    if mode == Sovereign then
      var (q, ok) := AppControl(p, mode, a.app);
      if ok then Protection(q, mode, a.mode) else (q, false)
    else
      var (q, ok) := Protection(p, mode, a.mode);
      if ok then AppControl(q, mode, a.app) else (q, false)
  }

  function Persist(p: Policy, mode: Mode, ok: bool): Policy {
    if ok then p.(file := Names(mode), rollbackUnwritten := false) else p
  }

  function KernelStatus(p: Policy, status: Option<bool>): Policy {
    if status.Some? then p.(kernel := status.value, lastStatus := status) else p
  }

  function SetHealth(p: Policy, health: Health, clock: int): Policy {
    p.(health := health, verifiedAt := if health == Verified then clock else 0)
  }

  /** Everything outside the engine that a mode transition meets, in order. */
  datatype Outcomes = Outcomes(
    gate: bool, ledger: bool, forward: Application, persist: bool, commit: bool,
    back: Application, persistBack: bool, status: Option<bool>, clock: int)

  function Rollback(p: Policy, o: Outcomes): (Policy, bool) {
    var (q, ok) := ApplyMode(p, p.mode, o.back);
    (KernelStatus(Persist(q, p.mode, o.persistBack), o.status), ok && o.persistBack)
  }

  function Abandon(p: Policy, o: Outcomes): Policy {
    var (q, ok) := Rollback(p, o);
    SetHealth(q, if ok then Verified else Degraded, o.clock)
  }

  function SetMode(p: Policy, mode: Mode, o: Outcomes): (Policy, bool) {
    if !Supported(mode) || !o.gate then (p, false)
    else if !o.ledger then (SetHealth(p, Degraded, o.clock), false)
    else if mode == p.mode then (p, true)
    else
      var (q, applied) := ApplyMode(p, mode, o.forward);
      if !applied || !o.persist then (Abandon(q, o), false)
      else
        var r := Persist(q, mode, true);
        if !o.commit then (Abandon(r.(rollbackUnwritten := !o.persistBack), o), false)
        else (SetHealth(KernelStatus(r.(mode := mode), o.status), Verified, o.clock), true)
  }

  function Reconcile(p: Policy, gate: bool, ledger: bool, now: int, a: Application, commit: bool, clock: int)
    : (Policy, bool)
  {
    if !gate || !ledger then (SetHealth(p, Degraded, clock), false)
    else if p.health == Verified && now - p.verifiedAt < COALESCE then (p, true)
    else
      var (q, ok) := ApplyMode(p, p.mode, a);
      if ok && commit then (SetHealth(q, Verified, clock), true) else (SetHealth(q, Degraded, clock), false)
  }

  /** `listed`: the allow list was updated. */
  function SetApplication(p: Policy, gate: bool, listed: bool, answer: Option<AppAnswer>, clock: int): (Policy, bool) {
    if !gate || !listed then (p, false)
    else
      var (q, ok) := AppControl(p, p.mode, answer);
      if ok then (q, true) else (SetHealth(q, Degraded, clock), false)
  }

  /** The allow list could not be verified, or the gate was not free. */
  function AllowListUnverified(p: Policy, clock: int): Policy {
    if p.mode == Sovereign then SetHealth(p, Degraded, clock) else p
  }

  function LoadedMode(f: File): Mode {
    if f.Names? && Supported(f.mode) then f.mode else Guarded
  }

  /** A new process over whatever mode file and controller state a stop left behind. */
  function Start(f: File, lastMode: Option<ModeAnswer>, lastApp: Option<AppAnswer>): Policy {
    Policy(LoadedMode(f), Starting, 0, false, f, lastMode, lastApp, None, false)
  }

  // ---------------------------------------------------------------- one transition

  lemma AppliedProtects(p: Policy, mode: Mode, a: Application)
    ensures var (q, ok) := ApplyMode(p, mode, a);
      && (ok ==> Protects(q, mode) && KernelTrue(q, mode) && q.lastStatus == None)
      && q.mode == p.mode && q.file == p.file && q.health == p.health
      && q.verifiedAt == p.verifiedAt && q.rollbackUnwritten == p.rollbackUnwritten
  {
  }

  /** An abandoned transition keeps memory and is either fully undone and verified, or reported degraded. */
  lemma AbandonSettles(p: Policy, o: Outcomes)
    ensures var q := Abandon(p, o);
      && q.mode == p.mode
      && (q.health == Verified || q.health == Degraded)
      && (q.health == Verified ==> Holds(q, p.mode) && KernelTrue(q, p.mode))
      && (o.persistBack ==> q.file == Names(p.mode) && !q.rollbackUnwritten)
      && (!o.persistBack ==> q.file == p.file && q.rollbackUnwritten == p.rollbackUnwritten && q.health == Degraded)
  {
    AppliedProtects(p, p.mode, o.back);
    hide ApplyMode;
    hide ModeVerified;
    hide AppVerified;
  }

  /** A successful change of mode holds in memory, in the file and in the protection. */
  lemma SuccessHolds(p: Policy, mode: Mode, o: Outcomes)
    requires SetMode(p, mode, o).1 && mode != p.mode
    ensures Holds(SetMode(p, mode, o).0, mode) && KernelTrue(SetMode(p, mode, o).0, mode)
    ensures SetMode(p, mode, o).0.health == Verified
  {
    AppliedProtects(p, mode, o.forward);
    hide ApplyMode;
    hide Abandon;
  }

  /**
   A success establishes the mode everywhere if and only if it changed the mode or the mode
   already held everywhere: setting the current mode repairs nothing. With verified health,
   which a caller can read beforehand, the mode file alone decides.
   */
  lemma SuccessHoldsIff(p: Policy, mode: Mode, o: Outcomes)
    requires SetMode(p, mode, o).1
    ensures SetMode(p, mode, o).0.mode == mode
    ensures Holds(SetMode(p, mode, o).0, mode) <==> mode != p.mode || Holds(p, mode)
    ensures Sound(p) && p.health == Verified ==>
      (Holds(SetMode(p, mode, o).0, mode) <==> mode != p.mode || p.file == Names(mode))
  {
    if mode != p.mode {
      SuccessHolds(p, mode, o);
    }
    hide Abandon;
    hide ApplyMode;
    hide Protects;
  }

  /** An error keeps the mode in memory; afterwards all is as before, fully rolled back, or reported degraded. */
  lemma ErrorKeepsMode(p: Policy, mode: Mode, o: Outcomes)
    requires !SetMode(p, mode, o).1
    ensures var q := SetMode(p, mode, o).0;
      && q.mode == p.mode
      && (q == p || q.health == Degraded || (q.health == Verified && Holds(q, p.mode)))
  {
    AppliedProtects(p, mode, o.forward);
    var q := ApplyMode(p, mode, o.forward).0;
    AbandonSettles(q, o);
    AbandonSettles(Persist(q, mode, true).(rollbackUnwritten := !o.persistBack), o);
    hide ApplyMode;
    hide Abandon;
    hide Holds;
  }

  // ---------------------------------------------------------------- every run

  datatype Action =
    | DoSetMode(mode: Mode, outcomes: Outcomes)
    | DoReconcile(gate: bool, ledger: bool, now: int, answers: Application, commit: bool, clock: int)
    | DoSetApplication(gate: bool, listed: bool, answer: Option<AppAnswer>, clock: int)
    | DoAllowListUnverified(clock: int)
    | DoKernelStatus(status: Option<bool>)
    | DoRestart(file: File, lastMode: Option<ModeAnswer>, lastApp: Option<AppAnswer>)

  function Act(p: Policy, a: Action): Policy {
    match a
    case DoSetMode(mode, o) => SetMode(p, mode, o).0
    case DoReconcile(gate, ledger, now, answers, commit, clock) =>
      Reconcile(p, gate, ledger, now, answers, commit, clock).0
    case DoSetApplication(gate, listed, answer, clock) => SetApplication(p, gate, listed, answer, clock).0
    case DoAllowListUnverified(clock) => AllowListUnverified(p, clock)
    case DoKernelStatus(status) => KernelStatus(p, status)
    case DoRestart(file, lastMode, lastApp) => Start(file, lastMode, lastApp)
  }

  /** The engine after a run, started first over any file and controller state. */
  function RunFrom(start: Policy, actions: seq<Action>): Policy {
    if actions == [] then start
    else Act(RunFrom(start, actions[..|actions| - 1]), actions[|actions| - 1])
  }

  /** The kernel flag repeats the later of the last status answer and the last confirmed application control. */
  predicate KernelTrue(p: Policy, mode: Mode) {
    p.kernel == if p.lastStatus.Some? then p.lastStatus.value else mode == Sovereign
  }

  predicate Sound(p: Policy) {
    && Supported(p.mode)
    && (p.health == Verified ==> Protects(p, p.mode) && KernelTrue(p, p.mode))
    && (LoadedMode(p.file) == p.mode || p.rollbackUnwritten)
  }

  lemma SetModeKeepsSound(p: Policy, mode: Mode, o: Outcomes)
    requires Sound(p)
    ensures Sound(SetMode(p, mode, o).0)
  {
    AppliedProtects(p, mode, o.forward);
    var q := ApplyMode(p, mode, o.forward).0;
    AbandonSettles(q, o);
    AbandonSettles(Persist(q, mode, true).(rollbackUnwritten := !o.persistBack), o);
    if SetMode(p, mode, o).1 && mode != p.mode {
      SuccessHolds(p, mode, o);
    }
    hide ApplyMode;
    hide Abandon;
    hide ModeVerified;
    hide AppVerified;
  }

  lemma ReconcileKeepsSound(p: Policy, gate: bool, ledger: bool, now: int, a: Application, commit: bool, clock: int)
    requires Sound(p)
    ensures var (q, ok) := Reconcile(p, gate, ledger, now, a, commit, clock);
      Sound(q) && q.mode == p.mode && (ok <==> q.health == Verified)
  {
    AppliedProtects(p, p.mode, a);
    hide ApplyMode;
    hide ModeVerified;
    hide AppVerified;
  }

  lemma SetApplicationKeepsSound(p: Policy, gate: bool, listed: bool, answer: Option<AppAnswer>, clock: int)
    requires Sound(p)
    ensures Sound(SetApplication(p, gate, listed, answer, clock).0)
  {
  }

  lemma ActKeepsSound(p: Policy, a: Action)
    requires Sound(p)
    ensures Sound(Act(p, a))
  {
    match a
    case DoSetMode(mode, o) =>
      hide SetMode;
      SetModeKeepsSound(p, mode, o);
    case DoReconcile(gate, ledger, now, answers, commit, clock) =>
      hide Reconcile;
      ReconcileKeepsSound(p, gate, ledger, now, answers, commit, clock);
    case DoSetApplication(gate, listed, answer, clock) =>
      hide SetApplication;
      SetApplicationKeepsSound(p, gate, listed, answer, clock);
    case _ =>
  }

  lemma {:induction false} RunKeepsSound(start: Policy, actions: seq<Action>)
    requires Sound(start)
    ensures Sound(RunFrom(start, actions))
  {
    hide Sound;
    hide Act;
    if actions != [] {
      var before := actions[..|actions| - 1];
      RunKeepsSound(start, before);
      ActKeepsSound(RunFrom(start, before), actions[|actions| - 1]);
    }
  }

  /**
   In every run from a first start over any file and controller state, with restarts at
   any point and any pattern of failures: VERIFIED health implies that the controller's
   last answers confirm the mode in memory, and the mode file loads as the mode in memory
   unless a rollback write failed.
   */
  lemma EveryRunIsSound(f: File, lastMode: Option<ModeAnswer>, lastApp: Option<AppAnswer>, actions: seq<Action>)
    ensures Sound(RunFrom(Start(f, lastMode, lastApp), actions))
  {
    RunKeepsSound(Start(f, lastMode, lastApp), actions);
  }

  /**
   In every run, VERIFIED health in sovereign mode goes with a kernel flag that says so if and
   only if no status answer since the last confirmed application control contradicts it.
   */
  lemma VerifiedKernelIff(f: File, lastMode: Option<ModeAnswer>, lastApp: Option<AppAnswer>, actions: seq<Action>)
    ensures var p := RunFrom(Start(f, lastMode, lastApp), actions);
      p.health == Verified && p.mode == Sovereign ==> (p.kernel <==> p.lastStatus != Some(false))
  {
    hide RunFrom;
    EveryRunIsSound(f, lastMode, lastApp, actions);
  }

  /** A success ends verified in sovereign mode with the kernel flag down if its own status answer contradicts it. */
  lemma VerifiedWithoutKernel(p: Policy, o: Outcomes)
    requires p.mode != Sovereign && SetMode(p, Sovereign, o).1 && o.status == Some(false)
    ensures var q := SetMode(p, Sovereign, o).0;
      q.health == Verified && Holds(q, Sovereign) && !q.kernel
  {
    SuccessHolds(p, Sovereign, o);
    hide ApplyMode;
    hide Abandon;
    hide Holds;
    hide KernelTrue;
  }

  /** The mode file parts from memory only in a transition whose commit and whose write-back both failed. */
  lemma OnlyFailedRollback(p: Policy, a: Action)
    requires Sound(p) && !p.rollbackUnwritten && Act(p, a).rollbackUnwritten
    ensures a.DoSetMode? && !a.outcomes.commit && !a.outcomes.persistBack && a.outcomes.persist
    ensures Act(p, a).file == Names(a.mode) && Act(p, a).mode == p.mode && Act(p, a).health == Degraded
  {
    if a.DoSetMode? {
      var o := a.outcomes;
      AppliedProtects(p, a.mode, o.forward);
      var q := ApplyMode(p, a.mode, o.forward).0;
      AbandonSettles(q, o);
      AbandonSettles(Persist(q, a.mode, true).(rollbackUnwritten := !o.persistBack), o);
      hide ApplyMode;
      hide Abandon;
    } else {
      if a.DoReconcile? {
        AppliedProtects(p, p.mode, a.answers);
      }
      hide ApplyMode;
      assert false;
    }
  }

  /** An action that may not change the mode: no transition succeeds in it and the process goes on. */
  predicate KeepsMode(p: Policy, a: Action) {
    match a
    case DoSetMode(mode, o) => !SetMode(p, mode, o).1 && (o.commit || o.persistBack)
    case DoRestart(_, _, _) => false
    case _ => true
  }

  lemma KeptModeReloads(p: Policy, a: Action)
    requires Sound(p) && !p.rollbackUnwritten && KeepsMode(p, a)
    ensures !Act(p, a).rollbackUnwritten && Act(p, a).mode == p.mode
    ensures LoadedMode(Act(p, a).file) == p.mode
  {
    ActKeepsSound(p, a);
    if Act(p, a).rollbackUnwritten {
      OnlyFailedRollback(p, a);
    }
    match a
    case DoSetMode(mode, o) =>
      ErrorKeepsMode(p, mode, o);
      hide SetMode;
    case DoReconcile(gate, ledger, now, answers, commit, clock) =>
      ReconcileKeepsSound(p, gate, ledger, now, answers, commit, clock);
      hide Reconcile;
    case _ =>
  }

  /** Every action of `actions`, in its turn, keeps the mode. */
  ghost predicate AllKeepMode(p: Policy, actions: seq<Action>) {
    forall i :: 0 <= i < |actions| ==> KeepsMode(RunFrom(p, actions[..i]), actions[i])
  }

  /**
   A successful change of mode lasts: a restart after any further actions in which
   no transition succeeds and no rollback write fails comes up in that mode.
   */
  lemma {:induction false} ModeSurvivesRestart(p: Policy, mode: Mode, o: Outcomes, actions: seq<Action>)
    requires Sound(p) && SetMode(p, mode, o).1 && mode != p.mode
    requires AllKeepMode(SetMode(p, mode, o).0, actions)
    ensures var r := RunFrom(SetMode(p, mode, o).0, actions);
      Sound(r) && !r.rollbackUnwritten && r.mode == mode
      && forall m, a :: Start(r.file, m, a).mode == mode
  {
    hide SetMode;
    hide KeepsMode;
    hide Act;
    var q := SetMode(p, mode, o).0;
    if actions == [] {
      SuccessIsWritten(p, mode, o);
      SetModeKeepsSound(p, mode, o);
    } else {
      var n := |actions| - 1;
      var before := actions[..n];
      forall i | 0 <= i < n ensures KeepsMode(RunFrom(q, before[..i]), before[i]) {
        assert before[..i] == actions[..i];
      }
      ModeSurvivesRestart(p, mode, o, before);
      KeptModeReloads(RunFrom(q, before), actions[n]);
      ActKeepsSound(RunFrom(q, before), actions[n]);
    }
  }

  lemma SuccessIsWritten(p: Policy, mode: Mode, o: Outcomes)
    requires SetMode(p, mode, o).1 && mode != p.mode
    ensures SetMode(p, mode, o).0.mode == mode && SetMode(p, mode, o).0.file == Names(mode)
    ensures !SetMode(p, mode, o).0.rollbackUnwritten
  {
    hide ApplyMode;
    hide Abandon;
  }

  // ---------------------------------------------------------------- a success that establishes nothing

  /**
   From a sound state the operator can reach a file that names another mode, and then
   setting the current mode reports success although the file and so the next start differ.
   */
  lemma SilentSuccess(p: Policy, mode: Mode, o: Outcomes, o2: Outcomes)
    requires Sound(p) && Supported(mode) && mode != p.mode
    requires o.gate && o.ledger && ApplyMode(p, mode, o.forward).1 && o.persist && !o.commit && !o.persistBack
    requires o2.gate && o2.ledger
    ensures var r := SetMode(SetMode(p, mode, o).0, p.mode, o2);
      r.1 && r.0.mode == p.mode && r.0.file == Names(mode) && LoadedMode(r.0.file) != p.mode && r.0.health == Degraded
  {
    AppliedProtects(p, mode, o.forward);
    var q := ApplyMode(p, mode, o.forward).0;
    AbandonSettles(Persist(q, mode, true).(rollbackUnwritten := true), o);
    hide ApplyMode;
    hide Abandon;
  }

  /**
   Such a state is reached from a fresh start in guarded: a half-undone change to monitor, then a
   success for guarded.
   */
  lemma SilentSuccessReached()
    ensures exists o: Outcomes, o2: Outcomes ::
      var r := SetMode(SetMode(Start(NoFile, None, None), Monitor, o).0, Guarded, o2);
      r.1 && r.0.mode == Guarded && !Holds(r.0, Guarded)
  {
    var yes := Application(Some(AppAnswer(false, false)), Some(ModeAnswer(Monitor, true, true, false)));
    var no := Application(None, None);
    var o := Outcomes(true, true, yes, true, false, no, false, None, 1);
    var p := Start(NoFile, None, None);
    assert ApplyMode(p, Monitor, yes).1;
    SilentSuccess(p, Monitor, o, o);
    hide SetMode;
    var r := SetMode(SetMode(p, Monitor, o).0, Guarded, o);
    assert !Holds(r.0, Guarded);
  }
}
