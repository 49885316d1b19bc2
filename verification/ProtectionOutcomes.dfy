/**
 What each policy operation does, said in the answers, outcomes and times it is given:
 when it succeeds, what it reports, and what it leaves behind.
 */
module ProtectionOutcomes {
  import opened Wrappers
  import opened ProtectionMode

  /** These very answers confirm the mode. */
  predicate Confirms(mode: Mode, a: Application) {
    && a.mode.Some? && a.mode.value.mode == mode && a.mode.value.defender && a.mode.value.telemetry
    && (mode == Sovereign ==> a.mode.value.defaultDeny)
    && a.app.Some?
    && (mode == Sovereign ==> a.app.value.enforced && a.app.value.kernel)
    && (mode != Sovereign ==> !a.app.value.enforced && !a.app.value.kernel)
  }

  /**
   Applying a mode succeeds if and only if both answers confirm it, and they are then the last
   ones. Sovereign is not applied before its application control is confirmed; for the other
   modes application control is not released before the mode is.
   */
  lemma ApplyIff(p: Policy, mode: Mode, a: Application)
    ensures var (q, ok) := ApplyMode(p, mode, a);
      && (ok <==> Confirms(mode, a))
      && (ok ==> q.lastMode == a.mode && q.lastApp == a.app && q.kernel == (mode == Sovereign))
      && (mode == Sovereign && !(a.app.Some? && a.app.value.enforced && a.app.value.kernel) ==>
            q.lastMode == p.lastMode && q.lastApp == a.app && q.kernel == p.kernel)
      && (mode != Sovereign
          && !(a.mode.Some? && a.mode.value.mode == mode && a.mode.value.defender && a.mode.value.telemetry) ==>
            q.lastApp == p.lastApp && q.lastMode == a.mode && q.kernel == p.kernel)
      && q.mode == p.mode && q.file == p.file && q.health == p.health && q.verifiedAt == p.verifiedAt
  {
  }

  /** The verification is recent enough to answer a reconciliation without asking again. */
  predicate Recent(p: Policy, now: int) {
    p.health == Verified && now - p.verifiedAt < 30000000000
  }

  /**
   A reconciliation that is not answered by a verification of the last 30 seconds succeeds if and
   only if the answers to this very call confirm the mode and the evidence is committed; health
   then is verified as of this call, and degraded in every other case.
   */
  lemma ReconcileIff(
      p: Policy, gate: bool, ledger: bool, now: int, a: Application, commit: bool, clock: int)
    ensures var (q, ok) := Reconcile(p, gate, ledger, now, a, commit, clock);
      && q.mode == p.mode && q.file == p.file
      && (gate && ledger && Recent(p, now) ==> ok && q == p)
      && (!(gate && ledger && Recent(p, now)) ==>
            && (ok <==> gate && ledger && Confirms(p.mode, a) && commit)
            && q.health == (if ok then Verified else Degraded) && q.verifiedAt == (if ok then clock else 0)
            && (ok ==> q.lastMode == a.mode && q.lastApp == a.app))
      && (gate && ledger && !Recent(p, now) && Confirms(p.mode, a) ==> q.lastMode == a.mode && q.lastApp == a.app)
  {
    ApplyIff(p, p.mode, a);
    hide ApplyMode;
    hide Confirms;
  }

  /** The transition goes through. */
  predicate Accomplished(p: Policy, mode: Mode, o: Outcomes) {
    Confirms(mode, o.forward) && o.persist && o.commit
  }

  /**
   A mode request succeeds if and only if the mode is supported, gate and ledger allow it, and it is
   the current mode or its answers confirm it and it is persisted and committed. A transition that
   does not go through is rolled back, and ends verified if and only if the rollback's own answers
   confirm the old mode and it is written back.
   */
  lemma SetModeIff(p: Policy, mode: Mode, o: Outcomes)
    ensures var (q, ok) := SetMode(p, mode, o);
      && (ok <==> Supported(mode) && o.gate && o.ledger && (mode == p.mode || Accomplished(p, mode, o)))
      && (!Supported(mode) || !o.gate ==> q == p)
      && (Supported(mode) && o.gate && !o.ledger ==> q == p.(health := Degraded, verifiedAt := 0))
      && (ok && mode == p.mode ==> q == p)
      && (ok && mode != p.mode ==>
            && q.mode == mode && q.file == Names(mode) && q.health == Verified && q.verifiedAt == o.clock
            && q.lastMode == o.forward.mode && q.lastApp == o.forward.app
            && q.kernel == if o.status.Some? then o.status.value else mode == Sovereign)
  {
    ApplyIff(p, mode, o.forward);
    hide ApplyMode;
    hide Confirms;
    hide Abandon;
  }

  lemma AbandonIff(p: Policy, o: Outcomes)
    ensures var q := Abandon(p, o);
      && q.mode == p.mode
      && (q.health == Verified <==> Confirms(p.mode, o.back) && o.persistBack)
      && (q.health != Verified ==> q.health == Degraded)
      && q.verifiedAt == (if q.health == Verified then o.clock else 0)
      && q.file == (if o.persistBack then Names(p.mode) else p.file)
      && (q.health == Verified ==> q.lastMode == o.back.mode && q.lastApp == o.back.app)
      && (o.status.Some? ==> q.kernel == o.status.value)
      && (o.status.None? && q.health == Verified ==> q.kernel == (p.mode == Sovereign))
  {
    ApplyIff(p, p.mode, o.back);
    hide ApplyMode;
    hide Confirms;
  }

  lemma FailedTransitionIff(p: Policy, mode: Mode, o: Outcomes)
    requires Supported(mode) && o.gate && o.ledger && mode != p.mode && !Accomplished(p, mode, o)
    ensures var q := SetMode(p, mode, o).0;
      && q.mode == p.mode
      && (q.health == Verified <==> Confirms(p.mode, o.back) && o.persistBack)
      && (q.health != Verified ==> q.health == Degraded)
      && q.verifiedAt == (if q.health == Verified then o.clock else 0)
      && q.file == (if o.persistBack then Names(p.mode)
                    else if Confirms(mode, o.forward) && o.persist then Names(mode) else p.file)
      && (q.health == Verified ==> q.lastMode == o.back.mode && q.lastApp == o.back.app)
      && (o.status.Some? ==> q.kernel == o.status.value)
      && (o.status.None? && q.health == Verified ==> q.kernel == (p.mode == Sovereign))
  {
    ApplyIff(p, mode, o.forward);
    var q := ApplyMode(p, mode, o.forward).0;
    AbandonIff(q, o);
    AbandonIff(Persist(q, mode, true).(rollbackUnwritten := !o.persistBack), o);
    hide ApplyMode;
    hide Confirms;
    hide Abandon;
  }

  /** The application-control answer fits the mode. */
  predicate Fits(mode: Mode, answer: Option<AppAnswer>) {
    && answer.Some?
    && (mode == Sovereign ==> answer.value.enforced && answer.value.kernel)
    && (mode != Sovereign ==> !answer.value.enforced && !answer.value.kernel)
  }

  /** An allow-list change succeeds exactly if the list was changed and application control fits; else it degrades. */
  lemma SetApplicationIff(p: Policy, gate: bool, listed: bool, answer: Option<AppAnswer>, clock: int)
    ensures var (q, ok) := SetApplication(p, gate, listed, answer, clock);
      && (ok <==> gate && listed && Fits(p.mode, answer))
      && (!gate || !listed ==> q == p)
      && (gate && listed ==>
            && q.lastApp == answer && q.health == (if ok then p.health else Degraded)
            && q.verifiedAt == (if ok then p.verifiedAt else 0))
      && (ok ==> q.kernel == (p.mode == Sovereign)) && q.mode == p.mode && q.file == p.file
  {
  }

  /** A start reads the mode file, falls back to guarded, and claims nothing. */
  lemma StartsUnverified(f: File, lastMode: Option<ModeAnswer>, lastApp: Option<AppAnswer>)
    ensures var p := Start(f, lastMode, lastApp);
      && p.health == Starting && p.file == f
      && p.mode == (match f
         case NoFile => Guarded
         case Names(m) => if m == Monitor || m == Guarded || m == Sovereign then m else Guarded)
  {
  }
}
