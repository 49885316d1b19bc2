/**
 What each request and each pass of the health loop does, said in the live facts,
 the times and the outcomes of writes alone: when arming ends, when it begins,
 and what a caller gets.
 */
module KineticRequests {
  import opened Wrappers
  import opened KineticConfig
  import opened KineticArming

  // ---------------------------------------------------------------- when arming ends

  /** The operator's auto-disarm window, if any, has passed since the engine was armed. */
  predicate WindowOver(k: Kinetic, now: int) {
    k.config.autoDisarmSeconds > 0 && now - k.armedAt >= k.config.autoDisarmSeconds * SECOND
  }

  /**
   A pass ends effective arming if and only if the auto-disarm window is over, or the
   requirements do not hold and were found lost 20 seconds or more ago. The window also
   withdraws the intent; a loss keeps it.
   */
  lemma PassEndsArmingIff(k: Kinetic, now: int, clock: int, ok: bool)
    requires k.config.Valid() && k.armed && k.armedAt > 0
    ensures var r := Reconcile(k, now, clock, ok);
      && (!r.armed <==> WindowOver(k, now) || (!Ready(k.live) && k.lostSince != 0 && now - k.lostSince >= 20 * SECOND))
      && (r.desired <==> k.desired && !WindowOver(k, now))
      && r.rearm == (if r.armed then k.rearm else if WindowOver(k, now) then Idle else Pending)
      && r.nextAttempt == (if WindowOver(k, now) then 0 else k.nextAttempt)
      && (r.armed ==> r.armedAt == k.armedAt && r.config == k.config
                      && r.lostSince == if Ready(k.live) then 0 else if k.lostSince == 0 then now else k.lostSince)
  {
  }

  /** Armed before the passes and after each of them. */
  ghost predicate ArmedThroughout(k: Kinetic, passes: seq<Pass>) {
    forall n :: 0 <= n <= |passes| ==> Passes(k, passes[..n]).armed
  }

  /** All passes from `i` to `j` find the requirements lost. */
  ghost predicate LostBetween(passes: seq<Pass>, i: int, j: int) {
    0 <= i <= j < |passes| && forall m :: i <= m <= j ==> !Ready(passes[m].live)
  }

  ghost predicate InOrder(passes: seq<Pass>) {
    && (forall i :: 0 <= i < |passes| ==> passes[i].now > 0)
    && (forall i, j :: 0 <= i <= j < |passes| ==> passes[i].now <= passes[j].now)
  }

  /** Where the lost stretch that ends before pass `n` begins; `n` if there is none. */
  function LostFrom(passes: seq<Pass>, n: nat): (start: nat)
    requires n <= |passes|
    ensures start <= n && (start < n ==> LostBetween(passes, start, n - 1))
    ensures start > 0 && start < n ==> Ready(passes[start - 1].live)
    ensures n > 0 ==> (start == n <==> Ready(passes[n - 1].live))
  {
    if n == 0 || Ready(passes[n - 1].live) then n else LostFrom(passes, n - 1)
  }

  /** No pass up to `n` comes after the window, or 20 seconds into a lost stretch. */
  ghost predicate NothingDue(k: Kinetic, passes: seq<Pass>, n: nat)
    requires n <= |passes|
  {
    && (forall j :: 0 <= j < n ==> !WindowOver(k, passes[j].now))
    && (forall j :: 0 <= j < n ==> ShortAt(passes, j))
  }

  /** What an engine that is still armed after `n` passes remembers. */
  ghost predicate Remembers(k: Kinetic, r: Kinetic, passes: seq<Pass>, n: nat)
    requires n <= |passes|
  {
    var start := LostFrom(passes, n);
    && r.armed && r.armedAt == k.armedAt && r.config == k.config
    && r.lostSince == if start == n then 0 else passes[start].now
  }

  /** No lost stretch that ends with pass `j` spans 20 seconds. */
  ghost predicate ShortAt(passes: seq<Pass>, j: int) {
    forall i :: LostBetween(passes, i, j) ==> passes[j].now - passes[i].now < 20 * SECOND
  }

  lemma StretchContains(passes: seq<Pass>, i: int, n: nat)
    requires n < |passes| && LostBetween(passes, i, n)
    ensures LostFrom(passes, n + 1) <= i
  {
    hide Ready;
    var start := LostFrom(passes, n + 1);
    assert 0 < start <= n ==> Ready(passes[start - 1].live);
  }

  /** The longest stretch decides. */
  lemma ShortIff(passes: seq<Pass>, n: nat)
    requires n < |passes| && InOrder(passes)
    ensures var start := LostFrom(passes, n + 1);
      ShortAt(passes, n) <==> (start <= n ==> passes[n].now - passes[start].now < 20 * SECOND)
  {
    hide Ready;
    var start := LostFrom(passes, n + 1);
    if start <= n {
      assert LostBetween(passes, start, n);
    }
    hide LostFrom;
    forall i | LostBetween(passes, i, n) ensures start <= i && passes[start].now <= passes[i].now {
      StretchContains(passes, i, n);
    }
  }

  lemma StretchDue(k: Kinetic, passes: seq<Pass>, n: nat)
    requires n < |passes| && InOrder(passes) && NothingDue(k, passes, n)
    ensures var start := LostFrom(passes, n + 1);
      NothingDue(k, passes, n + 1) <==>
        !WindowOver(k, passes[n].now) && (start <= n ==> passes[n].now - passes[start].now < 20 * SECOND)
  {
    ShortIff(passes, n);
    hide LostFrom;
    hide ShortAt;
    hide WindowOver;
    hide InOrder;
  }

  lemma PassRemembers(k: Kinetic, r: Kinetic, passes: seq<Pass>, n: nat)
    requires n < |passes| && InOrder(passes) && Remembers(k, r, passes, n) && NothingDue(k, passes, n)
    requires k.config.Valid() && k.armedAt > 0
    ensures var p := passes[n];
      var r' := Reconcile(r.(live := p.live), p.now, p.clock, p.ok);
      && (r'.armed <==> NothingDue(k, passes, n + 1))
      && (r'.armed ==> Remembers(k, r', passes, n + 1))
  {
    var p := passes[n];
    PassEndsArmingIff(r.(live := p.live), p.now, p.clock, p.ok);
    StretchDue(k, passes, n);
    hide Reconcile;
    hide NothingDue;
    hide Ready;
  }

  lemma {:induction false} ArmedAfter(k: Kinetic, passes: seq<Pass>, n: nat)
    requires n <= |passes| && InOrder(passes) && k.config.Valid() && k.armed && k.armedAt > 0 && k.lostSince == 0
    ensures NothingDue(k, passes, n) ==> Remembers(k, Passes(k, passes[..n]), passes, n)
    ensures n > 0 && NothingDue(k, passes, n - 1) && !NothingDue(k, passes, n) ==> !Passes(k, passes[..n]).armed
  {
    hide Reconcile;
    hide ShortAt;
    hide Ready;
    hide WindowOver;
    if n > 0 {
      ArmedAfter(k, passes, n - 1);
      assert passes[..n][..n - 1] == passes[..n - 1];
      if NothingDue(k, passes, n - 1) {
        PassRemembers(k, Passes(k, passes[..n - 1]), passes, n - 1);
      }
    }
  }

  lemma {:induction false} FirstDue(k: Kinetic, passes: seq<Pass>, n: nat) returns (first: nat)
    requires n <= |passes| && !NothingDue(k, passes, n)
    ensures 0 < first <= n && NothingDue(k, passes, first - 1) && !NothingDue(k, passes, first)
  {
    hide ShortAt;
    hide Ready;
    hide WindowOver;
    if NothingDue(k, passes, n - 1) {
      first := n;
    } else {
      first := FirstDue(k, passes, n - 1);
    }
  }

  lemma AllShort(passes: seq<Pass>)
    ensures (forall j :: 0 <= j < |passes| ==> ShortAt(passes, j)) <==>
      (forall i, j :: LostBetween(passes, i, j) ==> passes[j].now - passes[i].now < 20 * SECOND)
  {
    hide Ready;
    if forall j :: 0 <= j < |passes| ==> ShortAt(passes, j) {
      forall i, j | LostBetween(passes, i, j) ensures passes[j].now - passes[i].now < 20 * SECOND {
        assert ShortAt(passes, j);
      }
    }
  }

  /**
   An armed engine stays armed through passes in order if and only if no pass comes after the
   auto-disarm window and no stretch of passes that find the requirements lost spans 20 seconds.
   */
  lemma StaysArmedIff(k: Kinetic, passes: seq<Pass>)
    requires InOrder(passes) && k.config.Valid() && k.armed && k.armedAt > 0 && k.lostSince == 0
    ensures ArmedThroughout(k, passes) <==>
      && (forall j :: 0 <= j < |passes| ==> !WindowOver(k, passes[j].now))
      && (forall i, j :: LostBetween(passes, i, j) ==> passes[j].now - passes[i].now < 20 * SECOND)
  {
    hide Reconcile;
    hide Ready;
    hide WindowOver;
    AllShort(passes);
    hide ShortAt;
    if NothingDue(k, passes, |passes|) {
      forall n | 0 <= n <= |passes| ensures Passes(k, passes[..n]).armed {
        ArmedAfter(k, passes, n);
      }
    } else {
      var first := FirstDue(k, passes, |passes|);
      ArmedAfter(k, passes, first);
    }
  }

  /** The same after any run of whole calls that leaves the engine armed and not noticing a loss. */
  lemma RunStaysArmedIff(d: Disk, hasMonitor: bool, actions: seq<Action>, passes: seq<Pass>)
    requires (forall a :: a in actions ==> Timed(a)) && InOrder(passes)
    requires var k := RunFrom(d, hasMonitor, actions); k.armed && k.lostSince == 0
    ensures var k := RunFrom(d, hasMonitor, actions);
      ArmedThroughout(k, passes) <==>
        && (forall j :: 0 <= j < |passes| ==> !WindowOver(k, passes[j].now))
        && (forall i, j :: LostBetween(passes, i, j) ==> passes[j].now - passes[i].now < 20 * SECOND)
  {
    EveryRunIsConsistent(d, hasMonitor, actions);
    hide RunFrom;
    StaysArmedIff(RunFrom(d, hasMonitor, actions), passes);
  }

  // ---------------------------------------------------------------- when arming begins

  /**
   A pass arms if and only if there is an intent, its retry time has come, the requirements hold
   and the write succeeds; it is then armed as of that moment and the file says so.
   */
  lemma PassArmsIff(k: Kinetic, now: int, clock: int, ok: bool)
    requires Consistent(k) && !k.armed
    ensures var r := Reconcile(k, now, clock, ok);
      && (r.armed <==> k.desired && (k.nextAttempt == 0 || now >= k.nextAttempt) && Ready(k.live) && ok)
      && (r.armed ==>
            && r.armedAt == clock && r.disk == Stored(true, k.config) && r.lostSince == 0
            && r.rearm == ReArmed && r.nextAttempt == 0)
      && (!r.armed ==> r.desired == k.desired && r.disk == k.disk)
      && (!r.armed && k.desired && (k.nextAttempt == 0 || now >= k.nextAttempt) ==>
            r == k.(rearm := Pending, nextAttempt := now + 30 * SECOND))
      && (!k.desired || (k.nextAttempt != 0 && now < k.nextAttempt) ==> r == k)
  {
  }

  /** After a failed attempt no pass arms for 30 seconds. */
  lemma RetryWaits(k: Kinetic, now: int, clock: int, ok: bool, p: Pass)
    requires Consistent(k) && !k.armed && k.desired && (k.nextAttempt == 0 || now >= k.nextAttempt) && now > 0
    requires !(Ready(k.live) && ok) && p.now < now + 30 * SECOND
    ensures !Reconcile(Reconcile(k, now, clock, ok).(live := p.live), p.now, p.clock, p.ok).armed
  {
    PassArmsIff(k, now, clock, ok);
    var r := Reconcile(k, now, clock, ok);
    assert r.nextAttempt != 0;
    hide Ready;
  }

  // ---------------------------------------------------------------- what a caller gets

  /** An arming request: armed exactly if it already was, or monitor, requirements and write allow it. */
  lemma ArmRequest(k: Kinetic, ok: bool, clock: int)
    requires Consistent(k)
    ensures var r := SetArmed(k, true, ok, clock);
      && (r.armed <==> k.armed || (k.monitor.Some? && Ready(k.live) && ok))
      && (r.armed && !k.armed ==>
            && r.desired && r.armedAt == clock && r.lostSince == 0 && r.disk == Stored(true, k.config)
            && r.rearm == Idle && r.nextAttempt == 0)
      && (r.armed == k.armed ==> r == k)
  {
  }

  /** Any disarming request disarms; the file says so if the write succeeds and is untouched if not. */
  lemma DisarmRequest(k: Kinetic, ok: bool, now: int, clock: int, ok2: bool)
    requires Consistent(k)
    ensures var a, b := SetArmed(k, false, ok, clock), SetDesired(k, false, ok, now, clock, ok2);
      && !a.armed && !a.desired && !b.armed && !b.desired
      && b.disk == (if ok then Stored(false, k.config) else k.disk)
      && a.disk == (if ok && k.desired then Stored(false, k.config) else k.disk)
      && a.config == k.config && b.config == k.config
      && b.rearm == Idle && b.nextAttempt == 0 && b.armedAt == 0 && b.lostSince == 0
  {
  }

  /** A request for arming after restart: recorded unless it cannot be, and effective if all is ready. */
  lemma IntentRequest(k: Kinetic, ok: bool, now: int, clock: int, ok2: bool)
    requires Consistent(k)
    ensures var r := SetDesired(k, true, ok, now, clock, ok2);
      && (r.desired <==> k.desired || (ok && (Ready(k.live) || k.monitor.Some?)))
      && (r.armed <==> k.armed || (Ready(k.live) && ok))
      && (r.armed && !k.armed ==> r.armedAt == clock && r.rearm == Idle && r.nextAttempt == 0)
      && (!r.armed && ok && k.monitor.Some? ==> r.rearm == Pending && r.nextAttempt == now + 30 * SECOND)
      && (r.desired && !k.desired ==> r.disk == Stored(true, k.config))
  {
    hide FirewallTrue;
  }

  /** A policy change: installed everywhere or nowhere; an armed engine may find its new window over at once. */
  lemma ChangeRequest(k: Kinetic, config: Config, ok: bool, now: int, clock: int, ok2: bool)
    requires Consistent(k) && 0 < now <= clock
    ensures var r := SetConfig(k, config, ok, now, clock, ok2);
      var installs := k.monitor.Some? && config.Valid() && config != k.config && ok;
      && r.config == (if installs then config else k.config)
      && (!installs ==> r == k)
      && (installs ==> r.monitor == Some(config) && LoadedConfig(r.disk) == config)
      && (installs && k.armed && WindowOver(k.(config := config), now) ==> !r.armed && !r.desired)
      && (installs && k.armed && !WindowOver(k.(config := config), now) ==> r.desired)
  {
    SetConfigKeeps(k, config, ok, now, clock, ok2);
    hide FirewallTrue;
  }

  /** What is written is what a restart loads; a file that is missing, unusable or invalid loads the default policy. */
  lemma WrittenReloads(k: Kinetic, wanted: bool, hasMonitor: bool)
    requires k.config.Valid()
    ensures var r := Restart(Written(k, wanted), hasMonitor);
      && r.config == k.config && r.desired == wanted && !r.armed
      && r.monitor == (if hasMonitor then Some(k.config) else None)
      && r.rearm == (if wanted then Pending else Idle) && r.nextAttempt == 0
    ensures !(k.disk.Stored? && k.disk.config.Valid()) ==>
      Restart(k, hasMonitor).config == DEFAULT_CONFIG && !Restart(k, hasMonitor).desired
  {
  }

  /** A firewall application ends verified if and only if the feed is complete and the answer repeats every field. */
  lemma AppliesIff(k: Kinetic, f: Feed, r: Option<FirewallResult>)
    ensures var e := EndApply(BeginApply(k, f), f, r).live.enforcement;
      && (IsVerified(e.state) <==>
            && f.indicators > 0 && f.feedsTotal > 0 && f.feedsReady == f.feedsTotal && f.generation.Sha?
            && r.Some? && r.value.indicators == f.indicators && r.value.generation == f.generation
            && r.value.protection == f.protection && r.value.prefixes == f.prefixes
            && r.value.rules > 0 && r.value.shards > 0)
      && e.desired == f.generation
      && (IsVerified(e.state) ==>
            e.active == f.generation && (e.state == VerifiedCleanupPending <==> r.value.cleanupPending))
      && (!IsVerified(e.state) ==> e.state == Degraded && e.active == k.live.enforcement.active)
  {
  }
}
