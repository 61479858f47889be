module Supervisor {
  // The Telegram bot supervisor. `Fields` are the struct fields the two locks
  // protect; a section run under `mu` is one function on them, which the class
  // performs in place. `transitionMu` is held across several such sections, so
  // the interleaved system carries it explicitly. Factory calls happen between
  // steps and may return at any later time.

  import opened Options

  type RunId = nat
  type ApplyId = nat
  type RetryId = nat

  datatype Config = Config(token: string, admins: seq<int>)

  /** A retry identity and the configuration snapshot it launches. */
  datatype Spec = Spec(generation: nat, retrySeq: nat, config: Config)

  datatype Fields = Fields(
    config: Config,
    generation: nat,
    requestSeq: nat,
    runner: Option<RunId>,
    running: bool,
    retrying: bool,
    retrySeq: nat)

  // ---------- The sections run under mu ----------

  predicate IsCurrent(s: Fields, spec: Spec) {
    s.generation == spec.generation && s.retrySeq == spec.retrySeq && s.retrying
  }

  /** `scheduleRetryLocked`. */
  function Scheduled(s: Fields): (Fields, Spec) {
    (s.(retrySeq := s.retrySeq + 1, retrying := true), Spec(s.generation, s.retrySeq + 1, s.config))
  }

  function Started(s: Fields, run: RunId): Fields {
    s.(runner := Some(run), running := true)
  }

  function Detached(s: Fields): Fields {
    s.(runner := None, running := false)
  }

  /** `runAndObserve`: the runner's own exit is recorded only while it is still the current one. */
  function Observed(s: Fields, run: RunId): Fields {
    if s.runner == Some(run) then Detached(s) else s
  }

  function RetryFailed(s: Fields, spec: Spec): Fields {
    if IsCurrent(s, spec) then s.(running := false) else s
  }

  function RetryCleared(s: Fields, spec: Spec): Fields {
    if IsCurrent(s, spec) then s.(retrying := false) else s
  }

  function Allocated(s: Fields): Fields {
    s.(requestSeq := s.requestSeq + 1)
  }

  function Committed(s: Fields, config: Config): Fields {
    s.(config := config, generation := s.generation + 1, retrying := false)
  }

  // ---------- The interleaved system ----------

  function InitialFields(config: Config): Fields {
    Fields(config, 1, 0, None, false, false, 0)
  }

  datatype RunPhase = Executing | Returned | Closed

  /** A runner: the configuration it serves, and whether its admins can be replaced while it runs. */
  datatype Run = Run(config: Config, updater: bool, phase: RunPhase)

  datatype After = Nothing | LaunchRetry(spec: Spec) | StartCandidate

  datatype ApplyPhase =
    | Preparing                                      // numbered; a candidate may be under construction
    | Ready                                          // about to take the transition lock
    | Checked | Saved                                // transition lock held
    | Stopping(previous: Option<RunId>, after: After)    // transition lock held, old runner told to stop
    | Starting                                       // transition lock held, old runner gone
    | Over

  datatype Apply = Apply(number: nat, base: string, next: Config, needsCandidate: bool, candidate: Option<bool>, phase: ApplyPhase) {
    predicate AdminOnly() {
      next.token == base
    }

    predicate HoldsLock() {
      phase.Checked? || phase.Saved? || phase.Stopping? || phase.Starting?
    }

    predicate Uncommitted() {
      phase.Preparing? || phase.Ready? || phase.Checked? || phase.Saved?
    }
  }

  datatype RetryPhase = Looping | Built(updater: bool) | Dead

  datatype Retry = Retry(spec: Spec, phase: RetryPhase)

  datatype Sys = Sys(
    f: Fields,
    persisted: Option<Config>,      // what SaveTGBot wrote last, if it has written since boot
    holder: Option<ApplyId>,        // transitionMu
    parentDone: bool,
    runs: map<RunId, Run>,
    applies: map<ApplyId, Apply>,
    retries: map<RetryId, Retry>,
    commits: seq<nat>)              // request numbers in commit order

  datatype Step =
    | Start(r: RetryId)
    | RetryBuilds(r: RetryId, updater: bool)
    | RetryFails(r: RetryId, permanent: bool)
    | RetryEnds(r: RetryId)
    | RetryActivates(r: RetryId, run: RunId)
    | RunReturns(run: RunId)
    | Observe(run: RunId)
    | Number(a: ApplyId, token: Option<string>, admins: seq<int>)
    | CandidateReturns(a: ApplyId, ok: bool, updater: bool)
    | Check(a: ApplyId)
    | Save(a: ApplyId, ok: bool)
    | Commit(a: ApplyId)
    | OldRunnerGone(a: ApplyId, r: RetryId)
    | CandidateStarts(a: ApplyId, run: RunId)
    | ParentCancelled

  predicate Init(s: Sys) {
    && s.f == InitialFields(s.f.config)
    && s.persisted.None? && s.holder.None?
    && s.runs == map[] && s.applies == map[] && s.retries == map[] && s.commits == []
  }

  function WithApply(s: Sys, a: ApplyId, phase: ApplyPhase): Sys
    requires a in s.applies
  {
    s.(applies := s.applies[a := s.applies[a].(phase := phase)])
  }

  /** Where the commit section of `Apply` leaves the system, in its four branches. */
  function AfterCommit(s: Sys, a: ApplyId): Sys
    requires a in s.applies
  {
    var apply := s.applies[a];
    var f := Committed(s.f, apply.next);
    var t := s.(commits := s.commits + [apply.number]);
    if apply.AdminOnly() && f.runner.Some? && f.runner.value in s.runs && s.runs[f.runner.value].updater then
      var live := f.runner.value;
      WithApply(t.(f := f, holder := None, runs := s.runs[live := s.runs[live].(config := Config(s.runs[live].config.token, apply.next.admins))]), a, Over)
    else if apply.next.token == "" then
      WithApply(t.(f := Detached(f)), a, Stopping(f.runner, Nothing))
    else if apply.AdminOnly() && apply.candidate.None? then
      var (g, spec) := Scheduled(Detached(f));
      WithApply(t.(f := g), a, Stopping(f.runner, LaunchRetry(spec)))
    else
      WithApply(t.(f := Detached(f)), a, Stopping(f.runner, StartCandidate))
  }

  predicate Starts(s: Sys, r: RetryId, s': Sys) {
    && s.holder.None? && r !in s.retries
    && s' == if s.f.running || s.f.retrying || s.f.config.token == "" || s.parentDone then s
             else var (f, spec) := Scheduled(s.f); s.(f := f, retries := s.retries[r := Retry(spec, Looping)])
  }

  predicate RetryMoves(s: Sys, step: Step, s': Sys) {
    match step
    case RetryBuilds(r, updater) =>
      && r in s.retries && s.retries[r].phase.Looping?
      && s' == s.(retries := s.retries[r := s.retries[r].(phase := Built(updater))])
    case RetryFails(r, permanent) =>
      && r in s.retries && s.retries[r].phase.Looping?
      && var spec := s.retries[r].spec;
         s' == if IsCurrent(s.f, spec) && !permanent then s.(f := RetryFailed(s.f, spec))
               else s.(f := RetryCleared(RetryFailed(s.f, spec), spec), retries := s.retries[r := Retry(spec, Dead)])
    case RetryEnds(r) =>
      && r in s.retries && !s.retries[r].phase.Dead?
      && s' == s.(f := RetryCleared(s.f, s.retries[r].spec), retries := s.retries[r := s.retries[r].(phase := Dead)])
    case ParentCancelled =>
      s' == s.(parentDone := true)
    case _ => false
  }

  /** `activateRetryResult`. */
  predicate Activates(s: Sys, r: RetryId, run: RunId, s': Sys) {
    && s.holder.None? && r in s.retries && s.retries[r].phase.Built? && run !in s.runs
    && IsCurrent(s.f, s.retries[r].spec) && !s.parentDone
    && s' == s.(f := Started(s.f.(retrying := false), run),
                runs := s.runs[run := Run(s.retries[r].spec.config, s.retries[r].phase.updater, Executing)],
                retries := s.retries[r := s.retries[r].(phase := Dead)])
  }

  predicate RunnerMoves(s: Sys, step: Step, s': Sys) {
    match step
    case RunReturns(run) =>
      && run in s.runs && s.runs[run].phase.Executing?
      && s' == s.(runs := s.runs[run := s.runs[run].(phase := Returned)])
    case Observe(run) =>
      && run in s.runs && s.runs[run].phase.Returned?
      && s' == s.(f := Observed(s.f, run), runs := s.runs[run := s.runs[run].(phase := Closed)])
    case _ => false
  }

  /** The first locked section of `Apply`. */
  predicate Numbers(s: Sys, a: ApplyId, token: Option<string>, admins: seq<int>, s': Sys) {
    && s.holder.None? && a !in s.applies
    && var f := Allocated(s.f);
       var next := Config(if token.Some? then token.value else s.f.config.token, admins);
       var canUpdate := s.f.runner.Some? && s.f.runner.value in s.runs && s.runs[s.f.runner.value].updater;
       var needs := next.token != "" && (next.token != s.f.config.token || (s.f.runner.Some? && !canUpdate));
       s' == s.(f := f, applies := s.applies[a := Apply(f.requestSeq, s.f.config.token, next, needs, None, if needs then Preparing else Ready)])
  }

  predicate CandidateReturned(s: Sys, a: ApplyId, ok: bool, updater: bool, s': Sys) {
    && a in s.applies && s.applies[a].phase.Preparing?
    && s' == if ok then s.(applies := s.applies[a := s.applies[a].(candidate := Some(updater), phase := Ready)])
             else WithApply(s, a, Over)
  }

  predicate Checks(s: Sys, a: ApplyId, s': Sys) {
    && s.holder.None? && a in s.applies && s.applies[a].phase.Ready?
    && s' == if s.applies[a].number != s.f.requestSeq || s.parentDone then WithApply(s, a, Over)
             else WithApply(s.(holder := Some(a)), a, Checked)
  }

  predicate Saves(s: Sys, a: ApplyId, ok: bool, s': Sys) {
    && a in s.applies && s.applies[a].phase.Checked?
    && s' == if ok then WithApply(s.(persisted := Some(s.applies[a].next)), a, Saved)
             else WithApply(s.(holder := None), a, Over)
  }

  predicate OldRunnerIsGone(s: Sys, a: ApplyId, r: RetryId, s': Sys) {
    && a in s.applies && s.applies[a].phase.Stopping?
    && var Stopping(previous, after) := s.applies[a].phase;
       && (previous.Some? ==> previous.value in s.runs && s.runs[previous.value].phase.Closed?)
       && (match after
           case Nothing => s' == WithApply(s.(holder := None), a, Over)
           case LaunchRetry(spec) => r !in s.retries && s' == WithApply(s.(holder := None, retries := s.retries[r := Retry(spec, Looping)]), a, Over)
           case StartCandidate => s' == WithApply(s, a, Starting))
  }

  predicate CandidateStarted(s: Sys, a: ApplyId, run: RunId, s': Sys) {
    && a in s.applies && s.applies[a].phase.Starting? && run !in s.runs
    && var apply := s.applies[a];
       s' == WithApply(s.(holder := None, f := Started(s.f, run),
                          runs := s.runs[run := Run(apply.next, apply.candidate == Some(true), Executing)]), a, Over)
  }

  predicate Next(s: Sys, step: Step, s': Sys) {
    match step
    case Start(r) => Starts(s, r, s')
    case RetryActivates(r, run) => Activates(s, r, run, s')
    case RunReturns(_) => RunnerMoves(s, step, s')
    case Observe(_) => RunnerMoves(s, step, s')
    case Number(a, token, admins) => Numbers(s, a, token, admins, s')
    case CandidateReturns(a, ok, updater) => CandidateReturned(s, a, ok, updater, s')
    case Check(a) => Checks(s, a, s')
    case Save(a, ok) => Saves(s, a, ok, s')
    case Commit(a) => a in s.applies && s.applies[a].phase.Saved? && s' == AfterCommit(s, a)
    case OldRunnerGone(a, r) => OldRunnerIsGone(s, a, r, s')
    case CandidateStarts(a, run) => CandidateStarted(s, a, run, s')
    case _ => RetryMoves(s, step, s')
  }

  ghost predicate IsRun(states: seq<Sys>, steps: seq<Step>) {
    && |states| == |steps| + 1
    && Init(states[0])
    && forall i :: 0 <= i < |steps| ==> Next(states[i], steps[i], states[i + 1])
  }

  // ---------- The invariant ----------

  /** The current runner exists, has not been closed, and serves the committed configuration. */
  predicate RunnerInv(s: Sys) {
    && (s.f.running <==> s.f.runner.Some?)
    && (s.f.retrying ==> s.f.runner.None?)
    && (s.f.runner.Some? ==>
          && s.f.runner.value in s.runs && !s.runs[s.f.runner.value].phase.Closed?
          && s.runs[s.f.runner.value].config == s.f.config && s.f.config.token != "")
  }

  predicate BeingStopped(s: Sys, run: RunId) {
    && s.holder.Some? && s.holder.value in s.applies
    && s.applies[s.holder.value].phase.Stopping? && s.applies[s.holder.value].phase.previous == Some(run)
  }

  /** Whatever executes is the current runner or the one the lock holder is waiting for. */
  ghost predicate ExecutingInv(s: Sys) {
    forall run :: run in s.runs && s.runs[run].phase.Executing? ==> s.f.runner == Some(run) || BeingStopped(s, run)
  }

  /** During a transition the holder's position says what is live and what is on disk. */
  ghost predicate HolderInv(s: Sys) {
    && (s.holder.Some? ==> s.holder.value in s.applies && s.applies[s.holder.value].HoldsLock())
    && (forall a :: a in s.applies && s.applies[a].HoldsLock() ==> s.holder == Some(a))
    && (s.holder.Some? && !s.applies[s.holder.value].Uncommitted() ==>
          s.f.runner.None? && s.applies[s.holder.value].next == s.f.config)
    && (s.persisted.Some? ==>
          s.persisted.value == s.f.config ||
          (s.holder.Some? && s.applies[s.holder.value].phase.Saved? && s.persisted.value == s.applies[s.holder.value].next))
    && (s.holder.Some? && s.applies[s.holder.value].phase.Saved? ==> s.persisted == Some(s.applies[s.holder.value].next))
  }

  predicate SpecInv(s: Sys, spec: Spec) {
    && spec.generation <= s.f.generation && spec.retrySeq <= s.f.retrySeq
    && (spec.generation == s.f.generation ==> spec.config == s.f.config && s.f.config.token != "")
  }

  predicate ApplyInv(s: Sys, apply: Apply) {
    && apply.number <= s.f.requestSeq
    && (apply.Uncommitted() ==> apply.number !in s.commits)
    && (apply.Uncommitted() && apply.number == s.f.requestSeq ==> apply.base == s.f.config.token)
    && (apply.phase.Checked? || apply.phase.Saved? ==> apply.number == s.f.requestSeq)
    && (apply.next.token != "" && !apply.AdminOnly() ==> apply.needsCandidate)
    && (apply.needsCandidate && !apply.phase.Preparing? && !apply.phase.Over? ==> apply.candidate.Some?)
    && (apply.phase.Starting? || (apply.phase.Stopping? && apply.phase.after.StartCandidate?) ==> apply.candidate.Some?)
    && (apply.phase.Stopping? && apply.phase.after.LaunchRetry? ==> SpecInv(s, apply.phase.after.spec))
    && (apply.phase.Starting? || (apply.phase.Stopping? && apply.phase.after.StartCandidate?) ==> s.f.config.token != "")
    && (apply.phase.Starting? || (apply.phase.Stopping? && !apply.phase.after.LaunchRetry?) ==> !s.f.retrying)
  }

  ghost predicate CommitsInv(s: Sys) {
    && (forall i, j :: 0 <= i < j < |s.commits| ==> s.commits[i] < s.commits[j])
    && (forall i :: 0 <= i < |s.commits| ==> s.commits[i] <= s.f.requestSeq)
    && (forall a, b :: a in s.applies && b in s.applies && a != b ==> s.applies[a].number != s.applies[b].number)
  }

  ghost predicate Inv(s: Sys) {
    && RunnerInv(s)
    && ExecutingInv(s)
    && HolderInv(s)
    && (forall r :: r in s.retries ==> SpecInv(s, s.retries[r].spec))
    && (forall a :: a in s.applies ==> ApplyInv(s, s.applies[a]))
    && CommitsInv(s)
  }

  // ---------- Every step keeps it ----------

  ghost predicate SpecsInv(s: Sys) {
    forall r :: r in s.retries ==> SpecInv(s, s.retries[r].spec)
  }

  ghost predicate AppliesInv(s: Sys) {
    forall a :: a in s.applies ==> ApplyInv(s, s.applies[a])
  }

  /** One application moved from one phase to another; everything the other applications depend on is as it was. */
  predicate OnlyApplyMoved(s: Sys, a: ApplyId, s': Sys) {
    && a in s.applies && a in s'.applies
    && s'.applies == s.applies[a := s'.applies[a]]
    && s'.applies[a].number == s.applies[a].number
  }

  lemma SequenceNumbersStay(s: Sys, a: ApplyId, s': Sys)
    requires CommitsInv(s) && OnlyApplyMoved(s, a, s') && s'.commits == s.commits && s'.f.requestSeq == s.f.requestSeq
    ensures CommitsInv(s')
  {
    forall b, c | b in s'.applies && c in s'.applies && b != c
      ensures s'.applies[b].number != s'.applies[c].number
    {
      assert s'.applies[b].number == s.applies[b].number && s'.applies[c].number == s.applies[c].number;
    }
  }

  /** A retry's own steps touch two flags, and raise neither of them. */
  ghost predicate FlagsOnly(s: Sys, s': Sys) {
    && s'.f == s.f.(running := s'.f.running, retrying := s'.f.retrying)
    && (s'.f.retrying ==> s.f.retrying) && s'.applies == s.applies
    && (forall r :: r in s'.retries ==> r in s.retries && s'.retries[r].spec == s.retries[r].spec)
  }

  lemma RetryMoveTouchesFlags(s: Sys, step: Step, s': Sys)
    requires RetryMoves(s, step, s')
    ensures FlagsOnly(s, s') && s'.commits == s.commits
  {
  }

  lemma RetryMoveKeepsRunner(s: Sys, step: Step, s': Sys)
    requires RunnerInv(s) && ExecutingInv(s) && HolderInv(s) && CommitsInv(s) && RetryMoves(s, step, s')
    ensures RunnerInv(s') && ExecutingInv(s') && HolderInv(s') && CommitsInv(s')
  {
  }

  lemma FlagsKeepSpecsAndApplies(s: Sys, s': Sys)
    requires SpecsInv(s) && AppliesInv(s) && FlagsOnly(s, s') && s'.commits == s.commits
    ensures SpecsInv(s') && AppliesInv(s')
  {
    forall r | r in s'.retries
      ensures SpecInv(s', s'.retries[r].spec)
    {
      assert SpecInv(s, s.retries[r].spec);
    }
    forall a | a in s'.applies
      ensures ApplyInv(s', s'.applies[a])
    {
      assert ApplyInv(s, s.applies[a]);
    }
  }

  lemma RetryMoveKeepsInv(s: Sys, step: Step, s': Sys)
    requires Inv(s) && RetryMoves(s, step, s')
    ensures Inv(s')
  {
    RetryMoveKeepsRunner(s, step, s');
    RetryMoveTouchesFlags(s, step, s');
    FlagsKeepSpecsAndApplies(s, s');
  }

  lemma StartKeepsInv(s: Sys, r: RetryId, s': Sys)
    requires Inv(s) && Starts(s, r, s')
    ensures Inv(s')
  {
    forall q | q in s'.retries
      ensures SpecInv(s', s'.retries[q].spec)
    {
      assert q in s.retries ==> SpecInv(s, s.retries[q].spec);
    }
    forall a | a in s'.applies
      ensures ApplyInv(s', s'.applies[a])
    {
      assert ApplyInv(s, s.applies[a]);
    }
  }

  lemma ActivateKeepsInv(s: Sys, r: RetryId, run: RunId, s': Sys)
    requires Inv(s) && Activates(s, r, run, s')
    ensures Inv(s')
  {
    assert SpecInv(s, s.retries[r].spec);
    forall q | q in s'.retries
      ensures SpecInv(s', s'.retries[q].spec)
    {
      assert SpecInv(s, s.retries[q].spec);
    }
    forall a | a in s'.applies
      ensures ApplyInv(s', s'.applies[a])
    {
      assert ApplyInv(s, s.applies[a]);
    }
  }

  lemma RunnerMoveKeepsInv(s: Sys, step: Step, s': Sys)
    requires Inv(s) && RunnerMoves(s, step, s')
    ensures Inv(s')
  {
    forall q | q in s'.retries
      ensures SpecInv(s', s'.retries[q].spec)
    {
      assert SpecInv(s, s.retries[q].spec);
    }
    forall a | a in s'.applies
      ensures ApplyInv(s', s'.applies[a])
    {
      assert ApplyInv(s, s.applies[a]);
    }
    forall run | run in s'.runs && s'.runs[run].phase.Executing?
      ensures s'.f.runner == Some(run) || BeingStopped(s', run)
    {
      assert s.runs[run].phase.Executing?;
    }
  }

  lemma NumberKeepsInv(s: Sys, a: ApplyId, token: Option<string>, admins: seq<int>, s': Sys)
    requires Inv(s) && Numbers(s, a, token, admins, s')
    ensures Inv(s')
  {
    forall q | q in s'.retries
      ensures SpecInv(s', s'.retries[q].spec)
    {
      assert SpecInv(s, s.retries[q].spec);
    }
    forall b | b in s'.applies
      ensures ApplyInv(s', s'.applies[b])
    {
      assert b != a ==> ApplyInv(s, s.applies[b]);
    }
    forall b, c | b in s'.applies && c in s'.applies && b != c
      ensures s'.applies[b].number != s'.applies[c].number
    {
      assert b != a ==> ApplyInv(s, s.applies[b]);
      assert c != a ==> ApplyInv(s, s.applies[c]);
    }
  }

  lemma OthersKeepInv(s: Sys, a: ApplyId, s': Sys)
    requires AppliesInv(s) && SpecsInv(s) && OnlyApplyMoved(s, a, s')
    requires s'.f == s.f && s'.commits == s.commits && s'.retries == s.retries
    requires ApplyInv(s', s'.applies[a])
    ensures AppliesInv(s') && SpecsInv(s')
  {
    forall b | b in s'.applies
      ensures ApplyInv(s', s'.applies[b])
    {
      assert b != a ==> ApplyInv(s, s.applies[b]);
    }
    forall q | q in s'.retries
      ensures SpecInv(s', s'.retries[q].spec)
    {
      assert SpecInv(s, s.retries[q].spec);
    }
  }

  lemma CandidateReturnKeepsInv(s: Sys, a: ApplyId, ok: bool, updater: bool, s': Sys)
    requires Inv(s) && CandidateReturned(s, a, ok, updater, s')
    ensures Inv(s')
  {
    assert ApplyInv(s, s.applies[a]);
    OthersKeepInv(s, a, s');
    SequenceNumbersStay(s, a, s');
    assert !s.applies[a].HoldsLock();
  }

  lemma CheckKeepsInv(s: Sys, a: ApplyId, s': Sys)
    requires Inv(s) && Checks(s, a, s')
    ensures Inv(s')
  {
    assert ApplyInv(s, s.applies[a]);
    OthersKeepInv(s, a, s');
    SequenceNumbersStay(s, a, s');
    forall b | b in s'.applies && s'.applies[b].HoldsLock()
      ensures s'.holder == Some(b)
    {
      assert s.applies[b].HoldsLock() ==> s.holder == Some(b);
    }
  }

  lemma SaveKeepsInv(s: Sys, a: ApplyId, ok: bool, s': Sys)
    requires Inv(s) && Saves(s, a, ok, s')
    ensures Inv(s')
  {
    assert ApplyInv(s, s.applies[a]);
    assert s.holder == Some(a);
    OthersKeepInv(s, a, s');
    SequenceNumbersStay(s, a, s');
  }

  /** What the four branches of a commit have in common. */
  predicate CommitCommon(s: Sys, a: ApplyId, s': Sys) {
    && OnlyApplyMoved(s, a, s')
    && s'.f.config == s.applies[a].next && s'.f.generation == s.f.generation + 1 && s'.f.requestSeq == s.f.requestSeq
    && s'.f.retrySeq >= s.f.retrySeq
    && s'.retries == s.retries && s'.commits == s.commits + [s.applies[a].number]
    && s'.applies[a] == s.applies[a].(phase := s'.applies[a].phase)
  }

  predicate CommitEffect(s: Sys, a: ApplyId, s': Sys) {
    && CommitCommon(s, a, s')
    && (s'.applies[a].phase.Over? || s'.applies[a].phase.Stopping?)
    && (s'.applies[a].phase.Stopping? ==>
          && (s'.applies[a].phase.after.LaunchRetry? ==>
                s'.applies[a].phase.after.spec == Spec(s'.f.generation, s'.f.retrySeq, s'.f.config) && s'.f.config.token != "")
          && (s'.applies[a].phase.after.StartCandidate? ==> s'.f.config.token != "" && !(s.applies[a].AdminOnly() && s.applies[a].candidate.None?))
          && (!s'.applies[a].phase.after.LaunchRetry? ==> !s'.f.retrying))
  }

  lemma CommitHasCommon(s: Sys, a: ApplyId)
    requires a in s.applies && s.applies[a].phase.Saved?
    ensures CommitCommon(s, a, AfterCommit(s, a))
  {
  }

  lemma CommitHasEffect(s: Sys, a: ApplyId)
    requires a in s.applies && s.applies[a].phase.Saved?
    ensures CommitEffect(s, a, AfterCommit(s, a))
  {
    CommitHasCommon(s, a);
  }

  lemma CommitKeepsRunner(s: Sys, a: ApplyId)
    requires RunnerInv(s) && ExecutingInv(s) && HolderInv(s) && a in s.applies && s.applies[a].phase.Saved?
    requires ApplyInv(s, s.applies[a])
    ensures RunnerInv(AfterCommit(s, a)) && ExecutingInv(AfterCommit(s, a))
  {
    var s' := AfterCommit(s, a);
    assert s.holder == Some(a);
    forall run | run in s'.runs && s'.runs[run].phase.Executing?
      ensures s'.f.runner == Some(run) || BeingStopped(s', run)
    {
      assert s.runs[run].phase.Executing?;
    }
  }

  lemma CommitKeepsHolder(s: Sys, a: ApplyId)
    requires HolderInv(s) && a in s.applies && s.applies[a].phase.Saved?
    ensures HolderInv(AfterCommit(s, a))
  {
    var s' := AfterCommit(s, a);
    assert s.holder == Some(a);
    forall b | b in s'.applies && s'.applies[b].HoldsLock()
      ensures s'.holder == Some(b)
    {
      assert s.applies[b].HoldsLock() ==> s.holder == Some(b);
    }
  }

  lemma CommitKeepsApplies(s: Sys, a: ApplyId, s': Sys)
    requires AppliesInv(s) && HolderInv(s) && CommitsInv(s) && SpecsInv(s)
    requires CommitEffect(s, a, s') && s.applies[a].phase.Saved?
    ensures AppliesInv(s') && SpecsInv(s')
  {
    var apply := s.applies[a];
    assert ApplyInv(s, apply);
    forall b | b in s'.applies
      ensures ApplyInv(s', s'.applies[b])
    {
      assert ApplyInv(s, s.applies[b]);
      if b != a {
        assert !s.applies[b].HoldsLock();
        assert s.applies[b].number != apply.number;
      }
    }
    forall q | q in s'.retries
      ensures SpecInv(s', s'.retries[q].spec)
    {
      assert SpecInv(s, s.retries[q].spec);
    }
  }

  lemma CommitKeepsCommits(s: Sys, a: ApplyId, s': Sys)
    requires CommitsInv(s) && CommitEffect(s, a, s') && s.applies[a].phase.Saved? && ApplyInv(s, s.applies[a])
    ensures CommitsInv(s')
  {
    forall i | 0 <= i < |s.commits|
      ensures s.commits[i] < s.applies[a].number
    {
      assert s.commits[i] in s.commits;
    }
    forall b, c | b in s'.applies && c in s'.applies && b != c
      ensures s'.applies[b].number != s'.applies[c].number
    {
      assert s'.applies[b].number == s.applies[b].number && s'.applies[c].number == s.applies[c].number;
    }
  }

  lemma CommitKeepsInv(s: Sys, a: ApplyId)
    requires Inv(s) && a in s.applies && s.applies[a].phase.Saved?
    ensures Inv(AfterCommit(s, a))
  {
    var s' := AfterCommit(s, a);
    assert ApplyInv(s, s.applies[a]);
    CommitHasEffect(s, a);
    CommitKeepsRunner(s, a);
    CommitKeepsHolder(s, a);
    CommitKeepsApplies(s, a, s');
    CommitKeepsCommits(s, a, s');
  }

  lemma OldRunnerGoneKeepsSpecs(s: Sys, a: ApplyId, r: RetryId, s': Sys)
    requires AppliesInv(s) && SpecsInv(s) && OldRunnerIsGone(s, a, r, s')
    ensures SpecsInv(s')
  {
    assert ApplyInv(s, s.applies[a]);
    forall q | q in s'.retries
      ensures SpecInv(s', s'.retries[q].spec)
    {
      assert q in s.retries ==> SpecInv(s, s.retries[q].spec);
    }
  }

  lemma OldRunnerGoneKeepsApplies(s: Sys, a: ApplyId, r: RetryId, s': Sys)
    requires AppliesInv(s) && OldRunnerIsGone(s, a, r, s')
    ensures AppliesInv(s')
  {
    assert ApplyInv(s, s.applies[a]);
    forall b | b in s'.applies
      ensures ApplyInv(s', s'.applies[b])
    {
      assert ApplyInv(s, s.applies[b]);
    }
  }

  lemma OldRunnerGoneKeepsHolder(s: Sys, a: ApplyId, r: RetryId, s': Sys)
    requires RunnerInv(s) && ExecutingInv(s) && HolderInv(s) && OldRunnerIsGone(s, a, r, s')
    ensures RunnerInv(s') && ExecutingInv(s') && HolderInv(s')
  {
    assert s.applies[a].HoldsLock();
    forall b | b in s'.applies && s'.applies[b].HoldsLock()
      ensures s'.holder == Some(b)
    {
      assert s.applies[b].HoldsLock();
    }
    forall run | run in s'.runs && s'.runs[run].phase.Executing?
      ensures s'.f.runner == Some(run)
    {
      assert s.f.runner == Some(run) || BeingStopped(s, run);
    }
  }

  lemma OldRunnerGoneKeepsInv(s: Sys, a: ApplyId, r: RetryId, s': Sys)
    requires Inv(s) && OldRunnerIsGone(s, a, r, s')
    ensures Inv(s')
  {
    OldRunnerGoneKeepsSpecs(s, a, r, s');
    OldRunnerGoneKeepsApplies(s, a, r, s');
    OldRunnerGoneKeepsHolder(s, a, r, s');
    SequenceNumbersStay(s, a, s');
  }

  lemma CandidateStartKeepsInv(s: Sys, a: ApplyId, run: RunId, s': Sys)
    requires Inv(s) && CandidateStarted(s, a, run, s')
    ensures Inv(s')
  {
    assert ApplyInv(s, s.applies[a]);
    assert s.holder == Some(a);
    SequenceNumbersStay(s, a, s');
    forall q | q in s'.retries
      ensures SpecInv(s', s'.retries[q].spec)
    {
      assert SpecInv(s, s.retries[q].spec);
    }
    forall b | b in s'.applies
      ensures ApplyInv(s', s'.applies[b])
    {
      assert ApplyInv(s, s.applies[b]);
      assert b != a ==> !s.applies[b].HoldsLock();
    }
  }

  lemma NextKeepsInv(s: Sys, step: Step, s': Sys)
    requires Inv(s) && Next(s, step, s')
    ensures Inv(s')
  {
    match step
    case Start(r) => StartKeepsInv(s, r, s');
    case RetryActivates(r, run) => ActivateKeepsInv(s, r, run, s');
    case RunReturns(_) => RunnerMoveKeepsInv(s, step, s');
    case Observe(_) => RunnerMoveKeepsInv(s, step, s');
    case Number(a, token, admins) => NumberKeepsInv(s, a, token, admins, s');
    case CandidateReturns(a, ok, updater) => CandidateReturnKeepsInv(s, a, ok, updater, s');
    case Check(a) => CheckKeepsInv(s, a, s');
    case Save(a, ok) => SaveKeepsInv(s, a, ok, s');
    case Commit(a) => CommitKeepsInv(s, a);
    case OldRunnerGone(a, r) => OldRunnerGoneKeepsInv(s, a, r, s');
    case CandidateStarts(a, run) => CandidateStartKeepsInv(s, a, run, s');
    case _ => RetryMoveKeepsInv(s, step, s');
  }

  lemma {:induction false} RunKeepsInv(states: seq<Sys>, steps: seq<Step>, i: nat)
    requires IsRun(states, steps) && i < |states|
    ensures Inv(states[i])
  {
    if i > 0 {
      RunKeepsInv(states, steps, i - 1);
      assert Next(states[i - 1], steps[i - 1], states[i]);
      NextKeepsInv(states[i - 1], steps[i - 1], states[i]);
    }
  }

  // ---------- The guarantees ----------

  /** In every state of every run at most one runner is executing. */
  lemma {:induction false} AtMostOneRunnerExecutes(states: seq<Sys>, steps: seq<Step>, i: nat, x: RunId, y: RunId)
    requires IsRun(states, steps) && i < |states|
    requires x in states[i].runs && states[i].runs[x].phase.Executing?
    requires y in states[i].runs && states[i].runs[y].phase.Executing?
    ensures x == y
  {
    RunKeepsInv(states, steps, i);
  }

  /**
   Whenever the transition lock is free, whatever executes serves exactly the
   committed token and admins, which are also the ones last persisted (if any
   write has happened since boot); and a disabled bot executes nothing.
   */
  lemma {:induction false} LiveRunnerServesCommittedConfig(states: seq<Sys>, steps: seq<Step>, i: nat)
    requires IsRun(states, steps) && i < |states| && states[i].holder.None?
    ensures forall run | run in states[i].runs && states[i].runs[run].phase.Executing? ::
              && states[i].f.runner == Some(run)
              && states[i].runs[run].config == states[i].f.config
              && states[i].f.config.token != ""
    ensures states[i].persisted.Some? ==> states[i].persisted.value == states[i].f.config
  {
    RunKeepsInv(states, steps, i);
  }

  /** Commits happen in strictly increasing request order, each by the newest request. */
  lemma {:induction false} CommitsFollowRequestOrder(states: seq<Sys>, steps: seq<Step>, i: nat)
    requires IsRun(states, steps) && i < |states|
    ensures forall j, k :: 0 <= j < k < |states[i].commits| ==> states[i].commits[j] < states[i].commits[k]
    ensures i < |steps| && steps[i].Commit? ==>
              && steps[i].a in states[i].applies && states[i].applies[steps[i].a].number == states[i].f.requestSeq
              && states[i + 1].commits == states[i].commits + [states[i].f.requestSeq]
              && states[i + 1].f.config == states[i].applies[steps[i].a].next
  {
    RunKeepsInv(states, steps, i);
    if i < |steps| && steps[i].Commit? {
      assert Next(states[i], steps[i], states[i + 1]);
      assert ApplyInv(states[i], states[i].applies[steps[i].a]);
    }
  }

  /** A retry result is activated only if its generation and configuration are still the committed ones. */
  lemma {:induction false} NoStaleRetryIsActivated(states: seq<Sys>, steps: seq<Step>, i: nat)
    requires IsRun(states, steps) && i < |steps| && steps[i].RetryActivates?
    ensures steps[i].r in states[i].retries
    ensures states[i].retries[steps[i].r].spec.generation == states[i].f.generation
    ensures states[i].retries[steps[i].r].spec.config == states[i].f.config
    ensures states[i].f.runner.None? && states[i + 1].f.runner == Some(steps[i].run)
  {
    RunKeepsInv(states, steps, i);
    assert Next(states[i], steps[i], states[i + 1]);
    assert SpecInv(states[i], states[i].retries[steps[i].r].spec);
  }

  lemma {:induction false} RetriesKeepConfig(s: Sys, step: Step, s': Sys)
    requires RetryMoves(s, step, s') || RunnerMoves(s, step, s')
    ensures s'.f.config == s.f.config
  {
  }

  lemma {:induction false} OtherStepsKeepConfig(s: Sys, step: Step, s': Sys)
    requires Next(s, step, s') && !step.Commit?
    ensures s'.f.config == s.f.config
  {
    if RetryMoves(s, step, s') || RunnerMoves(s, step, s') {
      RetriesKeepConfig(s, step, s');
    }
  }

  /** The committed configuration changes only by a commit, and a failed save leaves it and the live runner alone. */
  lemma {:induction false} OnlyCommitsChangeConfig(states: seq<Sys>, steps: seq<Step>, i: nat)
    requires IsRun(states, steps) && i < |steps|
    ensures states[i + 1].f.config != states[i].f.config ==> steps[i].Commit?
    ensures steps[i].Save? && !steps[i].ok ==>
              states[i + 1].f == states[i].f && states[i + 1].runs == states[i].runs && states[i + 1].persisted == states[i].persisted
  {
    assert Next(states[i], steps[i], states[i + 1]);
    if !steps[i].Commit? {
      OtherStepsKeepConfig(states[i], steps[i], states[i + 1]);
    }
  }

  // ---------- What an application of a new configuration comes to ----------

  /** The steps that an application takes for itself. */
  predicate AppliesStep(step: Step) {
    step.Number? || step.CandidateReturns? || step.Check? || step.Save? || step.Commit? || step.OldRunnerGone? || step.CandidateStarts?
  }

  lemma {:induction false} OtherStepsSpareRequests(s: Sys, step: Step, s': Sys)
    requires Next(s, step, s') && !AppliesStep(step)
    ensures s'.applies == s.applies
  {
  }

  lemma {:induction false} EarlyStepsKeepRequests(s: Sys, step: Step, s': Sys, a: ApplyId)
    requires Next(s, step, s') && a in s.applies && (step.Number? || step.CandidateReturns? || step.Check? || step.Save?)
    ensures a in s'.applies && s'.applies[a].next == s.applies[a].next && s'.applies[a].base == s.applies[a].base
  {
  }

  lemma {:induction false} LateStepsKeepRequests(s: Sys, step: Step, s': Sys, a: ApplyId)
    requires Next(s, step, s') && a in s.applies && (step.OldRunnerGone? || step.CandidateStarts?)
    ensures a in s'.applies && s'.applies[a].next == s.applies[a].next && s'.applies[a].base == s.applies[a].base
  {
  }

  /** A numbered request keeps what it asked for, whatever happens. */
  lemma {:induction false} RequestStays(s: Sys, step: Step, s': Sys, a: ApplyId)
    requires Next(s, step, s') && a in s.applies
    ensures a in s'.applies && s'.applies[a].next == s.applies[a].next && s'.applies[a].base == s.applies[a].base
  {
    if !AppliesStep(step) {
      OtherStepsSpareRequests(s, step, s');
    } else if step.Commit? {
      CommitHasEffect(s, step.a);
    } else if step.OldRunnerGone? || step.CandidateStarts? {
      LateStepsKeepRequests(s, step, s', a);
    } else {
      EarlyStepsKeepRequests(s, step, s', a);
    }
  }

  lemma {:induction false} RequestStaysOverRun(states: seq<Sys>, steps: seq<Step>, i: nat, k: nat)
    requires IsRun(states, steps) && i < k < |states| && steps[i].Number?
    ensures var a := steps[i].a;
            && a in states[k].applies && states[k].applies[a].base == states[i].f.config.token
            && states[k].applies[a].next == Config(if steps[i].token.Some? then steps[i].token.value else states[i].f.config.token, steps[i].admins)
    decreases k
  {
    if k == i + 1 {
      assert Next(states[i], steps[i], states[i + 1]);
    } else {
      RequestStaysOverRun(states, steps, i, k - 1);
      assert Next(states[k - 1], steps[k - 1], states[k]);
      RequestStays(states[k - 1], steps[k - 1], states[k], steps[i].a);
    }
  }

  /**
   A request that commits makes its own admins the committed ones, on disk too.
   Without a token it keeps the committed token, which is still the one it was
   numbered under; with a token it commits exactly that one.
   */
  lemma {:induction false} RequestTakesEffect(states: seq<Sys>, steps: seq<Step>, i: nat, k: nat)
    requires IsRun(states, steps) && i < k < |steps| && steps[i].Number? && steps[k] == Commit(steps[i].a)
    ensures states[k + 1].f.config.admins == steps[i].admins
    ensures steps[i].token.None? ==>
              states[k + 1].f.config.token == states[k].f.config.token == states[i].f.config.token
    ensures steps[i].token.Some? ==> states[k + 1].f.config.token == steps[i].token.value
    ensures states[k + 1].persisted == Some(states[k + 1].f.config)
    ensures states[k + 1].f.generation == states[k].f.generation + 1
  {
    var a := steps[i].a;
    RunKeepsInv(states, steps, k);
    RequestStaysOverRun(states, steps, i, k);
    assert Next(states[k], steps[k], states[k + 1]);
    assert ApplyInv(states[k], states[k].applies[a]);
    CommitHasEffect(states[k], a);
  }

  /** Whether the live runner, if any, can take new admins while it runs. */
  predicate LiveUpdates(s: Sys) {
    s.f.runner.Some? && s.f.runner.value in s.runs && s.runs[s.f.runner.value].updater
  }

  /**
   What follows a commit. No token: the runner is told to stop and nothing comes
   after it. New admins only, and a live runner that takes them: it runs on with
   the new configuration. New admins only, no candidate: a retry of the committed
   configuration. Anything else: the validated candidate replaces the runner.
   */
  lemma {:induction false} CommitLeadsOn(states: seq<Sys>, steps: seq<Step>, k: nat)
    requires IsRun(states, steps) && k < |steps| && steps[k].Commit?
    ensures var s, t, a := states[k], states[k + 1], steps[k].a;
            var apply, config := s.applies[a], t.f.config;
            var sameToken := config.token == s.f.config.token;
            a in s.applies && a in t.applies &&
            if config.token == "" then
              t.f.runner.None? && !t.f.running && !t.f.retrying && t.applies[a].phase == Stopping(s.f.runner, Nothing) && t.runs == s.runs
            else if sameToken && LiveUpdates(s) then
              && t.f.runner == s.f.runner && t.f.running && t.holder.None? && t.applies[a].phase.Over?
              && t.runs == s.runs[s.f.runner.value := s.runs[s.f.runner.value].(config := config)]
            else if sameToken && apply.candidate.None? then
              && t.f.runner.None? && t.f.retrying && t.f.retrySeq == s.f.retrySeq + 1 && t.runs == s.runs
              && t.applies[a].phase == Stopping(s.f.runner, LaunchRetry(Spec(t.f.generation, t.f.retrySeq, config)))
            else
              && t.f.runner.None? && !t.f.retrying && apply.candidate.Some? && t.runs == s.runs
              && t.applies[a].phase == Stopping(s.f.runner, StartCandidate)
  {
    var s, a := states[k], steps[k].a;
    RunKeepsInv(states, steps, k);
    assert Next(s, steps[k], states[k + 1]);
    assert ApplyInv(s, s.applies[a]);
  }

  // ---------- The supervisor object ----------

  /**
   The struct with its locked sections. Each method below is one section run
   under the locks; `Represents` ties the fields to a state of the system, and
   every section is a step of that system.
   */
  class BotSupervisor {
    var config: Config
    var generation: nat
    var requestSeq: nat
    var runner: Option<RunId>
    var running: bool
    var retrying: bool
    var retrySeq: nat

    ghost function View(): Fields
      reads this
    {
      Fields(config, generation, requestSeq, runner, running, retrying, retrySeq)
    }

    ghost predicate Represents(s: Sys)
      reads this
    {
      s.f == View()
    }

    constructor (config: Config, ghost s: Sys)
      requires Init(s) && s.f.config == config
      ensures Represents(s) && Inv(s)
    {
      this.config := config;
      generation, requestSeq, retrySeq := 1, 0, 0;
      runner, running, retrying := None, false, false;
    }

    method ScheduleRetryLocked() returns (spec: Spec)
      modifies this
      ensures (View(), spec) == Scheduled(old(View()))
    {
      retrySeq := retrySeq + 1;
      retrying := true;
      spec := Spec(generation, retrySeq, config);
    }

    method StartRunnerLocked(run: RunId)
      modifies this
      ensures View() == Started(old(View()), run)
    {
      runner, running := Some(run), true;
    }

    method DetachRunnerLocked() returns (detached: Option<RunId>)
      modifies this
      ensures detached == old(runner) && View() == Detached(old(View()))
    {
      detached := runner;
      runner, running := None, false;
    }

    /** `Start`: schedules the first retry unless there is nothing to start. */
    method StartUp(parentDone: bool, ghost s: Sys, ghost r: RetryId) returns (spec: Option<Spec>, ghost t: Sys)
      requires Represents(s) && s.holder.None? && r !in s.retries && parentDone == s.parentDone
      modifies this
      ensures Next(s, Start(r), t) && Represents(t) && (Inv(s) ==> Inv(t))
      ensures if spec.Some? then r in t.retries && t.retries[r] == Retry(spec.value, Looping) else t == s
      ensures spec.Some? <==> !old(running) && !old(retrying) && old(config).token != "" && !parentDone
      ensures spec.Some? ==> spec.value == Spec(old(generation), retrySeq, old(config)) && retrySeq == old(retrySeq) + 1 && retrying
    {
      if Inv(s) { StepKeepsInv(s, Start(r)); }
      if running || retrying || config.token == "" || parentDone {
        return None, s;
      }
      var scheduled := ScheduleRetryLocked();
      spec := Some(scheduled);
      t := s.(f := Scheduled(s.f).0, retries := s.retries[r := Retry(scheduled, Looping)]);
    }

    /** `activateRetryResult`: a late result starts only if its retry is still the current one. */
    method ActivateRetryResult(spec: Spec, run: RunId, cancelled: bool, parentDone: bool, ghost s: Sys, ghost r: RetryId) returns (ok: bool, ghost t: Sys)
      requires Represents(s) && s.holder.None? && run !in s.runs && parentDone == s.parentDone
      requires r in s.retries && s.retries[r].phase.Built? && s.retries[r].spec == spec
      modifies this
      ensures Represents(t) && (Inv(s) ==> Inv(t))
      ensures if ok then Next(s, RetryActivates(r, run), t) else t == s
      ensures ok <==> !cancelled && !parentDone && old(retrying) && old(generation) == spec.generation && old(retrySeq) == spec.retrySeq
      ensures ok ==> runner == Some(run) && running && !retrying
    {
      if Inv(s) { StepKeepsInv(s, RetryActivates(r, run)); }
      if cancelled || !(generation == spec.generation && retrySeq == spec.retrySeq && retrying) || parentDone {
        return false, s;
      }
      retrying := false;
      StartRunnerLocked(run);
      ok := true;
      t := s.(f := Started(s.f.(retrying := false), run),
              runs := s.runs[run := Run(s.retries[r].spec.config, s.retries[r].phase.updater, Executing)],
              retries := s.retries[r := s.retries[r].(phase := Dead)]);
    }

    /** The failure path of `retryLaunch`: record, then retry again, give up for good, or stop as superseded. */
    method RetryFailure(spec: Spec, permanent: bool, ghost s: Sys, ghost r: RetryId) returns (again: bool, ghost t: Sys)
      requires Represents(s) && r in s.retries && s.retries[r] == Retry(spec, Looping)
      modifies this
      ensures Next(s, RetryFails(r, permanent), t) && Represents(t) && (Inv(s) ==> Inv(t))
      ensures again <==> t.retries[r].phase.Looping?
      ensures again <==> !permanent && old(retrying) && old(generation) == spec.generation && old(retrySeq) == spec.retrySeq
    {
      if Inv(s) { StepKeepsInv(s, RetryFails(r, permanent)); }
      var current := generation == spec.generation && retrySeq == spec.retrySeq && retrying;
      if current {
        running := false;
      }
      again := current && !permanent;
      if again {
        t := s.(f := RetryFailed(s.f, spec));
        return;
      }
      if current {
        retrying := false;
      }
      t := s.(f := RetryCleared(RetryFailed(s.f, spec), spec), retries := s.retries[r := Retry(spec, Dead)]);
    }

    /** `finishRetryCancellation`. */
    method FinishRetry(spec: Spec, ghost s: Sys, ghost r: RetryId) returns (ghost t: Sys)
      requires Represents(s) && r in s.retries && s.retries[r].spec == spec && !s.retries[r].phase.Dead?
      modifies this
      ensures Next(s, RetryEnds(r), t) && Represents(t) && (Inv(s) ==> Inv(t))
    {
      if Inv(s) { StepKeepsInv(s, RetryEnds(r)); }
      if generation == spec.generation && retrySeq == spec.retrySeq && retrying {
        retrying := false;
      }
      t := s.(f := RetryCleared(s.f, spec), retries := s.retries[r := s.retries[r].(phase := Dead)]);
    }

    /** The end of `runAndObserve`. */
    method ObserveExit(run: RunId, ghost s: Sys) returns (ghost t: Sys)
      requires Represents(s) && run in s.runs && s.runs[run].phase.Returned?
      modifies this
      ensures Next(s, Observe(run), t) && Represents(t) && (Inv(s) ==> Inv(t))
    {
      if Inv(s) { StepKeepsInv(s, Observe(run)); }
      if runner == Some(run) {
        runner, running := None, false;
      }
      t := s.(f := Observed(s.f, run), runs := s.runs[run := s.runs[run].(phase := Closed)]);
    }

    /** The first section on the fields alone. */
    method TakeNumber(token: Option<string>, admins: seq<int>, canUpdate: bool) returns (number: nat, base: string, next: Config, needsCandidate: bool)
      modifies this
      ensures View() == Allocated(old(View())) && number == requestSeq && base == config.token
      ensures next.admins == admins && (token.Some? ==> next.token == token.value) && (token.None? ==> next.token == config.token)
      ensures needsCandidate <==> next.token != "" && (next.token != config.token || (runner.Some? && !canUpdate))
    {
      requestSeq := requestSeq + 1;
      number, base := requestSeq, config.token;
      next := Config(if token.Some? then token.value else base, admins);
      var adminOnly := next.token == base;
      needsCandidate := next.token != "" && (!adminOnly || (runner.Some? && !canUpdate));
    }

    /** First section of `Apply`: take a request number and decide whether a candidate has to be built. */
    method AllocateRequest(token: Option<string>, admins: seq<int>, canUpdate: bool, ghost s: Sys, ghost a: ApplyId)
      returns (number: nat, base: string, next: Config, needsCandidate: bool, ghost t: Sys)
      requires Represents(s) && s.holder.None? && a !in s.applies && canUpdate == LiveUpdates(s)
      modifies this
      ensures Next(s, Number(a, token, admins), t) && Represents(t) && (Inv(s) ==> Inv(t))
      ensures t.applies[a] == Apply(number, base, next, needsCandidate, None, if needsCandidate then Preparing else Ready)
      ensures config == old(config) && next == Config(if token.Some? then token.value else config.token, admins)
    {
      number, base, next, needsCandidate := TakeNumber(token, admins, canUpdate);
      t := s.(f := View(),
              applies := s.applies[a := Apply(number, base, next, needsCandidate, None, if needsCandidate then Preparing else Ready)]);
      NumberedIsStep(s, a, token, admins, t.applies[a], t);
    }

    /** Second section of `Apply`: only the newest request goes on to persist and commit. */
    method CheckRequest(number: nat, parentDone: bool, ghost s: Sys, ghost a: ApplyId) returns (ok: bool, ghost t: Sys)
      requires Represents(s) && s.holder.None? && parentDone == s.parentDone
      requires a in s.applies && s.applies[a].phase.Ready? && s.applies[a].number == number
      ensures Next(s, Check(a), t) && Represents(t) && (Inv(s) ==> Inv(t))
      ensures ok <==> t.holder == Some(a)
      ensures ok <==> number == requestSeq && !parentDone
    {
      if Inv(s) { StepKeepsInv(s, Check(a)); }
      ok := number == requestSeq && !parentDone;
      t := if ok then WithApply(s.(holder := Some(a)), a, Checked) else WithApply(s, a, Over);
    }

    /** The end of the commit section: where the old runner goes, and what follows once it has stopped. */
    method ReleaseRunner(adminOnly: bool, hasCandidate: bool) returns (previous: Option<RunId>, after: After)
      modifies this
      ensures (View(), previous, after) == Released(old(View()), adminOnly, hasCandidate)
    {
      previous := DetachRunnerLocked();
      if config.token == "" {
        after := Nothing;
      } else if adminOnly && !hasCandidate {
        var spec := ScheduleRetryLocked();
        after := LaunchRetry(spec);
      } else {
        after := StartCandidate;
      }
    }

    /** The commit section on the fields alone. */
    method Settle(next: Config, adminOnly: bool, hasCandidate: bool, canUpdate: bool) returns (previous: Option<RunId>, after: Option<After>)
      modifies this
      ensures (View(), previous, after) == Settled(old(View()), next, adminOnly, hasCandidate, canUpdate)
    {
      generation := generation + 1;
      retrying := false;
      config := next;
      if adminOnly && runner.Some? && canUpdate {
        return None, None;
      }
      var what;
      previous, what := ReleaseRunner(adminOnly, hasCandidate);
      after := Some(what);
    }

    /** Third section of `Apply`: commit, then update the live runner in place or detach it. */
    method Commit(next: Config, base: string, hasCandidate: bool, canUpdate: bool, ghost s: Sys, ghost a: ApplyId)
      returns (previous: Option<RunId>, after: Option<After>, ghost t: Sys)
      requires Represents(s) && canUpdate == LiveUpdates(s)
      requires a in s.applies && s.applies[a].phase.Saved? && s.applies[a].next == next && s.applies[a].base == base
      requires hasCandidate == s.applies[a].candidate.Some?
      modifies this
      ensures Next(s, Step.Commit(a), t) && Represents(t) && (Inv(s) ==> Inv(t))
      ensures t.applies[a].phase == if after.None? then Over else Stopping(previous, after.value)
      ensures config == next && generation == old(generation) + 1 && requestSeq == old(requestSeq)
    {
      CommitSettles(s, a);
      if Inv(s) { CommitKeepsInv(s, a); }
      previous, after := Settle(next, next.token == base, hasCandidate, canUpdate);
      t := AfterCommit(s, a);
    }

    /** Last section of `Apply`: the validated candidate becomes the live runner. */
    method StartReplacement(run: RunId, ghost s: Sys, ghost a: ApplyId) returns (ghost t: Sys)
      requires Represents(s) && a in s.applies && s.applies[a].phase.Starting? && run !in s.runs
      modifies this
      ensures Next(s, CandidateStarts(a, run), t) && Represents(t) && (Inv(s) ==> Inv(t))
    {
      if Inv(s) { StepKeepsInv(s, CandidateStarts(a, run)); }
      StartRunnerLocked(run);
      var apply := s.applies[a];
      t := WithApply(s.(holder := None, f := Started(s.f, run),
                        runs := s.runs[run := Run(apply.next, apply.candidate == Some(true), Executing)]), a, Over);
    }
  }

  /** What the commit leaves behind when the live runner cannot simply take the new admins. */
  function Released(f: Fields, adminOnly: bool, hasCandidate: bool): (Fields, Option<RunId>, After) {
    if f.config.token == "" then (Detached(f), f.runner, Nothing)
    else if adminOnly && !hasCandidate then
      var (g, spec) := Scheduled(Detached(f));
      (g, f.runner, LaunchRetry(spec))
    else (Detached(f), f.runner, StartCandidate)
  }

  function Settled(f: Fields, next: Config, adminOnly: bool, hasCandidate: bool, canUpdate: bool): (Fields, Option<RunId>, Option<After>) {
    var committed := Committed(f, next);
    if adminOnly && f.runner.Some? && canUpdate then (committed, None, None)
    else
      var (g, previous, after) := Released(committed, adminOnly, hasCandidate);
      (g, previous, Some(after))
  }

  lemma {:induction false} CommitSettles(s: Sys, a: ApplyId)
    requires a in s.applies && s.applies[a].phase.Saved?
    ensures var apply, t := s.applies[a], AfterCommit(s, a);
            var (f, previous, after) := Settled(s.f, apply.next, apply.AdminOnly(), apply.candidate.Some?, LiveUpdates(s));
            t.f == f && t.applies[a].phase == if after.None? then Over else Stopping(previous, after.value)
  {
  }

  lemma {:induction false} NumberedIsStep(s: Sys, a: ApplyId, token: Option<string>, admins: seq<int>, apply: Apply, t: Sys)
    requires s.holder.None? && a !in s.applies && t == s.(f := Allocated(s.f), applies := s.applies[a := apply])
    requires apply == Apply(s.f.requestSeq + 1, s.f.config.token, apply.next, apply.needsCandidate, None, if apply.needsCandidate then Preparing else Ready)
    requires apply.next == Config(if token.Some? then token.value else s.f.config.token, admins)
    requires apply.needsCandidate <==> apply.next.token != "" && (apply.next.token != s.f.config.token || (s.f.runner.Some? && !LiveUpdates(s)))
    ensures Next(s, Number(a, token, admins), t) && (Inv(s) ==> Inv(t))
  {
    if Inv(s) { StepKeepsInv(s, Number(a, token, admins)); }
  }

  lemma {:induction false} StepKeepsInv(s: Sys, step: Step)
    requires Inv(s)
    ensures forall t: Sys :: Next(s, step, t) ==> Inv(t)
  {
    forall t: Sys | Next(s, step, t)
      ensures Inv(t)
    {
      NextKeepsInv(s, step, t);
    }
  }
}
