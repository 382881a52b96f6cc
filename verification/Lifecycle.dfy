/**
 The Sandbox lease lifecycle: bounded provisioning, a runtime that starts at readiness, granted
 extensions, and a teardown that ends cleanly only with proof. Instants and durations are whole
 nanoseconds; persisted RFC 3339 text is an injective encoding of an instant.
 */
module Lifecycle {
  import opened Common

  const SECOND: int := 1_000_000_000
  const MIN_INSTANT: int := -8_334_601_228_800 * SECOND
  const MAX_INSTANT: int := 8_210_266_876_800 * SECOND - 1
  const MAX_DURATION_SECONDS: int := 9_223_372_036_854_775

  datatype Stamp = At(t: int) | Garbled(text: string)

  datatype Phase = Pending | Provisioning | Ready | Releasing | Released | Expired | Quarantined

  datatype Status = Status(
    phase: Phase,
    observedGeneration: Option<int>,
    provisioningDeadline: Option<Stamp>,
    readyAt: Option<Stamp>,
    expiresAt: Option<Stamp>,
    extensionsCount: nat,
    grantedExtensionSeconds: int)

  const DEFAULT_STATUS: Status := Status(Pending, None, None, None, None, 0, 0)

  datatype LifecycleError =
    | InvalidDuration(what: string)
    | TimestampOverflow
    | MissingProvisioningDeadline
    | MalformedProvisioningDeadline
    | ProvisioningDeadlineElapsed
    | PersistedTimestampChanged(what: string)
    | CleanupProofRequired
    | InvalidTransition(current: Phase, next: Phase)

  function CheckedAdd(t: int, d: int): Option<int> {
    if MIN_INSTANT <= t + d <= MAX_INSTANT then Some(t + d) else None
  }

  // ---------------------------------------------------------------- operations

  predicate Allowed(current: Phase, next: Phase) {
    match current
    case Pending => next == Provisioning || next == Releasing || next == Quarantined
    case Provisioning => next == Ready || next == Releasing || next == Quarantined
    case Ready => next == Releasing || next == Quarantined
    case Releasing => next == Released || next == Expired || next == Quarantined
    case Quarantined => next == Releasing
    case Released => false
    case Expired => false
  }

  function TransitionPhase(current: Phase, next: Phase, cleanupVerified: bool): Result<Phase, LifecycleError> {
    if current == next then Ok(current)
    else if (next == Released || next == Expired) && !cleanupVerified then Err(CleanupProofRequired)
    else if Allowed(current, next) then Ok(next)
    else Err(InvalidTransition(current, next))
  }

  function ProvisioningDeadline(acceptedAt: int, timeout: int): Result<Stamp, LifecycleError> {
    if timeout <= 0 then Err(InvalidDuration("provisioning timeout"))
    else match CheckedAdd(acceptedAt, timeout)
         case Some(t) => Ok(At(t))
         case None => Err(TimestampOverflow)
  }

  function BeginProvisioning(s: Status, generation: int, acceptedAt: int, timeout: int)
    : Result<Status, LifecycleError>
  {
    var deadline := ProvisioningDeadline(acceptedAt, timeout);
    if deadline.Err? then Err(deadline.error)
    else if s.provisioningDeadline.Some? && s.provisioningDeadline.value != deadline.value then
      Err(PersistedTimestampChanged("provisioningDeadline"))
    else if s.phase == Provisioning then
      if s.provisioningDeadline == Some(deadline.value) && s.observedGeneration == Some(generation) then Ok(s)
      else Err(PersistedTimestampChanged("provisioningDeadline"))
    else
      var phase := TransitionPhase(s.phase, Provisioning, false);
      if phase.Err? then Err(phase.error)
      else Ok(s.(phase := Provisioning, observedGeneration := Some(generation),
          provisioningDeadline := Some(deadline.value)))
  }

  /** The one derivation of expiry: readiness, plus the runtime, plus every granted extension. */
  function DeriveExpiry(readyAt: int, ttl: int, grantedSeconds: int): Result<int, LifecycleError> {
    if !(-MAX_DURATION_SECONDS <= grantedSeconds <= MAX_DURATION_SECONDS) then Err(TimestampOverflow)
    else if grantedSeconds < 0 then Err(InvalidDuration("granted extension"))
    else match CheckedAdd(readyAt, ttl)
         case None => Err(TimestampOverflow)
         case Some(t) =>
           match CheckedAdd(t, grantedSeconds * SECOND)
           case None => Err(TimestampOverflow)
           case Some(e) => Ok(e)
  }

  function MarkReady(s: Status, generation: int, readyAt: int, ttl: int): Result<Status, LifecycleError> {
    if ttl <= 0 then Err(InvalidDuration("runtime TTL"))
    else if s.provisioningDeadline.None? then Err(MissingProvisioningDeadline)
    else if s.provisioningDeadline.value.Garbled? then Err(MalformedProvisioningDeadline)
    else if readyAt > s.provisioningDeadline.value.t then Err(ProvisioningDeadlineElapsed)
    else
      var expiry := DeriveExpiry(readyAt, ttl, s.grantedExtensionSeconds);
      if expiry.Err? then Err(expiry.error)
      else if s.phase == Ready then
        if s.readyAt == Some(At(readyAt)) && s.expiresAt == Some(At(expiry.value))
            && s.observedGeneration == Some(generation)
        then Ok(s) else Err(PersistedTimestampChanged("readyAt/expiresAt"))
      else
        var phase := TransitionPhase(s.phase, Ready, false);
        if phase.Err? then Err(phase.error)
        else Ok(s.(phase := Ready, observedGeneration := Some(generation),
                   readyAt := Some(At(readyAt)), expiresAt := Some(At(expiry.value))))
  }

  /** What the caller's live policy and the pool allow, as read when an extension is asked for. */
  datatype Terms = Terms(
    maxExtensions: nat, grantMaxTtl: int, grantMaxIdle: Option<int>, poolMaxTtl: int, poolMaxIdle: Option<int>)

  /** An extension request with the two clock readings it takes. */
  datatype Extension = Extension(seconds: int, terms: Terms, now: int, later: int)

  /** The idle window is the pool's to offer; the grant may only narrow it. */
  function IdleWindow(t: Terms): Option<int> {
    match t.poolMaxIdle
    case None => None
    case Some(idle) =>
      if t.grantMaxIdle.Some? && t.grantMaxIdle.value < idle then Some(t.grantMaxIdle.value) else Some(idle)
  }

  function ExtensionCeiling(x: Extension, readyAt: int): int {
    match IdleWindow(x.terms)
    case Some(idle) => x.later + idle
    case None => readyAt + if x.terms.grantMaxTtl < x.terms.poolMaxTtl then x.terms.grantMaxTtl else x.terms.poolMaxTtl
  }

  function Extend(s: Status, ttl: int, x: Extension): Option<Status> {
    if s.phase != Ready || x.seconds <= 0 then None
    else if !(s.readyAt.Some? && s.readyAt.value.At? && s.expiresAt.Some? && s.expiresAt.value.At?) then None
    else if s.expiresAt.value.t <= x.now then None
    else if x.terms.poolMaxTtl <= 0 || (x.terms.poolMaxIdle.Some? && x.terms.poolMaxIdle.value <= 0) then None
    else if ttl <= 0 || s.expiresAt.value.t != s.readyAt.value.t + ttl + s.grantedExtensionSeconds * SECOND then None
    else if IdleWindow(x.terms).None? && s.extensionsCount >= x.terms.maxExtensions then None
    else if s.expiresAt.value.t + x.seconds * SECOND > ExtensionCeiling(x, s.readyAt.value.t) then None
    else
      var granted := s.grantedExtensionSeconds + x.seconds;
      var expiry := DeriveExpiry(s.readyAt.value.t, ttl, granted);
      if expiry.Err? then None
      else Some(s.(grantedExtensionSeconds := granted, expiresAt := Some(At(expiry.value)),
                   extensionsCount := s.extensionsCount + 1))
  }

  // ---------------------------------------------------------------- runs

  datatype Step =
    | Begin(generation: int, acceptedAt: int, timeout: int)
    | Readied(generation: int, readyAt: int)
    | Extended(x: Extension)
    | Moved(next: Phase, cleanupVerified: bool)

  /** Teardown phases are written directly; provisioning and readiness only by their own operations. */
  predicate TeardownPhase(p: Phase) { p == Releasing || p == Quarantined || p == Released || p == Expired }

  function Apply(s: Status, step: Step, ttl: int): Status {
    match step
    case Begin(g, a, t) => var r := BeginProvisioning(s, g, a, t); if r.Ok? then r.value else s
    case Readied(g, a) => var r := MarkReady(s, g, a, ttl); if r.Ok? then r.value else s
    case Extended(x) => var r := Extend(s, ttl, x); if r.Some? then r.value else s
    case Moved(next, ok) =>
      var r := TransitionPhase(s.phase, next, ok);
      if TeardownPhase(next) && r.Ok? then s.(phase := r.value) else s
  }

  function After(s: Status, steps: seq<Step>, ttl: int): Status {
    if steps == [] then s else Apply(After(s, steps[..|steps| - 1], ttl), steps[|steps| - 1], ttl)
  }

  /** What every reachable status satisfies. */
  predicate Consistent(s: Status, ttl: int) {
    && (s.provisioningDeadline.Some? ==> s.provisioningDeadline.value.At?)
    && (s.phase == Provisioning || s.phase == Ready ==> s.provisioningDeadline.Some?)
    && 0 <= s.grantedExtensionSeconds
    && (s.phase == Pending || s.phase == Provisioning ==> s.readyAt.None?)
    && (s.phase == Ready ==> s.readyAt.Some?)
    && if s.readyAt.None? then s.expiresAt.None? && s.grantedExtensionSeconds == 0
       else
         && s.readyAt.value.At? && s.provisioningDeadline.Some?
         && s.readyAt.value.t <= s.provisioningDeadline.value.t
         && s.expiresAt == Some(At(s.readyAt.value.t + ttl + s.grantedExtensionSeconds * 1_000_000_000))
  }

  lemma ApplyKeepsConsistent(s: Status, step: Step, ttl: int)
    requires Consistent(s, ttl)
    ensures Consistent(Apply(s, step, ttl), ttl)
  {}

  /** Over every run: expiry is always readiness plus TTL plus granted extensions, and readiness
      never came after the provisioning deadline. */
  lemma {:induction false} RunStaysConsistent(steps: seq<Step>, ttl: int)
    ensures Consistent(After(DEFAULT_STATUS, steps, ttl), ttl)
  {
    if steps != [] {
      RunStaysConsistent(steps[..|steps| - 1], ttl);
      ApplyKeepsConsistent(After(DEFAULT_STATUS, steps[..|steps| - 1], ttl), steps[|steps| - 1], ttl);
    }
  }

  /** How much later a status may be than another one of the same lease. */
  predicate Progresses(a: Status, b: Status) {
    && (a.provisioningDeadline.Some? ==> b.provisioningDeadline == a.provisioningDeadline)
    && (a.readyAt.Some? ==> b.readyAt == a.readyAt)
    && a.grantedExtensionSeconds <= b.grantedExtensionSeconds
    && a.extensionsCount <= b.extensionsCount
    && (TeardownPhase(a.phase) ==> TeardownPhase(b.phase))
    && (a.phase == Released || a.phase == Expired ==> b == a)
    && (a.phase == Ready ==> b.phase == Ready || TeardownPhase(b.phase))
  }

  lemma ApplyProgresses(s: Status, step: Step, ttl: int)
    requires Consistent(s, ttl)
    ensures Progresses(s, Apply(s, step, ttl))
  {}

  lemma ProgressesTransitive(a: Status, b: Status, c: Status)
    requires Progresses(a, b) && Progresses(b, c)
    ensures Progresses(a, c)
  {}

  /** Between any two points of a run: the deadline and readiness are written once, extensions only
      add, teardown is never undone, and a clean terminal status never changes again. */
  lemma {:induction false} RunProgresses(steps: seq<Step>, i: nat, ttl: int)
    requires i <= |steps|
    ensures Progresses(After(DEFAULT_STATUS, steps[..i], ttl), After(DEFAULT_STATUS, steps, ttl))
    decreases |steps| - i
  {
    hide Apply, Consistent;
    if i == |steps| {
      assert steps[..i] == steps;
    } else {
      var a, b := After(DEFAULT_STATUS, steps[..i], ttl), After(DEFAULT_STATUS, steps[..i + 1], ttl);
      assert steps[..i + 1][..i] == steps[..i];
      RunStaysConsistent(steps[..i], ttl);
      ApplyProgresses(a, steps[i], ttl);
      RunProgresses(steps, i + 1, ttl);
      ProgressesTransitive(a, b, After(DEFAULT_STATUS, steps, ttl));
    }
  }

  lemma AfterPush(steps: seq<Step>, step: Step, ttl: int)
    ensures After(DEFAULT_STATUS, steps + [step], ttl) == Apply(After(DEFAULT_STATUS, steps, ttl), step, ttl)
  {
    hide Apply;
    assert (steps + [step])[..|steps|] == steps;
  }

  /** How a run enters Ready and the clean terminal phases, at any step. */
  lemma RunEntersPhases(steps: seq<Step>, step: Step, ttl: int)
    ensures var s := After(DEFAULT_STATUS, steps, ttl);
            var s' := After(DEFAULT_STATUS, steps + [step], ttl);
            && s' == Apply(s, step, ttl)
            && (s'.phase == Ready && s.phase != Ready ==>
                  && s.phase == Provisioning && step.Readied?
                  && s.provisioningDeadline.Some? && s.provisioningDeadline.value.At?
                  && step.readyAt <= s.provisioningDeadline.value.t
                  && s'.readyAt == Some(At(step.readyAt)))
            && (s'.phase in {Released, Expired} && s.phase != s'.phase ==>
                  s.phase == Releasing && step == Moved(s'.phase, true))
            && (s'.phase == Provisioning && s.phase != Provisioning ==> s.phase == Pending)
  {
    AfterPush(steps, step, ttl);
    RunStaysConsistent(steps, ttl);
    hide After;
  }

  /** No status strands a lease: whatever a run has done, a lease that has not ended cleanly can be
      quarantined, and can be released in two steps exactly when cleanup is proved. */
  lemma TeardownStaysReachable(steps: seq<Step>, end: Phase, cleanupVerified: bool, ttl: int)
    requires end == Released || end == Expired
    requires After(DEFAULT_STATUS, steps, ttl).phase !in {Released, Expired}
    ensures After(DEFAULT_STATUS, steps + [Moved(Quarantined, cleanupVerified)], ttl).phase == Quarantined
    ensures var s' := After(DEFAULT_STATUS, steps + [Moved(Releasing, false)] + [Moved(end, cleanupVerified)], ttl);
            s'.phase == if cleanupVerified then end else Releasing
  {
    hide After;
    AfterPush(steps, Moved(Quarantined, cleanupVerified), ttl);
    AfterPush(steps, Moved(Releasing, false), ttl);
    AfterPush(steps + [Moved(Releasing, false)], Moved(end, cleanupVerified), ttl);
  }

  // ---------------------------------------------------------------- when the operations succeed

  /** The calendar's days, counted from 1970, in nanoseconds. */
  predicate InRange(t: int) {
    -96_465_292 * 86_400_000_000_000 <= t < 95_026_237 * 86_400_000_000_000
  }

  /** A number of seconds that is a whole number of milliseconds in 64 bits. */
  predicate Grantable(seconds: int) { 0 <= seconds * 1000 <= 0x7FFF_FFFF_FFFF_FFFF }

  /** Provisioning begins once, from Pending, under the one deadline on record. */
  lemma BeginSucceedsIff(s: Status, generation: int, acceptedAt: int, timeout: int, s': Status)
    ensures BeginProvisioning(s, generation, acceptedAt, timeout) == Ok(s') <==>
            var deadline := Some(At(acceptedAt + timeout));
            && 0 < timeout && InRange(acceptedAt + timeout)
            && (s.phase == Pending ==> s.provisioningDeadline.None? || s.provisioningDeadline == deadline)
            && (s.phase == Pending || s.phase == Provisioning)
            && s' == s.(phase := Provisioning, observedGeneration := Some(generation), provisioningDeadline := deadline)
            && (s.phase == Provisioning ==> s' == s)
  {}

  /** Readiness is accepted exactly when it is no later than the deadline; a Ready lease accepts only its own. */
  lemma ReadySucceedsIff(s: Status, generation: int, readyAt: int, ttl: int, s': Status)
    ensures MarkReady(s, generation, readyAt, ttl) == Ok(s') <==>
            var expiry := readyAt + ttl + s.grantedExtensionSeconds * 1_000_000_000;
            && 0 < ttl && InRange(readyAt + ttl) && InRange(expiry) && Grantable(s.grantedExtensionSeconds)
            && s.provisioningDeadline.Some? && s.provisioningDeadline.value.At?
            && readyAt <= s.provisioningDeadline.value.t
            && (s.phase == Provisioning || s.phase == Ready)
            && s' == s.(phase := Ready, observedGeneration := Some(generation),
                        readyAt := Some(At(readyAt)), expiresAt := Some(At(expiry)))
            && (s.phase == Ready ==> s' == s)
  {}

  /** A phase is left for another exactly so, whichever check comes first. */
  lemma TransitionMeaning(current: Phase, next: Phase, cleanupVerified: bool)
    ensures TransitionPhase(current, next, cleanupVerified) ==
            if current == next then Ok(next)
            else match next
                 case Pending => Err(InvalidTransition(current, next))
                 case Provisioning => if current == Pending then Ok(next) else Err(InvalidTransition(current, next))
                 case Ready => if current == Provisioning then Ok(next) else Err(InvalidTransition(current, next))
                 case Releasing =>
                   if current == Released || current == Expired then Err(InvalidTransition(current, next)) else Ok(next)
                 case Quarantined =>
                   if current == Released || current == Expired then Err(InvalidTransition(current, next)) else Ok(next)
                 case _ =>
                   if !cleanupVerified then Err(CleanupProofRequired)
                   else if current == Releasing then Ok(next) else Err(InvalidTransition(current, next))
  {}

  /** Why beginning fails, case by case. */
  lemma BeginErrors(s: Status, generation: int, acceptedAt: int, timeout: int)
    requires BeginProvisioning(s, generation, acceptedAt, timeout).Err?
    ensures BeginProvisioning(s, generation, acceptedAt, timeout).error ==
            if timeout <= 0 then InvalidDuration("provisioning timeout")
            else if !InRange(acceptedAt + timeout) then TimestampOverflow
            else if s.phase == Provisioning
                    || (s.provisioningDeadline.Some? && s.provisioningDeadline.value != At(acceptedAt + timeout))
            then PersistedTimestampChanged("provisioningDeadline")
            else InvalidTransition(s.phase, Provisioning)
  {}

  /** Why readiness is refused, case by case. */
  lemma ReadyErrors(s: Status, generation: int, readyAt: int, ttl: int)
    requires MarkReady(s, generation, readyAt, ttl).Err?
    ensures MarkReady(s, generation, readyAt, ttl).error ==
            if ttl <= 0 then InvalidDuration("runtime TTL")
            else if s.provisioningDeadline.None? then MissingProvisioningDeadline
            else if s.provisioningDeadline.value.Garbled? then MalformedProvisioningDeadline
            else if readyAt > s.provisioningDeadline.value.t then ProvisioningDeadlineElapsed
            else if !Grantable(s.grantedExtensionSeconds) then
              if Grantable(-s.grantedExtensionSeconds) then InvalidDuration("granted extension") else TimestampOverflow
            else if !InRange(readyAt + ttl) || !InRange(readyAt + ttl + s.grantedExtensionSeconds * 1_000_000_000)
            then TimestampOverflow
            else if s.phase == Ready then PersistedTimestampChanged("readyAt/expiresAt")
            else InvalidTransition(s.phase, Ready)
  {}

  // ---------------------------------------------------------------- extensions

  /** Nothing may carry expiry past the ceiling: the lower of both maxima from readiness on, or, where
      the pool offers an idle window, the lower of both windows from now on. */
  predicate UnderCeiling(expiry: int, x: Extension, readyAt: int) {
    if x.terms.poolMaxIdle.None?
    then expiry <= readyAt + x.terms.grantMaxTtl && expiry <= readyAt + x.terms.poolMaxTtl
    else
      && expiry <= x.later + x.terms.poolMaxIdle.value
      && (x.terms.grantMaxIdle.Some? ==> expiry <= x.later + x.terms.grantMaxIdle.value)
  }

  /** An extension is granted exactly so, and then moves expiry by its seconds and counts once. */
  lemma ExtendSucceedsIff(s: Status, ttl: int, x: Extension, s': Status)
    requires Consistent(s, ttl)
    ensures Extend(s, ttl, x) == Some(s') <==>
            && s.phase == Ready && 0 < x.seconds && 0 < ttl && 0 < x.terms.poolMaxTtl
            && (x.terms.poolMaxIdle.Some? ==> 0 < x.terms.poolMaxIdle.value)
            && (x.terms.poolMaxIdle.None? ==> s.extensionsCount < x.terms.maxExtensions)
            && (var ready, granted := s.readyAt.value.t, s.grantedExtensionSeconds + x.seconds;
                var expiry := s.expiresAt.value.t + x.seconds * 1_000_000_000;
                && x.now < s.expiresAt.value.t && UnderCeiling(expiry, x, ready)
                && InRange(ready + ttl) && InRange(expiry) && Grantable(granted)
                && s' == s.(grantedExtensionSeconds := granted, expiresAt := Some(At(expiry)),
                            extensionsCount := s.extensionsCount + 1))
  {}

  /** A granted extension in a run, and the status it was granted in. */
  predicate GrantedAt(steps: seq<Step>, m: nat, ttl: int) {
    m < |steps| && steps[m].Extended? && Extend(After(DEFAULT_STATUS, steps[..m], ttl), ttl, steps[m].x).Some?
  }

  /** Over every run: an expiry that was extended at all is under the ceiling that stood when it was last
      extended, so a lease nobody extends any more ends within that ceiling. */
  lemma {:induction false} RunRespectsCeilings(steps: seq<Step>, ttl: int) returns (m: nat)
    requires After(DEFAULT_STATUS, steps, ttl).extensionsCount > 0
    ensures GrantedAt(steps, m, ttl) && forall k :: m < k < |steps| ==> !GrantedAt(steps, k, ttl)
    ensures var s := After(DEFAULT_STATUS, steps, ttl);
            && s.readyAt.Some? && s.readyAt.value.At? && s.expiresAt.Some? && s.expiresAt.value.At?
            && UnderCeiling(s.expiresAt.value.t, steps[m].x, s.readyAt.value.t)
  {
    var n := |steps| - 1;
    var s, step := After(DEFAULT_STATUS, steps[..n], ttl), steps[n];
    RunStaysConsistent(steps[..n], ttl);
    RunStaysConsistent(steps, ttl);
    if GrantedAt(steps, n, ttl) {
      m := n;
      ExtendSucceedsIff(s, ttl, step.x, Apply(s, step, ttl));
    } else {
      OnlyExtensionsCount(s, step, ttl);
      m := RunRespectsCeilings(steps[..n], ttl);
      forall k | 0 <= k < n ensures GrantedAt(steps, k, ttl) <==> GrantedAt(steps[..n], k, ttl) {
        assert steps[..n][..k] == steps[..k];
      }
    }
  }

  lemma OnlyExtensionsCount(s: Status, step: Step, ttl: int)
    requires Consistent(s, ttl) && !(step.Extended? && Extend(s, ttl, step.x).Some?)
    ensures var s' := Apply(s, step, ttl);
            && s'.extensionsCount == s.extensionsCount
            && (s.readyAt.Some? ==> s'.readyAt == s.readyAt && s'.expiresAt == s.expiresAt)
  {}

  /** Without an idle window, no run grants more extensions than the most any of its requests allowed. */
  lemma {:induction false} RunKeepsBudget(steps: seq<Step>, ttl: int, budget: nat)
    requires forall k :: 0 <= k < |steps| && steps[k].Extended? ==>
               steps[k].x.terms.poolMaxIdle.None? && steps[k].x.terms.maxExtensions <= budget
    ensures After(DEFAULT_STATUS, steps, ttl).extensionsCount <= budget
  {
    if steps != [] {
      var n := |steps| - 1;
      RunKeepsBudget(steps[..n], ttl, budget);
      RunStaysConsistent(steps[..n], ttl);
      var s := After(DEFAULT_STATUS, steps[..n], ttl);
      if steps[n].Extended? {
        ExtendSucceedsIff(s, ttl, steps[n].x, Apply(s, steps[n], ttl));
      } else {
        OnlyExtensionsCount(s, steps[n], ttl);
      }
    }
  }

  // ---------------------------------------------------------------- retries

  lemma BeginRetryIsIdentity(s: Status, generation: int, acceptedAt: int, timeout: int)
    requires BeginProvisioning(s, generation, acceptedAt, timeout).Ok?
    ensures var s' := BeginProvisioning(s, generation, acceptedAt, timeout).value;
            BeginProvisioning(s', generation, acceptedAt, timeout) == Ok(s')
  {}

  /** A Ready pass repeats as the identity, also after any number of extensions in between. */
  lemma {:induction false} ReadyRetryIsIdentity(s: Status, generation: int, readyAt: int, ttl: int,
                                                extensions: seq<Extension>)
    requires MarkReady(s, generation, readyAt, ttl).Ok?
    ensures var s' := Extensions(MarkReady(s, generation, readyAt, ttl).value, ttl, extensions);
            MarkReady(s', generation, readyAt, ttl) == Ok(s')
  {
    var ready := MarkReady(s, generation, readyAt, ttl).value;
    if extensions != [] {
      ReadyRetryIsIdentity(s, generation, readyAt, ttl, extensions[..|extensions| - 1]);
    }
  }

  function Extensions(s: Status, ttl: int, extensions: seq<Extension>): Status {
    if extensions == [] then s
    else Apply(Extensions(s, ttl, extensions[..|extensions| - 1]), Extended(extensions[|extensions| - 1]), ttl)
  }
}
