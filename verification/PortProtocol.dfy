/**
 The host port allocator shared by many callers (crates/containerproxy/src/backend/ports.rs): every call
 reads the registry, picks a port, claims it, and starts over when somebody else was faster.
 */
module PortProtocol {
  import opened Wrappers
  import opened PortAllocation

  /** What happened to the registry, in order. Ports of recovered apps are claimed outside any call. */
  datatype Event =
    | Claimed(call: Option<nat>, owner: string, port: Port)
    | Released(owner: string, ports: set<Port>)

  /** A claim that failed: how many events there had been when the registry was read, and when it was claimed. */
  datatype Loss = Loss(readAt: nat, claimedAt: nat, port: Port)

  datatype Progress =
    | Reading
    | Claiming(readAt: nat, taken: set<Port>)
    | Granted(taken: set<Port>, port: Port)
    | RangeFull(taken: set<Port>)
    | OutOfAttempts

  /** A call of `allocate`. */
  datatype Call = Call(owner: string, startedAt: nat, losses: seq<Loss>, progress: Progress)

  datatype System = System(range: Range, registry: Registry, calls: map<nat, Call>, events: seq<Event>)

  datatype Step =
    | Begin(call: nat, owner: string)
    | Read(call: nat)
    | Claim(call: nat)
    | AddExisting(owner: string, port: Port)
    | Release(owner: string)

  ghost predicate Init(s: System) {
    s.registry == map[] && s.calls == map[] && s.events == []
  }

  ghost predicate Enabled(s: System, step: Step) {
    match step
    case Begin(call, _) => call !in s.calls
    case Read(call) => call in s.calls && s.calls[call].progress.Reading?
    case Claim(call) =>  // a call that is claiming always has a candidate: see CallInv
      && call in s.calls && s.calls[call].progress.Claiming?
      && s.range.Candidate(s.calls[call].progress.taken).Some?
    case AddExisting(_, _) => true
    case Release(_) => true
  }

  function Continue(s: System, call: nat, progress: Progress): System
    requires call in s.calls
  {
    s.(calls := s.calls[call := s.calls[call].(progress := progress)])
  }

  function Add(s: System, call: Option<nat>, owner: string, port: Port): System {
    s.(registry := WithPort(s.registry, owner, port), events := s.events + [Claimed(call, owner, port)])
  }

  /** Adding a port and releasing an owner are single steps: the registry is locked. */
  ghost function Apply(s: System, step: Step): System
    requires Enabled(s, step)
  {
    match step
    case Begin(call, owner) => s.(calls := s.calls[call := Call(owner, |s.events|, [], Reading)])
    case Read(call) =>
      var taken := Taken(s.registry);
      Continue(s, call, if s.range.Candidate(taken).Some? then Claiming(|s.events|, taken) else RangeFull(taken))
    case Claim(call) => ApplyClaim(s, call)
    case AddExisting(owner, port) => if port in Taken(s.registry) then s else Add(s, None, owner, port)
    case Release(owner) =>
      s.(registry := s.registry - {owner}, events := s.events + [Released(owner, OwnedBy(s.registry, owner))])
  }

  ghost function ApplyClaim(s: System, call: nat): System
    requires Enabled(s, Claim(call))
  {
    var caller := s.calls[call];
    var taken := caller.progress.taken;
    var port := s.range.Candidate(taken).value;
    if port !in Taken(s.registry) then
      Add(Continue(s, call, Granted(taken, port)), Some(call), caller.owner, port)
    else
      var losses := caller.losses + [Loss(caller.progress.readAt, |s.events|, port)];
      var progress := if |losses| < ATTEMPTS then Reading else OutOfAttempts;
      s.(calls := s.calls[call := caller.(losses := losses, progress := progress)])
  }

  /** What the registry and the events have in common. */

  ghost predicate ClaimAt(events: seq<Event>, i: nat, port: Port) {
    i < |events| && events[i].Claimed? && events[i].port == port
  }

  ghost predicate ReleaseAt(events: seq<Event>, i: nat, port: Port) {
    i < |events| && events[i].Released? && port in events[i].ports
  }

  /** A port whose last claim has not been released is with the owner that claimed it. */
  ghost predicate ClaimsHold(registry: Registry, events: seq<Event>) {
    forall i: nat, port: Port | ClaimAt(events, i, port) ::
      port in OwnedBy(registry, events[i].owner) || exists k :: i < k && ReleaseAt(events, k, port)
  }

  /** Between two claims of a port, it was released. */
  ghost predicate NoDoubleClaim(events: seq<Event>) {
    forall i: nat, j: nat, port: Port | i < j && ClaimAt(events, i, port) && ClaimAt(events, j, port) ::
      exists k :: i < k < j && ReleaseAt(events, k, port)
  }

  /** What a call in progress has seen, and what it has lost. */

  ghost predicate ClaimByOther(events: seq<Event>, i: nat, call: nat, port: Port) {
    ClaimAt(events, i, port) && events[i].call != Some(call)
  }

  /** Somebody else claimed the port between reading and claiming. */
  ghost predicate Explained(events: seq<Event>, call: nat, loss: Loss) {
    exists i :: loss.readAt <= i < loss.claimedAt && ClaimByOther(events, i, call, loss.port)
  }

  ghost predicate LossesExplained(events: seq<Event>, call: nat, losses: seq<Loss>) {
    forall loss | loss in losses :: Explained(events, call, loss)
  }

  /** The attempts come one after the other. */
  ghost predicate InTurn(startedAt: nat, losses: seq<Loss>, now: nat) {
    && (forall i | 0 <= i < |losses| :: startedAt <= losses[i].readAt <= losses[i].claimedAt <= now)
    && (forall i, j | 0 <= i < j < |losses| :: losses[i].claimedAt <= losses[j].readAt)
  }

  ghost predicate NoClaimBy(events: seq<Event>, call: nat) {
    forall e | e in events :: e.Claimed? ==> e.call != Some(call)
  }

  /** Everything taken was taken when the call read the registry, or was claimed since. */
  ghost predicate SeenOrClaimed(s: System, readAt: nat, taken: set<Port>) {
    forall port | port in Taken(s.registry) ::
      port in taken || exists i :: readAt <= i && ClaimAt(s.events, i, port)
  }

  ghost predicate CallInv(s: System, id: nat, call: Call) {
    && InTurn(call.startedAt, call.losses, |s.events|)
    && call.startedAt <= |s.events|
    && LossesExplained(s.events, id, call.losses)
    && (!call.progress.Granted? ==> NoClaimBy(s.events, id))
    && match call.progress
       case Reading => |call.losses| < ATTEMPTS
       case Claiming(readAt, taken) =>
         && |call.losses| < ATTEMPTS
         && InTurn(call.startedAt, call.losses, readAt) && call.startedAt <= readAt <= |s.events|
         && s.range.Candidate(taken).Some?
         && SeenOrClaimed(s, readAt, taken)
       case Granted(taken, port) =>
         && s.range.Candidate(taken) == Some(port)
         && exists i :: call.startedAt <= i < |s.events| && s.events[i] == Claimed(Some(id), call.owner, port)
       case RangeFull(taken) => s.range.Candidate(taken).None?
       case OutOfAttempts => |call.losses| == ATTEMPTS
  }

  ghost predicate Inv(s: System) {
    && OneOwnerEach(s.registry)
    && ClaimsHold(s.registry, s.events)
    && NoDoubleClaim(s.events)
    && (forall e | e in s.events && e.Claimed? && e.call.Some? :: e.call.value in s.calls)
    && (forall id | id in s.calls :: CallInv(s, id, s.calls[id]))
  }

  /** A call that does not take part in a step is none the worse for an event. */
  lemma EventLeavesCall(s: System, t: System, id: nat, call: Call, event: Event)
    requires CallInv(s, id, call)
    requires t.range == s.range && t.events == s.events + [event]
    requires event.Claimed? ==> event.call != Some(id)
    requires Taken(t.registry) <= Taken(s.registry) + if event.Claimed? then {event.port} else {}
    ensures CallInv(t, id, call)
  {
    hide OneOwnerEach;
    forall i: nat, port: Port | ClaimAt(s.events, i, port)
      ensures ClaimAt(t.events, i, port) && t.events[i] == s.events[i]
    {
    }
    forall loss | loss in call.losses
      ensures Explained(t.events, id, loss)
    {
      assert Explained(s.events, id, loss);
      var i :| loss.readAt <= i < loss.claimedAt && ClaimByOther(s.events, i, id, loss.port);
      assert ClaimByOther(t.events, i, id, loss.port);
    }
    if call.progress.Claiming? {
      forall port | port in Taken(t.registry)
        ensures port in call.progress.taken || exists i :: call.progress.readAt <= i && ClaimAt(t.events, i, port)
      {
        if port !in Taken(s.registry) {
          assert ClaimAt(t.events, |s.events|, port);
        } else if port !in call.progress.taken {
          var i :| call.progress.readAt <= i && ClaimAt(s.events, i, port);
          assert ClaimAt(t.events, i, port);
        }
      }
    }
    if call.progress.Granted? {
      var i :| call.startedAt <= i < |s.events| && s.events[i] == Claimed(Some(id), call.owner, call.progress.port);
      assert t.events[i] == s.events[i];
    }
  }

  /** A claim of a free port. */
  lemma AddKeepsClaims(s: System, call: Option<nat>, owner: string, port: Port)
    requires OneOwnerEach(s.registry) && ClaimsHold(s.registry, s.events) && NoDoubleClaim(s.events)
    requires port !in Taken(s.registry)
    ensures var t := Add(s, call, owner, port);
      OneOwnerEach(t.registry) && ClaimsHold(t.registry, t.events) && NoDoubleClaim(t.events)
  {
    hide OneOwnerEach;
    var t := Add(s, call, owner, port);
    TakenWithPort(s.registry, owner, port);
    forall k: nat, p: Port | ReleaseAt(s.events, k, p)
      ensures ReleaseAt(t.events, k, p)
    {
    }
    forall i: nat, p: Port | ClaimAt(t.events, i, p)
      ensures p in OwnedBy(t.registry, t.events[i].owner) || exists k :: i < k && ReleaseAt(t.events, k, p)
    {
      if i < |s.events| {
        assert ClaimAt(s.events, i, p);
      }
    }
    forall i: nat, j: nat, p: Port | i < j && ClaimAt(t.events, i, p) && ClaimAt(t.events, j, p)
      ensures exists k :: i < k < j && ReleaseAt(t.events, k, p)
    {
      assert ClaimAt(s.events, i, p);
      if j < |s.events| {
        assert ClaimAt(s.events, j, p);
        var k :| i < k < j && ReleaseAt(s.events, k, p);
        assert ReleaseAt(t.events, k, p);
      } else {
        NotOwned(s.registry, s.events[i].owner, p);
        var k :| i < k && ReleaseAt(s.events, k, p);
        assert ReleaseAt(t.events, k, p);
      }
    }
  }

  lemma NotOwned(registry: Registry, owner: string, port: Port)
    ensures port !in Taken(registry) ==> port !in OwnedBy(registry, owner)
  {
  }

  lemma ReleaseKeepsClaims(s: System, owner: string)
    requires OneOwnerEach(s.registry) && ClaimsHold(s.registry, s.events) && NoDoubleClaim(s.events)
    ensures var t := Apply(s, Release(owner));
      OneOwnerEach(t.registry) && ClaimsHold(t.registry, t.events) && NoDoubleClaim(t.events)
  {
    hide OneOwnerEach;
    var t := Apply(s, Release(owner));
    TakenWithout(s.registry, owner);
    forall i: nat, p: Port | ClaimAt(t.events, i, p)
      ensures p in OwnedBy(t.registry, t.events[i].owner) || exists k :: i < k && ReleaseAt(t.events, k, p)
    {
      assert ClaimAt(s.events, i, p);
      if p in OwnedBy(s.registry, s.events[i].owner) {
        assert s.events[i].owner == owner ==> ReleaseAt(t.events, |s.events|, p);
      } else {
        var k :| i < k && ReleaseAt(s.events, k, p);
        assert ReleaseAt(t.events, k, p);
      }
    }
    forall i: nat, j: nat, p: Port | i < j && ClaimAt(t.events, i, p) && ClaimAt(t.events, j, p)
      ensures exists k :: i < k < j && ReleaseAt(t.events, k, p)
    {
      assert ClaimAt(s.events, i, p) && ClaimAt(s.events, j, p);
      var k :| i < k < j && ReleaseAt(s.events, k, p);
      assert ReleaseAt(t.events, k, p);
    }
  }

  /** A step that adds nothing to the events. */
  lemma QuietStep(s: System, id: nat, next: Call)
    requires Inv(s) && CallInv(s, id, next)
    ensures Inv(s.(calls := s.calls[id := next]))
  {
    hide OneOwnerEach, NoDoubleClaim, InTurn, LossesExplained, NoClaimBy, Taken;
    var t := s.(calls := s.calls[id := next]);
    forall other | other in t.calls
      ensures CallInv(t, other, t.calls[other])
    {
      assert other == id || CallInv(s, other, s.calls[other]);
    }
  }

  lemma StepKeepsInv(s: System, step: Step)
    requires Inv(s) && Enabled(s, step)
    ensures Inv(Apply(s, step))
  {
    hide OneOwnerEach, ClaimsHold, NoDoubleClaim, InTurn, LossesExplained, Taken, NoClaimBy;
    match step
    case Begin(call, owner) => BeginKeepsInv(s, call, owner);
    case Read(call) => ReadKeepsInv(s, call);
    case Claim(call) => 
      if s.range.Candidate(s.calls[call].progress.taken).value in Taken(s.registry) {
        LossKeepsInv(s, call);
      } else {
        GrantKeepsInv(s, call);
      }
    case AddExisting(owner, port) =>
      if port !in Taken(s.registry) {
        AddKeepsInv(s, None, owner, port);
      }
    case Release(owner) => ReleaseKeepsInv(s, owner);
  }

  lemma BeginKeepsInv(s: System, call: nat, owner: string)
    requires Inv(s) && Enabled(s, Begin(call, owner))
    ensures Inv(Apply(s, Begin(call, owner)))
  {
    hide OneOwnerEach, ClaimsHold, NoDoubleClaim;
    QuietStep(s, call, Call(owner, |s.events|, [], Reading));
  }

  lemma ReadKeepsInv(s: System, call: nat)
    requires Inv(s) && Enabled(s, Read(call))
    ensures Inv(Apply(s, Read(call)))
  {
    hide OneOwnerEach, ClaimsHold, NoDoubleClaim, LossesExplained, NoClaimBy;
    var taken := Taken(s.registry);
    var progress := if s.range.Candidate(taken).Some? then Claiming(|s.events|, taken) else RangeFull(taken);
    QuietStep(s, call, s.calls[call].(progress := progress));
  }

  /** A claim fails only because somebody else claimed the port after the call had read the registry. */
  lemma LossKeepsInv(s: System, call: nat)
    requires Inv(s) && Enabled(s, Claim(call))
    requires s.range.Candidate(s.calls[call].progress.taken).value in Taken(s.registry)
    ensures Inv(Apply(s, Claim(call)))
  {
    hide OneOwnerEach, ClaimsHold, NoDoubleClaim, Taken;
    var caller := s.calls[call];
    var Claiming(readAt, taken) := caller.progress;
    var port := s.range.Candidate(taken).value;
    var loss := Loss(readAt, |s.events|, port);
    var i :| readAt <= i && ClaimAt(s.events, i, port);
    assert ClaimByOther(s.events, i, call, port);
    assert Explained(s.events, call, loss);
    var losses := caller.losses + [loss];
    QuietStep(s, call, caller.(losses := losses, progress := if |losses| < ATTEMPTS then Reading else OutOfAttempts));
  }

  /** Whoever claims a free port, the other calls are none the worse for it. */
  lemma AddKeepsInv(s: System, call: Option<nat>, owner: string, port: Port)
    requires Inv(s) && port !in Taken(s.registry) && call.None?
    ensures Inv(Add(s, call, owner, port))
  {
    hide OneOwnerEach, ClaimsHold, NoDoubleClaim, Taken, CallInv;
    var t := Add(s, call, owner, port);
    AddKeepsClaims(s, call, owner, port);
    TakenWithPort(s.registry, owner, port);
    forall id | id in t.calls
      ensures CallInv(t, id, t.calls[id])
    {
      EventLeavesCall(s, t, id, s.calls[id], Claimed(call, owner, port));
    }
  }

  lemma GrantKeepsInv(s: System, call: nat)
    requires Inv(s) && Enabled(s, Claim(call))
    requires s.range.Candidate(s.calls[call].progress.taken).value !in Taken(s.registry)
    ensures Inv(Apply(s, Claim(call)))
  {
    hide OneOwnerEach, ClaimsHold, NoDoubleClaim, Taken, CallInv;
    var caller := s.calls[call];
    var taken := caller.progress.taken;
    var port := s.range.Candidate(taken).value;
    var t := Apply(s, Claim(call));
    AddKeepsClaims(s, Some(call), caller.owner, port);
    GrantedCall(s, call);
    TakenWithPort(s.registry, caller.owner, port);
    forall id | id in t.calls
      ensures CallInv(t, id, t.calls[id])
    {
      if id != call {
        EventLeavesCall(s, t, id, s.calls[id], Claimed(Some(call), caller.owner, port));
      }
    }
  }

  lemma GrantedCall(s: System, call: nat)
    requires Enabled(s, Claim(call)) && CallInv(s, call, s.calls[call])
    requires s.range.Candidate(s.calls[call].progress.taken).value !in Taken(s.registry)
    ensures CallInv(Apply(s, Claim(call)), call, Apply(s, Claim(call)).calls[call])
  {
    hide OneOwnerEach, Taken;
    var t := Apply(s, Claim(call));
    var caller := s.calls[call];
    forall loss | loss in caller.losses
      ensures Explained(t.events, call, loss)
    {
      assert Explained(s.events, call, loss);
      var i :| loss.readAt <= i < loss.claimedAt && ClaimByOther(s.events, i, call, loss.port);
      assert ClaimByOther(t.events, i, call, loss.port);
    }
    assert t.events[|s.events|] == Claimed(Some(call), caller.owner, t.calls[call].progress.port);
  }

  lemma ReleaseKeepsInv(s: System, owner: string)
    requires Inv(s)
    ensures Inv(Apply(s, Release(owner)))
  {
    hide OneOwnerEach, ClaimsHold, NoDoubleClaim, Taken, CallInv;
    var t := Apply(s, Release(owner));
    ReleaseKeepsClaims(s, owner);
    TakenWithout(s.registry, owner);
    forall id | id in t.calls
      ensures CallInv(t, id, t.calls[id])
    {
      EventLeavesCall(s, t, id, s.calls[id], Released(owner, OwnedBy(s.registry, owner)));
    }
  }

  // Whole runs.

  ghost predicate IsRun(run: seq<System>, steps: seq<Step>) {
    && |run| == |steps| + 1
    && Init(run[0])
    && forall i | 0 <= i < |steps| :: Enabled(run[i], steps[i]) && run[i + 1] == Apply(run[i], steps[i])
  }

  lemma {:induction false} RunsKeepInv(run: seq<System>, steps: seq<Step>, i: nat)
    requires IsRun(run, steps) && i < |run|
    ensures Inv(run[i])
  {
    hide Inv, Enabled, Apply;
    if i == 0 {
      InitInv(run[0]);
    } else {
      RunsKeepInv(run, steps, i - 1);
      StepKeepsInv(run[i - 1], steps[i - 1]);
    }
  }

  lemma InitInv(s: System)
    requires Init(s)
    ensures Inv(s)
  {
  }

  /** In every state of every run: a port has one owner, and was released between any two claims of it. */
  lemma PortsAreSafe(run: seq<System>, steps: seq<Step>, i: nat)
    requires IsRun(run, steps) && i < |run|
    ensures OneOwnerEach(run[i].registry)
    ensures NoDoubleClaim(run[i].events)
  {
    hide OneOwnerEach, NoDoubleClaim, IsRun, CallInv, ClaimsHold;
    RunsKeepInv(run, steps, i);
  }

  /** A granted port is in the range, was the least free one when the call read the registry, and was claimed
      for its owner in the course of the call. */
  lemma GrantsAreSound(run: seq<System>, steps: seq<Step>, i: nat, id: nat)
    requires IsRun(run, steps) && i < |run|
    requires id in run[i].calls && run[i].calls[id].progress.Granted?
    ensures var s := run[i];
      var Granted(taken, port) := s.calls[id].progress;
      && s.range.Contains(port) && port !in taken
      && (forall lower: Port :: s.range.Contains(lower) && lower < port ==> lower in taken)
      && exists k ::
           s.calls[id].startedAt <= k < |s.events| && s.events[k] == Claimed(Some(id), s.calls[id].owner, port)
  {
    hide OneOwnerEach, NoDoubleClaim, IsRun, ClaimsHold, InTurn, LossesExplained;
    RunsKeepInv(run, steps, i);
    assert CallInv(run[i], id, run[i].calls[id]);
    CandidateIsLeast(run[i].range, run[i].calls[id].progress.taken);
  }

  /** Every lost attempt of a call is the fault of a different claim of somebody else, made during the call. */
  lemma LossesAreCharged(run: seq<System>, steps: seq<Step>, i: nat, id: nat) returns (claims: seq<nat>)
    requires IsRun(run, steps) && i < |run| && id in run[i].calls
    ensures var call := run[i].calls[id];
      && |claims| == |call.losses|
      && (forall k | 0 <= k < |claims| ::
            call.startedAt <= claims[k] && ClaimByOther(run[i].events, claims[k], id, call.losses[k].port))
      && (forall j, k | 0 <= j < k < |claims| :: claims[j] < claims[k])
  {
    hide OneOwnerEach, NoDoubleClaim, IsRun, ClaimsHold, Inv;
    var s := run[i];
    var call := s.calls[id];
    RunsKeepInv(run, steps, i);
    InvOfCall(s, id);
    claims := [];
    while |claims| < |call.losses|
      invariant |claims| <= |call.losses|
      invariant forall k | 0 <= k < |claims| ::
        call.losses[k].readAt <= claims[k] < call.losses[k].claimedAt
        && ClaimByOther(s.events, claims[k], id, call.losses[k].port)
      invariant forall j, k | 0 <= j < k < |claims| :: claims[j] < claims[k]
    {
      var loss := call.losses[|claims|];
      assert Explained(s.events, id, loss);
      var at: nat :| loss.readAt <= at < loss.claimedAt && ClaimByOther(s.events, at, id, loss.port);
      claims := claims + [at];
    }
  }

  lemma InvOfCall(s: System, id: nat)
    requires Inv(s) && id in s.calls
    ensures CallInv(s, id, s.calls[id])
  {
  }

  /** A call fails because the range was full when it read the registry, or because at least a hundred claims
      of others were made in its course. */
  lemma FailuresAreExcused(run: seq<System>, steps: seq<Step>, i: nat, id: nat) returns (claims: seq<nat>)
    requires IsRun(run, steps) && i < |run| && id in run[i].calls
    ensures var s := run[i];
      var call := s.calls[id];
      && (call.progress.RangeFull? ==> forall port: Port :: s.range.Contains(port) ==> port in call.progress.taken)
      && (call.progress.OutOfAttempts? ==>
        && |claims| == 100
        && (forall k | 0 <= k < |claims| :: call.startedAt <= claims[k] < |s.events|
              && s.events[claims[k]].Claimed? && s.events[claims[k]].call != Some(id))
        && (forall j, k | 0 <= j < k < |claims| :: claims[j] < claims[k]))
  {
    hide OneOwnerEach, NoDoubleClaim, IsRun, ClaimsHold, Inv, InTurn, LossesExplained;
    RunsKeepInv(run, steps, i);
    InvOfCall(run[i], id);
    claims := LossesAreCharged(run, steps, i, id);
    if run[i].calls[id].progress.RangeFull? {
      CandidateIsLeast(run[i].range, run[i].calls[id].progress.taken);
    }
  }

  /** A call that nobody interrupts does what a call does that nobody disturbs. */
  lemma UninterruptedCall(s: System, call: nat, owner: string, idle: Turns)
    requires Enabled(s, Begin(call, owner))
    requires forall turn: nat, r: Registry :: idle(turn, r) == r
    ensures var read := Apply(Apply(s, Begin(call, owner)), Read(call));
      var outcome := Attempt(s.range, owner, idle, s.registry, 0);
      if outcome.port.None? then
        read.registry == outcome.registry && read.calls[call].progress.RangeFull?
      else
        && Enabled(read, Claim(call))
        && var done := Apply(read, Claim(call));
           done.registry == outcome.registry && done.calls[call].progress.Granted?
           && done.calls[call].progress.port == outcome.port.value
  {
    hide Taken;
    NextIsFree(s.range, Taken(s.registry));
  }

  lemma NextIsFree(range: Range, taken: set<Port>)
    ensures range.Candidate(taken).Some? ==> range.Candidate(taken).value !in taken
  {
  }

  // Who has which port, told by the steps of a run alone.

  /** The step claims the port for the owner. */
  ghost predicate Gains(before: System, step: Step, after: System, owner: string, port: Port) {
    || (step == AddExisting(owner, port) && port !in Taken(before.registry))
    || (step.Claim? && step.call in after.calls
        && var call := after.calls[step.call];
           call.owner == owner && call.progress.Granted? && call.progress.port == port)
  }

  lemma OwnedAfter(s: System, step: Step, owner: string, port: Port)
    requires Enabled(s, step)
    ensures port in OwnedBy(Apply(s, step).registry, owner)
       <==> || Gains(s, step, Apply(s, step), owner, port)
            || (port in OwnedBy(s.registry, owner) && step != Release(owner))
  {
    hide Taken, FirstFree;
  }

  ghost predicate GainsAt(run: seq<System>, steps: seq<Step>, k: nat, owner: string, port: Port) {
    k < |steps| && k + 1 < |run| && Gains(run[k], steps[k], run[k + 1], owner, port)
  }

  ghost predicate IsReleasedAt(steps: seq<Step>, j: nat, owner: string) {
    j < |steps| && steps[j] == Release(owner)
  }

  /** The port was claimed for the owner, which has not been released since. */
  ghost predicate HasClaimed(run: seq<System>, steps: seq<Step>, i: nat, owner: string, port: Port) {
    exists k: nat ::
      k < i && GainsAt(run, steps, k, owner, port) && forall j: nat | k < j < i :: !IsReleasedAt(steps, j, owner)
  }

  /** An owner has exactly the ports that were claimed for it since it was released the last time. */
  lemma {:induction false} OwnersAreKnown(run: seq<System>, steps: seq<Step>, i: nat, owner: string, port: Port)
    requires IsRun(run, steps) && i < |run|
    ensures port in OwnedBy(run[i].registry, owner) <==> HasClaimed(run, steps, i, owner, port)
  {
    hide Gains, Apply, Enabled, IsReleasedAt;
    if i > 0 {
      var last := i - 1;
      OwnersAreKnown(run, steps, last, owner, port);
      OwnedAfter(run[last], steps[last], owner, port);
      ReleasedIs(steps, last, owner);
      if HasClaimed(run, steps, i, owner, port) {
        var k: nat :| k < i && GainsAt(run, steps, k, owner, port)
                   && forall j: nat | k < j < i :: !IsReleasedAt(steps, j, owner);
        if k < last {
          assert !IsReleasedAt(steps, last, owner);
          assert HasClaimed(run, steps, last, owner, port);
        }
      }
      if GainsAt(run, steps, last, owner, port) {
        assert HasClaimed(run, steps, i, owner, port);
      } else if HasClaimed(run, steps, last, owner, port) && !IsReleasedAt(steps, last, owner) {
        var k: nat :| k < last && GainsAt(run, steps, k, owner, port)
                   && forall j: nat | k < j < last :: !IsReleasedAt(steps, j, owner);
        forall j: nat | k < j < i
          ensures !IsReleasedAt(steps, j, owner)
        {
        }
        assert HasClaimed(run, steps, i, owner, port);
      }
    }
  }

  lemma ReleasedIs(steps: seq<Step>, j: nat, owner: string)
    requires j < |steps|
    ensures IsReleasedAt(steps, j, owner) <==> steps[j] == Release(owner)
  {
  }
}
