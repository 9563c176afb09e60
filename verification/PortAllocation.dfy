/** The host port allocator used by one caller at a time (crates/containerproxy/src/backend/ports.rs). */
module PortAllocation {
  import opened Wrappers

  type Port = p: int | 0 <= p < 0x1_0000 witness 0
  const LAST_PORT: Port := 0xFFFF

  type Registry = map<string, set<Port>>

  ghost function Taken(registry: Registry): set<Port> {
    set owner, port | owner in registry && port in registry[owner] :: port
  }

  ghost predicate OneOwnerEach(registry: Registry) {
    forall a, b | a in registry && b in registry && a != b :: registry[a] !! registry[b]
  }

  function OwnedBy(registry: Registry, owner: string): set<Port> {
    if owner in registry then registry[owner] else {}
  }

  function WithPort(registry: Registry, owner: string, port: Port): Registry {
    registry[owner := OwnedBy(registry, owner) + {port}]
  }

  /** The first port from `candidate` on that is not in the set. */
  ghost function FirstFree(taken: set<Port>, candidate: Port): (r: Option<Port>)
    ensures r.Some? ==> candidate <= r.value && r.value !in taken
    ensures forall port: Port :: candidate <= port && (r.Some? ==> port < r.value) ==> port in taken
    decreases LAST_PORT - candidate
  {
    if candidate !in taken then Some(candidate)
    else if candidate == LAST_PORT then None
    else FirstFree(taken, candidate + 1)
  }

  /** The ports that an allocator may hand out. */
  datatype Range = Range(first: Port, last: Option<Port>) {
    predicate Contains(port: Port) {
      first <= port && (last.Some? ==> port <= last.value)
    }

    /** What `allocate` goes for when it sees these ports taken. */
    ghost function Candidate(taken: set<Port>): Option<Port> {
      var free := FirstFree(taken, first);
      if free.Some? && Contains(free.value) then free else None
    }
  }

  /** There is no candidate exactly when the range is full; else it is the least free port of the range. */
  lemma CandidateIsLeast(range: Range, taken: set<Port>)
    ensures range.Candidate(taken).None? <==> forall port: Port :: range.Contains(port) ==> port in taken
    ensures range.Candidate(taken).Some? ==>
      var port := range.Candidate(taken).value;
      && range.Contains(port) && port !in taken
      && forall lower: Port :: range.Contains(lower) && lower < port ==> lower in taken
  {
    var free := FirstFree(taken, range.first);
    if free.Some? && range.Contains(free.value) {
      assert free.value !in taken;
    }
  }

  const ATTEMPTS := 100

  type Turns = (nat, Registry) -> Registry

  datatype Outcome = Outcome(port: Option<Port>, registry: Registry)

  /** The attempts to read the registry and to claim what looks free, from one attempt on. */
  ghost function Attempt(range: Range, owner: string, others: Turns, registry: Registry, attempt: nat): Outcome
    requires attempt <= ATTEMPTS
    decreases ATTEMPTS - attempt
  {
    if attempt == ATTEMPTS then Outcome(None, registry) else
    var read := others(2 * attempt, registry);
    var claimed := others(2 * attempt + 1, read);
    var candidate := range.Candidate(Taken(read));
    if candidate.None? then Outcome(None, claimed)
    else if candidate.value in Taken(claimed) then Attempt(range, owner, others, claimed, attempt + 1)
    else Outcome(candidate, WithPort(claimed, owner, candidate.value))
  }

  lemma FirstFreeUnfolds(taken: set<Port>, candidate: Port)
    ensures FirstFree(taken, candidate)
         == if candidate !in taken then Some(candidate)
            else if candidate == LAST_PORT then None else FirstFree(taken, candidate + 1)
  {
  }

  lemma NoMoreAttempts(range: Range, owner: string, others: Turns, registry: Registry)
    ensures Attempt(range, owner, others, registry, ATTEMPTS) == Outcome(None, registry)
  {
  }

  lemma AttemptUnfolds(range: Range, owner: string, others: Turns, registry: Registry, attempt: nat)
    requires attempt < ATTEMPTS
    ensures var read := others(2 * attempt, registry);
      var claimed := others(2 * attempt + 1, read);
      var candidate := range.Candidate(Taken(read));
      Attempt(range, owner, others, registry, attempt)
        == if candidate.None? then Outcome(None, claimed)
           else if candidate.value in Taken(claimed) then Attempt(range, owner, others, claimed, attempt + 1)
           else Outcome(candidate, WithPort(claimed, owner, candidate.value))
  {
    hide Taken, WithPort, FirstFree;
  }

  /** Undisturbed, allocating fails exactly when the range is full, and else hands out its least free port. */
  lemma AllocateUndisturbed(range: Range, owner: string, others: Turns, registry: Registry)
    requires forall turn: nat, r: Registry :: others(turn, r) == r
    ensures var outcome := Attempt(range, owner, others, registry, 0);
      && (outcome.port.None? <==> forall port: Port :: range.Contains(port) ==> port in Taken(registry))
      && (outcome.port.None? ==> outcome.registry == registry)
      && (outcome.port.Some? ==>
            var port := outcome.port.value;
            && range.Contains(port) && port !in Taken(registry)
            && (forall lower: Port :: range.Contains(lower) && lower < port ==> lower in Taken(registry))
            && outcome.registry == WithPort(registry, owner, port))
  {
    CandidateIsLeast(range, Taken(registry));
  }

  /** As long as the others keep every port with one owner, so does allocating, disturbed or not. */
  lemma {:induction false} AllocateKeepsOneOwner(
      range: Range, owner: string, others: Turns, registry: Registry, attempt: nat)
    requires attempt <= ATTEMPTS && OneOwnerEach(registry)
    requires forall turn: nat, r: Registry :: OneOwnerEach(r) ==> OneOwnerEach(others(turn, r))
    ensures var outcome := Attempt(range, owner, others, registry, attempt);
      && OneOwnerEach(outcome.registry)
      && (outcome.port.Some? ==>
            range.Contains(outcome.port.value) && outcome.port.value in OwnedBy(outcome.registry, owner))
    decreases ATTEMPTS - attempt
  {
    if attempt < ATTEMPTS {
      var read := others(2 * attempt, registry);
      var claimed := others(2 * attempt + 1, read);
      var candidate := range.Candidate(Taken(read));
      if candidate.Some? {
        if candidate.value in Taken(claimed) {
          AllocateKeepsOneOwner(range, owner, others, claimed, attempt + 1);
        } else {
          TakenWithPort(claimed, owner, candidate.value);
        }
      }
    }
  }

  lemma TakenWithPort(registry: Registry, owner: string, port: Port)
    ensures Taken(WithPort(registry, owner, port)) == Taken(registry) + {port}
    ensures OneOwnerEach(registry) && port !in Taken(registry) ==> OneOwnerEach(WithPort(registry, owner, port))
  {
    var after := WithPort(registry, owner, port);
    assert port in after[owner];
    forall p | p in Taken(registry)
      ensures p in Taken(after)
    {
      var o :| o in registry && p in registry[o];
      assert p in after[o];
    }
  }

  lemma TakenWithout(registry: Registry, owner: string)
    ensures Taken(registry - {owner}) <= Taken(registry)
    ensures OneOwnerEach(registry) ==> Taken(registry - {owner}) == Taken(registry) - OwnedBy(registry, owner)
    ensures OneOwnerEach(registry) ==> OneOwnerEach(registry - {owner})
  {
    var after := registry - {owner};
    forall p | p in Taken(registry) && p !in OwnedBy(registry, owner)
      ensures p in Taken(after)
    {
      var o :| o in registry && p in registry[o];
      assert o in after && p in after[o];
    }
  }

  class MemoryPortRegistry {
    var state: Registry

    constructor ()
      ensures state == map[]
    {
      state := map[];
    }

    /** Claims a port, which fails if it is taken, by the same owner or another. */
    method Add(owner: string, port: Port) returns (added: bool)
      modifies this
      ensures added == (port !in Taken(old(state)))
      ensures state == if added then WithPort(old(state), owner, port) else old(state)
    {
      var owners := state.Keys;
      while owners != {}
        invariant owners <= state.Keys
        invariant forall o | o in state && o !in owners :: port !in state[o]
        decreases |owners|
      {
        var o :| o in owners;
        if port in state[o] {
          return false;
        }
        owners := owners - {o};
      }
      state := WithPort(state, owner, port);
      return true;
    }

    method Release(owner: string)
      modifies this
      ensures state == old(state) - {owner}
    {
      state := state - {owner};
    }

    /** Other callers get their turn. */
    method TakeTurn(others: Turns, turn: nat)
      modifies this
      ensures state == others(turn, old(state))
    {
      state := others(turn, state);
    }

    /** All the ports of all the owners in one set. */
    method Flatten() returns (ports: set<Port>)
      ensures ports == Taken(state)
    {
      ports := {};
      var owners := state.Keys;
      while owners != {}
        invariant owners <= state.Keys
        invariant ports == PortsOf(state, state.Keys - owners)
        decreases |owners|
      {
        var o :| o in owners;
        MorePorts(state, state.Keys - owners, o);
        assert state.Keys - (owners - {o}) == state.Keys - owners + {o};
        ports := ports + state[o];
        owners := owners - {o};
      }
    }
  }

  ghost function PortsOf(registry: Registry, owners: set<string>): set<Port>
    requires owners <= registry.Keys
  {
    set owner, port | owner in owners && port in registry[owner] :: port
  }

  lemma MorePorts(registry: Registry, owners: set<string>, owner: string)
    requires owners + {owner} <= registry.Keys
    ensures PortsOf(registry, owners + {owner}) == PortsOf(registry, owners) + registry[owner]
  {
    var more := owners + {owner};
    forall p | p in PortsOf(registry, owners) + registry[owner]
      ensures p in PortsOf(registry, more)
    {
      if p in registry[owner] {
        assert owner in more;
      } else {
        var o :| o in owners && p in registry[o];
        assert o in more;
      }
    }
  }

  lemma PartsAddUp(registry: Registry, owners: set<string>, owner: string)
    requires owners + {owner} <= registry.Keys && owner !in owners
    ensures OneOwnerEach(registry) ==>
      |PortsOf(registry, owners + {owner})| == |PortsOf(registry, owners)| + |registry[owner]|
  {
    MorePorts(registry, owners, owner);
    assert OneOwnerEach(registry) ==> PortsOf(registry, owners) !! registry[owner];
  }

  lemma NoParts(registry: Registry)
    ensures PortsOf(registry, {}) == {}
    ensures PortsOf(registry, registry.Keys) == Taken(registry)
  {
  }

  class PortAllocator {
    const registry: MemoryPortRegistry
    const range: Range

    constructor (registry: MemoryPortRegistry, range: Range)
      ensures this.registry == registry && this.range == range
    {
      this.registry, this.range := registry, range;
    }

    /** `others` says what the other callers make of the registry in their turns, which come before the
        registry is read and before a port is claimed. */
    method Allocate(owner: string, others: Turns) returns (r: Option<Port>)
      modifies registry
      ensures Outcome(r, registry.state) == Attempt(range, owner, others, old(registry.state), 0)
    {
      hide Taken, WithPort, Attempt, FirstFree;
      var attempt := 0;
      while attempt < ATTEMPTS
        invariant attempt <= ATTEMPTS
        invariant Attempt(range, owner, others, registry.state, attempt)
               == Attempt(range, owner, others, old(registry.state), 0)
      {
        ghost var read := others(2 * attempt, registry.state);
        ghost var claimed := others(2 * attempt + 1, read);
        AttemptUnfolds(range, owner, others, registry.state, attempt);
        registry.TakeTurn(others, 2 * attempt);
        var taken := registry.Flatten();
        registry.TakeTurn(others, 2 * attempt + 1);
        var candidate: Port := range.first;
        while candidate in taken
          invariant registry.state == claimed
          invariant FirstFree(taken, candidate) == FirstFree(taken, range.first)
          decreases LAST_PORT - candidate
        {
          FirstFreeUnfolds(taken, candidate);
          if candidate == LAST_PORT {
            return None;
          }
          candidate := candidate + 1;
        }
        FirstFreeUnfolds(taken, candidate);
        if range.last.Some? && candidate > range.last.value {
          return None;
        }
        var added := registry.Add(owner, candidate);
        if added {
          return Some(candidate);
        }
        attempt := attempt + 1;
      }
      NoMoreAttempts(range, owner, others, registry.state);
      return None;
    }

    /** Takes note of a port that is in use already, unless it has an owner. */
    method AddExistingPort(owner: string, port: Port)
      modifies registry
      ensures registry.state
           == if port in Taken(old(registry.state)) then old(registry.state)
              else WithPort(old(registry.state), owner, port)
    {
      var added := registry.Add(owner, port);
    }

    /** Frees exactly the ports of the owner. */
    method Release(owner: string)
      modifies registry
      ensures registry.state == old(registry.state) - {owner}
      ensures old(OneOwnerEach(registry.state)) ==>
        && OneOwnerEach(registry.state)
        && Taken(registry.state) == Taken(old(registry.state)) - OwnedBy(old(registry.state), owner)
    {
      TakenWithout(registry.state, owner);
      registry.Release(owner);
    }

    method OwnedPorts(owner: string) returns (ports: set<Port>)
      ensures ports == OwnedBy(registry.state, owner)
    {
      ports := if owner in registry.state then registry.state[owner] else {};
    }

    /** As long as no port has two owners, the sizes add up to the number of ports taken. */
    method AllocatedCount() returns (count: nat)
      ensures OneOwnerEach(registry.state) ==> count == |Taken(registry.state)|
    {
      hide OneOwnerEach, PortsOf;
      var state := registry.state;
      var owners := state.Keys;
      count := 0;
      NoParts(state);
      assert state.Keys - owners == {};
      while owners != {}
        invariant owners <= state.Keys
        invariant OneOwnerEach(state) ==> count == |PortsOf(state, state.Keys - owners)|
        invariant owners == {} ==> state.Keys - owners == state.Keys
        decreases |owners|
      {
        var o :| o in owners;
        PartsAddUp(state, state.Keys - owners, o);
        assert state.Keys - (owners - {o}) == state.Keys - owners + {o};
        count := count + |state[o]|;
        owners := owners - {o};
      }
    }
  }
}
