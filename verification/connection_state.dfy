/** The lock-protected state of the guest driver runtime and what each lock-held
    region does to it, as functions on values (guest_driver/runtime.rs). */
module ConnectionState {
  import opened Wrappers
  import opened Identity

  const EPOCH_MODULUS: nat := 0x1_0000_0000_0000_0000
  const GENERATION_MODULUS: nat := 0x1_0000_0000

  datatype Overrides = Overrides(replayEnabled: Option<bool>, reconnectInterval: Option<nat>)

  datatype RuntimeConfig = RuntimeConfig(
    hostBridgeEnabled: bool,
    hostBridgeRequired: bool,
    replayEnabled: bool,
    lazyReconnectInterval: nat)
  {
    predicate AllowDebugFallback() {
      !hostBridgeRequired && replayEnabled
    }

    predicate AllowDebugFallbackWith(overrides: Overrides) {
      && !hostBridgeRequired
      && (if overrides.replayEnabled.Some? then overrides.replayEnabled.value else replayEnabled)
    }

    function ReconnectIntervalWith(overrides: Overrides): nat {
      if overrides.reconnectInterval.Some? then overrides.reconnectInterval.value else lazyReconnectInterval
    }
  }

  datatype SessionInfo = SessionInfo(identity: IdentityPayload, overrides: Overrides)

  /** A connected host bridge; `id` stands for the address of its allocation. */
  datatype Bridge = Bridge(id: nat, info: SessionInfo)

  datatype RuntimeIdentity = RuntimeIdentity(
    host: Option<IdentityPayload>, fallback: Option<IdentityPayload>, stale: bool)
  {
    function SetHostIdentity(identity: IdentityPayload): RuntimeIdentity {
      this.(host := Some(identity), stale := false)
    }

    function MarkStale(): RuntimeIdentity {
      if host.Some? then this.(stale := true) else this
    }

    function LiveIdentity(): Option<IdentityPayload> {
      if stale then None else host
    }

    function Identity(): Option<IdentityPayload> {
      if LiveIdentity().Some? then LiveIdentity() else fallback
    }

    predicate CanAdvertise(hostBridgeRequired: bool) {
      if hostBridgeRequired then LiveIdentity().Some? else Identity().Some?
    }
  }

  function NewRuntimeIdentity(allowDebugFallback: bool): RuntimeIdentity {
    RuntimeIdentity(None, if allowDebugFallback then Some(DefaultFallbackIdentity()) else None, false)
  }

  /** When the last attempt finished and how long the worker must then wait. */
  datatype RetrySchedule = RetrySchedule(completedAt: Option<nat>, interval: nat) {
    function Remaining(now: nat): nat {
      match completedAt
      case None => 0
      case Some(completed) =>
        var elapsed := SaturatingSub(now, completed);
        SaturatingSub(interval, elapsed)
    }
  }

  const NO_RETRY := RetrySchedule(None, 0)

  function SaturatingSub(a: nat, b: nat): nat {
    if a < b then 0 else a - b
  }

  /** Everything behind the connection mutex, the device generation counter and
      the reference count of every live bridge allocation. */
  datatype Shared = Shared(
    bridge: Option<Bridge>,
    identity: RuntimeIdentity,
    catalog: Option<Catalog>,
    retired: seq<Bridge>,
    workerRunning: bool,
    stopping: bool,
    connecting: bool,
    epoch: nat,
    retry: RetrySchedule,
    reconnectInterval: nat,
    lastError: bool,
    generation: nat,
    refs: map<nat, nat>)

  function CatalogForIdentity(config: RuntimeConfig, identity: RuntimeIdentity): Option<Catalog> {
    match identity.Identity()
    case None => None
    case Some(payload) => Some(CatalogOf(payload, config.AllowDebugFallback()))
  }

  function Initial(config: RuntimeConfig): Shared {
    var identity := NewRuntimeIdentity(config.AllowDebugFallback());
    Shared(None, identity, CatalogForIdentity(config, identity), [], false, false, false, 0, NO_RETRY,
           config.lazyReconnectInterval, false, 0, map[])
  }

  function StrongCount(refs: map<nat, nat>, bridge: Bridge): nat {
    if bridge.id in refs then refs[bridge.id] else 0
  }

  predicate Healthy(s: Shared, unhealthy: set<nat>) {
    s.bridge.Some? && s.bridge.value.id !in unhealthy
  }

  function BumpEpoch(s: Shared): Shared {
    s.(epoch := (s.epoch + 1) % EPOCH_MODULUS)
  }

  function Retire(config: RuntimeConfig, s: Shared): Shared {
    var identity := s.identity.MarkStale();
    var cleared := s.(bridge := None, identity := identity, catalog := CatalogForIdentity(config, identity));
    if s.bridge.None? then cleared
    else cleared.(retired := s.retired + [s.bridge.value], generation := (s.generation + 1) % GENERATION_MODULUS)
  }

  function Clear(config: RuntimeConfig, s: Shared): Shared {
    Retire(config, BumpEpoch(s))
  }

  function ClearIfCurrent(config: RuntimeConfig, s: Shared, current: Bridge): Shared {
    if s.bridge.Some? && s.bridge.value.id == current.id then Clear(config, s) else s
  }

  function RequestStop(s: Shared): Shared {
    BumpEpoch(s).(stopping := true)
  }

  /** Vec::swap_remove: the last element takes the removed one's place. */
  function SwapRemove<T>(s: seq<T>, i: nat): (r: seq<T>)
    requires i < |s|
    ensures |r| == |s| - 1
  {
    if i == |s| - 1 then s[..i] else s[..|s| - 1][i := s[|s| - 1]]
  }

  /** The sweep of the retired list from `index` on: bridges that only the list
      owns move to `cleanup`. */
  function Sweep(refs: map<nat, nat>, retired: seq<Bridge>, index: nat, cleanup: seq<Bridge>): (seq<Bridge>, seq<Bridge>)
    decreases |retired| - index
  {
    if index >= |retired| then (retired, cleanup)
    else if StrongCount(refs, retired[index]) == 1 then
      Sweep(refs, SwapRemove(retired, index), index, cleanup + [retired[index]])
    else Sweep(refs, retired, index + 1, cleanup)
  }

  datatype AfterIteration = Exit | Connect(epoch: nat) | Wait

  predicate MayConnect(s: Shared, now: nat) {
    !s.stopping && s.bridge.None? && !s.connecting && s.retry.Remaining(now) == 0
  }

  function Swept(s: Shared): (Shared, seq<Bridge>) {
    var (kept, cleanup) := Sweep(s.refs, s.retired, 0, []);
    (s.(retired := kept), cleanup)
  }

  function RetireIf(config: RuntimeConfig, s: Shared, retire: bool): Shared {
    if retire then Retire(config, s) else s
  }

  /** One pass of the worker loop from its top to the release of the lock: the new
      state, the bridges to drop after the lock, and what the worker does next. */
  function Iterate(config: RuntimeConfig, s: Shared, unhealthy: set<nat>, now: nat): (Shared, seq<Bridge>, AfterIteration) {
    var (swept, cleanup) := Swept(s);
    var stopped := RetireIf(config, swept, swept.stopping);
    if stopped.stopping && stopped.retired == [] then (stopped, cleanup, Exit)
    else
      var checked := RetireIf(config, stopped, stopped.bridge.Some? && !Healthy(stopped, unhealthy));
      if MayConnect(checked, now) then (checked.(connecting := true), cleanup, Connect(checked.epoch))
      else (checked, cleanup, Wait)
  }

  /** Publishing a new bridge; the caller has dropped whatever the slot held. */
  function Publish(config: RuntimeConfig, s: Shared, bridge: Bridge): Shared {
    var overrides := bridge.info.overrides;
    var allow := config.AllowDebugFallbackWith(overrides);
    s.(bridge := Some(bridge),
       identity := NewRuntimeIdentity(allow).SetHostIdentity(bridge.info.identity),
       catalog := Some(CatalogOf(bridge.info.identity, allow)),
       reconnectInterval := config.ReconnectIntervalWith(overrides),
       retry := NO_RETRY,
       lastError := false,
       generation := (s.generation + 1) % GENERATION_MODULUS)
  }

  function RecordAttempt(s: Shared, now: nat): Shared {
    s.(connecting := false, retry := RetrySchedule(Some(now), s.reconnectInterval))
  }

  /** A new allocation starts with one reference. */
  function Allocate(s: Shared, bridge: Bridge): Shared {
    s.(refs := s.refs[bridge.id := 1])
  }

  function Discard(s: Shared, bridge: Bridge): Shared {
    s.(retired := s.retired + [bridge])
  }

  /** The locked region after `connect` returns, given the epoch the attempt began in. */
  function FinishConnect(config: RuntimeConfig, s: Shared, epoch: nat, result: Option<Bridge>, now: nat): Shared {
    var done := RecordAttempt(s, now);
    match result
    case None => done.(lastError := true, reconnectInterval := config.lazyReconnectInterval)
    case Some(bridge) =>
      var owned := Allocate(done, bridge);
      if owned.stopping || owned.epoch != epoch then Discard(owned, bridge) else Publish(config, owned, bridge)
  }

  /** Cloning the reference of the published bridge for one operation. */
  function CloneBridge(s: Shared): Shared
    requires s.bridge.Some?
  {
    s.(refs := s.refs[s.bridge.value.id := StrongCount(s.refs, s.bridge.value) + 1])
  }

  /** Dropping one reference: true when it was the last one, whose holder then
      destroys the bridge. */
  function DropReference(s: Shared, bridge: Bridge): (Shared, bool) {
    if StrongCount(s.refs, bridge) <= 1 then (s.(refs := s.refs - {bridge.id}), true)
    else (s.(refs := s.refs[bridge.id := s.refs[bridge.id] - 1]), false)
  }

  datatype DriverError = DeviceNotConnected | ProfileUnavailable(profile: Profile)

  /** The locked region at the start of an operation: the bridge to clone and the
      interface to address on it. */
  function SelectBridge(config: RuntimeConfig, s: Shared, unhealthy: set<nat>, profile: Profile):
      Result<(Bridge, u8), DriverError> {
    if !config.hostBridgeEnabled || !Healthy(s, unhealthy) then Err(DeviceNotConnected)
    else
      match (if s.catalog.Some? then s.catalog.value.Find(profile) else None)
      case None => Err(ProfileUnavailable(profile))
      case Some(descriptor) => Ok((s.bridge.value, descriptor.interfaceNumber))
  }

  function CatalogResult(config: RuntimeConfig, s: Shared, unhealthy: set<nat>): Option<Catalog> {
    if config.hostBridgeRequired && !Healthy(s, unhealthy) then None
    else if !s.identity.CanAdvertise(config.hostBridgeRequired) then None
    else s.catalog
  }

  // ---------------------------------------------------------------- the sweep

  lemma SwapRemoveContents<T>(s: seq<T>, i: nat)
    requires i < |s|
    ensures multiset(SwapRemove(s, i)) + multiset{s[i]} == multiset(s)
  {
    var last := |s| - 1;
    assert s == s[..last] + [s[last]];
    if i != last {
      assert s[..last] == s[..i] + [s[i]] + s[i + 1..last];
      assert SwapRemove(s, i) == s[..i] + [s[last]] + s[i + 1..last];
    }
  }

  /** The sweep loses no bridge and makes up none; it keeps exactly those that
      something else still references. */
  lemma {:induction false} SweepContents(refs: map<nat, nat>, retired: seq<Bridge>, index: nat, cleanup: seq<Bridge>)
    requires index <= |retired|
    requires forall i :: 0 <= i < index ==> StrongCount(refs, retired[i]) != 1
    requires forall b :: b in cleanup ==> StrongCount(refs, b) == 1
    ensures var (kept, cleaned) := Sweep(refs, retired, index, cleanup);
            && multiset(kept) + multiset(cleaned) == multiset(retired) + multiset(cleanup)
            && (forall b :: b in kept ==> StrongCount(refs, b) != 1)
            && (forall b :: b in cleaned ==> StrongCount(refs, b) == 1)
    decreases |retired| - index
  {
    if index < |retired| {
      if StrongCount(refs, retired[index]) == 1 {
        SwapRemoveContents(retired, index);
        SweepContents(refs, SwapRemove(retired, index), index, cleanup + [retired[index]]);
      } else {
        SweepContents(refs, retired, index + 1, cleanup);
      }
    }
  }
}
