/** Concurrent CreateVolume calls against one backend filesystem. Every backend call is one atomic
    step; it may fail, with or without having committed, and the controller may crash between any
    two steps. `identityMu` is held only across the steps that need it. */
module CreateSteps {
  import Capacity
  import opened VolumeIdentity
  import opened Wrappers

  type Pid = nat

  datatype Snapshot = Snapshot(volume: Name, props: Props)

  /** The backend, plus the controller's lock. `origins`, `makers`, `issued` and `deleted` are
      history: what each subvolume was cloned from, which call made it, which name each UUID was
      issued for, and under which names a volume was deleted. */
  datatype Backend = Backend(
    subs: map<Name, Props>,
    shares: map<Name, nat>,      // presented subvolumes, with the capacity noted on the share
    snaps: map<Text, Snapshot>,
    mutex: Option<Pid>,
    origins: map<Name, Source>,
    makers: map<Name, Pid>,
    issued: map<Text, Name>,
    deleted: set<Name>)

  /** What follows a successful identity write. A call that returns an existing presentation has
      settled on the capacity of its response. */
  datatype After = ThenExpose | ThenReturn(capacity: nat) | ThenProtocol

  /** Where a call is. */
  datatype Pc =
    | Searching                                                   // checkAndAdoptVolume
    | Selecting(legacyTurn: bool)                                 // selectExistingCreateSubvolume
    | Listing(local: Props, identity: Props, adopting: bool)      // look for the presentation
    | Acquiring                                                   // getOrCreateSubvolume
    | Creating
    | ReadingSource                                               // the clone paths
    | Choosing(source: Props, sourceExists: bool, legacyTurn: bool)
    | Cloning(facts: CloneFacts)
    | Rereading(facts: CloneFacts)
    | Persisting(local: Props, base: Props, identity: Props, created: bool, after: After)
    | Verifying(wanted: Props, created: bool)                     // with the lock, after a failed write
    | RollingBack(aborted: bool)                                  // rollbackCreatedSubvolume, with its cause
    | Deleting                                                    // with the lock
    | Exposing
    | Returned(capacity: nat)                                     // the response
    | Failed(aborted: bool)
  {
    predicate Done() { Returned? || Failed? }
    predicate HasLock() { Verifying? || Deleting? }
    /** The call created its subvolume and would roll it back. */
    predicate Created() {
      (Rereading? && facts.created) || (Persisting? && created) || (Verifying? && created) || RollingBack? || Deleting?
    }
  }

  /** One CreateVolume call. `name` is the subvolume it has settled on, `capacity` the size it
      asks for, which a clone raises to the size of its copy. */
  datatype Call = Call(req: Request, name: Name, capacity: nat, pc: Pc)

  /** What the backend reports as the capacity of a subvolume. */
  type Reported = Capacity.Result<Option<Capacity.uint64>>

  datatype Step =
    | Search(found: Option<Name>, uuid: Text)
    | Select(uuid: Text)
    | List(time: Text)
    | Acquire(uuid: Text, time: Text)
    | Create(uuid: Text, time: Text)
    | CreateErrs(committed: bool)
    | ReadSource
    | Choose
    | Clone
    | CloneErrs(committed: bool)
    | Reread(uuid: Text, current: Reported, resized: Reported)
    | Persist
    | WriteErrs(committed: bool)
    | Verify(readable: bool)
    | RollbackRefuses
    | RollbackRead(readable: bool)
    | Delete(committed: bool)
    | Expose
    | ExposeErrs(committed: bool)
    | Abandon                          // any other error, before anything is exposed

  /** What a step does to the stored data. */
  datatype Effect =
    | Nothing
    | Makes(n: Name, props: Props, source: Source)
    | Merges(n: Name, props: Props)
    | Removes(n: Name)
    | Shares(n: Name, capacity: nat)
    | Snaps(snapshot: Text, n: Name)

  function Apply(b: Backend, p: Pid, e: Effect): Backend {
    match e
    case Nothing => b
    case Makes(n, props, source) =>
      b.(subs := b.subs[n := props], origins := b.origins[n := source], makers := b.makers[n := p])
    case Merges(n, props) => if n in b.subs then b.(subs := b.subs[n := b.subs[n] + props]) else b
    case Removes(n) => b.(subs := b.subs - {n})
    case Shares(n, capacity) => b.(shares := b.shares[n := capacity])
    case Snaps(id, n) => if n in b.subs then b.(snaps := b.snaps[id := Snapshot(n, b.subs[n])]) else b
  }

  // ----- Pieces of the steps -----

  /** The properties of a protocol create: those of the request, the capacity and the time. */
  function BaseOf(c: Call, time: Text): Props {
    c.req.fixed[CapacityBytes := Number(c.capacity)][CreatedAt := time]
  }

  function CloneBase(capacity: nat, identity: Props): Props {
    map[ManagedBy := ManagedByNasty, CapacityBytes := Number(capacity)] + identity
  }

  /** An error ends a call, or leads it to the rollback of what it made. */
  function OnError(created: bool, aborted: bool): Pc {
    if created then RollingBack(aborted) else Failed(aborted)
  }

  /** The size a clone ends up with. */
  function SizeOf(c: Call, current: Reported, resized: Reported): Capacity.Result<int> {
    Capacity.ClonedCapacity(c.capacity, c.req.limit, current, resized)
  }

  /** A subvolume that the adoption search may come up with. */
  predicate Matches(req: Request, p: Props) {
    || Get(p, CSIVolumeName) == req.name
    || (req.pvcName != Empty && req.pvcNamespace != Empty && Get(p, PVCName) == req.pvcName &&
        Get(p, PVCNamespace) == req.pvcNamespace)
  }

  predicate MayAdopt(req: Request, p: Props) {
    && Get(p, ManagedBy) == ManagedByNasty && Get(p, Protocol) != Empty
    && (Get(p, Adoptable) == Yes || req.adoptExisting)
  }

  /** The call goes on with an existing subvolume, or gives up on it. */
  function PersistExisting(b: Backend, c: Call, uuid: Text, time: Text): Call
    requires c.name in b.subs
  {
    var d := DecideExisting(c.req, c.name, b.subs[c.name], uuid);
    c.(pc := if d.Refused? then Failed(false)
             else Persisting(b.subs[c.name], BaseOf(c, time), d.properties, false, ThenExpose))
  }

  /** The capacity an existing volume is taken to have: that of the share for NFS and SMB, that of
      the properties for block protocols, and else the requested one. */
  function ExistingCapacity(b: Backend, c: Call, local: Props): nat {
    if c.req.kind.IsBlock() then
      match Get(local, CapacityBytes) case Number(k) => (if k > 0 then k else c.capacity) case _ => c.capacity
    else if c.name in b.shares && b.shares[c.name] > 0 then b.shares[c.name] else c.capacity
  }

  predicate SourceAvailable(b: Backend, source: Source) {
    match source
    case NoSource => false
    case FromVolume(m) => m in b.subs
    case FromSnapshot(m, id) => id in b.snaps && b.snaps[id].volume == m
  }

  function SourceCopy(b: Backend, source: Source): Props
    requires SourceAvailable(b, source)
  {
    match source
    case FromVolume(m) => b.subs[m]
    case FromSnapshot(_, id) => b.snaps[id].props
    case NoSource => map[]
  }

  // ----- The steps of one call -----

  predicate Enabled(b: Backend, p: Pid, c: Call, st: Step) {
    match st
    case Search(found, uuid) => c.pc.Searching? && uuid != Empty && uuid !in b.issued
                                && (found.Some? ==> found.value in b.subs && Matches(c.req, b.subs[found.value]))
    case Select(uuid) => c.pc.Selecting? && uuid != Empty && uuid !in b.issued
    case List(_) => c.pc.Listing?
    case Acquire(uuid, _) => c.pc.Acquiring? && uuid != Empty && uuid !in b.issued
    case Create(uuid, _) => c.pc.Creating? && uuid != Empty && uuid !in b.issued
    case CreateErrs(committed) => c.pc.Creating? && (committed ==> c.name !in b.subs)
    case ReadSource => c.pc.ReadingSource? && c.req.source != NoSource
    case Choose => c.pc.Choosing?
    // an existing destination is accepted only if the backend recorded that very source for it
    case Clone => c.pc.Cloning? && (if c.name in b.subs then c.name in b.origins && b.origins[c.name] == c.req.source
                                    else SourceAvailable(b, c.req.source))
    case CloneErrs(committed) => c.pc.Cloning? && (committed ==> c.name !in b.subs && SourceAvailable(b, c.req.source))
    case Reread(uuid, current, resized) =>
      c.pc.Rereading? && c.req.source != NoSource && uuid != Empty && uuid !in b.issued
      && SizeOf(c, current, resized).Ok?
    case Persist => c.pc.Persisting? && b.mutex.None?
                    && (c.name in b.subs || PropertiesContain(c.pc.local, Wanted(c.pc.local, c.pc.base, c.pc.identity)))
    case WriteErrs(committed) => c.pc.Persisting? && b.mutex.None? && (committed ==> c.name in b.subs)
                                 && !PropertiesContain(c.pc.local, Wanted(c.pc.local, c.pc.base, c.pc.identity))
    case Verify(_) => c.pc.Verifying? && b.mutex == Some(p)
    case RollbackRefuses => c.pc == RollingBack(true)
    case RollbackRead(_) => c.pc == RollingBack(false) && b.mutex.None?
    case Delete(_) => c.pc.Deleting? && b.mutex == Some(p)
    case Expose => c.pc.Exposing?
    case ExposeErrs(_) => c.pc.Exposing?
    case Abandon => !c.pc.Done() && !c.pc.HasLock() && !c.pc.RollingBack?
  }

  /** How the call itself moves on. */
  function Move(b: Backend, p: Pid, c: Call, st: Step): Call
    requires Enabled(b, p, c, st)
  {
    match st
    case Search(found, uuid) =>
      if found.None? || !MayAdopt(c.req, b.subs[found.value]) then c.(pc := Selecting(false))
      else if Get(b.subs[found.value], Protocol) != c.req.protocol then c.(pc := Failed(false))
      else
        var n, props := found.value, b.subs[found.value];
        c.(name := n, pc := Listing(props, IdentityProperties(props, c.req.name, n, c.req.protocol, uuid), true))
    case Select(uuid) =>
      var n := if c.pc.legacyTurn then c.req.legacyName else c.req.backendName;
      if n in b.subs then
        var d := DecideExisting(c.req, n, b.subs[n], uuid);
        c.(name := n, pc := if d.Refused? then Failed(false) else Listing(b.subs[n], d.properties, false))
      else if n != c.req.legacyName then c.(pc := Selecting(true))
      else c.(name := c.req.backendName, pc := if c.req.kind.NFS? then Creating else Acquiring)
    case List(time) =>
      var l := c.pc;
      var existing := ExistingCapacity(b, c, l.local);
      if !l.adopting && (c.req.kind.IsBlock() || c.name in b.shares) && existing != c.capacity && existing > 0
      then c.(pc := Failed(false))
      else if c.name in b.shares then
        var answer := if l.adopting then c.capacity else existing;
        c.(pc := Persisting(l.local, BaseOf(c, time), l.identity, false, ThenReturn(answer)))
      else if l.adopting || !c.req.kind.IsBlock()
      then c.(pc := Persisting(l.local, BaseOf(c, time), l.identity, false, ThenExpose))
      else c.(pc := Acquiring)
    case Acquire(uuid, time) =>
      if c.name in b.subs then PersistExisting(b, c, uuid, time) else c.(pc := Creating)
    case Create(uuid, time) =>
      if c.name in b.subs then PersistExisting(b, c, uuid, time)
      else
        var identity := IdentityProperties(map[], c.req.name, c.name, c.req.protocol, uuid);
        c.(pc := Persisting(map[], BaseOf(c, time), identity, true, ThenExpose))
    case CreateErrs(_) => c.(pc := Failed(false))
    case ReadSource =>
      var m := c.req.source.volume;
      if m in b.subs then c.(pc := Choosing(b.subs[m], true, false))
      else if c.req.source.FromVolume? then c.(pc := Failed(false))
      else c.(pc := Choosing(map[], false, false))
    case Choose =>
      var h := c.pc;
      var n := if h.legacyTurn then c.req.legacyName else c.req.backendName;
      if n !in b.subs then
        if n != c.req.legacyName then c.(pc := Choosing(h.source, h.sourceExists, true))
        else c.(name := c.req.backendName, pc := Cloning(CloneFacts(h.source, h.sourceExists, false, false, false)))
      else if !h.legacyTurn then
        c.(name := n, pc := Cloning(CloneFacts(h.source, h.sourceExists, true, false, false)))
      else if ProvesLegacyOwnership(c.req, b.subs[n]) then
        c.(name := n, pc := Cloning(CloneFacts(h.source, h.sourceExists, true, true, false)))
      else c.(pc := Failed(false))
    case Clone => c.(pc := Rereading(c.pc.facts.(created := c.name !in b.subs)))
    case CloneErrs(_) => c.(pc := Failed(false))
    case Reread(uuid, current, resized) =>
      var f, capacity: nat := c.pc.facts, SizeOf(c, current, resized).value;
      if c.name !in b.subs then c.(pc := OnError(f.created, false))
      else
        var d := ClassifyClone(c.req, c.name, b.subs[c.name], f, uuid);
        if d.Refused? then c.(pc := OnError(f.created, false))
        else c.(capacity := capacity,
                pc := Persisting(if f.created then map[] else b.subs[c.name], CloneBase(capacity, d.properties),
                                 d.properties, f.created, ThenProtocol))
    case Persist =>
      c.(pc := match c.pc.after
               case ThenExpose => Exposing
               case ThenReturn(capacity) => Returned(capacity)
               case ThenProtocol => Selecting(false))
    case WriteErrs(_) => c.(pc := Verifying(Wanted(c.pc.local, c.pc.base, c.pc.identity), c.pc.created))
    case Verify(readable) =>
      c.(pc := OnError(c.pc.created, !readable || c.name !in b.subs || PropertiesContain(b.subs[c.name], c.pc.wanted)))
    case RollbackRefuses => c.(pc := Failed(true))
    case RollbackRead(readable) =>
      if !readable then c.(pc := Failed(true))
      else if c.name !in b.subs then c.(pc := Failed(false))
      else if HasCompleteV2Identity(b.subs[c.name], c.name) then c.(pc := Failed(true))
      else c.(pc := Deleting)
    case Delete(_) => c.(pc := Failed(false))
    case Expose => c.(pc := Returned(c.capacity))
    case ExposeErrs(_) => c.(pc := Failed(false))
    case Abandon => c.(pc := OnError(c.pc.Created(), false))
  }

  function EffectOf(b: Backend, p: Pid, c: Call, st: Step): Effect
    requires Enabled(b, p, c, st)
  {
    match st
    case Create(_, _) => if c.name in b.subs then Nothing else Makes(c.name, map[], NoSource)
    case CreateErrs(committed) => if committed then Makes(c.name, map[], NoSource) else Nothing
    case Clone => if c.name in b.subs then Nothing else Makes(c.name, SourceCopy(b, c.req.source), c.req.source)
    case CloneErrs(committed) => if committed then Makes(c.name, SourceCopy(b, c.req.source), c.req.source) else Nothing
    case Persist =>
      var wanted := Wanted(c.pc.local, c.pc.base, c.pc.identity);
      if PropertiesContain(c.pc.local, wanted) then Nothing else Merges(c.name, wanted)
    case WriteErrs(committed) =>
      if committed then Merges(c.name, Wanted(c.pc.local, c.pc.base, c.pc.identity)) else Nothing
    case Delete(committed) => if committed then Removes(c.name) else Nothing
    case Expose => Shares(c.name, c.capacity)
    case ExposeErrs(committed) => if committed then Shares(c.name, c.capacity) else Nothing
    case _ => Nothing
  }

  /** The UUID the step draws, if it draws one. */
  function Draws(st: Step): Option<Text> {
    match st
    case Search(_, uuid) => Some(uuid)
    case Select(uuid) => Some(uuid)
    case Acquire(uuid, _) => Some(uuid)
    case Create(uuid, _) => Some(uuid)
    case Reread(uuid, _, _) => Some(uuid)
    case _ => None
  }

  function Do(b: Backend, p: Pid, c: Call, st: Step): Backend
    requires Enabled(b, p, c, st)
  {
    Apply(b, p, EffectOf(b, p, c, st)).(
      mutex := if Move(b, p, c, st).pc.HasLock() then Some(p) else if c.pc.HasLock() then None else b.mutex,
      issued := if Draws(st).Some? then b.issued[Draws(st).value := Move(b, p, c, st).name] else b.issued)
  }

  // ----- The whole system -----

  datatype State = State(backend: Backend, calls: map<Pid, Call>)

  datatype Action =
    | Begin(p: Pid, req: Request)
    | Act(p: Pid, step: Step)
    | TakeSnapshot(snapshot: Text, n: Name)
    | Expand(n: Name, capacity: nat)
    | Withdraw(n: Name)                 // deleting a volume: its presentation, and then
    | Remove(n: Name)                   // its storage
    | Crash

  /** The interface requires a name; the protocol is one of four words; capacity is normalised. */
  predicate WellFormed(req: Request) { req.name != Empty && req.protocol != Empty && req.capacity > 0 }

  /** The current and the legacy name of a request's volume. */
  function NamesOf(req: Request): set<Name> { {req.backendName, req.legacyName} }

  /** A call under way has to do with the subvolume of this name. */
  predicate InUse(s: State, n: Name) {
    exists p :: p in s.calls && !s.calls[p].pc.Done() && (s.calls[p].name == n || n in NamesOf(s.calls[p].req))
  }

  /** Storage is deleted only when its presentation is gone, and not while a call under way has to do
      with it. */
  predicate CanHappen(s: State, a: Action) {
    match a
    case Begin(p, req) => p !in s.calls && WellFormed(req)
    case Act(p, st) => p in s.calls && Enabled(s.backend, p, s.calls[p], st)
    case TakeSnapshot(id, n) => n in s.backend.subs && id !in s.backend.snaps
    case Expand(n, _) => n in s.backend.subs
    case Withdraw(n) => n in s.backend.shares
    case Remove(n) => n in s.backend.subs && n !in s.backend.shares && !InUse(s, n)
    case Crash => true
  }

  function Starts(req: Request): Call {
    Call(req, req.backendName, req.capacity, if req.source == NoSource then Searching else ReadingSource)
  }

  function Next(s: State, a: Action): State
    requires CanHappen(s, a)
  {
    match a
    case Begin(p, req) => s.(calls := s.calls[p := Starts(req)])
    case Act(p, st) => State(Do(s.backend, p, s.calls[p], st), s.calls[p := Move(s.backend, p, s.calls[p], st)])
    case TakeSnapshot(id, n) => s.(backend := Apply(s.backend, 0, Snaps(id, n)))
    case Expand(n, capacity) => s.(backend := Apply(s.backend, 0, Merges(n, map[CapacityBytes := Number(capacity)])))
    case Withdraw(n) => s.(backend := s.backend.(shares := s.backend.shares - {n}))
    case Remove(n) =>
      s.(backend := s.backend.(subs := s.backend.subs - {n}, deleted := s.backend.deleted + {n}))
    case Crash =>
      State(s.backend.(mutex := None),
            map p | p in s.calls :: if s.calls[p].pc.Done() then s.calls[p] else s.calls[p].(pc := Failed(false)))
  }

  /** A stretch of a run. */
  ghost predicate IsPath(states: seq<State>, actions: seq<Action>) {
    && |states| == |actions| + 1
    && forall i :: 0 <= i < |actions| ==>
         CanHappen(states[i], actions[i]) && states[i + 1] == Next(states[i], actions[i])
  }

  /** A run: any interleaving of any calls, from a backend whose presentations have storage. */
  ghost predicate IsRun(states: seq<State>, actions: seq<Action>) {
    && |states| == |actions| + 1
    && states[0].calls == map[] && Initial(states[0].backend)
    && forall i :: 0 <= i < |actions| ==>
         CanHappen(states[i], actions[i]) && states[i + 1] == Next(states[i], actions[i])
  }

  predicate Initial(b: Backend) {
    && b.mutex.None? && b.makers == map[] && b.deleted == {}
    && forall n :: n in b.shares ==> n in b.subs
  }
}
