/** Ownership over every interleaving of CreateVolume calls: it is permanent, nothing is presented
    without it, and a rollback deletes only what its own call created and nobody owns.

    The proof is by rely and guarantee: each step of a call guarantees `Respects` to all the
    others, and what a call knows survives every step that respects it. */
module CreateOwnership {
  import opened CreateSteps
  import opened VolumeIdentity
  import opened Wrappers

  /** The stored properties of `n` hold a complete identity for its own name. */
  predicate Owned(b: Backend, n: Name) {
    n in b.subs && HasCompleteV2Identity(b.subs[n], n)
  }

  predicate Mine(b: Backend, p: Pid, n: Name) {
    n in b.subs && n in b.makers && b.makers[n] == p
  }

  /** Properties read earlier claim no ownership that is not stored. */
  predicate Truthful(b: Backend, local: Props, n: Name) {
    HasCompleteV2Identity(local, n) ==> Owned(b, n)
  }

  predicate CallInv(b: Backend, p: Pid, c: Call) {
    && WellFormed(c.req)
    && (c.pc.Created() ==> Mine(b, p, c.name))
    && (c.pc.HasLock() ==> b.mutex == Some(p))
    && match c.pc
       case Listing(local, identity, _) => IdentityFor(identity, c.name) && Truthful(b, local, c.name)
       case Persisting(local, _, identity, _, _) => IdentityFor(identity, c.name) && Truthful(b, local, c.name)
       case Deleting => !Owned(b, c.name)
       case Exposing => Owned(b, c.name)
       case _ => true
  }

  /** A presented subvolume exists, and is owned unless no call of this run made it. */
  predicate Backed(b: Backend, n: Name) {
    n in b.subs && (Owned(b, n) || n !in b.makers)
  }

  ghost predicate Inv(s: State) {
    && (forall p :: p in s.calls ==> CallInv(s.backend, p, s.calls[p]))
    && (forall n :: n in s.backend.shares ==> Backed(s.backend, n))
    && (s.backend.mutex.Some? ==> s.backend.mutex.value in s.calls && s.calls[s.backend.mutex.value].pc.HasLock())
  }

  // ----- What a step guarantees -----

  /** What everybody but `p` may rely on when `b` becomes `b'`. */
  ghost predicate Respects(b: Backend, b': Backend, p: Pid) {
    && (forall n :: Owned(b, n) ==> Owned(b', n))
    && (forall q, n :: q != p && Mine(b, q, n) ==> Mine(b', q, n))
    && (forall n :: Backed(b, n) ==> Backed(b', n))
    && (b.mutex.Some? && b.mutex.value != p ==>
          b'.mutex == b.mutex && forall n :: n in b.subs && !Owned(b, n) ==> !Owned(b', n))
  }

  lemma CallSurvives(b: Backend, b': Backend, p: Pid, q: Pid, c: Call)
    requires Respects(b, b', p) && p != q && CallInv(b, q, c)
    ensures CallInv(b', q, c)
  {
  }

  /** Properties that make any subvolume `n` they are merged into an owned one. */
  predicate WholeIdentity(props: Props, n: Name) {
    CSIVolumeName in props && HasCompleteV2Identity(props, n)
  }

  /** How stored data may change. */
  predicate Lawful(b: Backend, p: Pid, e: Effect) {
    match e
    case Makes(n, _, _) => n !in b.subs
    case Merges(n, props) => WholeIdentity(props, n) || props.Keys == {CapacityBytes}
    case Removes(n) => Mine(b, p, n) && !Owned(b, n)
    case _ => true
  }

  /** Only a merge of an identity makes an owner, and that needs the lock. */
  predicate Quiet(b: Backend, e: Effect) {
    match e
    case Makes(n, _, _) => n !in b.subs
    case Merges(n, props) => props.Keys == {CapacityBytes} || n !in b.subs
    case _ => true
  }

  lemma CapacityIsNoIdentity(p: Props, extra: Props, n: Name)
    requires extra.Keys == {CapacityBytes}
    ensures HasCompleteV2Identity(p + extra, n) <==> HasCompleteV2Identity(p, n)
  {
    forall k | k != CapacityBytes ensures Get(p + extra, k) == Get(p, k) {}
  }

  lemma WholeIdentityOwns(p: Props, extra: Props, n: Name)
    requires WholeIdentity(extra, n)
    ensures HasCompleteV2Identity(p + extra, n)
  {
    forall k | k in extra ensures Get(p + extra, k) == Get(extra, k) {}
  }

  /** The effect seen from one name. */
  lemma EffectOnOwned(b: Backend, p: Pid, e: Effect, n: Name)
    requires Lawful(b, p, e)
    ensures Owned(b, n) ==> Owned(Apply(b, p, e), n)
    ensures Quiet(b, e) && n in b.subs && !Owned(b, n) ==> !Owned(Apply(b, p, e), n)
  {
    hide HasCompleteV2Identity;
    if e.Merges? && e.n in b.subs { MergeOnOwned(b, e.n, e.props, n); }
    hide WholeIdentity;
  }

  lemma MergeOnOwned(b: Backend, m: Name, props: Props, n: Name)
    requires m in b.subs && (WholeIdentity(props, m) || props.Keys == {CapacityBytes})
    ensures Owned(b, n) ==> Owned(b.(subs := b.subs[m := b.subs[m] + props]), n)
    ensures props.Keys == {CapacityBytes} && n in b.subs && !Owned(b, n) ==>
              !Owned(b.(subs := b.subs[m := b.subs[m] + props]), n)
  {
    hide HasCompleteV2Identity;
    if props.Keys == {CapacityBytes} {
      CapacityIsNoIdentity(b.subs[m], props, m);
    } else {
      WholeIdentityOwns(b.subs[m], props, m);
    }
  }

  lemma EffectOnMine(b: Backend, p: Pid, e: Effect, q: Pid, n: Name)
    requires Lawful(b, p, e) && q != p && Mine(b, q, n)
    ensures Mine(Apply(b, p, e), q, n)
  {
    hide HasCompleteV2Identity, Owned;
  }

  lemma EffectOnBacked(b: Backend, p: Pid, e: Effect, n: Name)
    requires Lawful(b, p, e) && Backed(b, n)
    ensures Backed(Apply(b, p, e), n)
  {
    EffectOnOwned(b, p, e, n);
    hide HasCompleteV2Identity, Owned;
  }

  lemma EffectRespects(b: Backend, p: Pid, e: Effect, b': Backend)
    requires Lawful(b, p, e)
    requires b' == Apply(b, p, e).(mutex := b'.mutex, issued := b'.issued)
    requires b.mutex.Some? && b.mutex.value != p ==> b'.mutex == b.mutex && Quiet(b, e)
    ensures Respects(b, b', p)
  {
    var b0 := Apply(b, p, e);
    assert b'.subs == b0.subs && b'.makers == b0.makers;
    hide Apply, Lawful, Quiet, HasCompleteV2Identity;
    forall n ensures (Owned(b, n) ==> Owned(b', n)) && (Quiet(b, e) && n in b.subs && !Owned(b, n) ==> !Owned(b', n)) {
      EffectOnOwned(b, p, e, n);
    }
    forall q, n | q != p && Mine(b, q, n) ensures Mine(b', q, n) { EffectOnMine(b, p, e, q, n); }
    forall n | Backed(b, n) ensures Backed(b', n) { EffectOnBacked(b, p, e, n); }
  }

  lemma WantedIsWhole(n: Name, local: Props, base: Props, identity: Props)
    requires IdentityFor(identity, n)
    ensures WholeIdentity(Wanted(local, base, identity), n)
  {
    WantedOwns(Wanted(local, base, identity), local, base, identity, n);
  }

  lemma StepIsLawful(b: Backend, p: Pid, c: Call, st: Step)
    requires CallInv(b, p, c) && Enabled(b, p, c, st)
    ensures Lawful(b, p, EffectOf(b, p, c, st))
    ensures b.mutex.Some? && b.mutex.value != p ==> Quiet(b, EffectOf(b, p, c, st))
  {
    if c.pc.Persisting? {
      WantedIsWhole(c.name, c.pc.local, c.pc.base, c.pc.identity);
      hide Wanted, IdentityFor, PropertiesContain, HasCompleteV2Identity;
    } else {
      hide Wanted, IdentityFor, PropertiesContain, HasCompleteV2Identity, Truthful;
    }
  }

  lemma StepRespects(b: Backend, p: Pid, c: Call, st: Step)
    requires CallInv(b, p, c) && Enabled(b, p, c, st)
    ensures Respects(b, Do(b, p, c, st), p)
  {
    StepIsLawful(b, p, c, st);
    EffectRespects(b, p, EffectOf(b, p, c, st), Do(b, p, c, st)) by {
      hide Lawful, Quiet, EffectOf, Apply, Move;
    }
  }

  // ----- What a call knows after its own step -----

  lemma DecisionIsIdentity(req: Request, n: Name, p: Props, uuid: Text)
    requires WellFormed(req) && uuid != Empty
    ensures IdentityFor(IdentityProperties(p, req.name, n, req.protocol, uuid), n)
    ensures DecideExisting(req, n, p, uuid).Identity? ==> IdentityFor(DecideExisting(req, n, p, uuid).properties, n)
  {
  }

  lemma ClassificationIsIdentity(req: Request, n: Name, p: Props, facts: CloneFacts, uuid: Text)
    requires WellFormed(req) && uuid != Empty && req.source != NoSource
    ensures ClassifyClone(req, n, p, facts, uuid).Identity? ==>
              IdentityFor(ClassifyClone(req, n, p, facts, uuid).properties, n)
  {
  }

  /** After the write, or without one because the copy read earlier already held everything
      wanted, the subvolume is owned. */
  lemma PersistOwns(b: Backend, p: Pid, c: Call)
    requires CallInv(b, p, c) && Enabled(b, p, c, Persist)
    ensures Owned(Do(b, p, c, Persist), c.name)
  {
    hide Wanted, IdentityFor, PropertiesContain, HasCompleteV2Identity;
    var wanted := Wanted(c.pc.local, c.pc.base, c.pc.identity);
    if PropertiesContain(c.pc.local, wanted) {
      WantedOwns(c.pc.local, c.pc.local, c.pc.base, c.pc.identity, c.name);
    } else {
      MergeContains(b.subs[c.name], wanted);
      WantedOwns(b.subs[c.name] + wanted, c.pc.local, c.pc.base, c.pc.identity, c.name);
    }
  }

  lemma PersistKeepsCall(b: Backend, p: Pid, c: Call)
    requires CallInv(b, p, c) && Enabled(b, p, c, Persist)
    ensures CallInv(Do(b, p, c, Persist), p, Move(b, p, c, Persist))
  {
    PersistOwns(b, p, c);
    hide Wanted, IdentityFor, PropertiesContain, HasCompleteV2Identity, Owned;
  }

  lemma SelectingStepKeepsCall(b: Backend, p: Pid, c: Call, st: Step)
    requires CallInv(b, p, c) && Enabled(b, p, c, st) && (st.Search? || st.Select? || st.Acquire?)
    ensures CallInv(Do(b, p, c, st), p, Move(b, p, c, st))
  {
    hide IdentityFor, IdentityProperties, DecideExisting, HasCompleteV2Identity, Matches, MayAdopt, BaseOf;
    match st
    case Search(found, uuid) => if found.Some? { DecisionIsIdentity(c.req, found.value, b.subs[found.value], uuid); }
    case Select(uuid) =>
      var n := if c.pc.legacyTurn then c.req.legacyName else c.req.backendName;
      if n in b.subs { DecisionIsIdentity(c.req, n, b.subs[n], uuid); }
    case Acquire(uuid, _) => if c.name in b.subs { DecisionIsIdentity(c.req, c.name, b.subs[c.name], uuid); }
  }

  lemma MakingStepKeepsCall(b: Backend, p: Pid, c: Call, st: Step)
    requires CallInv(b, p, c) && Enabled(b, p, c, st) && (st.Create? || st.Reread?)
    ensures CallInv(Do(b, p, c, st), p, Move(b, p, c, st))
  {
    hide IdentityFor, IdentityProperties, DecideExisting, ClassifyClone, HasCompleteV2Identity, BaseOf, CloneBase;
    EmptyOwnsNothing(c.name);
    match st
    case Create(uuid, _) => DecisionIsIdentity(c.req, c.name, if c.name in b.subs then b.subs[c.name] else map[], uuid);
    case Reread(uuid, _, _) =>
      if c.name in b.subs { ClassificationIsIdentity(c.req, c.name, b.subs[c.name], c.pc.facts, uuid); }
  }

  lemma EmptyOwnsNothing(n: Name)
    ensures !HasCompleteV2Identity(map[], n)
  {
  }

  lemma OtherStepKeepsCall(b: Backend, p: Pid, c: Call, st: Step)
    requires CallInv(b, p, c) && Enabled(b, p, c, st) && Draws(st).None? && !st.Persist?
    ensures CallInv(Do(b, p, c, st), p, Move(b, p, c, st))
  {
    hide IdentityFor, HasCompleteV2Identity, Wanted, PropertiesContain, BaseOf, LegacyPVCIdentityMatches,
         ExistingCapacity;
  }

  lemma StepKeepsShares(s: State, p: Pid, st: Step)
    requires Inv(s) && p in s.calls && Enabled(s.backend, p, s.calls[p], st)
    ensures forall n :: n in Do(s.backend, p, s.calls[p], st).shares ==> Backed(Do(s.backend, p, s.calls[p], st), n)
  {
    var b, c := s.backend, s.calls[p];
    var b' := Do(b, p, c, st);
    StepRespects(b, p, c, st);
    assert CallInv(b, p, c);
    forall n | n in b'.shares ensures Backed(b', n) {
      if n !in b.shares { SharesAreOwned(b, p, c, st, n); }
    }
  }

  lemma SharesAreOwned(b: Backend, p: Pid, c: Call, st: Step, n: Name)
    requires CallInv(b, p, c) && Enabled(b, p, c, st) && n !in b.shares && n in Do(b, p, c, st).shares
    ensures n == c.name && Owned(b, n)
  {
    hide HasCompleteV2Identity, Move, Wanted, PropertiesContain;
  }

  lemma ActKeeps(s: State, p: Pid, st: Step)
    requires Inv(s) && CanHappen(s, Act(p, st))
    ensures Inv(Next(s, Act(p, st)))
  {
    var b, c := s.backend, s.calls[p];
    var b', c' := Do(b, p, c, st), Move(b, p, c, st);
    assert CallInv(b, p, c);
    StepRespects(b, p, c, st);
    StepKeepsShares(s, p, st);
    assert CallInv(b', p, c') by {
      if st.Persist? {
        PersistKeepsCall(b, p, c);
      } else if st.Create? || st.Reread? {
        MakingStepKeepsCall(b, p, c, st);
      } else if Draws(st).Some? {
        SelectingStepKeepsCall(b, p, c, st);
      } else {
        OtherStepKeepsCall(b, p, c, st);
      }
    }
    LockOnlyMoves(b, p, c, st);
    hide CallInv, Do, Move, Enabled, Respects, Backed;
    forall q | q in s.calls && q != p ensures CallInv(b', q, s.calls[q]) {
      CallSurvives(b, b', p, q, s.calls[q]);
    }
  }

  lemma LockOnlyMoves(b: Backend, p: Pid, c: Call, st: Step)
    requires CallInv(b, p, c) && Enabled(b, p, c, st)
    requires b.mutex == Some(p) ==> c.pc.HasLock()
    ensures b.mutex.Some? && b.mutex.value != p ==> Do(b, p, c, st).mutex == b.mutex
    ensures Do(b, p, c, st).mutex == Some(p) <==> Move(b, p, c, st).pc.HasLock()
    ensures Do(b, p, c, st).mutex in {b.mutex, None, Some(p)}
  {
    hide HasCompleteV2Identity, Wanted, PropertiesContain, EffectOf, IdentityFor;
  }

  /** Writes that come from outside the calls: a snapshot, or the capacity an expansion records. */
  lemma OutsideKeeps(s: State, a: Action)
    requires Inv(s) && CanHappen(s, a) && (a.TakeSnapshot? || a.Expand?)
    ensures Inv(Next(s, a))
    ensures Respects(s.backend, Next(s, a).backend, 0)
  {
    var b, b' := s.backend, Next(s, a).backend;
    var e := if a.Expand? then Merges(a.n, map[CapacityBytes := Number(a.capacity)]) else Snaps(a.snapshot, a.n);
    assert Lawful(b, 0, e) && Quiet(b, e) && b' == Apply(b, 0, e);
    EffectRespects(b, 0, e, b');
    forall q | q in s.calls ensures CallInv(b', q, s.calls[q]) {
      forall n ensures Owned(b, n) ==> Owned(b', n) { EffectOnOwned(b, 0, e, n); }
      forall n ensures n in b.subs && !Owned(b, n) ==> !Owned(b', n) { EffectOnOwned(b, 0, e, n); }
      assert b'.mutex == b.mutex && b'.makers == b.makers && b.subs.Keys == b'.subs.Keys;
      assert CallInv(b, q, s.calls[q]);
    }
  }

  /** A call is not disturbed by the deletion of a subvolume that it has nothing to do with. */
  lemma CallOutlives(b: Backend, b': Backend, n: Name, q: Pid, c: Call)
    requires b'.subs == b.subs - {n} && b'.makers == b.makers && b'.mutex == b.mutex
    requires CallInv(b, q, c) && (c.pc.Done() || c.name != n)
    ensures CallInv(b', q, c)
  {
  }

  lemma WithdrawKeeps(s: State, n: Name)
    requires Inv(s) && CanHappen(s, Withdraw(n))
    ensures Inv(Next(s, Withdraw(n)))
    ensures forall m :: Owned(s.backend, m) <==> Owned(Next(s, Withdraw(n)).backend, m)
  {
    hide HasCompleteV2Identity, IdentityFor, InUse;
  }

  lemma RemoveKeeps(s: State, n: Name)
    requires Inv(s) && CanHappen(s, Remove(n))
    ensures Inv(Next(s, Remove(n)))
    ensures forall m :: m != n && Owned(s.backend, m) ==> Owned(Next(s, Remove(n)).backend, m)
  {
    hide CallInv, HasCompleteV2Identity;
    var b, b' := s.backend, Next(s, Remove(n)).backend;
    forall q | q in s.calls ensures CallInv(b', q, s.calls[q]) { CallOutlives(b, b', n, q, s.calls[q]); }
  }

  lemma CrashKeeps(s: State)
    requires Inv(s)
    ensures Inv(Next(s, Crash))
    ensures forall n :: Owned(s.backend, n) <==> Owned(Next(s, Crash).backend, n)
  {
    hide HasCompleteV2Identity, IdentityFor, Truthful;
  }

  /** Every action keeps the invariant, and all ownership but that of a deleted volume. */
  lemma StepKeeps(s: State, a: Action)
    requires Inv(s) && CanHappen(s, a)
    ensures Inv(Next(s, a))
    ensures forall n :: a != Remove(n) && Owned(s.backend, n) ==> Owned(Next(s, a).backend, n)
  {
    hide Owned, Enabled, Do, Move, HasCompleteV2Identity, IdentityFor, Truthful;
    match a
    case Act(p, st) =>
      assert CallInv(s.backend, p, s.calls[p]);
      ActKeeps(s, p, st);
      StepRespects(s.backend, p, s.calls[p], st);
    case Begin(_, _) =>
    case Crash => CrashKeeps(s);
    case Withdraw(n) => WithdrawKeeps(s, n);
    case Remove(n) => RemoveKeeps(s, n);
    case _ => OutsideKeeps(s, a);
  }

  lemma {:induction false} RunKeeps(states: seq<State>, actions: seq<Action>, i: nat)
    requires IsRun(states, actions) && i < |states|
    ensures Inv(states[i])
  {
    if i > 0 {
      RunKeeps(states, actions, i - 1);
      assert states[i - 1 + 1] == Next(states[i - 1], actions[i - 1]);
      StepKeeps(states[i - 1], actions[i - 1]);
    }
  }

  // ----- The main results -----

  /** Once a subvolume's stored properties hold a complete identity for its own name, it stays
      there, owned, until that volume itself is deleted: whatever interleaves, errors after
      committing, rolls back, crashes, or is deleted besides. */
  lemma {:induction false} OwnershipIsPermanent(states: seq<State>, actions: seq<Action>, i: nat, j: nat, n: Name)
    requires IsRun(states, actions) && i <= j < |states| && Owned(states[i].backend, n)
    requires forall k :: i <= k < j ==> actions[k] != Remove(n)
    ensures Owned(states[j].backend, n)
    decreases j
  {
    hide Owned, Inv, CanHappen, Next, Initial;
    if i < j {
      OwnershipIsPermanent(states, actions, i, j - 1, n);
      RunKeeps(states, actions, j - 1);
      assert states[j - 1 + 1] == Next(states[j - 1], actions[j - 1]);
      StepKeeps(states[j - 1], actions[j - 1]);
    }
  }

  lemma OnlyDeleteRemoves(b: Backend, p: Pid, c: Call, st: Step, n: Name)
    requires CallInv(b, p, c) && Enabled(b, p, c, st) && n in b.subs && n !in Do(b, p, c, st).subs
    ensures st.Delete? && c.name == n && Mine(b, p, n) && !Owned(b, n)
  {
    hide Move, Wanted, PropertiesContain, IdentityFor, HasCompleteV2Identity;
  }

  lemma OnlyCallsRemove(s: State, a: Action, n: Name)
    requires CanHappen(s, a) && n in s.backend.subs && n !in Next(s, a).backend.subs
    ensures a.Act? || a == Remove(n)
  {
    hide Enabled, Move, Do;
  }

  /** A subvolume disappears only by its deletion, or by the rollback of the very call that made it
      while it is unowned, and in either case only while it is not presented. */
  lemma RollbackIsSafe(states: seq<State>, actions: seq<Action>, i: nat, n: Name)
    requires IsRun(states, actions) && i < |actions|
    requires n in states[i].backend.subs && n !in states[i + 1].backend.subs
    ensures n !in states[i].backend.shares
    ensures var b, a := states[i].backend, actions[i];
            || a == Remove(n)
            || (&& a.Act? && a.step.Delete? && a.p in states[i].calls && states[i].calls[a.p].name == n
                && Mine(b, a.p, n) && !Owned(b, n))
  {
    RunKeeps(states, actions, i);
    var s, a := states[i], actions[i];
    assert CanHappen(s, a) && states[i + 1] == Next(s, a);
    OnlyCallsRemove(s, a, n);
    if a.Act? {
      assert CallInv(s.backend, a.p, s.calls[a.p]);
      OnlyDeleteRemoves(s.backend, a.p, s.calls[a.p], a.step, n);
    }
    hide CallInv, Owned, Enabled, Do, Move;
  }

  /** Every presentation has its storage, and every presentation of a subvolume made in this run
      has an owner, in every state. */
  lemma PresentedIsBacked(states: seq<State>, actions: seq<Action>, i: nat, n: Name)
    requires IsRun(states, actions) && i < |states| && n in states[i].backend.shares
    ensures n in states[i].backend.subs
    ensures n in states[i].backend.makers ==> Owned(states[i].backend, n)
  {
    RunKeeps(states, actions, i);
  }

  lemma ExposeShares(b: Backend, p: Pid, c: Call, st: Step)
    requires CallInv(b, p, c) && Enabled(b, p, c, st) && (st.Expose? || st.ExposeErrs?)
    ensures Owned(b, c.name) && Do(b, p, c, st).shares.Keys <= b.shares.Keys + {c.name}
  {
    hide HasCompleteV2Identity;
  }

  /** Exposure implies ownership: whichever create, clone or adoption path of whichever protocol
      leads to it, a presentation is made, even by a call that errs, only when the stored
      properties already hold the complete identity. */
  lemma ExposureNeedsOwnership(states: seq<State>, actions: seq<Action>, i: nat)
    requires IsRun(states, actions) && i < |actions|
    requires actions[i].Act? && (actions[i].step.Expose? || actions[i].step.ExposeErrs?)
    ensures Owned(states[i].backend, states[i].calls[actions[i].p].name)
    ensures states[i + 1].backend.shares.Keys <= states[i].backend.shares.Keys + {states[i].calls[actions[i].p].name}
  {
    RunKeeps(states, actions, i) by { hide *; }
    var s, a := states[i], actions[i];
    assert CanHappen(s, a) && states[i + 1] == Next(s, a) by { hide CanHappen, Next; }
    assert a.p in s.calls && Enabled(s.backend, a.p, s.calls[a.p], a.step) by { hide Enabled; }
    assert CallInv(s.backend, a.p, s.calls[a.p]) by { hide CallInv; }
    ExposeShares(s.backend, a.p, s.calls[a.p], a.step);
    hide *;
  }

  // ----- Unknown writes -----

  /** A failed write of `p` is read back, and it certainly had not committed. */
  predicate ReadsCleanFailure(s: State, a: Action, p: Pid) {
    && a == Act(p, Verify(true)) && p in s.calls && s.calls[p].pc.Verifying?
    && s.calls[p].name in s.backend.subs
    && !PropertiesContain(s.backend.subs[s.calls[p].name], s.calls[p].pc.wanted)
  }

  /** The write state is unknown, or the call is past caring: nothing is deleted from here. */
  predicate Unsettled(pc: Pc) { pc.Verifying? || pc == RollingBack(true) || pc.Failed? }

  lemma UnsettledStays(s: State, a: Action, p: Pid)
    requires CanHappen(s, a) && p in s.calls && Unsettled(s.calls[p].pc) && !ReadsCleanFailure(s, a, p)
    ensures p in Next(s, a).calls && Unsettled(Next(s, a).calls[p].pc)
    ensures !(a.Act? && a.p == p && a.step.Delete?)
  {
    hide PropertiesContain, EffectOf, Apply;
  }

  /** A write of `p` errs at `i`. Later the call is unsettled, unless it read a clean failure. */
  lemma {:induction false} ErredWriteStaysUnsettled(states: seq<State>, actions: seq<Action>, i: nat, k: nat, p: Pid)
    requires IsRun(states, actions) && i < k < |states| && actions[i].Act? && actions[i].p == p &&
             actions[i].step.WriteErrs?
    ensures p in states[k].calls
    ensures Unsettled(states[k].calls[p].pc) || exists j :: i < j < k && ReadsCleanFailure(states[j], actions[j], p)
  {
    hide ReadsCleanFailure, Unsettled, Enabled, Move, Do, Initial;
    assert states[k - 1 + 1] == Next(states[k - 1], actions[k - 1]) && CanHappen(states[k - 1], actions[k - 1]);
    if k == i + 1 {
      ErredWriteIsUnsettled(states[i], actions[i]);
    } else {
      ErredWriteStaysUnsettled(states, actions, i, k - 1, p);
      if !exists j :: i < j < k && ReadsCleanFailure(states[j], actions[j], p) {
        assert !ReadsCleanFailure(states[k - 1], actions[k - 1], p);
        UnsettledStays(states[k - 1], actions[k - 1], p);
      }
    }
  }

  lemma ErredWriteIsUnsettled(s: State, a: Action)
    requires CanHappen(s, a) && a.Act? && a.step.WriteErrs?
    ensures a.p in Next(s, a).calls && Unsettled(Next(s, a).calls[a.p].pc)
  {
    hide PropertiesContain, EffectOf, Apply;
  }

  /** An unknown write state never leads to deletion. Whenever a call deletes after a write of its
      own has erred, it has read the subvolume back in between and has seen that the write had not
      committed; after an unreadable or a positive verification it does not delete. */
  lemma DeleteNeedsCleanFailure(states: seq<State>, actions: seq<Action>, i: nat, k: nat, p: Pid)
    requires IsRun(states, actions) && i < k < |actions|
    requires actions[i].Act? && actions[i].p == p && actions[i].step.WriteErrs?
    requires actions[k].Act? && actions[k].p == p && actions[k].step.Delete?
    ensures exists j :: i < j < k && ReadsCleanFailure(states[j], actions[j], p)
  {
    ErredWriteStaysUnsettled(states, actions, i, k, p);
    assert Enabled(states[k].backend, p, states[k].calls[p], actions[k].step) by {
      assert CanHappen(states[k], actions[k]);
      hide Enabled;
    }
    hide ReadsCleanFailure, Move, Do;
  }

  /** A verification decides: the rollback that follows one refuses exactly when the write may have
      committed, and then the call can do nothing but end. */
  lemma UnknownWriteIsRefused(b: Backend, p: Pid, c: Call, readable: bool, st: Step)
    requires Enabled(b, p, c, Verify(readable)) && c.pc.created
    requires !readable || c.name !in b.subs || PropertiesContain(b.subs[c.name], c.pc.wanted)
    requires Enabled(Do(b, p, c, Verify(readable)), p, Move(b, p, c, Verify(readable)), st)
    ensures st == RollbackRefuses
    ensures EffectOf(Do(b, p, c, Verify(readable)), p, Move(b, p, c, Verify(readable)), st) == Nothing
  {
    hide PropertiesContain, Apply;
  }
}
