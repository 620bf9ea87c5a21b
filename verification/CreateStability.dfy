/** Calls one after the other: creates, clones, adoptions, expansions, snapshots, deletions, retries
    and crashes, with at most one call under way. An identity, once stored, never changes. */
module CreateStability {
  import opened CreateIdentity
  import opened CreateOwnership
  import opened CreateSteps
  import opened VolumeIdentity
  import opened Wrappers

  ghost predicate AllDone(s: State) {
    forall p :: p in s.calls ==> s.calls[p].pc.Done()
  }

  /** Orderly runs in which nothing begins before everything else is over. They start settled, as
      they end, and create no volume under a name to which a clone, a snapshot or a copied identity
      of a deleted one still refers. */
  ghost predicate IsSequentialRun(cat: Catalogue, states: seq<State>, actions: seq<Action>) {
    && IsOrderlyRun(cat, states, actions)
    && Settled(states[0].backend)
    && forall i :: 0 <= i < |actions| ==> Sequential(states[i], actions[i])
  }

  ghost predicate Sequential(s: State, a: Action) {
    && (a.Act? || a.Crash? || AllDone(s))
    && (a.Begin? ==> Fresh(s.backend, a.req.backendName))
  }

  /** A subvolume of this name is there, or nothing refers to one. */
  ghost predicate Fresh(b: Backend, x: Name) {
    x in b.subs || (Unused(b, x) && Unrecorded(b, x))
  }

  /** Nothing was cloned or snapshotted from `x`. */
  ghost predicate Unused(b: Backend, x: Name) {
    && (forall n :: !ClonedFrom(b, n, x))
    && (forall id :: id in b.snaps ==> b.snaps[id].volume != x)
  }

  /** No subvolume and no snapshot records an identity of `x`. */
  ghost predicate Unrecorded(b: Backend, x: Name) {
    && (forall n :: n in b.subs && Claims(b.subs[n]) ==> Get(b.subs[n], CSIVolumeName) != x)
    && (forall id :: id in b.snaps && Claims(b.snaps[id].props) ==> Get(b.snaps[id].props, CSIVolumeName) != x)
  }

  // ----- The invariant -----

  /** A stored identity is that of a subvolume which owns it, or which is gone. */
  predicate Anchored(b: Backend, p: Props) {
    Claims(p) && Get(p, CSIVolumeName) in b.subs ==>
      Owned(b, Get(p, CSIVolumeName)) && Get(b.subs[Get(p, CSIVolumeName)], VolumeUUID) == Get(p, VolumeUUID)
  }

  /** What `n` was cloned from. */
  predicate ClonedFrom(b: Backend, n: Name, m: Name) {
    n in b.subs && n in b.origins && b.origins[n] != NoSource && b.origins[n].volume == m
  }

  /** Sources never carry the identity of an owned clone of theirs. */
  predicate SourceIsApart(b: Backend, n: Name, m: Name) {
    && m != n
    && (Owned(b, n) && m in b.subs && Claims(b.subs[m]) ==> Get(b.subs[m], CSIVolumeName) != n)
  }

  ghost predicate Settled(b: Backend) {
    && (forall n :: n in b.subs ==> Anchored(b, b.subs[n]))
    && (forall id :: id in b.snaps ==> Anchored(b, b.snaps[id].props))
    && (forall n, m :: ClonedFrom(b, n, m) ==> SourceIsApart(b, n, m))
  }

  /** Storing the identity would not change the UUID of an owned subvolume. */
  predicate Keeps(b: Backend, n: Name, identity: Props) {
    VolumeUUID in identity && (Owned(b, n) ==> identity[VolumeUUID] == Get(b.subs[n], VolumeUUID))
  }

  predicate FactsHold(b: Backend, req: Request, source: Props, sourceExists: bool) {
    && req.source != NoSource
    && if sourceExists
       then req.source.volume in b.subs && b.subs[req.source.volume] == source
       else req.source.volume !in b.subs
  }

  /** What the one live call has read is what is stored. */
  ghost predicate Current(b: Backend, c: Call) {
    match c.pc
    case Listing(local, identity, _) => c.name in b.subs && local == b.subs[c.name] && Keeps(b, c.name, identity)
    case Persisting(local, _, identity, created, _) =>
      && c.name in b.subs
      && if created then !Owned(b, c.name) else local == b.subs[c.name] && Keeps(b, c.name, identity)
    case Choosing(source, sourceExists, legacyTurn) =>
      FactsHold(b, c.req, source, sourceExists) && (legacyTurn ==> c.req.backendName !in b.subs)
    case Cloning(f) => FactsHold(b, c.req, f.source, f.sourceExists) && (f.existed <==> c.name in b.subs)
    case Rereading(f) =>
      && c.name in b.subs && (f.created <==> !f.existed)
      && if f.created then !Owned(b, c.name)
         else
           && FactsHold(b, c.req, f.source, f.sourceExists)
           && c.name in b.origins && b.origins[c.name] == c.req.source
    case _ => true
  }

  ghost predicate SequentialInv(s: State) {
    && Settled(s.backend)
    && (forall p, q :: p in s.calls && q in s.calls && !s.calls[p].pc.Done() && !s.calls[q].pc.Done() ==> p == q)
    && (forall p :: p in s.calls ==> Current(s.backend, s.calls[p]))
    && (forall p :: p in s.calls ==> Prepared(s.backend, s.calls[p]))
  }

  /** A call under way works under names that may be created. */
  ghost predicate Prepared(b: Backend, c: Call) {
    c.pc.Done() || (Fresh(b, c.name) && Fresh(b, c.req.backendName))
  }

  // ----- What the decisions keep -----

  /** A clone attempt on an owned destination keeps its UUID or gives up, because the source of
      the destination cannot carry the destination's identity. */
  lemma ClassificationKeeps(cat: Catalogue, b: Backend, c: Call, uuid: Text)
    requires Settled(b) && BackendTraced(cat, b) && Current(b, c) && CallTraced(b, cat, c)
    requires c.pc.Rereading? && !c.pc.facts.created
    ensures var d := ClassifyClone(c.req, c.name, b.subs[c.name], c.pc.facts, uuid);
            d.Identity? ==> Keeps(b, c.name, d.properties)
  {
    hide Settled, BackendTraced, CallTraced, CarriesCopy, ClassifyClone, HasCompleteV2Identity;
    var n, p := c.name, b.subs[c.name];
    if ClassifyClone(c.req, n, p, c.pc.facts, uuid).Identity? {
      ClassificationIsNewOrKept(c.req, n, p, c.pc.facts, uuid);
      if Owned(b, n) {
        OwnerCarriesNoCopy(cat, b, c);
        OwnerHasUUID(p, n);
      }
    }
  }

  lemma OwnerHasUUID(p: Props, n: Name)
    requires HasCompleteV2Identity(p, n)
    ensures Get(p, VolumeUUID) != Empty
  {
  }

  lemma OwnerCarriesNoCopy(cat: Catalogue, b: Backend, c: Call)
    requires Settled(b) && BackendTraced(cat, b) && Current(b, c)
    requires c.pc.Rereading? && !c.pc.facts.created && Owned(b, c.name)
    ensures !CarriesCopy(c.req, b.subs[c.name], c.pc.facts)
  {
    var n, m, f := c.name, c.req.source.volume, c.pc.facts;
    assert ClonedFrom(b, n, m) && SourceIsApart(b, n, m);
    assert Traced(b.issued, cat, b.subs[n]) && (m in b.subs ==> Traced(b.issued, cat, b.subs[m]));
    hide Settled, BackendTraced, ClonedFrom;
    if m in b.subs { assert !CloneCarriesSourceIdentity(b.subs[n], b.subs[m]); }
  }

  lemma DecisionKeeps(b: Backend, req: Request, n: Name, uuid: Text)
    requires n in b.subs
    ensures var d := DecideExisting(req, n, b.subs[n], uuid);
            d.Identity? ==> Keeps(b, n, d.properties)
    ensures Keeps(b, n, IdentityProperties(b.subs[n], req.name, n, req.protocol, uuid))
  {
    if Owned(b, n) { DecideExistingKeepsOwners(req, n, b.subs[n], uuid); }
  }

  // ----- What is stored -----

  /** The effects of a live call, with what it knows about them. */
  ghost predicate Sound(b: Backend, e: Effect) {
    match e
    case Makes(n, props, source) =>
      && n !in b.subs && Fresh(b, n)
      && if source == NoSource then props == map[] else SourceAvailable(b, source) && props == SourceCopy(b, source)
    case Merges(n, props) =>
      WholeIdentity(props, n) && n in b.subs && (Owned(b, n) ==> Get(props, VolumeUUID) == Get(b.subs[n], VolumeUUID))
    case Snaps(_, _) => false
    case _ => true
  }

  lemma MakesKeepsSettled(b: Backend, p: Pid, e: Effect)
    requires Settled(b) && Sound(b, e) && e.Makes?
    ensures Settled(Apply(b, p, e))
    ensures !Owned(Apply(b, p, e), e.n)
  {
    NewIsApart(b, e);
    hide Claims, HasCompleteV2Identity, SourceCopy, SourceAvailable;
    var b' := Apply(b, p, e);
    forall n ensures n != e.n ==> (Owned(b, n) <==> Owned(b', n)) {}
    forall n, m | ClonedFrom(b', n, m) ensures SourceIsApart(b', n, m) {
      if n != e.n {
        assert ClonedFrom(b, n, m) && SourceIsApart(b, n, m);
        assert m != e.n;
      }
    }
  }

  /** What is made is anchored, is not owned, and is no copy of what its name once held. */
  lemma NewIsApart(b: Backend, e: Effect)
    requires Settled(b) && Sound(b, e) && e.Makes?
    ensures Anchored(b, e.props) && (Claims(e.props) ==> Get(e.props, CSIVolumeName) != e.n)
    ensures !HasCompleteV2Identity(e.props, e.n) && (e.source != NoSource ==> e.source.volume != e.n)
  {
    hide Anchored;
    if e.source == NoSource { EmptyIsAnchored(b, e.n); }
  }

  lemma MergedIdentity(p: Props, extra: Props, n: Name)
    requires WholeIdentity(extra, n)
    ensures HasCompleteV2Identity(p + extra, n) && Get(p + extra, CSIVolumeName) == n
    ensures Get(p + extra, VolumeUUID) == Get(extra, VolumeUUID)
  {
    WholeIdentityOwns(p, extra, n);
  }

  lemma AnchoredAt(b: Backend, m: Name)
    requires Settled(b) && m in b.subs
    ensures Anchored(b, b.subs[m])
  {
  }

  lemma MergesKeepsSettled(b: Backend, p: Pid, e: Effect)
    requires Settled(b) && Sound(b, e) && e.Merges?
    ensures Settled(Apply(b, p, e))
  {
    hide Claims, HasCompleteV2Identity, WholeIdentity;
    var b' := Apply(b, p, e);
    MergedIdentity(b.subs[e.n], e.props, e.n);
    assert Owned(b', e.n);
    forall n ensures Owned(b, n) ==> Owned(b', n) {}
    forall n, m | ClonedFrom(b', n, m) ensures SourceIsApart(b', n, m) {
      assert ClonedFrom(b, n, m) && SourceIsApart(b, n, m);
      if m in b.subs { AnchoredAt(b, m); }
    }
  }

  lemma RemovesKeepsSettled(b: Backend, p: Pid, e: Effect)
    requires Settled(b) && e.Removes?
    ensures Settled(Apply(b, p, e))
  {
    hide Claims, HasCompleteV2Identity;
    var b' := Apply(b, p, e);
    forall n ensures n != e.n ==> (Owned(b, n) <==> Owned(b', n)) {}
    forall n, m | ClonedFrom(b', n, m) ensures SourceIsApart(b', n, m) {
      assert ClonedFrom(b, n, m) && SourceIsApart(b, n, m);
    }
  }

  lemma EffectKeepsSettled(b: Backend, p: Pid, e: Effect)
    requires Settled(b) && Sound(b, e)
    ensures Settled(Apply(b, p, e))
  {
    match e
    case Makes(_, _, _) => MakesKeepsSettled(b, p, e);
    case Merges(_, _) => MergesKeepsSettled(b, p, e);
    case Removes(_) => RemovesKeepsSettled(b, p, e);
    case Shares(_, _) => SettledIsAboutData(b, Apply(b, p, e));
    case Nothing =>
  }

  /** Presentations, the lock and the issued UUIDs play no part in what is settled. */
  lemma SettledIsAboutData(b: Backend, b': Backend)
    requires Settled(b) && b'.subs == b.subs && b'.snaps == b.snaps && b'.origins == b.origins
    ensures Settled(b')
    ensures forall n :: Owned(b, n) <==> Owned(b', n)
  {
    hide Claims, HasCompleteV2Identity;
    forall n, m ensures ClonedFrom(b, n, m) <==> ClonedFrom(b', n, m) {}
    forall n, m | ClonedFrom(b', n, m) ensures SourceIsApart(b', n, m) { assert SourceIsApart(b, n, m); }
  }

  lemma StepIsSound(b: Backend, p: Pid, c: Call, st: Step)
    requires Current(b, c) && Prepared(b, c) && CallInv(b, p, c) && Enabled(b, p, c, st)
    ensures Sound(b, EffectOf(b, p, c, st))
  {
    hide Fresh, Anchored, HasCompleteV2Identity, Wanted, PropertiesContain, IdentityFor, WholeIdentity, SourceCopy;
    match st
    case Persist => WriteIsSound(b, p, c);
    case WriteErrs(_) => WriteIsSound(b, p, c);
    case _ =>
  }

  lemma WriteIsSound(b: Backend, p: Pid, c: Call)
    requires Current(b, c) && CallInv(b, p, c) && c.pc.Persisting?
    ensures Sound(b, Merges(c.name, Wanted(c.pc.local, c.pc.base, c.pc.identity)))
  {
    var w := Wanted(c.pc.local, c.pc.base, c.pc.identity);
    WantedIsWhole(c.name, c.pc.local, c.pc.base, c.pc.identity);
    assert w[VolumeUUID] == c.pc.identity[VolumeUUID] by { assert VolumeUUID in IDENTITY_KEYS; }
  }

  lemma EmptyIsAnchored(b: Backend, n: Name)
    ensures Anchored(b, map[]) && !HasCompleteV2Identity(map[], n)
  {
  }

  // ----- What the live call knows next -----

  lemma CurrentIsAboutData(b: Backend, b': Backend, c: Call)
    requires Settled(b) && Current(b, c) && b'.subs == b.subs && b'.snaps == b.snaps && b'.origins == b.origins
    ensures Current(b', c)
  {
    hide Settled, HasCompleteV2Identity;
    SettledIsAboutData(b, b');
  }

  /** The step chooses an identity for a subvolume that it finds. */
  lemma SelectionIsCurrent(b: Backend, p: Pid, c: Call, st: Step)
    requires Current(b, c) && Enabled(b, p, c, st)
    requires st.Search? || st.Select? || ((st.Acquire? || st.Create?) && c.name in b.subs)
    ensures Current(b, Move(b, p, c, st))
  {
    hide Unused, HasCompleteV2Identity, Keeps, IdentityProperties, DecideExisting, Matches, MayAdopt, BaseOf;
    match st
    case Search(found, uuid) => if found.Some? { DecisionKeeps(b, c.req, found.value, uuid); }
    case Select(uuid) =>
      var n := if c.pc.legacyTurn then c.req.legacyName else c.req.backendName;
      if n in b.subs { DecisionKeeps(b, c.req, n, uuid); }
    case Acquire(uuid, _) => DecisionKeeps(b, c.req, c.name, uuid);
    case Create(uuid, _) => DecisionKeeps(b, c.req, c.name, uuid);
  }

  lemma RereadIsCurrent(cat: Catalogue, b: Backend, p: Pid, c: Call, st: Step)
    requires Settled(b) && BackendTraced(cat, b) && CallTraced(b, cat, c) && Current(b, c) && Enabled(b, p, c, st) &&
             st.Reread?
    ensures Current(b, Move(b, p, c, st))
  {
    hide Unused, HasCompleteV2Identity, Keeps, ClassifyClone, CloneBase, Settled, BackendTraced;
    if !c.pc.facts.created { ClassificationKeeps(cat, b, c, st.uuid); }
  }

  lemma DrawingKeepsCurrent(cat: Catalogue, b: Backend, p: Pid, c: Call, st: Step)
    requires Settled(b) && BackendTraced(cat, b) && CallTraced(b, cat, c) && Current(b, c) && Prepared(b, c)
    requires CallInv(b, p, c) && Enabled(b, p, c, st) && Draws(st).Some?
    ensures Current(Do(b, p, c, st), Move(b, p, c, st))
  {
    if st.Create? && c.name !in b.subs {
      CreatedIsCurrent(b, p, c, st);
    } else {
      if st.Reread? {
        RereadIsCurrent(cat, b, p, c, st);
      } else if st.Acquire? && c.name !in b.subs {
      } else {
        SelectionIsCurrent(b, p, c, st);
      }
      CurrentIsAboutData(b, Do(b, p, c, st), Move(b, p, c, st)) by { hide Settled, Current, Move; }
    }
    hide *;
  }

  lemma CreatedIsCurrent(b: Backend, p: Pid, c: Call, st: Step)
    requires Settled(b) && Current(b, c) && Prepared(b, c) && CallInv(b, p, c) && Enabled(b, p, c, st)
    requires st.Create? && c.name !in b.subs
    ensures Current(Do(b, p, c, st), Move(b, p, c, st))
  {
    StepIsSound(b, p, c, st);
    hide Settled, HasCompleteV2Identity, BaseOf, IdentityProperties;
    var e := EffectOf(b, p, c, st);
    MakesKeepsSettled(b, p, e);
    SettledIsAboutData(Apply(b, p, e), Do(b, p, c, st));
  }

  lemma CloneKeepsCurrent(b: Backend, p: Pid, c: Call)
    requires Settled(b) && Current(b, c) && Prepared(b, c) && CallInv(b, p, c) && Enabled(b, p, c, Clone)
    ensures Current(Do(b, p, c, Clone), Move(b, p, c, Clone))
  {
    StepIsSound(b, p, c, Clone);
    hide Settled, HasCompleteV2Identity;
    if c.name !in b.subs {
      var e := EffectOf(b, p, c, Clone);
      MakesKeepsSettled(b, p, e);
      SettledIsAboutData(Apply(b, p, e), Do(b, p, c, Clone));
    }
  }

  lemma PersistKeepsCurrent(b: Backend, p: Pid, c: Call, st: Step)
    requires Current(b, c) && CallInv(b, p, c) && Enabled(b, p, c, st) && (st.Persist? || st.WriteErrs?)
    ensures Current(Do(b, p, c, st), Move(b, p, c, st))
  {
    hide HasCompleteV2Identity, Wanted, PropertiesContain, IdentityFor, Keeps, Owned, ClonedFrom;
  }

  lemma QuietIsCurrent(b: Backend, p: Pid, c: Call, st: Step)
    requires Current(b, c) && Enabled(b, p, c, st)
    requires Draws(st).None? && !st.Clone? && !st.Persist? && !st.WriteErrs?
    ensures Current(b, Move(b, p, c, st))
    ensures !Move(b, p, c, st).pc.Done() ==> EffectOf(b, p, c, st).Nothing?
  {
    hide HasCompleteV2Identity, Wanted, PropertiesContain, BaseOf, LegacyPVCIdentityMatches, ExistingCapacity, Unused,
         Keeps, Owned;
  }

  /** The remaining steps leave the data alone or end the call. */
  lemma OtherKeepsCurrent(b: Backend, p: Pid, c: Call, st: Step)
    requires Settled(b) && Current(b, c) && Enabled(b, p, c, st)
    requires Draws(st).None? && !st.Clone? && !st.Persist? && !st.WriteErrs?
    ensures Current(Do(b, p, c, st), Move(b, p, c, st))
  {
    QuietIsCurrent(b, p, c, st);
    if !Move(b, p, c, st).pc.Done() {
      CurrentIsAboutData(b, Do(b, p, c, st), Move(b, p, c, st)) by { hide Settled, Current, Move, EffectOf, Enabled; }
    }
    hide Enabled, Move, EffectOf, Unused, Settled;
  }

  // ----- The names it may create under -----

  lemma FreshStays(b: Backend, p: Pid, e: Effect, x: Name)
    requires Settled(b) && Sound(b, e) && !e.Removes? && Fresh(b, x)
    ensures Fresh(Apply(b, p, e), x)
  {
    var b' := Apply(b, p, e);
    if x !in b'.subs {
      if e.Makes? { MakesKeepsFresh(b, p, e, x); }
      if e.Merges? { MergedIdentity(b.subs[e.n], e.props, e.n); }
      hide Claims, HasCompleteV2Identity, WholeIdentity, Settled;
      forall n ensures !ClonedFrom(b', n, x) { assert !ClonedFrom(b, n, x); }
    }
  }

  lemma MakesKeepsFresh(b: Backend, p: Pid, e: Effect, x: Name)
    requires Sound(b, e) && e.Makes? && Unused(b, x) && Unrecorded(b, x) && x !in b.subs
    ensures e.source != NoSource ==> e.source.volume != x
    ensures Claims(e.props) ==> Get(e.props, CSIVolumeName) != x
  {
  }

  /** A call takes up a name that it finds, or its request's own. */
  lemma StepNames(b: Backend, p: Pid, c: Call, st: Step)
    requires Enabled(b, p, c, st)
    ensures Move(b, p, c, st).name in b.subs + map[c.name := map[]] + map[c.req.backendName := map[]]
    ensures EffectOf(b, p, c, st).Removes? ==> Move(b, p, c, st).pc.Done()
  {
    hide DecideExisting, ClassifyClone, Wanted, PropertiesContain, BaseOf, LegacyPVCIdentityMatches;
  }

  lemma ActKeepsPrepared(b: Backend, p: Pid, c: Call, st: Step)
    requires Settled(b) && Current(b, c) && Prepared(b, c) && CallInv(b, p, c) && Enabled(b, p, c, st)
    ensures Prepared(Do(b, p, c, st), Move(b, p, c, st))
  {
    StepIsSound(b, p, c, st);
    StepNames(b, p, c, st);
    StepKeepsRequest(b, p, c, st);
    hide Settled, Current, CallInv, Enabled, Move, EffectOf, Sound, Fresh;
    var e, b', c' := EffectOf(b, p, c, st), Do(b, p, c, st), Move(b, p, c, st);
    if !c'.pc.Done() {
      assert Fresh(b, c'.name) by { ThereIsFresh(b, c'.name); }
      FreshStays(b, p, e, c'.name);
      FreshStays(b, p, e, c.req.backendName);
      FreshIsAboutData(Apply(b, p, e), b', c'.name);
      FreshIsAboutData(Apply(b, p, e), b', c.req.backendName);
    }
  }

  lemma ThereIsFresh(b: Backend, x: Name)
    ensures x in b.subs ==> Fresh(b, x)
  {
  }

  lemma FreshIsAboutData(b: Backend, b': Backend, x: Name)
    requires Fresh(b, x) && b'.subs == b.subs && b'.snaps == b.snaps && b'.origins == b.origins
    ensures Fresh(b', x)
  {
    forall n, m ensures ClonedFrom(b, n, m) <==> ClonedFrom(b', n, m) {}
  }

  lemma ActKeepsSequential(cat: Catalogue, s: State, p: Pid, st: Step)
    requires SequentialInv(s) && TracedInv(cat, s) && Inv(s) && CanHappen(s, Act(p, st))
    ensures SequentialInv(Next(s, Act(p, st)))
  {
    hide Settled, Current, Prepared, CallInv, CallTraced, BackendTraced, Enabled, Move, EffectOf;
    var b, c := s.backend, s.calls[p];
    var b', c' := Do(b, p, c, st), Move(b, p, c, st);
    assert Current(b, c) && Prepared(b, c) && CallInv(b, p, c) && CallTraced(b, cat, c) && Enabled(b, p, c, st);
    ActKeepsPrepared(b, p, c, st);
    EndedStays(b, p, c, st);
    StepIsSound(b, p, c, st);
    EffectKeepsSettled(b, p, EffectOf(b, p, c, st));
    SettledIsAboutData(Apply(b, p, EffectOf(b, p, c, st)), b');
    assert Current(b', c') by {
      if Draws(st).Some? { DrawingKeepsCurrent(cat, b, p, c, st); }
      else if st.Clone? { CloneKeepsCurrent(b, p, c); }
      else if st.Persist? || st.WriteErrs? { PersistKeepsCurrent(b, p, c, st); }
      else { OtherKeepsCurrent(b, p, c, st); }
    }
    hide Do, Apply;
    forall q | q in s.calls && q != p ensures Current(b', s.calls[q]) && Prepared(b', s.calls[q]) {
      EndedIsCurrent(b', s.calls[q]);
    }
  }

  lemma EndedStays(b: Backend, p: Pid, c: Call, st: Step)
    requires Enabled(b, p, c, st)
    ensures !c.pc.Done()
  {
  }

  lemma EndedIsCurrent(b: Backend, c: Call)
    requires c.pc.Done()
    ensures Current(b, c) && Prepared(b, c)
  {
  }

  lemma RemoveKeepsSequential(s: State, n: Name)
    requires SequentialInv(s) && CanHappen(s, Remove(n)) && Sequential(s, Remove(n))
    ensures SequentialInv(Next(s, Remove(n)))
  {
    hide Settled, Current, Prepared, InUse;
    var b, t := s.backend, Next(s, Remove(n));
    RemovesKeepsSettled(b, 0, Removes(n));
    SettledIsAboutData(Apply(b, 0, Removes(n)), t.backend);
    EndedCallsAreCurrent(s, t.backend);
  }

  lemma EndedCallsAreCurrent(s: State, b: Backend)
    requires AllDone(s)
    ensures forall q :: q in s.calls ==> Current(b, s.calls[q]) && Prepared(b, s.calls[q])
  {
    hide Current, Prepared;
    forall q | q in s.calls ensures Current(b, s.calls[q]) && Prepared(b, s.calls[q]) { EndedIsCurrent(b, s.calls[q]); }
  }

  lemma RestKeepsSequential(s: State, a: Action)
    requires SequentialInv(s) && CanHappen(s, a) && !a.Act? && Sequential(s, a)
    ensures SequentialInv(Next(s, a))
  {
    hide Settled, Current, Prepared;
    var t := Next(s, a);
    match a
    case Begin(p, req) => StartIsCurrent(s.backend, req);
    case Crash =>
      SettledIsAboutData(s.backend, t.backend);
      EndedCallsAreCurrent(t, t.backend);
    case TakeSnapshot(_, _) => OutsideKeepsSequential(s, a);
    case Expand(_, _) => OutsideKeepsSequential(s, a);
    case Withdraw(n) =>
      SettledIsAboutData(s.backend, t.backend);
      EndedCallsAreCurrent(s, t.backend);
    case Remove(n) => RemoveKeepsSequential(s, n);
    case Act(_, _) =>
  }

  lemma OutsideKeepsSequential(s: State, a: Action)
    requires SequentialInv(s) && CanHappen(s, a) && (a.TakeSnapshot? || a.Expand?) && AllDone(s)
    ensures SequentialInv(Next(s, a))
  {
    hide Settled, Current, Prepared;
    var t := Next(s, a);
    OutsideKeepsSettled(s.backend, a, t.backend);
    EndedCallsAreCurrent(s, t.backend);
  }

  lemma StartIsCurrent(b: Backend, req: Request)
    requires Fresh(b, req.backendName)
    ensures Current(b, Starts(req)) && Prepared(b, Starts(req))
  {
  }

  lemma OutsideKeepsSettled(b: Backend, a: Action, b': Backend)
    requires Settled(b) && ((a.TakeSnapshot? && a.n in b.subs && b' == Apply(b, 0, Snaps(a.snapshot, a.n)))
                            || (a.Expand? && a.n in b.subs &&
                                b' == Apply(b, 0, Merges(a.n, map[CapacityBytes := Number(a.capacity)]))))
    ensures Settled(b')
  {
    hide HasCompleteV2Identity, Claims;
    if a.Expand? {
      forall n | n in b.subs ensures n in b'.subs && SameIdentity(b.subs[n], b'.subs[n], n) {
        CapacityIsNotIdentity(b.subs[n], map[CapacityBytes := Number(a.capacity)], n);
      }
    }
    forall n ensures Owned(b', n) <==> Owned(b, n) {}
    forall n, m | ClonedFrom(b', n, m) ensures SourceIsApart(b', n, m) {
      assert ClonedFrom(b, n, m) && SourceIsApart(b, n, m);
    }
  }

  /** Two property maps say the same about who owns `n`. */
  predicate SameIdentity(p: Props, q: Props, n: Name) {
    && (Claims(p) <==> Claims(q)) && Get(p, CSIVolumeName) == Get(q, CSIVolumeName)
    && (HasCompleteV2Identity(p, n) <==> HasCompleteV2Identity(q, n)) && Get(p, VolumeUUID) == Get(q, VolumeUUID)
  }

  lemma CapacityIsNotIdentity(p: Props, extra: Props, n: Name)
    requires extra.Keys == {CapacityBytes}
    ensures SameIdentity(p, p + extra, n) && SameIdentity(p, p, n)
  {
    forall k | k != CapacityBytes ensures Get(p + extra, k) == Get(p, k) {}
  }

  lemma StartOfRun(cat: Catalogue, states: seq<State>, actions: seq<Action>)
    requires IsSequentialRun(cat, states, actions)
    ensures |states| == |actions| + 1 && IsOrderlyRun(cat, states, actions) && SequentialInv(states[0])
  {
    hide Settled, BackendTraced, HomesFound, Distinct, Orderly, Initial, Sequential;
  }

  lemma {:induction false} RunKeepsSequential(cat: Catalogue, states: seq<State>, actions: seq<Action>, i: nat)
    requires IsSequentialRun(cat, states, actions) && i < |states|
    ensures SequentialInv(states[i]) && TracedInv(cat, states[i]) && Inv(states[i])
  {
    StartOfRun(cat, states, actions);
    hide IsSequentialRun, IsOrderlyRun, CanHappen, Next, Inv, TracedInv, SequentialInv, Sequential;
    RunKeepsTraced(cat, states, actions, i);
    if i > 0 {
      RunKeepsSequential(cat, states, actions, i - 1);
      StepOfRun(cat, states, actions, i - 1);
      var s, a := states[i - 1], actions[i - 1];
      if a.Act? { ActKeepsSequential(cat, s, a.p, a.step); } else { RestKeepsSequential(s, a); }
    }
  }

  lemma StepOfRun(cat: Catalogue, states: seq<State>, actions: seq<Action>, i: nat)
    requires IsSequentialRun(cat, states, actions) && i + 1 < |states|
    ensures |states| == |actions| + 1 && CanHappen(states[i], actions[i]) &&
            states[i + 1] == Next(states[i], actions[i])
    ensures Sequential(states[i], actions[i])
  {
    hide Settled, BackendTraced, HomesFound, Distinct, Orderly, Initial, Sequential;
  }

  // ----- The main result -----

  predicate KeepsIdentity(p: Props, q: Props) {
    && Get(q, VolumeUUID) == Get(p, VolumeUUID)
    && (Get(p, CreatedAt) != Empty ==> Get(q, CreatedAt) == Get(p, CreatedAt))
  }

  lemma WriteKeepsIdentity(b: Backend, c: Call)
    requires Current(b, c) && c.pc.Persisting? && Owned(b, c.name) && IdentityFor(c.pc.identity, c.name)
    ensures KeepsIdentity(b.subs[c.name], b.subs[c.name] + Wanted(c.pc.local, c.pc.base, c.pc.identity))
  {
    var w := Wanted(c.pc.local, c.pc.base, c.pc.identity);
    assert w[VolumeUUID] == c.pc.identity[VolumeUUID] by { assert VolumeUUID in IDENTITY_KEYS; }
    assert Get(c.pc.local, CreatedAt) != Empty ==> w[CreatedAt] == Get(c.pc.local, CreatedAt);
  }

  lemma ActKeepsIdentity(b: Backend, p: Pid, c: Call, st: Step, n: Name)
    requires Current(b, c) && CallInv(b, p, c) && Enabled(b, p, c, st) && Owned(b, n)
    ensures n in Do(b, p, c, st).subs && KeepsIdentity(b.subs[n], Do(b, p, c, st).subs[n])
  {
    hide Move, Wanted, PropertiesContain, IdentityFor, HasCompleteV2Identity, Keeps, Unused, EffectOf, WholeIdentity,
         FactsHold, WellFormed, Enabled, KeepsIdentity;
    var e := EffectOf(b, p, c, st);
    MergesAreWrites(b, p, c, st);
    StepRespects(b, p, c, st);
    StepIsLawful(b, p, c, st);
    if e.Merges? && e.n == n {
      WriteKeepsIdentity(b, c);
    } else {
      UntouchedKeepsIdentity(b, p, c, st, n);
    }
  }

  lemma UntouchedKeepsIdentity(b: Backend, p: Pid, c: Call, st: Step, n: Name)
    requires Enabled(b, p, c, st) && Owned(b, n) && Lawful(b, p, EffectOf(b, p, c, st))
    requires var e := EffectOf(b, p, c, st); !(e.Merges? && e.n == n)
    ensures n in Do(b, p, c, st).subs && KeepsIdentity(b.subs[n], Do(b, p, c, st).subs[n])
  {
    StepDeletesNothing(b, p, c, st);
    hide Do, Move, EffectOf, Enabled, WholeIdentity, HasCompleteV2Identity, Mine;
  }

  lemma MergesAreWrites(b: Backend, p: Pid, c: Call, st: Step)
    requires Enabled(b, p, c, st)
    ensures EffectOf(b, p, c, st).Merges? ==>
              c.pc.Persisting? && EffectOf(b, p, c, st) == Merges(c.name, Wanted(c.pc.local, c.pc.base, c.pc.identity))
  {
    hide Wanted, PropertiesContain;
  }

  lemma StepKeepsIdentity(s: State, a: Action, n: Name)
    requires SequentialInv(s) && Inv(s) && CanHappen(s, a) && Owned(s.backend, n)
    ensures a != Remove(n) ==>
              Owned(Next(s, a).backend, n) && KeepsIdentity(s.backend.subs[n], Next(s, a).backend.subs[n])
  {
    StepKeeps(s, a);
    hide HasCompleteV2Identity, Current, CallInv, Enabled, Do, Move, Settled;
    if a.Act? {
      assert Current(s.backend, s.calls[a.p]) && CallInv(s.backend, a.p, s.calls[a.p]);
      ActKeepsIdentity(s.backend, a.p, s.calls[a.p], a.step, n);
    }
  }

  /** Once a complete identity for its own name is stored, a subvolume's UUID and creation time
      never change while it exists: not by retries of creates and clones, adoptions, expansions,
      failed writes, deletions of others or crashes, one after the other. */
  lemma {:induction false} IdentityIsStable(cat: Catalogue, states: seq<State>, actions: seq<Action>, i: nat, j: nat,
                                            n: Name)
    requires IsSequentialRun(cat, states, actions) && i <= j < |states| && Owned(states[i].backend, n)
    requires forall k :: i <= k < j ==> actions[k] != Remove(n)
    ensures Owned(states[j].backend, n) && KeepsIdentity(states[i].backend.subs[n], states[j].backend.subs[n])
    decreases j
  {
    hide SequentialInv, Inv, TracedInv, Next, IsSequentialRun, Owned, CanHappen;
    if i < j {
      IdentityIsStable(cat, states, actions, i, j - 1, n);
      RunKeepsSequential(cat, states, actions, j - 1);
      StepOfRun(cat, states, actions, j - 1);
      StepKeepsIdentity(states[j - 1], actions[j - 1], n);
    }
  }
}
