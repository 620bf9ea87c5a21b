/** The capacity a clone records. The clone path sizes its copy, records the size it got, asks for
    that size from then on and hands over to the protocol's create, which compares what is recorded
    with what is asked for. With calls one after another, the two always agree. */
module CloneCapacity {
  import Capacity
  import opened CreateIdentity
  import opened CreateOwnership
  import opened CreateStability
  import opened CreateSteps
  import opened VolumeIdentity
  import opened Wrappers

  /** The stored properties are what the clone wrote. */
  predicate RecordsClone(q: Props, c: Call) {
    && HasCompleteV2Identity(q, c.name) && Get(q, CapacityBytes) == Number(c.capacity)
    && Get(q, RequestName) == c.req.name && Get(q, Protocol) == c.req.protocol
  }

  /** A lookup under the current and then the legacy name finds the call's subvolume. */
  predicate Resolves(b: Backend, c: Call) {
    c.name == c.req.backendName || (c.name == c.req.legacyName && c.req.backendName !in b.subs)
  }

  /** What is known of a clone on its way from the sizing to the protocol's create. */
  predicate CloneInv(b: Backend, c: Call) {
    c.pc.Done() ||
    (&& c.capacity > 0
     && match c.pc
        case Searching => c.req.source == NoSource
        case Cloning(_) => c.req.source != NoSource && Resolves(b, c)
        case Rereading(_) => c.req.source != NoSource && Resolves(b, c)
        case Persisting(local, base, identity, created, after) =>
          after == ThenProtocol ==>
            && c.req.source != NoSource && Resolves(b, c)
            && base == CloneBase(c.capacity, identity) && (created ==> local == map[])
            && Get(identity, RequestName) == c.req.name && Get(identity, Protocol) == c.req.protocol
        case Selecting(legacyTurn) =>
          c.req.source != NoSource ==>
            && c.name in b.subs && RecordsClone(b.subs[c.name], c) && Resolves(b, c)
            && (legacyTurn ==> c.name != c.req.backendName)
        case Listing(local, _, adopting) =>
          c.req.source != NoSource ==> !adopting && Get(local, CapacityBytes) == Number(c.capacity)
        case _ => true)
  }

  // ----- The write records the capacity -----

  lemma ContainedRecordsClone(q: Props, c: Call)
    requires c.pc.Persisting? && c.pc.base == CloneBase(c.capacity, c.pc.identity) && IdentityFor(c.pc.identity, c.name)
    requires Get(c.pc.identity, RequestName) == c.req.name && Get(c.pc.identity, Protocol) == c.req.protocol
    requires PropertiesContain(q, Wanted(c.pc.local, c.pc.base, c.pc.identity))
    ensures RecordsClone(q, c)
  {
    var w := Wanted(c.pc.local, c.pc.base, c.pc.identity);
    WantedOwns(q, c.pc.local, c.pc.base, c.pc.identity, c.name);
    assert CapacityBytes !in IDENTITY_KEYS && RequestName in IDENTITY_KEYS && Protocol in IDENTITY_KEYS;
    assert w[CapacityBytes] == Number(c.capacity);
  }

  lemma EmptyRecordsNothing(c: Call)
    ensures !RecordsClone(map[], c)
  {
  }

  lemma PersistRecordsClone(b: Backend, p: Pid, c: Call)
    requires Current(b, c) && CallInv(b, p, c) && CloneInv(b, c) && Enabled(b, p, c, Persist) &&
             c.pc.after == ThenProtocol
    ensures c.name in Do(b, p, c, Persist).subs && RecordsClone(Do(b, p, c, Persist).subs[c.name], c)
    ensures Do(b, p, c, Persist).subs.Keys == b.subs.Keys
  {
    hide Wanted, PropertiesContain, IdentityFor, HasCompleteV2Identity, RecordsClone, CloneBase, Keeps, Unused, Owned;
    var w := Wanted(c.pc.local, c.pc.base, c.pc.identity);
    MergeContains(b.subs[c.name], w);
    ContainedRecordsClone(b.subs[c.name] + w, c);
    if PropertiesContain(c.pc.local, w) {
      ContainedRecordsClone(c.pc.local, c);
      EmptyRecordsNothing(c);
    }
  }

  lemma PersistKeepsCloneInv(b: Backend, p: Pid, c: Call)
    requires Current(b, c) && CallInv(b, p, c) && CloneInv(b, c) && Enabled(b, p, c, Persist)
    ensures CloneInv(Do(b, p, c, Persist), Move(b, p, c, Persist))
  {
    hide RecordsClone, CloneBase, PropertiesContain, Wanted, Current, CallInv, EffectOf, Apply;
    if c.pc.after == ThenProtocol { PersistRecordsClone(b, p, c); SameRecord(c, Move(b, p, c, Persist)); }
  }

  lemma SameRecord(c: Call, c': Call)
    requires c'.name == c.name && c'.capacity == c.capacity && c'.req == c.req
    ensures forall q :: RecordsClone(q, c) <==> RecordsClone(q, c')
  {
  }

  // ----- The other steps -----

  /** The identity a clone gets is its own request's. */
  lemma ClassificationNames(req: Request, n: Name, q: Props, facts: CloneFacts, uuid: Text)
    requires req.source != NoSource
    ensures var d := ClassifyClone(req, n, q, facts, uuid);
            d.Identity? ==> Get(d.properties, RequestName) == req.name && Get(d.properties, Protocol) == req.protocol
  {
    hide CarriesCopy;
  }

  /** The size that is recorded is the one that the sizing of the clone returned, so positive. */
  lemma SizeIsPositive(c: Call, current: Reported, resized: Reported)
    requires c.capacity > 0 && SizeOf(c, current, resized).Ok?
    ensures SizeOf(c, current, resized).value >= c.capacity
  {
    Capacity.ClonedCapacityMeaning(c.capacity, c.req.limit, current, resized);
  }

  lemma RereadKeepsCloneInv(b: Backend, p: Pid, c: Call, st: Step)
    requires CloneInv(b, c) && Enabled(b, p, c, st) && st.Reread?
    ensures CloneInv(b, Move(b, p, c, st))
  {
    SizeIsPositive(c, st.current, st.resized);
    if c.name in b.subs { ClassificationNames(c.req, c.name, b.subs[c.name], c.pc.facts, st.uuid); }
    hide ClassifyClone, CloneBase, RecordsClone;
  }

  lemma SelectKeepsCloneInv(b: Backend, p: Pid, c: Call, st: Step)
    requires CloneInv(b, c) && Enabled(b, p, c, st) && st.Select?
    ensures CloneInv(b, Move(b, p, c, st))
    ensures c.req.source != NoSource ==> !Move(b, p, c, st).pc.Failed?
  {
    if c.req.source != NoSource {
      DecideExistingKeepsOwners(c.req, c.name, b.subs[c.name], st.uuid);
      SameRecord(c, Move(b, p, c, st));
    }
    hide DecideExisting, HasCompleteV2Identity;
  }

  lemma ChooseKeepsCloneInv(b: Backend, p: Pid, c: Call)
    requires Current(b, c) && CloneInv(b, c) && Enabled(b, p, c, Choose)
    ensures CloneInv(b, Move(b, p, c, Choose))
  {
    hide LegacyPVCIdentityMatches, RecordsClone, Unused, Owned;
  }

  lemma CloneStepKeepsCloneInv(b: Backend, p: Pid, c: Call)
    requires CloneInv(b, c) && Enabled(b, p, c, Clone)
    ensures CloneInv(Do(b, p, c, Clone), Move(b, p, c, Clone))
  {
    hide RecordsClone, SourceCopy;
  }

  lemma OtherKeepsCloneInv(b: Backend, p: Pid, c: Call, st: Step)
    requires CloneInv(b, c) && Enabled(b, p, c, st)
    requires !st.Persist? && !st.Reread? && !st.Select? && !st.Choose? && !st.Clone?
    ensures CloneInv(b, Move(b, p, c, st))
  {
    hide RecordsClone, CloneBase, PropertiesContain, Wanted, DecideExisting, BaseOf, Matches, MayAdopt,
         HasCompleteV2Identity;
    hide Resolves, ExistingCapacity;
  }

  /** What the invariant speaks of: which subvolumes there are, and what the call's own holds. */
  lemma CloneInvIsAboutData(b: Backend, b': Backend, c: Call)
    requires CloneInv(b, c) && b'.subs == b.subs
    ensures CloneInv(b', c)
  {
    hide RecordsClone, CloneBase;
  }

  lemma StepKeepsCloneInv(b: Backend, p: Pid, c: Call, st: Step)
    requires Current(b, c) && CallInv(b, p, c) && CloneInv(b, c) && Enabled(b, p, c, st)
    ensures CloneInv(Do(b, p, c, st), Move(b, p, c, st))
  {
    if st.Persist? {
      PersistKeepsCloneInv(b, p, c);
    } else if st.Clone? {
      CloneStepKeepsCloneInv(b, p, c);
    } else {
      if st.Reread? { RereadKeepsCloneInv(b, p, c, st); }
      else if st.Select? { SelectKeepsCloneInv(b, p, c, st); }
      else if st.Choose? { ChooseKeepsCloneInv(b, p, c); }
      else { OtherKeepsCloneInv(b, p, c, st); }
      DataOrDone(b, p, c, st);
      if !Move(b, p, c, st).pc.Done() && Do(b, p, c, st).subs == b.subs {
        CloneInvIsAboutData(b, Do(b, p, c, st), Move(b, p, c, st));
      }
    }
    hide Current, CallInv, CloneInv, Enabled, Do, Move;
  }

  /** A step that is no clone and no write of an identity leaves the data alone, ends the call, or
      goes on to a place of which nothing is claimed. */
  lemma DataOrDone(b: Backend, p: Pid, c: Call, st: Step)
    requires Enabled(b, p, c, st) && !st.Persist? && !st.Clone? && CloneInv(b, c)
    ensures Do(b, p, c, st).subs == b.subs || CloneInv(Do(b, p, c, st), Move(b, p, c, st))
  {
    hide RecordsClone, CloneBase, PropertiesContain, Wanted, BaseOf, IdentityProperties, HasCompleteV2Identity;
  }

  // ----- Over sequential runs -----

  ghost predicate ClonesInv(s: State) {
    forall p :: p in s.calls ==> CloneInv(s.backend, s.calls[p])
  }

  lemma ActionKeepsClones(s: State, a: Action)
    requires SequentialInv(s) && Inv(s) && ClonesInv(s) && CanHappen(s, a)
    requires Sequential(s, a)
    ensures ClonesInv(Next(s, a))
  {
    hide Settled, Current, CallInv, Enabled, Do, Move;
    if a.Act? {
      var b, c := s.backend, s.calls[a.p];
      assert Current(b, c) && CallInv(b, a.p, c);
      EndedStays(b, a.p, c, a.step);
      StepKeepsCloneInv(b, a.p, c, a.step);
    }
    hide RecordsClone, CloneBase, Resolves;
  }

  lemma {:induction false} RunKeepsClones(cat: Catalogue, states: seq<State>, actions: seq<Action>, i: nat)
    requires IsSequentialRun(cat, states, actions) && i < |states|
    ensures ClonesInv(states[i])
  {
    if i > 0 {
      RunKeepsClones(cat, states, actions, i - 1);
      RunKeepsSequential(cat, states, actions, i - 1);
      StepOfRun(cat, states, actions, i - 1);
      hide IsSequentialRun, CanHappen, Next, Inv, TracedInv, SequentialInv, ClonesInv;
      ActionKeepsClones(states[i - 1], actions[i - 1]);
    }
  }

  /** After a clone has written its properties, the protocol's create finds them, accepts them as
      its own, and for a block volume passes the capacity check: neither step ever fails, over any
      run of calls one after another. */
  lemma CloneCapacityAgrees(cat: Catalogue, states: seq<State>, actions: seq<Action>, i: nat)
    requires IsSequentialRun(cat, states, actions) && i < |actions| && actions[i].Act?
    requires actions[i].p in states[i].calls && states[i].calls[actions[i].p].req.source != NoSource
    requires actions[i].step.Select? || (actions[i].step.List? && states[i].calls[actions[i].p].req.kind.IsBlock())
    ensures actions[i].p in states[i + 1].calls && !states[i + 1].calls[actions[i].p].pc.Failed?
    ensures actions[i].step.List? ==>
              var b, c := states[i].backend, states[i].calls[actions[i].p];
              c.pc.Listing? && ExistingCapacity(b, c, c.pc.local) == c.capacity
  {
    RunKeepsClones(cat, states, actions, i);
    StepOfRun(cat, states, actions, i);
    hide IsSequentialRun;
    var b, c, p, st := states[i].backend, states[i].calls[actions[i].p], actions[i].p, actions[i].step;
    assert CloneInv(b, c) && Enabled(b, p, c, st);
    if st.Select? { SelectKeepsCloneInv(b, p, c, st); } else { ListAccepts(b, p, c, st); }
    hide Do, Move, Enabled;
  }

  lemma ListAccepts(b: Backend, p: Pid, c: Call, st: Step)
    requires CloneInv(b, c) && Enabled(b, p, c, st) && st.List? && c.req.source != NoSource && c.req.kind.IsBlock()
    ensures !Move(b, p, c, st).pc.Failed? && ExistingCapacity(b, c, c.pc.local) == c.capacity
  {
    hide RecordsClone, CloneBase, BaseOf;
  }
}
