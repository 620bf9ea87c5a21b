/** Retrying a create, once its identity has committed. A retry of an interrupted create finishes it;
    a retry of a finished one only reads, and answers as before. */
module CreateRetry {
  import opened CreateIdentity
  import opened CreateOwnership
  import opened CreateSteps
  import opened VolumeIdentity
  import opened Wrappers

  /** The keys of a create's properties that are taken from the request as they are. */
  predicate FromRequest(k: Key) {
    k !in IDENTITY_KEYS && k != ManagedBy && k != CreatedAt && k != CapacityBytes
  }

  /** The properties are those of the request's volume. */
  ghost predicate Describes(p: Props, req: Request) {
    && Get(p, RequestName) == req.name && Get(p, Protocol) == req.protocol && Get(p, CreatedAt) != Empty
    && Get(p, CapacityBytes) == Number(req.capacity)
    && (forall k :: k in req.fixed && FromRequest(k) ==> Get(p, k) == req.fixed[k])
  }

  /** The volume of a source-less request is complete, under its current or its legacy name: owned
      by the request, with its properties and its presentation. */
  ghost predicate Finished(b: Backend, req: Request) {
    && req.source == NoSource && WellFormed(req)
    && var n := HomeIn(b, req);
       && Owned(b, n) && Describes(b.subs[n], req)
       && n in b.shares && b.shares[n] == req.capacity
  }

  /** Nothing that the adoption search could find may be adopted by this request. */
  ghost predicate NotAdoptable(b: Backend, req: Request) {
    forall n :: n in b.subs && Matches(req, b.subs[n]) ==> !MayAdopt(req, b.subs[n])
  }

  /** Properties that contain what the call wants written describe its request. */
  lemma ContainedDescribes(q: Props, c: Call, time: Text)
    requires c.pc.Persisting? && c.pc.base == BaseOf(c, time) && time != Empty && c.capacity == c.req.capacity
    requires IdentityFor(c.pc.identity, c.name)
    requires Get(c.pc.identity, RequestName) == c.req.name && Get(c.pc.identity, Protocol) == c.req.protocol
    requires PropertiesContain(q, Wanted(c.pc.local, c.pc.base, c.pc.identity))
    ensures Describes(q, c.req)
  {
    var w := Wanted(c.pc.local, c.pc.base, c.pc.identity);
    WantedOwns(q, c.pc.local, c.pc.base, c.pc.identity, c.name);
    assert RequestName in IDENTITY_KEYS && Protocol in IDENTITY_KEYS;
    assert CapacityBytes !in IDENTITY_KEYS && CreatedAt !in IDENTITY_KEYS;
    assert w[CreatedAt] != Empty && w[CapacityBytes] == Number(c.capacity);
    forall k | k in c.req.fixed && FromRequest(k) ensures Get(q, k) == c.req.fixed[k] {
      assert k in w && w[k] == c.req.fixed[k];
    }
  }

  /** A create that stores its properties, or finds them stored, and then exposes the subvolume
      leaves it finished. */
  lemma CreateFinishes(b: Backend, p: Pid, c: Call, time: Text)
    requires CallInv(b, p, c) && c.pc.Persisting? && c.pc.after == ThenExpose && Enabled(b, p, c, Persist)
    requires c.req.source == NoSource && c.capacity == c.req.capacity && c.name == HomeIn(b, c.req) && time != Empty
    requires c.pc.base == BaseOf(c, time)
    requires Get(c.pc.identity, RequestName) == c.req.name && Get(c.pc.identity, Protocol) == c.req.protocol
    requires c.name in b.subs
    requires PropertiesContain(c.pc.local, Wanted(c.pc.local, c.pc.base, c.pc.identity)) ==>
               c.pc.local == b.subs[c.name]
    ensures var b1, c1 := Do(b, p, c, Persist), Move(b, p, c, Persist);
            && Enabled(b1, p, c1, Expose)
            && Move(b1, p, c1, Expose).pc == Returned(c.req.capacity) && Move(b1, p, c1, Expose).name == c.name
            && Finished(Do(b1, p, c1, Expose), c.req)
            && HomeIn(Do(b1, p, c1, Expose), c.req) == c.name
  {
    hide HasCompleteV2Identity, PropertiesContain, Wanted, Describes, BaseOf, IdentityFor, Truthful, HomeIn, Owned;
    var b1, c1 := Do(b, p, c, Persist), Move(b, p, c, Persist);
    var b2 := Do(b1, p, c1, Expose);
    var w := Wanted(c.pc.local, c.pc.base, c.pc.identity);
    PersistOwns(b, p, c);
    if PropertiesContain(c.pc.local, w) {
      ContainedDescribes(b.subs[c.name], c, time);
    } else {
      MergeContains(b.subs[c.name], w);
      ContainedDescribes(b.subs[c.name] + w, c, time);
    }
    assert b2.subs == b1.subs && b1.subs.Keys == b.subs.Keys;
    HomeIsAboutData(b, b2, c.req);
    OwnedIsAboutData(b1, b2, c.name);
  }

  lemma OwnedIsAboutData(b: Backend, b': Backend, n: Name)
    requires b'.subs == b.subs
    ensures Owned(b', n) <==> Owned(b, n)
  {
  }

  // ----- A retry of a finished create reads -----

  /** Where a retry can be: never at a step that writes. */
  ghost predicate Retrying(b: Backend, c: Call, req: Request) {
    && c.req == req && c.capacity == req.capacity
    && var n := HomeIn(b, req);
       match c.pc
       case Searching => true
       case Selecting(legacyTurn) => legacyTurn ==> req.backendName !in b.subs
       case Listing(local, identity, adopting) =>
         && !adopting && c.name == n && n in b.subs && local == b.subs[n]
         && PropertiesContain(local, identity) && identity.Keys == IDENTITY_KEYS
       case Persisting(local, base, identity, created, after) =>
         && !created && c.name == n && after == ThenReturn(req.capacity)
         && PropertiesContain(local, Wanted(local, base, identity))
       case Returned(capacity) => c.name == n && capacity == req.capacity
       case Failed(aborted) => !aborted
       case _ => false
  }

  lemma NothingIsWanted(b: Backend, c: Call, time: Text, identity: Props)
    requires Finished(b, c.req) && c.name == HomeIn(b, c.req) && c.capacity == c.req.capacity
    requires PropertiesContain(b.subs[c.name], identity) && identity.Keys == IDENTITY_KEYS
    ensures PropertiesContain(b.subs[c.name], Wanted(b.subs[c.name], BaseOf(c, time), identity))
  {
    var p := b.subs[c.name];
    var w := Wanted(p, BaseOf(c, time), identity);
    forall k | k in w ensures Get(p, k) == w[k] {
      if FromRequest(k) {
        assert k in c.req.fixed && w[k] == c.req.fixed[k];
      }
    }
  }

  lemma DecisionNames(req: Request, n: Name, p: Props, uuid: Text)
    ensures var d := DecideExisting(req, n, p, uuid);
            d.Identity? ==> && d.properties.Keys == IDENTITY_KEYS
                            && Get(d.properties, RequestName) == req.name && Get(d.properties, Protocol) == req.protocol
  {
  }

  lemma SelectKeepsRetrying(b: Backend, p: Pid, c: Call, st: Step)
    requires Finished(b, c.req) && Retrying(b, c, c.req) && Enabled(b, p, c, st) && st.Select?
    ensures Retrying(b, Move(b, p, c, st), c.req)
  {
    hide HasCompleteV2Identity, DecideExisting, PropertiesContain, Wanted;
    var n := HomeIn(b, c.req);
    DecideExistingKeepsOwners(c.req, n, b.subs[n], st.uuid);
    DecisionNames(c.req, n, b.subs[n], st.uuid);
  }

  lemma ListKeepsRetrying(b: Backend, p: Pid, c: Call, st: Step)
    requires Finished(b, c.req) && Retrying(b, c, c.req) && Enabled(b, p, c, st) && st.List?
    ensures Retrying(b, Move(b, p, c, st), c.req) && Move(b, p, c, st).pc.Persisting?
  {
    hide HasCompleteV2Identity, Wanted, PropertiesContain, BaseOf;
    NothingIsWanted(b, c, st.time, c.pc.identity);
    assert ExistingCapacity(b, c, c.pc.local) == c.req.capacity;
  }

  /** No step of a retry writes anything, and it stays where it cannot. */
  lemma RetryStepReads(b: Backend, p: Pid, c: Call, st: Step)
    requires Finished(b, c.req) && NotAdoptable(b, c.req) && Retrying(b, c, c.req) && Enabled(b, p, c, st)
    ensures EffectOf(b, p, c, st) == Nothing
    ensures Retrying(b, Move(b, p, c, st), c.req)
  {
    hide HasCompleteV2Identity, Wanted, PropertiesContain, DecideExisting, BaseOf, Describes, Owned;
    match st
    case Select(_) => SelectKeepsRetrying(b, p, c, st);
    case List(_) => ListKeepsRetrying(b, p, c, st);
    case _ =>
  }

  /** Every identical retry of a finished source-less create that is not adoptable, wherever it
      fails, makes no mutating backend call; and a response gives the same volume and capacity. */
  lemma {:induction false} FinishedRetryOnlyReads(states: seq<State>, steps: seq<Step>, p: Pid, req: Request, i: nat)
    requires |states| == |steps| + 1 && i < |states|
    requires p in states[0].calls && states[0].calls[p] == Starts(req)
    requires Finished(states[0].backend, req) && NotAdoptable(states[0].backend, req)
    requires forall j :: 0 <= j < |steps| ==>
               CanHappen(states[j], Act(p, steps[j])) && states[j + 1] == Next(states[j], Act(p, steps[j]))
    ensures p in states[i].calls && Retrying(states[i].backend, states[i].calls[p], req)
    ensures Same(states[i].backend, states[0].backend)
    ensures i < |steps| ==>
              && Enabled(states[i].backend, p, states[i].calls[p], steps[i])
              && EffectOf(states[i].backend, p, states[i].calls[p], steps[i]) == Nothing
    ensures var c := states[i].calls[p];
            c.pc.Returned? ==> c.name == HomeIn(states[0].backend, req) && c.pc.capacity == req.capacity
  {
    hide Finished, NotAdoptable, Retrying, Enabled, Move, EffectOf, HomeIn;
    if i == 0 {
      StartRetries(states[0].backend, req);
    } else {
      FinishedRetryOnlyReads(states, steps, p, req, i - 1);
      assert states[i - 1 + 1] == Next(states[i - 1], Act(p, steps[i - 1]));
      var b, c := states[i - 1].backend, states[i - 1].calls[p];
      RetryingIsRequest(b, c, req);
      FinishedIsAboutData(states[0].backend, b, req);
      RetryStepReads(b, p, c, steps[i - 1]);
      FinishedIsAboutData(b, states[i].backend, req);
      RetryingIsAboutData(b, states[i].backend, states[i].calls[p], req);
    }
    RetryingIsRequest(states[i].backend, states[i].calls[p], req);
    HomeIsAboutData(states[0].backend, states[i].backend, req);
    if i < |steps| {
      assert CanHappen(states[i], Act(p, steps[i]));
      FinishedIsAboutData(states[0].backend, states[i].backend, req);
      RetryStepReads(states[i].backend, p, states[i].calls[p], steps[i]);
    }
  }

  /** The stored data is the same. */
  predicate Same(b: Backend, b': Backend) {
    b.subs == b'.subs && b.shares == b'.shares && b.snaps == b'.snaps && b.origins == b'.origins
  }

  lemma HomeIsAboutData(b: Backend, b': Backend, req: Request)
    requires b'.subs.Keys == b.subs.Keys
    ensures HomeIn(b', req) == HomeIn(b, req)
  {
  }

  lemma StartRetries(b: Backend, req: Request)
    requires Finished(b, req)
    ensures Retrying(b, Starts(req), req)
  {
  }

  lemma RetryingIsRequest(b: Backend, c: Call, req: Request)
    requires Retrying(b, c, req)
    ensures c.req == req && (c.pc.Returned? ==> c.name == HomeIn(b, req) && c.pc.capacity == req.capacity)
  {
  }

  lemma RetryingIsAboutData(b: Backend, b': Backend, c: Call, req: Request)
    requires Retrying(b, c, req) && b'.subs == b.subs
    ensures Retrying(b', c, req)
  {
  }

  lemma FinishedIsAboutData(b: Backend, b': Backend, req: Request)
    requires Finished(b, req) && NotAdoptable(b, req) && Same(b', b)
    ensures Finished(b', req) && NotAdoptable(b', req)
  {
    hide HasCompleteV2Identity;
  }

  // ----- Paths of one call -----

  /** The steps can be taken one after the other, from the one call and backend to the other. */
  ghost predicate Leads(b: Backend, p: Pid, c: Call, steps: seq<Step>, b': Backend, c': Call)
    decreases |steps|
  {
    if steps == [] then b == b' && c == c'
    else Enabled(b, p, c, steps[0]) && Leads(Do(b, p, c, steps[0]), p, Move(b, p, c, steps[0]), steps[1..], b', c')
  }

  lemma LeadsOnce(b: Backend, p: Pid, c: Call, st: Step)
    requires Enabled(b, p, c, st)
    ensures Leads(b, p, c, [st], Do(b, p, c, st), Move(b, p, c, st))
  {
    assert [st][1..] == [];
    hide Enabled, Do, Move;
  }

  lemma {:induction false} LeadsOn(b: Backend, p: Pid, c: Call, s1: seq<Step>, b1: Backend, c1: Call,
                                   s2: seq<Step>, b2: Backend, c2: Call)
    requires Leads(b, p, c, s1, b1, c1) && Leads(b1, p, c1, s2, b2, c2)
    ensures Leads(b, p, c, s1 + s2, b2, c2)
    decreases |s1|
  {
    hide Enabled, Do, Move;
    if s1 == [] {
      assert s1 + s2 == s2;
    } else {
      LeadsOn(Do(b, p, c, s1[0]), p, Move(b, p, c, s1[0]), s1[1..], b1, c1, s2, b2, c2);
      assert (s1 + s2)[1..] == s1[1..] + s2;
    }
  }

  /** The stored data is that of `b`, the call has the request's size, and it has this form. */
  ghost predicate At(b: Backend, b': Backend, c: Call, req: Request, pc: Pc) {
    Same(b', b) && b'.mutex == b.mutex && c.req == req && c.capacity == req.capacity && c.pc == pc
  }

  /** An owned volume of a request that asks for the recorded capacity. */
  ghost predicate Committed(b: Backend, req: Request) {
    && req.source == NoSource && WellFormed(req) && b.mutex.None?
    && var n := HomeIn(b, req);
       && Owned(b, n) && Get(b.subs[n], RequestName) == req.name && Get(b.subs[n], Protocol) == req.protocol
       && (req.kind.IsBlock() ==> Get(b.subs[n], CapacityBytes) == Number(req.capacity))
  }

  /** The lookups of an error-free retry: the current name, and the legacy one if that is absent. */
  function Lookups(b: Backend, req: Request, u: Text, v: Text): seq<Step> {
    if req.backendName in b.subs then [Select(u)] else [Select(u)] + [Select(v)]
  }

  predicate New(issued: map<Text, Name>, u: Text) { u != Empty && u !in issued }

  /** A search that finds nothing to adopt leads on to the lookups. */
  lemma SearchProceeds(b: Backend, p: Pid, req: Request, u: Text) returns (b1: Backend, c1: Call)
    requires req.source == NoSource && New(b.issued, u)
    ensures Leads(b, p, Starts(req), [Search(None, u)], b1, c1)
    ensures At(b, b1, c1, req, Selecting(false)) && b1.issued.Keys == b.issued.Keys + {u}
  {
    b1, c1 := Do(b, p, Starts(req), Search(None, u)), Move(b, p, Starts(req), Search(None, u));
    LeadsOnce(b, p, Starts(req), Search(None, u));
    hide Leads;
  }

  lemma CommittedIsThere(b: Backend, req: Request)
    requires Committed(b, req)
    ensures HomeIn(b, req) in b.subs && WellFormed(req)
  {
  }

  lemma LookupFinds(b: Backend, b': Backend, p: Pid, c: Call, req: Request, legacyTurn: bool, u: Text)
    requires Committed(b, req) && At(b, b', c, req, Selecting(legacyTurn)) && New(b'.issued, u)
    requires HomeIn(b, req) == if legacyTurn then req.legacyName else req.backendName
    ensures Enabled(b', p, c, Select(u))
    ensures var n := HomeIn(b, req);
            var d, b1, c1 := DecideExisting(req, n, b.subs[n], u), Do(b', p, c, Select(u)), Move(b', p, c, Select(u));
            && d.Identity? && PropertiesContain(b.subs[n], d.properties)
            && At(b, b1, c1, req, Listing(b.subs[n], d.properties, false)) && c1.name == n
            && b1.issued.Keys == b'.issued.Keys + {u}
  {
    var n := HomeIn(b, req);
    DecideExistingKeepsOwners(req, n, b.subs[n], u);
    hide HasCompleteV2Identity, DecideExisting, PropertiesContain;
  }

  lemma LookupSettles(b: Backend, b': Backend, p: Pid, c: Call, req: Request, legacyTurn: bool, u: Text)
    returns (b1: Backend, c1: Call, identity: Props)
    requires Committed(b, req) && At(b, b', c, req, Selecting(legacyTurn)) && New(b'.issued, u)
    requires HomeIn(b, req) == if legacyTurn then req.legacyName else req.backendName
    ensures Leads(b', p, c, [Select(u)], b1, c1)
    ensures var n := HomeIn(b, req);
            && n in b.subs && At(b, b1, c1, req, Listing(b.subs[n], identity, false)) && c1.name == n
            && PropertiesContain(b.subs[n], identity) && IdentityFor(identity, n)
            && Get(identity, RequestName) == req.name && Get(identity, Protocol) == req.protocol
            && b1.issued.Keys == b'.issued.Keys + {u}
  {
    CommittedIsThere(b, req);
    hide DecideExisting, PropertiesContain, IdentityFor, Leads, At, Committed, HomeIn, Enabled, Do, Move;
    var n := HomeIn(b, req);
    LookupFinds(b, b', p, c, req, legacyTurn, u);
    DecisionIsIdentity(req, n, b.subs[n], u);
    DecisionNames(req, n, b.subs[n], u);
    b1, c1 := Do(b', p, c, Select(u)), Move(b', p, c, Select(u));
    identity := DecideExisting(req, n, b.subs[n], u).properties;
    LeadsOnce(b', p, c, Select(u));
  }

  /** The lookups find the volume, and accept it with the identity that is stored. */
  lemma LookupsProceed(b: Backend, b': Backend, p: Pid, c: Call, req: Request, u: Text, v: Text)
    returns (b1: Backend, c1: Call, identity: Props)
    requires Committed(b, req) && At(b, b', c, req, Selecting(false))
    requires New(b'.issued, u) && New(b'.issued, v) && u != v
    ensures Leads(b', p, c, Lookups(b, req, u, v), b1, c1)
    ensures var n := HomeIn(b, req);
            && n in b.subs && At(b, b1, c1, req, Listing(b.subs[n], identity, false)) && c1.name == n
            && PropertiesContain(b.subs[n], identity) && IdentityFor(identity, n)
            && Get(identity, RequestName) == req.name && Get(identity, Protocol) == req.protocol
            && b1.issued.Keys <= b'.issued.Keys + {u, v}
  {
    CommittedIsThere(b, req);
    hide PropertiesContain, IdentityFor, Leads, At, Committed, Owned, WellFormed, Get;
    if req.backendName in b.subs {
      b1, c1, identity := LookupSettles(b, b', p, c, req, false, u);
    } else {
      var b0, c0 := LookupGoesFurther(b, b', p, c, req, u);
      b1, c1, identity := LookupSettles(b, b0, p, c0, req, true, v);
      LeadsOn(b', p, c, [Select(u)], b0, c0, [Select(v)], b1, c1);
    }
  }

  lemma LookupGoesFurther(b: Backend, b': Backend, p: Pid, c: Call, req: Request, u: Text)
    returns (b0: Backend, c0: Call)
    requires Committed(b, req) && At(b, b', c, req, Selecting(false)) && New(b'.issued, u) && req.backendName !in b.subs
    ensures Leads(b', p, c, [Select(u)], b0, c0) && At(b, b0, c0, req, Selecting(true))
    ensures HomeIn(b, req) == req.legacyName && b0.issued.Keys == b'.issued.Keys + {u}
  {
    b0, c0 := Do(b', p, c, Select(u)), Move(b', p, c, Select(u));
    LeadsOnce(b', p, c, Select(u));
    hide Leads, HasCompleteV2Identity;
  }

  // ----- The error-free retry of a finished create -----

  /** An error-free retry of a finished create: it finds the volume and its presentation. */
  function Rereads(b: Backend, req: Request, u1: Text, u2: Text, u3: Text, time: Text): seq<Step> {
    [Search(None, u1)] + Lookups(b, req, u2, u3) + [List(time)] + [Persist]
  }

  lemma FinishedIsCommitted(b: Backend, req: Request)
    requires Finished(b, req) && b.mutex.None?
    ensures Committed(b, req)
  {
    hide HasCompleteV2Identity;
  }

  lemma ListingAnswers(b: Backend, b': Backend, p: Pid, c: Call, req: Request, identity: Props, time: Text)
    returns (b1: Backend, c1: Call)
    requires Finished(b, req) && b.mutex.None? && c.name == HomeIn(b, req)
    requires At(b, b', c, req, Listing(b.subs[c.name], identity, false))
    requires PropertiesContain(b.subs[c.name], identity) && identity.Keys == IDENTITY_KEYS
    ensures Leads(b', p, c, [List(time)] + [Persist], b1, c1)
    ensures Same(b1, b) && c1.name == c.name && c1.pc == Returned(req.capacity)
  {
    hide HasCompleteV2Identity, Wanted, PropertiesContain, BaseOf, Leads, NotAdoptable;
    FinishedAndHome(b, b', req);
    ListKeepsRetrying(b', p, c, List(time));
    var b0, c0 := Do(b', p, c, List(time)), Move(b', p, c, List(time));
    LeadsOnce(b', p, c, List(time));
    LeadsOnce(b0, p, c0, Persist);
    b1, c1 := Do(b0, p, c0, Persist), Move(b0, p, c0, Persist);
    LeadsOn(b', p, c, [List(time)], b0, c0, [Persist], b1, c1);
  }

  lemma FinishedAndHome(b: Backend, b': Backend, req: Request)
    requires Finished(b, req) && Same(b', b)
    ensures Finished(b', req) && HomeIn(b', req) == HomeIn(b, req)
  {
    hide HasCompleteV2Identity;
  }

  /** An identical retry of a finished create that meets no errors succeeds: it writes nothing and
      responds with the same volume and the same capacity. */
  lemma FinishedRetrySucceeds(b: Backend, p: Pid, req: Request, u1: Text, u2: Text, u3: Text, time: Text)
    returns (b': Backend, c': Call)
    requires Finished(b, req) && b.mutex.None?
    requires New(b.issued, u1) && New(b.issued, u2) && New(b.issued, u3) && u1 != u2 && u1 != u3 && u2 != u3
    ensures Leads(b, p, Starts(req), Rereads(b, req, u1, u2, u3, time), b', c')
    ensures Same(b', b) && c'.name == HomeIn(b, req) && c'.pc == Returned(req.capacity)
  {
    hide Leads, At, Finished, Committed, HomeIn, PropertiesContain, IdentityFor, Lookups;
    FinishedIsCommitted(b, req);
    assert req.source == NoSource by { SourceLess(b, req); }
    var b1, c1 := SearchProceeds(b, p, req, u1);
    var b2, c2, identity := LookupsProceed(b, b1, p, c1, req, u2, u3);
    assert identity.Keys == IDENTITY_KEYS by { IdentityKeys(identity, HomeIn(b, req)); }
    b', c' := ListingAnswers(b, b2, p, c2, req, identity, time);
    LeadsOn(b1, p, c1, Lookups(b, req, u2, u3), b2, c2, [List(time)] + [Persist], b', c');
    var rest := Lookups(b, req, u2, u3) + ([List(time)] + [Persist]);
    LeadsOn(b, p, Starts(req), [Search(None, u1)], b1, c1, rest, b', c');
    assert [Search(None, u1)] + rest == Rereads(b, req, u1, u2, u3, time);
  }

  lemma SourceLess(b: Backend, req: Request)
    requires Finished(b, req)
    ensures req.source == NoSource
  {
  }

  lemma IdentityKeys(identity: Props, n: Name)
    requires IdentityFor(identity, n)
    ensures identity.Keys == IDENTITY_KEYS
  {
  }

  // ----- The error-free retry of an interrupted create -----

  /** The volume is owned and not presented. */
  ghost predicate Interrupted(b: Backend, req: Request) {
    Committed(b, req) && HomeIn(b, req) !in b.shares
  }

  /** The rest of an error-free retry, once the volume has been found. */
  function Rest(req: Request, u: Text, time: Text): seq<Step> {
    [List(time)] + (if req.kind.IsBlock() then [Acquire(u, time)] else []) + [Persist] + [Expose]
  }

  /** The steps of a retry that meets no errors. */
  function ErrorFree(b: Backend, req: Request, u1: Text, u2: Text, u3: Text, u4: Text, time: Text): seq<Step> {
    [Search(None, u1)] + Lookups(b, req, u2, u3) + Rest(req, u4, time)
  }

  /** The volume is not presented, so listing leads to the write, by way of a second look at block
      volumes. */
  lemma ListingProceeds(b: Backend, b': Backend, p: Pid, c: Call, req: Request, identity: Props, u: Text, time: Text)
    returns (b1: Backend, c1: Call, identity': Props)
    requires Interrupted(b, req) && c.name == HomeIn(b, req) && New(b'.issued, u)
    requires At(b, b', c, req, Listing(b.subs[c.name], identity, false)) && IdentityFor(identity, c.name)
    requires Get(identity, RequestName) == req.name && Get(identity, Protocol) == req.protocol
    ensures Leads(b', p, c, [List(time)] + (if req.kind.IsBlock() then [Acquire(u, time)] else []), b1, c1)
    ensures c1.name == c.name && IdentityFor(identity', c.name)
    ensures Get(identity', RequestName) == req.name && Get(identity', Protocol) == req.protocol
    ensures At(b, b1, c1, req, Persisting(b.subs[c.name], BaseOf(c1, time), identity', false, ThenExpose))
  {
    hide HasCompleteV2Identity, BaseOf, DecideExisting, Leads, IdentityFor, PropertiesContain;
    var n := c.name;
    var b0, c0 := Do(b', p, c, List(time)), Move(b', p, c, List(time));
    LeadsOnce(b', p, c, List(time));
    if req.kind.IsBlock() {
      assert At(b, b0, c0, req, Acquiring) && c0.name == n && b0.issued == b'.issued;
      DecideExistingKeepsOwners(req, n, b.subs[n], u);
      DecisionIsIdentity(req, n, b.subs[n], u);
      DecisionNames(req, n, b.subs[n], u);
      identity' := DecideExisting(req, n, b.subs[n], u).properties;
      b1, c1 := Do(b0, p, c0, Acquire(u, time)), Move(b0, p, c0, Acquire(u, time));
      SameBase(c0, c1, time);
      LeadsOnce(b0, p, c0, Acquire(u, time));
      LeadsOn(b', p, c, [List(time)], b0, c0, [Acquire(u, time)], b1, c1);
    } else {
      b1, c1, identity' := b0, c0, identity;
      SameBase(c, c1, time);
      assert [List(time)] + [] == [List(time)];
    }
  }

  lemma SameBase(c: Call, c': Call, time: Text)
    requires c'.req == c.req && c'.capacity == c.capacity
    ensures BaseOf(c', time) == BaseOf(c, time)
  {
  }

  /** The write and the exposure end the retry with the volume finished. */
  lemma WritingProceeds(b: Backend, b': Backend, p: Pid, c: Call, req: Request, identity: Props, time: Text)
    returns (b2: Backend, c2: Call)
    requires Interrupted(b, req) && time != Empty && c.name == HomeIn(b, req) && IdentityFor(identity, c.name)
    requires Get(identity, RequestName) == req.name && Get(identity, Protocol) == req.protocol
    requires At(b, b', c, req, Persisting(b.subs[c.name], BaseOf(c, time), identity, false, ThenExpose))
    ensures Leads(b', p, c, [Persist] + [Expose], b2, c2)
    ensures Finished(b2, req) && HomeIn(b2, req) == c.name == c2.name && c2.pc == Returned(req.capacity)
  {
    hide HasCompleteV2Identity, PropertiesContain, Wanted, Describes, BaseOf, IdentityFor, Finished, Leads;
    assert CallInv(b', p, c) && Enabled(b', p, c, Persist) && c.name == HomeIn(b', c.req) by { hide Apply, EffectOf; }
    CreateFinishes(b', p, c, time);
    hide Do, Move, Enabled, CallInv, At, Interrupted, Committed, HomeIn, Owned;
    var b1, c1 := Do(b', p, c, Persist), Move(b', p, c, Persist);
    b2, c2 := Do(b1, p, c1, Expose), Move(b1, p, c1, Expose);
    LeadsOnce(b', p, c, Persist);
    LeadsOnce(b1, p, c1, Expose);
    LeadsOn(b', p, c, [Persist], b1, c1, [Expose], b2, c2);
  }

  /** Once the identity has committed, creation converges: a retry that meets no errors presents
      the volume and leaves it finished. */
  lemma InterruptedRetryConverges(b: Backend, p: Pid, req: Request, u1: Text, u2: Text, u3: Text, u4: Text, time: Text)
    returns (b': Backend, c': Call)
    requires Interrupted(b, req) && time != Empty
    requires New(b.issued, u1) && New(b.issued, u2) && New(b.issued, u3) && New(b.issued, u4)
    requires u1 != u2 && u1 != u3 && u1 != u4 && u2 != u3 && u2 != u4 && u3 != u4
    ensures Leads(b, p, Starts(req), ErrorFree(b, req, u1, u2, u3, u4, time), b', c')
    ensures Finished(b', req) && HomeIn(b', req) == HomeIn(b, req) == c'.name && c'.pc == Returned(req.capacity)
  {
    hide Leads, At, Finished, HomeIn, PropertiesContain, IdentityFor, Lookups, BaseOf, Owned;
    var b1, c1 := SearchProceeds(b, p, req, u1);
    var b2, c2, identity := LookupsProceed(b, b1, p, c1, req, u2, u3);
    var b3, c3, identity' := ListingProceeds(b, b2, p, c2, req, identity, u4, time);
    b', c' := WritingProceeds(b, b3, p, c3, req, identity', time);
    var listing := [List(time)] + (if req.kind.IsBlock() then [Acquire(u4, time)] else []);
    LeadsOn(b2, p, c2, listing, b3, c3, [Persist] + [Expose], b', c');
    assert listing + ([Persist] + [Expose]) == Rest(req, u4, time);
    LeadsOn(b1, p, c1, Lookups(b, req, u2, u3), b2, c2, Rest(req, u4, time), b', c');
    LeadsOn(b, p, Starts(req), [Search(None, u1)], b1, c1, Lookups(b, req, u2, u3) + Rest(req, u4, time), b', c');
    assert [Search(None, u1)] + (Lookups(b, req, u2, u3) + Rest(req, u4, time))
        == ErrorFree(b, req, u1, u2, u3, u4, time);
  }
}
