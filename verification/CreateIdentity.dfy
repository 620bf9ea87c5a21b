/** UUIDs over every interleaving of CreateVolume calls: the identity of a subvolume is its own.
    A clone starts with a copy of its source's identity, so this is a claim about what becomes of
    such copies. */
module CreateIdentity {
  import opened CreateOwnership
  import opened CreateSteps
  import opened VolumeIdentity
  import opened Wrappers

  /** The requests of a run by name, and where the volume of each lives. A retry repeats its
      request. */
  datatype Catalogue = Catalogue(requests: map<Text, Request>, homes: map<Text, Name>)

  /** Different volumes have different request names, and the current name of one is no name of
      another. Legacy names may be shared. */
  ghost predicate Distinct(cat: Catalogue) {
    && cat.homes.Keys == cat.requests.Keys
    && (forall r :: r in cat.requests ==> cat.requests[r].name == r && cat.homes[r] in NamesOf(cat.requests[r]))
    && (forall r, q :: r in cat.requests && q in cat.requests && r != q ==>
          cat.requests[r].backendName !in NamesOf(cat.requests[q]))
  }

  /** A volume that was there before under its legacy name, and not under the current one, stays
      under the legacy name; every other lives under the current one. */
  function HomeIn(b: Backend, req: Request): Name {
    if req.legacyName in b.subs && req.backendName !in b.subs then req.legacyName else req.backendName
  }

  predicate Catalogued(cat: Catalogue, req: Request) {
    req.name in cat.requests && cat.requests[req.name] == req && req.name in cat.homes
  }

  /** Some part of a v2 identity is there. */
  predicate Claims(p: Props) {
    Get(p, VolumeUUID) != Empty || Get(p, RequestName) != Empty || Get(p, IdentityVersion) != Empty
  }

  /** The call takes the found subvolume over, although it is not where its request would create. */
  predicate Adopts(b: Backend, p: Pid, c: Call, st: Step) {
    st.Search? && st.found.Some? && Enabled(b, p, c, st) && Move(b, p, c, st).pc.Listing?
  }

  /** The recorded name of an adopted subvolume, if it has an identity, is its own. The driver
      does not check this. */
  predicate AdoptsOnlyOwn(s: State, a: Action) {
    a.Act? && a.p in s.calls && Adopts(s.backend, a.p, s.calls[a.p], a.step) ==>
      var n := a.step.found.value;
      Claims(s.backend.subs[n]) ==> Get(s.backend.subs[n], CSIVolumeName) == n
  }

  /** After its volume was deleted, a request is repeated only if its lookup would still come to
      the same name. Before that it may always be repeated. */
  predicate MayBegin(cat: Catalogue, b: Backend, req: Request) {
    && Catalogued(cat, req)
    && (cat.homes[req.name] in b.deleted ==> HomeSettled(b, req, cat.homes[req.name]))
  }

  ghost predicate Orderly(cat: Catalogue, s: State, a: Action) {
    && (a.Begin? ==> MayBegin(cat, s.backend, a.req))
    && AdoptsOnlyOwn(s, a)
  }

  /** Runs of catalogued requests, from any backend whose identities are traced: an empty one, one
      without v2 identities, or one that such a run has left behind. */
  ghost predicate IsOrderlyRun(cat: Catalogue, states: seq<State>, actions: seq<Action>) {
    && IsRun(states, actions) && Distinct(cat) && BackendTraced(cat, states[0].backend)
    && HomesFound(cat, states[0].backend)
    && forall i :: 0 <= i < |actions| ==> Orderly(cat, states[i], actions[i])
  }

  ghost predicate HomesFound(cat: Catalogue, b: Backend) {
    forall r :: r in cat.requests && r in cat.homes ==> cat.homes[r] == HomeIn(b, cat.requests[r])
  }

  // ----- The invariant -----

  /** An identity is whole and its UUID was issued for the name it records; one that a clone
      request wrote records the name where that clone lives. */
  predicate Traced(issued: map<Text, Name>, cat: Catalogue, p: Props) {
    Claims(p) ==>
      && Get(p, ManagedBy) == ManagedByNasty && Get(p, IdentityVersion) == Version2
      && Get(p, VolumeUUID) != Empty && Get(p, VolumeUUID) in issued
      && issued[Get(p, VolumeUUID)] == Get(p, CSIVolumeName)
      && Get(p, RequestName) in cat.requests && Get(p, RequestName) in cat.homes
      && (cat.requests[Get(p, RequestName)].source != NoSource ==>
            Get(p, CSIVolumeName) == cat.homes[Get(p, RequestName)])
  }

  /** Clones are made at `n`. */
  ghost predicate CloneHome(cat: Catalogue, n: Name) {
    exists r :: r in cat.requests && cat.requests[r].source != NoSource && cat.requests[r].backendName == n
  }

  /** Only where clones are made can there be an identity that names another subvolume. */
  ghost predicate Located(cat: Catalogue, n: Name, p: Props) {
    Claims(p) && Get(p, CSIVolumeName) != n ==> CloneHome(cat, n)
  }

  predicate IdentityTraced(issued: map<Text, Name>, cat: Catalogue, identity: Props, n: Name) {
    && IdentityFor(identity, n)
    && identity[VolumeUUID] in issued && issued[identity[VolumeUUID]] == n
    && identity[RequestName] in cat.requests && identity[RequestName] in cat.homes
    && (cat.requests[identity[RequestName]].source != NoSource ==> cat.homes[identity[RequestName]] == n)
  }

  /** The subvolume was there from the start, so no rollback can remove it. */
  predicate Rooted(b: Backend, n: Name) { n in b.subs && n !in b.makers }

  /** Looking a request's volume up under the current and then the legacy name finds its home. */
  predicate HomeSettled(b: Backend, req: Request, home: Name) {
    || req.backendName == req.legacyName
    || (home == req.legacyName && Rooted(b, req.legacyName) && req.backendName !in b.subs)
    || (home == req.backendName && (req.legacyName !in b.subs || Rooted(b, req.backendName)))
  }

  ghost predicate HomesSettled(cat: Catalogue, b: Backend) {
    forall r :: r in cat.requests && r in cat.homes ==>
      cat.homes[r] in b.deleted || HomeSettled(b, cat.requests[r], cat.homes[r])
  }

  /** A call under way finds its volume at home. */
  predicate Housed(cat: Catalogue, b: Backend, c: Call) {
    c.pc.Done() || (c.req.name in cat.homes && HomeSettled(b, c.req, cat.homes[c.req.name]))
  }

  ghost predicate BackendTraced(cat: Catalogue, b: Backend) {
    && (forall n :: n in b.subs ==> Traced(b.issued, cat, b.subs[n]) && Located(cat, n, b.subs[n]))
    && (forall id :: id in b.snaps ==> Traced(b.issued, cat, b.snaps[id].props))
  }

  /** The lookup goes on to the legacy name: the current one was not there from the start. */
  predicate LooksFurther(b: Backend, req: Request, legacyTurn: bool) {
    legacyTurn ==> req.backendName != req.legacyName && !Rooted(b, req.backendName)
  }

  predicate CallTraced(b: Backend, cat: Catalogue, c: Call) {
    && Catalogued(cat, c.req) && WellFormed(c.req)
    && var home := cat.homes[c.req.name];
       match c.pc
       case Searching => c.req.source == NoSource
       case Selecting(legacyTurn) => LooksFurther(b, c.req, legacyTurn)
       case Listing(_, identity, adopting) =>
         IdentityTraced(b.issued, cat, identity, c.name) && (!adopting ==> c.name == home)
       case Persisting(_, _, identity, _, _) => IdentityTraced(b.issued, cat, identity, c.name)
       case Acquiring => c.name == home
       case Creating => c.name == home
       case ReadingSource => c.req.source != NoSource
       case Choosing(_, _, legacyTurn) => c.req.source != NoSource && LooksFurther(b, c.req, legacyTurn)
       case Cloning(facts) => AtHome(cat, c, facts)
       case Rereading(facts) => AtHome(cat, c, facts)
       case _ => true
  }

  /** A clone attempt has settled on its home. */
  predicate AtHome(cat: Catalogue, c: Call, facts: CloneFacts)
    requires c.req.name in cat.homes
  {
    && c.req.source != NoSource && c.name == cat.homes[c.req.name]
    && (facts.legacy ==> c.name == c.req.legacyName && c.name != c.req.backendName)
  }

  ghost predicate TracedInv(cat: Catalogue, s: State) {
    && BackendTraced(cat, s.backend) && HomesSettled(cat, s.backend)
    && (forall p :: p in s.calls ==> CallTraced(s.backend, cat, s.calls[p]))
    && (forall p :: p in s.calls ==> Housed(cat, s.backend, s.calls[p]))
  }

  // ----- Time brings more issued UUIDs and no new roots -----

  predicate Grows(issued: map<Text, Name>, issued': map<Text, Name>) {
    forall u :: u in issued ==> u in issued' && issued'[u] == issued[u]
  }

  ghost predicate Later(b: Backend, b': Backend) {
    Grows(b.issued, b'.issued) && forall n :: Rooted(b', n) ==> Rooted(b, n)
  }

  lemma StepIsLater(b: Backend, p: Pid, c: Call, st: Step)
    requires Enabled(b, p, c, st)
    ensures Later(b, Do(b, p, c, st))
  {
    hide Move, Wanted, PropertiesContain;
  }

  lemma CallStaysTraced(b: Backend, b': Backend, cat: Catalogue, c: Call)
    requires CallTraced(b, cat, c) && Later(b, b')
    ensures CallTraced(b', cat, c)
  {
    hide IdentityFor, Rooted;
  }

  // ----- Where a call settles -----

  /** Whatever the lookup finds is the request's home, and if it finds nothing, the home is the
      current name. */
  lemma LookupFindsHome(cat: Catalogue, b: Backend, req: Request, legacyTurn: bool)
    requires Distinct(cat) && Catalogued(cat, req) && HomeSettled(b, req, cat.homes[req.name])
    requires LooksFurther(b, req, legacyTurn)
    ensures var n, home := if legacyTurn then req.legacyName else req.backendName, cat.homes[req.name];
            && (n in b.subs ==> n == home)
            && (n !in b.subs && n == req.legacyName ==> home == req.backendName)
            && (n !in b.subs && n != req.legacyName ==> LooksFurther(b, req, true))
  {
    assert cat.homes[req.name] in NamesOf(req);
  }

  // ----- The identities a call decides on -----

  lemma HomeIsOwn(cat: Catalogue, req: Request, n: Name)
    requires Distinct(cat) && Catalogued(cat, req) && CloneHome(cat, n) && n in NamesOf(req)
    ensures req.source != NoSource && req.backendName == n
  {
    var r :| r in cat.requests && cat.requests[r].source != NoSource && cat.requests[r].backendName == n;
    assert cat.requests[req.name] == req;
  }

  /** The identity that is kept, with a UUID drawn in case there is none. */
  lemma KeptIsTraced(cat: Catalogue, issued: map<Text, Name>, req: Request, n: Name, p: Props, uuid: Text)
    requires Traced(issued, cat, p) && (Claims(p) ==> Get(p, CSIVolumeName) == n)
    requires Catalogued(cat, req) && WellFormed(req) && (req.source != NoSource ==> n == cat.homes[req.name])
    requires uuid != Empty && uuid !in issued
    ensures IdentityTraced(issued[uuid := n], cat, IdentityProperties(p, req.name, n, req.protocol, uuid), n)
  {
    DecisionIsIdentity(req, n, p, uuid);
    hide DecideExisting;
  }

  lemma NewIsTraced(cat: Catalogue, issued: map<Text, Name>, req: Request, uuid: Text)
    requires Catalogued(cat, req) && WellFormed(req) && uuid != Empty && uuid !in issued
    ensures var n := cat.homes[req.name];
            IdentityTraced(issued[uuid := n], cat, IdentityProperties(map[], req.name, n, req.protocol, uuid), n)
  {
    DecisionIsIdentity(req, cat.homes[req.name], map[], uuid);
  }

  /** An identity at a request's home that names the request, or that no clone can have left there,
      is the subvolume's own. */
  lemma OwnAtHome(cat: Catalogue, req: Request, issued: map<Text, Name>, p: Props)
    requires Catalogued(cat, req) && Traced(issued, cat, p) && Located(cat, cat.homes[req.name], p)
    requires (req.source != NoSource && Get(p, RequestName) == req.name) || !CloneHome(cat, cat.homes[req.name])
    ensures Claims(p) ==> Get(p, CSIVolumeName) == cat.homes[req.name]
  {
    hide CloneHome;
  }

  /** An accepted identity is either new or already the subvolume's own. */
  lemma DecisionIsTraced(cat: Catalogue, b: Backend, req: Request, uuid: Text)
    requires BackendTraced(cat, b) && Distinct(cat) && Catalogued(cat, req) && WellFormed(req)
    requires cat.homes[req.name] in b.subs && uuid != Empty && uuid !in b.issued
    ensures var n := cat.homes[req.name];
            var d := DecideExisting(req, n, b.subs[n], uuid);
            d.Identity? ==> IdentityTraced(b.issued[uuid := n], cat, d.properties, n)
  {
    var n := cat.homes[req.name];
    var p := b.subs[n];
    assert Traced(b.issued, cat, p) && Located(cat, n, p) && n in NamesOf(cat.requests[req.name]);
    hide BackendTraced, Located, IdentityTraced, CloneHome, IdentityProperties, LegacyPVCIdentityMatches;
    if DecideExisting(req, n, p, uuid).Identity? {
      DecisionKeepsIdentity(req, n, p, uuid);
      if CloneHome(cat, n) { HomeIsOwn(cat, req, n); }
      if Claims(p) { OwnAtHome(cat, req, b.issued, p); }
      KeptIsTraced(cat, b.issued, req, n, p, uuid);
    }
    hide *;
  }

  /** What is accepted keeps its identity, which is the request's if it is complete. */
  lemma DecisionKeepsIdentity(req: Request, n: Name, p: Props, uuid: Text)
    requires DecideExisting(req, n, p, uuid).Identity?
    ensures DecideExisting(req, n, p, uuid) == Identity(IdentityProperties(p, req.name, n, req.protocol, uuid))
    ensures Get(p, ManagedBy) == ManagedByNasty && Get(p, IdentityVersion) == Version2 ==>
              Get(p, RequestName) == req.name
  {
    hide IdentityProperties, LegacyPVCIdentityMatches;
  }

  /** A clone's destination gets a new identity if it was made or carries a copied one, or keeps the
      one it has if that is the request's or the destination was chosen under its legacy name. */
  lemma ClassificationIsNewOrKept(req: Request, n: Name, p: Props, facts: CloneFacts, uuid: Text)
    requires req.source != NoSource && ClassifyClone(req, n, p, facts, uuid).Identity?
    ensures var d := ClassifyClone(req, n, p, facts, uuid).properties;
            || (&& d == IdentityProperties(map[], req.name, n, req.protocol, uuid)
                && (facts.created || !facts.existed || CarriesCopy(req, p, facts)))
            || (&& d == IdentityProperties(p, req.name, n, req.protocol, uuid)
                && (Get(p, RequestName) == req.name || facts.legacy))
  {
    hide IdentityProperties, CarriesCopy, LegacyPVCIdentityMatches;
  }

  /** So is the identity a clone's destination gets. */
  lemma ClassificationIsTraced(cat: Catalogue, b: Backend, c: Call, uuid: Text)
    requires BackendTraced(cat, b) && Distinct(cat) && CallTraced(b, cat, c) && c.pc.Rereading? && c.name in b.subs
    requires uuid != Empty && uuid !in b.issued
    ensures var d := ClassifyClone(c.req, c.name, b.subs[c.name], c.pc.facts, uuid);
            d.Identity? ==> IdentityTraced(b.issued[uuid := c.name], cat, d.properties, c.name)
  {
    var req, n, p := c.req, c.name, b.subs[c.name];
    assert Traced(b.issued, cat, p) && Located(cat, n, p);
    assert n == cat.homes[req.name] && n in NamesOf(cat.requests[req.name]);
    hide BackendTraced, Traced, Located, IdentityTraced, CloneHome, ClassifyClone, IdentityProperties, Claims;
    var d := ClassifyClone(req, n, p, c.pc.facts, uuid);
    if d.Identity? {
      ClassificationIsNewOrKept(req, n, p, c.pc.facts, uuid);
      if d.properties == IdentityProperties(map[], req.name, n, req.protocol, uuid) {
        NewIsTraced(cat, b.issued, req, uuid);
      } else {
        if CloneHome(cat, n) { HomeIsOwn(cat, req, n); }
        OwnAtHome(cat, req, b.issued, p);
        KeptIsTraced(cat, b.issued, req, n, p, uuid);
      }
    }
    hide *;
  }

  // ----- Each step of a call -----

  lemma SearchKeepsTraced(cat: Catalogue, b: Backend, p: Pid, c: Call, st: Step)
    requires BackendTraced(cat, b) && CallTraced(b, cat, c) && Enabled(b, p, c, st) && st.Search?
    requires Adopts(b, p, c, st) && Claims(b.subs[st.found.value]) ==>
               Get(b.subs[st.found.value], CSIVolumeName) == st.found.value
    ensures CallTraced(Do(b, p, c, st), cat, Move(b, p, c, st))
  {
    hide IdentityTraced, IdentityProperties, Matches, Traced, Claims;
    if Adopts(b, p, c, st) { KeptIsTraced(cat, b.issued, c.req, st.found.value, b.subs[st.found.value], st.uuid); }
  }

  lemma SelectKeepsTraced(cat: Catalogue, b: Backend, p: Pid, c: Call, st: Step)
    requires BackendTraced(cat, b) && Housed(cat, b, c) && Distinct(cat) && CallTraced(b, cat, c)
    requires Enabled(b, p, c, st) && st.Select?
    ensures CallTraced(Do(b, p, c, st), cat, Move(b, p, c, st))
  {
    hide IdentityTraced, DecideExisting, Distinct, BackendTraced;
    LookupFindsHome(cat, b, c.req, c.pc.legacyTurn);
    var home := cat.homes[c.req.name];
    if home in b.subs { DecisionIsTraced(cat, b, c.req, st.uuid); }
  }

  lemma DrawKeepsTraced(cat: Catalogue, b: Backend, p: Pid, c: Call, st: Step)
    requires BackendTraced(cat, b) && Distinct(cat) && CallTraced(b, cat, c)
    requires Enabled(b, p, c, st) && (st.Acquire? || st.Create? || st.Reread?)
    ensures CallTraced(Do(b, p, c, st), cat, Move(b, p, c, st))
  {
    hide IdentityTraced, IdentityProperties, DecideExisting, ClassifyClone, BaseOf, CloneBase, Traced, Claims, Rooted;
    hide Distinct, BackendTraced;
    match st
    case Acquire(uuid, _) => if c.name in b.subs { DecisionIsTraced(cat, b, c.req, uuid); }
    case Create(uuid, _) =>
      if c.name in b.subs { DecisionIsTraced(cat, b, c.req, uuid); } else { NewIsTraced(cat, b.issued, c.req, uuid); }
    case Reread(uuid, _, _) => if c.name in b.subs { ClassificationIsTraced(cat, b, c, uuid); }
  }

  lemma ChooseKeepsTraced(cat: Catalogue, b: Backend, p: Pid, c: Call)
    requires Housed(cat, b, c) && Distinct(cat) && CallTraced(b, cat, c) && Enabled(b, p, c, Choose)
    ensures CallTraced(Do(b, p, c, Choose), cat, Move(b, p, c, Choose))
  {
    hide IdentityTraced, Distinct, LegacyPVCIdentityMatches;
    LookupFindsHome(cat, b, c.req, c.pc.legacyTurn);
  }

  lemma OtherStepKeepsTraced(cat: Catalogue, b: Backend, p: Pid, c: Call, st: Step)
    requires CallTraced(b, cat, c) && Enabled(b, p, c, st) && Draws(st).None? && !st.Choose?
    ensures CallTraced(Do(b, p, c, st), cat, Move(b, p, c, st))
  {
    hide IdentityTraced, Wanted, PropertiesContain, ExistingCapacity, HasCompleteV2Identity, BaseOf, SourceAvailable,
         Rooted;
    StepIsLater(b, p, c, st);
    assert Do(b, p, c, st).issued == b.issued;
    hide EffectOf, Apply;
  }

  lemma StepKeepsCallTraced(cat: Catalogue, b: Backend, p: Pid, c: Call, st: Step)
    requires BackendTraced(cat, b) && Housed(cat, b, c) && Distinct(cat) && CallTraced(b, cat, c)
    requires Enabled(b, p, c, st)
    requires Adopts(b, p, c, st) && Claims(b.subs[st.found.value]) ==>
               Get(b.subs[st.found.value], CSIVolumeName) == st.found.value
    ensures CallTraced(Do(b, p, c, st), cat, Move(b, p, c, st))
  {
    hide BackendTraced, Housed, Distinct, CallTraced, Enabled, Adopts, Do, Move;
    if st.Search? {
      SearchKeepsTraced(cat, b, p, c, st);
    } else if st.Select? {
      SelectKeepsTraced(cat, b, p, c, st);
    } else if st.Acquire? || st.Create? || st.Reread? {
      DrawKeepsTraced(cat, b, p, c, st);
    } else if st.Choose? {
      ChooseKeepsTraced(cat, b, p, c);
    } else {
      OtherStepKeepsTraced(cat, b, p, c, st);
    }
  }

  // ----- What is stored -----

  lemma WantedIsTraced(issued: map<Text, Name>, cat: Catalogue, stored: Props, local: Props, base: Props,
                       identity: Props, n: Name)
    requires IdentityTraced(issued, cat, identity, n)
    ensures Traced(issued, cat, stored + Wanted(local, base, identity)) &&
            Located(cat, n, stored + Wanted(local, base, identity))
  {
    var w := Wanted(local, base, identity);
    MergeContains(stored, w);
    WantedOwns(stored + w, local, base, identity, n);
  }

  lemma CapacityIsNoClaim(issued: map<Text, Name>, cat: Catalogue, n: Name, p: Props, capacity: nat)
    requires Traced(issued, cat, p) && Located(cat, n, p)
    ensures Traced(issued, cat, p + map[CapacityBytes := Number(capacity)]) &&
            Located(cat, n, p + map[CapacityBytes := Number(capacity)])
  {
    forall k | k != CapacityBytes ensures Get(p + map[CapacityBytes := Number(capacity)], k) == Get(p, k) {}
  }

  /** What an effect may store. */
  ghost predicate EffectTraced(cat: Catalogue, b: Backend, e: Effect) {
    match e
    case Makes(n, props, _) => Traced(b.issued, cat, props) && Located(cat, n, props)
    case Merges(n, props) =>
      n in b.subs ==> Traced(b.issued, cat, b.subs[n] + props) && Located(cat, n, b.subs[n] + props)
    case _ => true
  }

  lemma SubStaysTraced(cat: Catalogue, b: Backend, p: Pid, e: Effect, n: Name)
    requires BackendTraced(cat, b) && EffectTraced(cat, b, e) && n in Apply(b, p, e).subs
    ensures Traced(b.issued, cat, Apply(b, p, e).subs[n]) && Located(cat, n, Apply(b, p, e).subs[n])
  {
    hide Traced, Located;
  }

  lemma SnapStaysTraced(cat: Catalogue, b: Backend, p: Pid, e: Effect, id: Text)
    requires BackendTraced(cat, b) && EffectTraced(cat, b, e) && id in Apply(b, p, e).snaps
    ensures Traced(b.issued, cat, Apply(b, p, e).snaps[id].props)
  {
    hide Traced, Located;
  }

  lemma TracedGrows(issued: map<Text, Name>, issued': map<Text, Name>, cat: Catalogue, p: Props)
    requires Traced(issued, cat, p) && Grows(issued, issued')
    ensures Traced(issued', cat, p)
  {
  }

  lemma EffectKeepsTraced(cat: Catalogue, b: Backend, p: Pid, e: Effect, b': Backend)
    requires BackendTraced(cat, b) && EffectTraced(cat, b, e) && Grows(b.issued, b'.issued)
    requires b' == Apply(b, p, e).(mutex := b'.mutex, issued := b'.issued)
    ensures BackendTraced(cat, b')
  {
    hide Located, Traced, Apply, EffectTraced, Grows;
    forall n | n in b'.subs ensures Traced(b'.issued, cat, b'.subs[n]) && Located(cat, n, b'.subs[n]) {
      SubStaysTraced(cat, b, p, e, n);
      TracedGrows(b.issued, b'.issued, cat, b'.subs[n]);
    }
    forall id | id in b'.snaps ensures Traced(b'.issued, cat, b'.snaps[id].props) {
      SnapStaysTraced(cat, b, p, e, id);
      TracedGrows(b.issued, b'.issued, cat, b'.snaps[id].props);
    }
  }

  lemma StepEffectIsTraced(cat: Catalogue, b: Backend, p: Pid, c: Call, st: Step)
    requires BackendTraced(cat, b) && Housed(cat, b, c) && Distinct(cat) && CallTraced(b, cat, c)
    requires Enabled(b, p, c, st)
    ensures EffectTraced(cat, b, EffectOf(b, p, c, st))
  {
    hide Wanted, PropertiesContain, IdentityTraced, Traced, Located, BackendTraced, Housed, Distinct;
    var e := EffectOf(b, p, c, st);
    if e.Merges? && c.name in b.subs {
      WantedIsTraced(b.issued, cat, b.subs[c.name], c.pc.local, c.pc.base, c.pc.identity, c.name);
    } else if e.Makes? {
      if st.Create? || st.CreateErrs? { EmptyIsTraced(b.issued, cat, c.name); } else { CopyIsTraced(cat, b, c); }
    }
  }

  lemma EmptyIsTraced(issued: map<Text, Name>, cat: Catalogue, n: Name)
    ensures Traced(issued, cat, map[]) && Located(cat, n, map[])
  {
  }

  /** What is made is made under the current name. */
  lemma MadeUnderCurrentName(cat: Catalogue, b: Backend, req: Request)
    requires Distinct(cat) && Catalogued(cat, req) && HomeSettled(b, req, cat.homes[req.name])
    requires cat.homes[req.name] !in b.subs
    ensures cat.homes[req.name] == req.backendName
  {
    assert cat.homes[req.name] in NamesOf(cat.requests[req.name]);
  }

  lemma CopyIsTraced(cat: Catalogue, b: Backend, c: Call)
    requires BackendTraced(cat, b) && Housed(cat, b, c) && Distinct(cat) && CallTraced(b, cat, c)
    requires c.pc.Cloning? && SourceAvailable(b, c.req.source) && c.name !in b.subs
    ensures Traced(b.issued, cat, SourceCopy(b, c.req.source)) && Located(cat, c.name, SourceCopy(b, c.req.source))
  {
    hide Traced, Claims;
    MadeUnderCurrentName(cat, b, c.req);
    assert cat.requests[c.req.name].backendName == c.name;
  }

  // ----- Homes stay -----

  /** Effects that cannot upset where requests find their volumes. */
  ghost predicate Homely(cat: Catalogue, b: Backend, p: Pid, req: Request, e: Effect) {
    match e
    case Makes(n, _, _) => n !in b.subs && req.name in cat.homes && n == cat.homes[req.name]
    case Removes(n) => n in b.makers
    case _ => true
  }

  lemma StepIsHomely(cat: Catalogue, b: Backend, p: Pid, c: Call, st: Step)
    requires CallTraced(b, cat, c) && CallInv(b, p, c) && Enabled(b, p, c, st)
    ensures Homely(cat, b, p, c.req, EffectOf(b, p, c, st))
  {
    hide IdentityTraced, Wanted, PropertiesContain, HasCompleteV2Identity, IdentityFor;
  }

  lemma HomeStays(cat: Catalogue, b: Backend, p: Pid, req: Request, e: Effect, r: Text)
    requires Distinct(cat) && Catalogued(cat, req) && HomeSettled(b, req, cat.homes[req.name])
    requires Homely(cat, b, p, req, e)
    requires r in cat.requests && r in cat.homes && HomeSettled(b, cat.requests[r], cat.homes[r])
    ensures HomeSettled(Apply(b, p, e), cat.requests[r], cat.homes[r])
  {
    if e.Makes? {
      MadeUnderCurrentName(cat, b, req);
      assert r != req.name ==> cat.requests[req.name].backendName !in NamesOf(cat.requests[r]);
    }
  }

  lemma HomesStay(cat: Catalogue, b: Backend, p: Pid, c: Call, st: Step)
    requires Housed(cat, b, c) && Distinct(cat) && CallTraced(b, cat, c) && CallInv(b, p, c) && Enabled(b, p, c, st)
    ensures var b' := Do(b, p, c, st);
            && b'.deleted == b.deleted
            && forall r :: r in cat.requests && r in cat.homes && HomeSettled(b, cat.requests[r], cat.homes[r]) ==>
                 HomeSettled(b', cat.requests[r], cat.homes[r])
  {
    StepIsHomely(cat, b, p, c, st);
    var e, b' := EffectOf(b, p, c, st), Do(b, p, c, st);
    StepDeletesNothing(b, p, c, st);
    assert Catalogued(cat, c.req) && HomeSettled(b, c.req, cat.homes[c.req.name]);
    hide Distinct, Enabled, EffectOf, Apply, CallInv, CallTraced, Homely, Do, HomeSettled;
    forall r | r in cat.requests && r in cat.homes && HomeSettled(b, cat.requests[r], cat.homes[r])
      ensures HomeSettled(b', cat.requests[r], cat.homes[r])
    {
      HomeStays(cat, b, p, c.req, e, r);
      SameHome(Apply(b, p, e), b', cat.requests[r], cat.homes[r]);
    }
  }

  lemma StepDeletesNothing(b: Backend, p: Pid, c: Call, st: Step)
    requires Enabled(b, p, c, st)
    ensures var b', b0 := Do(b, p, c, st), Apply(b, p, EffectOf(b, p, c, st));
            b'.subs == b0.subs && b'.makers == b0.makers && b'.deleted == b.deleted
    ensures !c.pc.Done()
  {
    hide Move, EffectOf, Enabled;
    EndedTakesNoStep(b, p, c, st);
  }

  lemma EndedTakesNoStep(b: Backend, p: Pid, c: Call, st: Step)
    requires Enabled(b, p, c, st)
    ensures !c.pc.Done()
  {
  }

  lemma SameHome(b: Backend, b': Backend, req: Request, home: Name)
    requires HomeSettled(b, req, home) && b'.subs.Keys == b.subs.Keys && b'.makers == b.makers
    ensures HomeSettled(b', req, home)
  {
  }

  // ----- Every action -----

  lemma StepKeepsTraced(cat: Catalogue, s: State, a: Action)
    requires Inv(s) && TracedInv(cat, s) && Distinct(cat) && CanHappen(s, a) && Orderly(cat, s, a)
    ensures TracedInv(cat, Next(s, a))
  {
    hide IdentityTraced, Traced, Located, Claims, Enabled, Move, Do, Adopts, Distinct, Inv;
    match a
    case Begin(p, req) => BeginKeepsTraced(cat, s, p, req);
    case Act(p, st) => ActKeepsTraced(cat, s, p, st);
    case TakeSnapshot(id, n) => SnapshotKeepsTraced(cat, s, id, n);
    case Expand(n, capacity) => ExpandKeepsTraced(cat, s, n, capacity);
    case Withdraw(n) => WithdrawKeepsTraced(cat, s, n);
    case Remove(n) => RemoveKeepsTraced(cat, s, n);
    case Crash => CrashKeepsTraced(cat, s);
  }

  lemma BeginKeepsTraced(cat: Catalogue, s: State, p: Pid, req: Request)
    requires TracedInv(cat, s) && CanHappen(s, Begin(p, req)) && MayBegin(cat, s.backend, req)
    ensures TracedInv(cat, Next(s, Begin(p, req)))
  {
    hide IdentityTraced, BackendTraced, HomeSettled;
    assert HomeSettled(s.backend, req, cat.homes[req.name]);
    hide HomesSettled, Enabled;
  }

  lemma SameRoots(cat: Catalogue, b: Backend, b': Backend)
    requires b'.subs.Keys == b.subs.Keys && b'.makers == b.makers && b'.issued == b.issued && b'.deleted == b.deleted
    ensures Later(b, b') && (HomesSettled(cat, b) ==> HomesSettled(cat, b'))
    ensures forall req, home :: HomeSettled(b, req, home) ==> HomeSettled(b', req, home)
  {
    assert forall req, home :: HomeSettled(b, req, home) ==> HomeSettled(b', req, home);
    hide HomeSettled;
  }

  lemma WithdrawKeepsTraced(cat: Catalogue, s: State, n: Name)
    requires TracedInv(cat, s) && CanHappen(s, Withdraw(n))
    ensures TracedInv(cat, Next(s, Withdraw(n)))
  {
    hide IdentityTraced, Traced, Located, HomesSettled, CallTraced, Later;
    var t := Next(s, Withdraw(n));
    SameRoots(cat, s.backend, t.backend);
    forall p | p in t.calls ensures CallTraced(t.backend, cat, t.calls[p]) {
      CallStaysTraced(s.backend, t.backend, cat, s.calls[p]);
    }
  }

  /** A deletion moves no home but that of the volumes it deletes. */
  lemma RemoveKeepsHome(b: Backend, b': Backend, n: Name, req: Request, home: Name)
    requires HomeSettled(b, req, home) && home != n
    requires b'.subs == b.subs - {n} && b'.makers == b.makers
    ensures HomeSettled(b', req, home)
  {
  }

  lemma RemoveKeepsTraced(cat: Catalogue, s: State, n: Name)
    requires TracedInv(cat, s) && Distinct(cat) && CanHappen(s, Remove(n))
    ensures TracedInv(cat, Next(s, Remove(n)))
  {
    hide IdentityTraced, Traced, Located, HomeSettled;
    var t := Next(s, Remove(n));
    var b, b' := s.backend, t.backend;
    forall r | r in cat.requests && r in cat.homes
      ensures cat.homes[r] in b'.deleted || HomeSettled(b', cat.requests[r], cat.homes[r])
    {
      if cat.homes[r] !in b'.deleted { RemoveKeepsHome(b, b', n, cat.requests[r], cat.homes[r]); }
    }
    assert HomesSettled(cat, b');
    forall p | p in t.calls ensures CallTraced(b', cat, t.calls[p]) {
      var c := s.calls[p];
      CallStaysTraced(b, b', cat, c) by { hide CallTraced; }
    }
    forall p | p in t.calls ensures Housed(cat, b', t.calls[p]) {
      var c := s.calls[p];
      assert CallTraced(b, cat, c);
      if !c.pc.Done() {
        assert cat.homes[c.req.name] in NamesOf(cat.requests[c.req.name]);
        RemoveKeepsHome(b, b', n, c.req, cat.homes[c.req.name]);
      }
    }
  }

  lemma CrashKeepsTraced(cat: Catalogue, s: State)
    requires TracedInv(cat, s)
    ensures TracedInv(cat, Next(s, Crash))
  {
    hide IdentityTraced, Traced, Located, HomesSettled;
    var t := Next(s, Crash);
    SameRoots(cat, s.backend, t.backend);
    forall p | p in t.calls ensures CallTraced(t.backend, cat, t.calls[p]) {
      if s.calls[p].pc.Done() { CallStaysTraced(s.backend, t.backend, cat, s.calls[p]); }
    }
  }

  lemma SnapshotKeepsTraced(cat: Catalogue, s: State, id: Text, n: Name)
    requires TracedInv(cat, s) && CanHappen(s, TakeSnapshot(id, n))
    ensures TracedInv(cat, Next(s, TakeSnapshot(id, n)))
  {
    hide IdentityTraced, Traced, Located, HomesSettled, CallTraced, Later;
    var t := Next(s, TakeSnapshot(id, n));
    SameRoots(cat, s.backend, t.backend);
    forall p | p in t.calls ensures CallTraced(t.backend, cat, t.calls[p]) {
      CallStaysTraced(s.backend, t.backend, cat, s.calls[p]);
    }
  }

  lemma ExpandKeepsTraced(cat: Catalogue, s: State, n: Name, capacity: nat)
    requires TracedInv(cat, s) && CanHappen(s, Expand(n, capacity))
    ensures TracedInv(cat, Next(s, Expand(n, capacity)))
  {
    CapacityIsNoClaim(s.backend.issued, cat, n, s.backend.subs[n], capacity);
    hide IdentityTraced, Traced, Located, HomesSettled, CallTraced, Later;
    var t := Next(s, Expand(n, capacity));
    SameRoots(cat, s.backend, t.backend);
    forall p | p in t.calls ensures CallTraced(t.backend, cat, t.calls[p]) {
      CallStaysTraced(s.backend, t.backend, cat, s.calls[p]);
    }
  }

  lemma ActKeepsTraced(cat: Catalogue, s: State, p: Pid, st: Step)
    requires Inv(s) && TracedInv(cat, s) && Distinct(cat) && CanHappen(s, Act(p, st)) && Orderly(cat, s, Act(p, st))
    ensures TracedInv(cat, Next(s, Act(p, st)))
  {
    hide IdentityTraced, Traced, Located, Claims, Enabled, Move, EffectOf, Wanted, Distinct, CallTraced, CallInv;
    hide BackendTraced, HomesSettled, EffectTraced, Adopts, Later;
    var b, c := s.backend, s.calls[p];
    var b', c' := Do(b, p, c, st), Move(b, p, c, st);
    assert CallInv(b, p, c) && CallTraced(b, cat, c);
    StepIsLater(b, p, c, st);
    StepEffectIsTraced(cat, b, p, c, st);
    assert Grows(b.issued, b'.issued) by { LaterGrows(b, b'); }
    EffectKeepsTraced(cat, b, p, EffectOf(b, p, c, st), b');
    HomesStay(cat, b, p, c, st);
    StepKeepsCallTraced(cat, b, p, c, st);
    hide Do, HomeSettled;
    assert HomesSettled(cat, b') by { HomesStaySettled(cat, b, b'); }
    forall q | q in s.calls && q != p ensures CallTraced(b', cat, s.calls[q]) {
      CallStaysTraced(b, b', cat, s.calls[q]);
    }
    StepKeepsRequest(b, p, c, st);
    forall q | q in s.calls ensures Housed(cat, b', s.calls[q]) {
      HousedStays(cat, b, b', s.calls[q]);
    }
    hide *;
  }

  lemma HomesStaySettled(cat: Catalogue, b: Backend, b': Backend)
    requires HomesSettled(cat, b) && b'.deleted == b.deleted
    requires forall r :: r in cat.requests && r in cat.homes && HomeSettled(b, cat.requests[r], cat.homes[r]) ==>
               HomeSettled(b', cat.requests[r], cat.homes[r])
    ensures HomesSettled(cat, b')
  {
    hide HomeSettled;
  }

  lemma HousedStays(cat: Catalogue, b: Backend, b': Backend, c: Call)
    requires CallTraced(b, cat, c) && Housed(cat, b, c)
    requires forall r :: r in cat.requests && r in cat.homes && HomeSettled(b, cat.requests[r], cat.homes[r]) ==>
               HomeSettled(b', cat.requests[r], cat.homes[r])
    ensures Housed(cat, b', c)
  {
    hide HomeSettled;
  }

  lemma StepKeepsRequest(b: Backend, p: Pid, c: Call, st: Step)
    requires Enabled(b, p, c, st)
    ensures Move(b, p, c, st).req == c.req && !c.pc.Done()
  {
    hide DecideExisting, ClassifyClone, Wanted, PropertiesContain, BaseOf, LegacyPVCIdentityMatches;
  }

  lemma LaterGrows(b: Backend, b': Backend)
    requires Later(b, b')
    ensures Grows(b.issued, b'.issued)
  {
  }

  lemma {:induction false} RunKeepsTraced(cat: Catalogue, states: seq<State>, actions: seq<Action>, i: nat)
    requires IsOrderlyRun(cat, states, actions) && i < |states|
    ensures TracedInv(cat, states[i]) && Inv(states[i])
  {
    RunKeeps(states, actions, i);
    if i > 0 {
      RunKeepsTraced(cat, states, actions, i - 1);
      hide CanHappen, Next, Orderly, TracedInv, Inv, Distinct, BackendTraced, HomesFound;
      assert states[i - 1 + 1] == Next(states[i - 1], actions[i - 1]);
      StepKeepsTraced(cat, states[i - 1], actions[i - 1]);
    } else {
      StartIsTraced(cat, states[0].backend);
    }
  }

  lemma StartIsTraced(cat: Catalogue, b: Backend)
    requires Initial(b) && HomesFound(cat, b)
    ensures HomesSettled(cat, b)
  {
  }

  /** What a run leaves behind is where another can start, when the controller is restarted: its
      identities are traced, and the requests that may be repeated find their volumes. */
  lemma RunsCanFollow(cat: Catalogue, states: seq<State>, actions: seq<Action>, i: nat)
    requires IsOrderlyRun(cat, states, actions) && i < |states|
    requires forall r :: r in cat.requests && r in cat.homes ==> MayBegin(cat, states[i].backend, cat.requests[r])
    ensures var b := states[i].backend.(mutex := None, makers := map[], deleted := {});
            Initial(b) && BackendTraced(cat, b) && HomesFound(cat, b)
  {
    RunKeepsTraced(cat, states, actions, i);
    assert Distinct(cat);
    hide IsOrderlyRun, Traced, Located, CallInv, CallTraced;
    var b, b' := states[i].backend, states[i].backend.(mutex := None, makers := map[], deleted := {});
    forall r | r in cat.requests && r in cat.homes ensures cat.homes[r] == HomeIn(b', cat.requests[r]) {
      assert MayBegin(cat, b, cat.requests[r]);
      assert HomeSettled(b, cat.requests[r], cat.homes[r]) && cat.homes[r] in NamesOf(cat.requests[r]);
    }
  }

  // ----- The main results -----

  /** No two subvolumes that are owned under their own names share a UUID, whatever is created,
      cloned, adopted, snapshotted and deleted. */
  lemma UUIDsAreUnique(cat: Catalogue, states: seq<State>, actions: seq<Action>, i: nat, n: Name, m: Name)
    requires IsOrderlyRun(cat, states, actions) && i < |states|
    requires Owned(states[i].backend, n) && Owned(states[i].backend, m)
    requires Get(states[i].backend.subs[n], VolumeUUID) == Get(states[i].backend.subs[m], VolumeUUID)
    ensures n == m
  {
    RunKeepsTraced(cat, states, actions, i);
    assert Traced(states[i].backend.issued, cat, states[i].backend.subs[n]);
    assert Traced(states[i].backend.issued, cat, states[i].backend.subs[m]);
  }

  /** The identity a call is about to write. */
  function Pending(c: Call): Option<Props> {
    match c.pc
    case Listing(_, identity, _) => Some(identity)
    case Persisting(_, _, identity, _, _) => Some(identity)
    case _ => None
  }

  /** A subvolume that holds the identity of another, such as an interrupted clone, is never
      accepted as it is: a call that goes on with it has drawn a new UUID for it. */
  lemma CopiesAreReidentified(cat: Catalogue, states: seq<State>, actions: seq<Action>, i: nat)
    requires IsOrderlyRun(cat, states, actions) && i < |actions| && actions[i].Act?
    requires Draws(actions[i].step).Some? && Pending(states[i + 1].calls[actions[i].p]).Some?
    ensures var b, c := states[i].backend, states[i + 1].calls[actions[i].p];
            var identity := Pending(c).value;
            && VolumeUUID in identity
            && (c.name in b.subs && Claims(b.subs[c.name]) && Get(b.subs[c.name], CSIVolumeName) != c.name
                ==> identity[VolumeUUID] == Draws(actions[i].step).value && identity[VolumeUUID] !in b.issued)
  {
    var s, a := states[i], actions[i];
    RunKeepsTraced(cat, states, actions, i);
    RunKeepsTraced(cat, states, actions, i + 1);
    hide IsOrderlyRun, HomesSettled;
    StepOfOrderlyRun(cat, states, actions, i);
    var b, b', c, c' := s.backend, states[i + 1].backend, s.calls[a.p], states[i + 1].calls[a.p];
    assert CallTraced(b', cat, c') && Pending(c').Some?;
    PendingIsTraced(cat, b', c');
    DrawnOrKept(b, a.p, c, a.step);
    StepIsLater(b, a.p, c, a.step);
    if c'.name in b.subs {
      assert Traced(b.issued, cat, b.subs[c'.name]);
      hide Move, Do, Enabled, CallTraced, BackendTraced, TracedInv, Inv, Traced, Claims, IdentityTraced, Pending, Later;
      LaterGrows(b, b');
      ForeignIsDrawn(cat, b.issued, b'.issued, b.subs[c'.name], Pending(c').value, c'.name);
    }
    DrawsNew(b, a.p, c, a.step);
    hide *;
  }

  lemma DrawsNew(b: Backend, p: Pid, c: Call, st: Step)
    requires Enabled(b, p, c, st) && Draws(st).Some?
    ensures Draws(st).value !in b.issued
  {
  }

  lemma PendingIsTraced(cat: Catalogue, b: Backend, c: Call)
    requires CallTraced(b, cat, c) && Pending(c).Some?
    ensures IdentityTraced(b.issued, cat, Pending(c).value, c.name)
  {
    hide IdentityTraced;
  }

  /** A stored identity that names another subvolume is not the one that is going to be written. */
  lemma ForeignIsDrawn(cat: Catalogue, issued: map<Text, Name>, issued': map<Text, Name>, p: Props, identity: Props,
                       n: Name)
    requires Traced(issued, cat, p) && Grows(issued, issued') && IdentityTraced(issued', cat, identity, n)
    ensures Claims(p) && Get(p, CSIVolumeName) != n ==> identity[VolumeUUID] != Get(p, VolumeUUID)
  {
  }

  lemma StepOfOrderlyRun(cat: Catalogue, states: seq<State>, actions: seq<Action>, i: nat)
    requires IsOrderlyRun(cat, states, actions) && i < |actions|
    ensures |states| == |actions| + 1 && CanHappen(states[i], actions[i]) &&
            states[i + 1] == Next(states[i], actions[i])
    ensures Orderly(cat, states[i], actions[i])
  {
    hide Distinct, BackendTraced, HomesFound;
  }

  /** A decided identity holds the drawn UUID or the one that is stored. */
  lemma DrawnOrKept(b: Backend, p: Pid, c: Call, st: Step)
    requires Enabled(b, p, c, st) && Draws(st).Some? && Pending(Move(b, p, c, st)).Some?
    ensures var c' := Move(b, p, c, st);
            var identity := Pending(c').value;
            && VolumeUUID in identity
            && (identity[VolumeUUID] == Draws(st).value
                || (c'.name in b.subs && identity[VolumeUUID] == Get(b.subs[c'.name], VolumeUUID)))
  {
    hide HasCompleteV2Identity, CarriesCopy, LegacyPVCIdentityMatches, Matches;
  }
}
