/** What adoption may do to identities. The adoption search goes by the recorded names, and an
    interrupted clone still records those of its source, so it can be adopted in the source's
    place. This is when UUIDs stop being unique, and only then. */
module CreateAdoption {
  import opened CreateIdentity
  import opened CreateOwnership
  import opened CreateStability
  import opened CreateSteps
  import Protocols
  import opened VolumeIdentity
  import opened Wrappers

  ghost predicate UniqueUUIDs(b: Backend) {
    forall n, m | Owned(b, n) && Owned(b, m) :: Get(b.subs[n], VolumeUUID) == Get(b.subs[m], VolumeUUID) ==> n == m
  }

  lemma TracedIsUnique(cat: Catalogue, b: Backend)
    requires BackendTraced(cat, b)
    ensures UniqueUUIDs(b)
  {
    forall n, m | Owned(b, n) && Owned(b, m) && Get(b.subs[n], VolumeUUID) == Get(b.subs[m], VolumeUUID)
      ensures n == m
    {
      assert Traced(b.issued, cat, b.subs[n]) && Traced(b.issued, cat, b.subs[m]);
    }
  }

  /** The identity of an adoption, as a call is about to write it: from the properties that were
      found, with a UUID drawn for the subvolume in case they have none. */
  predicate Adopting(b: Backend, c: Call, uuid: Text) {
    && c.pc.Persisting? && uuid in b.issued && b.issued[uuid] == c.name
    && c.pc.identity == IdentityProperties(c.pc.local, c.req.name, c.name, c.req.protocol, uuid)
  }

  /** The subvolume that was found records a name under which another owner has the same UUID. */
  predicate TakesAnothersUUID(b: Backend, n: Name, found: Props) {
    && Claims(found)
    && var m := Get(found, CSIVolumeName);
       m != n && Owned(b, m) && Get(b.subs[m], VolumeUUID) == Get(found, VolumeUUID)
  }

  lemma WriteStoresIdentity(b: Backend, p: Pid, c: Call)
    requires Enabled(b, p, c, Persist) && IdentityFor(c.pc.identity, c.name)
    requires !PropertiesContain(c.pc.local, Wanted(c.pc.local, c.pc.base, c.pc.identity))
    ensures var b' := Do(b, p, c, Persist);
            && Owned(b', c.name) && VolumeUUID in c.pc.identity
            && Get(b'.subs[c.name], VolumeUUID) == c.pc.identity[VolumeUUID]
            && b'.subs.Keys == b.subs.Keys && (forall m :: m in b.subs && m != c.name ==> b'.subs[m] == b.subs[m])
  {
    var w := Wanted(c.pc.local, c.pc.base, c.pc.identity);
    MergeContains(b.subs[c.name], w);
    WantedOwns(b.subs[c.name] + w, c.pc.local, c.pc.base, c.pc.identity, c.name);
    assert VolumeUUID in IDENTITY_KEYS;
    hide HasCompleteV2Identity, Wanted, PropertiesContain;
  }

  /** Storing an identity keeps UUIDs unique exactly when no other owner has its UUID. */
  lemma WriteKeepsUniqueIff(b: Backend, p: Pid, c: Call)
    requires Enabled(b, p, c, Persist) && IdentityFor(c.pc.identity, c.name) && UniqueUUIDs(b)
    requires !PropertiesContain(c.pc.local, Wanted(c.pc.local, c.pc.base, c.pc.identity))
    ensures VolumeUUID in c.pc.identity
    ensures UniqueUUIDs(Do(b, p, c, Persist))
            <==> forall m :: m != c.name && Owned(b, m) ==> Get(b.subs[m], VolumeUUID) != c.pc.identity[VolumeUUID]
  {
    WriteStoresIdentity(b, p, c);
    hide HasCompleteV2Identity, Wanted, PropertiesContain, IdentityFor, Enabled;
    var b', n := Do(b, p, c, Persist), c.name;
    hide Do;
    forall m | m != n ensures Owned(b', m) <==> Owned(b, m) {}
    if m :| m != n && Owned(b, m) && Get(b.subs[m], VolumeUUID) == c.pc.identity[VolumeUUID] {
      assert Owned(b', m) && Get(b'.subs[m], VolumeUUID) == Get(b'.subs[n], VolumeUUID);
    }
  }

  /** On any backend whose identities are traced, an adoption keeps UUIDs unique exactly when the
      name that the found subvolume records is not that of another owner of its UUID: one lookup
      before the call. Other calls may have run between the search and the write. */
  lemma AdoptionKeepsUniqueIff(cat: Catalogue, b: Backend, p: Pid, c: Call, uuid: Text)
    requires BackendTraced(cat, b) && Adopting(b, c, uuid) && Traced(b.issued, cat, c.pc.local)
    requires Enabled(b, p, c, Persist) && IdentityFor(c.pc.identity, c.name)
    requires !PropertiesContain(c.pc.local, Wanted(c.pc.local, c.pc.base, c.pc.identity))
    ensures UniqueUUIDs(Do(b, p, c, Persist)) <==> !TakesAnothersUUID(b, c.name, c.pc.local)
  {
    TracedIsUnique(cat, b);
    WriteKeepsUniqueIff(b, p, c);
    hide Wanted, PropertiesContain, UniqueUUIDs, Enabled, Do, BackendTraced, Located;
    var n, found, stored := c.name, c.pc.local, c.pc.identity[VolumeUUID];
    forall m | m != n && Owned(b, m) && Get(b.subs[m], VolumeUUID) == stored
      ensures TakesAnothersUUID(b, n, found)
    {
      TracedAt(cat, b, m);
    }
  }

  lemma TracedAt(cat: Catalogue, b: Backend, m: Name)
    requires BackendTraced(cat, b) && m in b.subs
    ensures Traced(b.issued, cat, b.subs[m])
  {
  }

  // ----- Adoptions at the end of a run -----

  /** An adoption, from the search that finds `n` to the write, with nothing in between. */
  ghost predicate AdoptsNow(s: State, p: Pid, n: Name, uuid: Text, time: Text, t: State) {
    && n in s.backend.subs
    && CanHappen(s, Act(p, Search(Some(n), uuid))) && Adopts(s.backend, p, s.calls[p], Search(Some(n), uuid))
    && var s1 := Next(s, Act(p, Search(Some(n), uuid)));
    && CanHappen(s1, Act(p, List(time)))
    && var s2 := Next(s1, Act(p, List(time)));
    && CanHappen(s2, Act(p, Persist)) && t == Next(s2, Act(p, Persist))
  }

  /** What the call is about when it comes to the write. */
  lemma AdoptionPending(s: State, p: Pid, n: Name, uuid: Text, time: Text)
    requires n in s.backend.subs && CanHappen(s, Act(p, Search(Some(n), uuid)))
    requires Adopts(s.backend, p, s.calls[p], Search(Some(n), uuid))
    ensures var s1 := Next(s, Act(p, Search(Some(n), uuid)));
            && CanHappen(s1, Act(p, List(time)))
            && var s2 := Next(s1, Act(p, List(time)));
            && p in s2.calls && s2.calls[p].name == n && s2.calls[p].req == s.calls[p].req
            && s2.calls[p].pc.Persisting? && s2.calls[p].pc.local == s.backend.subs[n]
            && s2.backend == s.backend.(issued := s.backend.issued[uuid := n])
            && s2.calls[p].pc.identity
               == IdentityProperties(s.backend.subs[n], s.calls[p].req.name, n, s.calls[p].req.protocol, uuid)
  {
    hide Matches, IdentityProperties, BaseOf, ExistingCapacity;
    var s1 := Next(s, Act(p, Search(Some(n), uuid)));
    assert s1.calls[p].pc.Listing? && s1.calls[p].pc.adopting;
  }

  lemma OneMoreUUID(cat: Catalogue, b: Backend, uuid: Text, n: Name)
    requires BackendTraced(cat, b) && uuid !in b.issued
    ensures BackendTraced(cat, b.(issued := b.issued[uuid := n]))
  {
    var b' := b.(issued := b.issued[uuid := n]);
    forall p | Traced(b.issued, cat, p) ensures Traced(b'.issued, cat, p) { TracedGrows(b.issued, b'.issued, cat, p); }
    hide Traced, Located;
  }

  lemma SameSubsSameUUIDs(b: Backend, b': Backend)
    requires UniqueUUIDs(b) && b'.subs == b.subs
    ensures UniqueUUIDs(b')
  {
    hide HasCompleteV2Identity;
    forall m ensures Owned(b, m) <==> Owned(b', m) {}
  }

  lemma FinishAdoption(cat: Catalogue, b: Backend, b2: Backend, p: Pid, c: Call, uuid: Text)
    requires BackendTraced(cat, b2) && b2.subs == b.subs && c.name in b.subs && Adopting(b2, c, uuid)
    requires c.pc.local == b.subs[c.name] && uuid != Empty && WellFormed(c.req) && Enabled(b2, p, c, Persist)
    ensures UniqueUUIDs(Do(b2, p, c, Persist)) <==> !TakesAnothersUUID(b, c.name, c.pc.local)
  {
    TracedIsUnique(cat, b2);
    TracedAt(cat, b2, c.name);
    DecisionIsIdentity(c.req, c.name, c.pc.local, uuid);
    hide UniqueUUIDs, BackendTraced, Traced;
    if PropertiesContain(c.pc.local, Wanted(c.pc.local, c.pc.base, c.pc.identity)) {
      WantedOwns(c.pc.local, c.pc.local, c.pc.base, c.pc.identity, c.name);
      assert UniqueUUIDs(Do(b2, p, c, Persist)) by { SameSubsSameUUIDs(b2, Do(b2, p, c, Persist)); }
    } else {
      AdoptionKeepsUniqueIff(cat, b2, p, c, uuid);
      forall m ensures Owned(b, m) <==> Owned(b2, m) {}
    }
  }

  lemma AdoptionNowIff(cat: Catalogue, s: State, p: Pid, n: Name, uuid: Text, time: Text, t: State)
    requires TracedInv(cat, s) && Inv(s) && AdoptsNow(s, p, n, uuid, time, t)
    ensures UniqueUUIDs(t.backend) <==> !TakesAnothersUUID(s.backend, n, s.backend.subs[n])
  {
    hide UniqueUUIDs, TakesAnothersUUID;
    assert uuid != Empty && uuid !in s.backend.issued && WellFormed(s.calls[p].req) by {
      assert CallInv(s.backend, p, s.calls[p]);
    }
    AdoptionPending(s, p, n, uuid, time);
    var s2 := Next(Next(s, Act(p, Search(Some(n), uuid))), Act(p, List(time)));
    OneMoreUUID(cat, s.backend, uuid, n);
    FinishAdoption(cat, s.backend, s2.backend, p, s2.calls[p], uuid);
    hide CanHappen;
    assert t.backend == Do(s2.backend, p, s2.calls[p], Persist);
  }

  /** After any orderly run, an adoption keeps UUIDs unique exactly when the lookup of the recorded
      name finds no other owner of the UUID. */
  lemma AdoptionAfterRunIff(cat: Catalogue, states: seq<State>, actions: seq<Action>, i: nat,
                            p: Pid, n: Name, uuid: Text, time: Text, t: State)
    requires IsOrderlyRun(cat, states, actions) && i < |states| && AdoptsNow(states[i], p, n, uuid, time, t)
    ensures UniqueUUIDs(t.backend) <==> !TakesAnothersUUID(states[i].backend, n, states[i].backend.subs[n])
  {
    RunKeepsTraced(cat, states, actions, i);
    hide IsOrderlyRun, TracedInv, Inv, AdoptsNow, TakesAnothersUUID, UniqueUUIDs;
    AdoptionNowIff(cat, states[i], p, n, uuid, time, t);
  }

  /** With calls one after another the condition is simpler still: after any sequential run, an
      adoption keeps UUIDs unique exactly when the subvolume it found, if it has an identity, records
      its own name or that of a volume that is gone. `AdoptsOnlyOwn` asks for the former; the driver
      checks neither. */
  lemma SequentialAdoptionIff(cat: Catalogue, states: seq<State>, actions: seq<Action>, i: nat,
                              p: Pid, n: Name, uuid: Text, time: Text, t: State)
    requires IsSequentialRun(cat, states, actions) && i < |states| && AdoptsNow(states[i], p, n, uuid, time, t)
    ensures var b := states[i].backend;
            UniqueUUIDs(t.backend) <==>
              (Claims(b.subs[n]) ==> Get(b.subs[n], CSIVolumeName) == n || Get(b.subs[n], CSIVolumeName) !in b.subs)
  {
    AdoptionAfterRunIff(cat, states, actions, i, p, n, uuid, time, t);
    RunKeepsSequential(cat, states, actions, i);
    AnchoredAt(states[i].backend, n);
    hide IsSequentialRun, UniqueUUIDs, SequentialInv, TracedInv, Inv, Next, Claims, HasCompleteV2Identity, Enabled,
         Move;
    hide Adopts;
  }

  // ----- How it happens -----

  lemma JoinPaths(s1: seq<State>, a1: seq<Action>, s2: seq<State>, a2: seq<Action>) returns (s: seq<State>)
    requires IsPath(s1, a1) && IsPath(s2, a2) && |s1| == |a1| + 1 && |s2| == |a2| + 1 && s1[|a1|] == s2[0]
    ensures IsPath(s, a1 + a2) && |s| == |a1| + |a2| + 1 && s[0] == s1[0] && s[|a1| + |a2|] == s2[|a2|]
  {
    hide CanHappen, Next;
    s := s1 + s2[1..];
    forall i | 0 <= i < |a1 + a2|
      ensures CanHappen(s[i], (a1 + a2)[i]) && s[i + 1] == Next(s[i], (a1 + a2)[i])
    {
      if i >= |a1| {
        var j := i - |a1|;
        assert s[i] == s2[j] && s[i + 1] == s2[j + 1] && (a1 + a2)[i] == a2[j];
      }
    }
  }

  lemma CreateSettles(s: State, p: Pid, req: Request, u1: Text, u2: Text)
    requires p in s.calls && s.calls[p] == Starts(req) && req.source == NoSource && req.kind.NFS?
    requires req.legacyName == req.backendName && req.backendName !in s.backend.subs
    requires u1 != Empty && u2 != Empty && u1 != u2 && u1 !in s.backend.issued && u2 !in s.backend.issued
    ensures CanHappen(s, Act(p, Search(None, u1))) && CanHappen(Next(s, Act(p, Search(None, u1))), Act(p, Select(u2)))
    ensures var t := Next(Next(s, Act(p, Search(None, u1))), Act(p, Select(u2)));
            && p in t.calls && t.calls[p] == Call(req, req.backendName, req.capacity, Creating)
            && t.backend == s.backend.(issued := t.backend.issued) && t.calls.Keys == s.calls.Keys
            && t.backend.issued.Keys == s.backend.issued.Keys + {u1, u2}
  {
    var s1 := Next(s, Act(p, Search(None, u1)));
    assert s1.calls[p] == Call(req, req.backendName, req.capacity, Selecting(false));
  }

  /** The properties a first create stores. */
  function FirstProperties(req: Request, uuid: Text, time: Text): Props {
    Wanted(map[], BaseOf(Starts(req), time), IdentityProperties(map[], req.name, req.backendName, req.protocol, uuid))
  }

  lemma FirstCreate(b: Backend, p: Pid, c: Call, req: Request, uuid: Text, time: Text)
    requires c == Call(req, req.backendName, req.capacity, Creating) && req.backendName !in b.subs && b.mutex.None?
    requires uuid != Empty && uuid !in b.issued
    ensures Enabled(b, p, c, Create(uuid, time))
    ensures var b1, c1 := Do(b, p, c, Create(uuid, time)), Move(b, p, c, Create(uuid, time));
            && b1.subs == b.subs[req.backendName := map[]] && b1.shares == b.shares && b1.mutex.None?
            && b1.issued.Keys == b.issued.Keys + {uuid} && c1.name == req.backendName
            && c1.pc.Persisting? && c1.pc.local == map[]
            && Wanted(c1.pc.local, c1.pc.base, c1.pc.identity) == FirstProperties(req, uuid, time)
  {
    hide Wanted, IdentityProperties, PropertiesContain, DecideExisting;
    BaseIsOfRequest(c, req, time);
  }

  lemma CreateStores(s: State, p: Pid, req: Request, uuid: Text, time: Text)
    requires p in s.calls && s.calls[p] == Call(req, req.backendName, req.capacity, Creating)
    requires req.backendName !in s.backend.subs && s.backend.mutex.None? && uuid != Empty && uuid !in s.backend.issued
    ensures CanHappen(s, Act(p, Create(uuid, time))) && CanHappen(Next(s, Act(p, Create(uuid, time))), Act(p, Persist))
    ensures var t := Next(Next(s, Act(p, Create(uuid, time))), Act(p, Persist));
            && t.backend.subs == s.backend.subs[req.backendName := FirstProperties(req, uuid, time)]
            && t.backend.shares == s.backend.shares && t.backend.mutex.None? && t.calls.Keys == s.calls.Keys
            && t.backend.issued.Keys == s.backend.issued.Keys + {uuid}
  {
    hide Enabled, Do, Move, Wanted, FirstProperties, PropertiesContain;
    FirstCreate(s.backend, p, s.calls[p], req, uuid, time);
    EmptyContainsNothing(req, uuid, time);
    var s1 := Next(s, Act(p, Create(uuid, time)));
    FirstWrite(s1.backend, p, s1.calls[p], FirstProperties(req, uuid, time));
    assert s.backend.subs[req.backendName := map[]][req.backendName := FirstProperties(req, uuid, time)]
        == s.backend.subs[req.backendName := FirstProperties(req, uuid, time)];
  }

  lemma FirstWrite(b: Backend, p: Pid, c: Call, w: Props)
    requires c.pc.Persisting? && c.pc.local == map[] && c.name in b.subs && b.subs[c.name] == map[] && b.mutex.None?
    requires w == Wanted(c.pc.local, c.pc.base, c.pc.identity) && !PropertiesContain(map[], w)
    ensures Enabled(b, p, c, Persist)
    ensures var b' := Do(b, p, c, Persist);
            && b'.subs == b.subs[c.name := w] && b'.shares == b.shares && b'.mutex.None? && b'.issued == b.issued
  {
    hide Wanted, PropertiesContain;
    assert map[] + w == w;
  }

  lemma BaseIsOfRequest(c: Call, req: Request, time: Text)
    requires c.req == req && c.capacity == req.capacity
    ensures BaseOf(c, time) == BaseOf(Starts(req), time)
  {
  }

  lemma EmptyContainsNothing(req: Request, uuid: Text, time: Text)
    ensures !PropertiesContain(map[], FirstProperties(req, uuid, time))
  {
    assert FirstProperties(req, uuid, time)[ManagedBy] == ManagedByNasty;
  }

  /** A first create, up to the write of its identity. */
  lemma CreatePath(s: State, p: Pid, req: Request, u1: Text, u2: Text, u3: Text, time: Text)
    returns (states: seq<State>)
    requires p !in s.calls && WellFormed(req) && req.source == NoSource && req.kind.NFS?
    requires req.legacyName == req.backendName && req.backendName !in s.backend.subs && s.backend.mutex.None?
    requires u1 != Empty && u2 != Empty && u3 != Empty && u1 != u2 && u1 != u3 && u2 != u3
    requires u1 !in s.backend.issued && u2 !in s.backend.issued && u3 !in s.backend.issued
    ensures IsPath(states, [Begin(p, req), Act(p, Search(None, u1)), Act(p, Select(u2)),
                            Act(p, Create(u3, time)), Act(p, Persist)])
    ensures |states| == 6 && states[0] == s
    ensures var t := states[5];
            && t.backend.subs == s.backend.subs[req.backendName := FirstProperties(req, u3, time)]
            && t.backend.shares == s.backend.shares && t.backend.mutex.None?
            && t.backend.issued.Keys == s.backend.issued.Keys + {u1, u2, u3}
            && t.calls.Keys == s.calls.Keys + {p}
  {
    hide Enabled, Move, Do, FirstProperties;
    var s1 := State(s.backend, s.calls[p := Starts(req)]);
    CreateSettles(s1, p, req, u1, u2);
    var s2 := Next(s1, Act(p, Search(None, u1)));
    var s3 := Next(s2, Act(p, Select(u2)));
    CreateStores(s3, p, req, u3, time);
    var s4 := Next(s3, Act(p, Create(u3, time)));
    states := [s, s1, s2, s3, s4, Next(s4, Act(p, Persist))];
  }

  /** A clone request goes on to its unused destination. */
  lemma CloneChooses(s: State, p: Pid, req: Request, m: Name, n: Name)
    requires p in s.calls && s.calls[p] == Starts(req) && req.source == FromVolume(m)
    requires req.backendName == n && req.legacyName == n && m in s.backend.subs && n !in s.backend.subs
    ensures CanHappen(s, Act(p, ReadSource)) && CanHappen(Next(s, Act(p, ReadSource)), Act(p, Choose))
    ensures var facts := CloneFacts(s.backend.subs[m], true, false, false, false);
            Next(Next(s, Act(p, ReadSource)), Act(p, Choose)) ==
            State(s.backend, s.calls[p := Call(req, n, req.capacity, Cloning(facts))])
  {
    var c1 := Call(req, n, req.capacity, Choosing(s.backend.subs[m], true, false));
    assert Next(s, Act(p, ReadSource)) == State(s.backend, s.calls[p := c1]);
  }

  lemma CloneCopies(s: State, p: Pid, m: Name, n: Name)
    requires p in s.calls && s.calls[p].pc.Cloning? && s.calls[p].name == n && s.calls[p].req.source == FromVolume(m)
    requires m in s.backend.subs && n !in s.backend.subs
    ensures CanHappen(s, Act(p, Clone))
    ensures var t := Next(Next(s, Act(p, Clone)), Crash);
            && t.backend.subs == s.backend.subs[n := s.backend.subs[m]]
            && t.backend.shares == s.backend.shares && t.backend.issued == s.backend.issued
            && t.backend.mutex.None? && t.calls.Keys == s.calls.Keys
  {
  }

  /** A crash right after the backend has cloned `m` into `n` leaves the properties of `m` on `n`. */
  lemma CrashedCloneKeepsCopy(s: State, p: Pid, req: Request, m: Name, n: Name) returns (states: seq<State>)
    requires p !in s.calls && WellFormed(req) && req.source == FromVolume(m)
    requires req.backendName == n && req.legacyName == n && m in s.backend.subs && n !in s.backend.subs
    ensures IsPath(states, [Begin(p, req), Act(p, ReadSource), Act(p, Choose), Act(p, Clone), Crash])
    ensures |states| == 6 && states[0] == s
    ensures var t := states[5];
            && t.backend.subs == s.backend.subs[n := s.backend.subs[m]]
            && t.backend.shares == s.backend.shares && t.backend.issued == s.backend.issued
            && t.backend.mutex.None? && t.calls.Keys == s.calls.Keys + {p}
  {
    hide Enabled, Move, Do;
    var s1 := State(s.backend, s.calls[p := Starts(req)]);
    CloneChooses(s1, p, req, m, n);
    var s2 := Next(s1, Act(p, ReadSource));
    var s3 := Next(s2, Act(p, Choose));
    CloneCopies(s3, p, m, n);
    var s4 := Next(s3, Act(p, Clone));
    states := [s, s1, s2, s3, s4, Next(s4, Crash)];
  }

  lemma SearchAdopts(b: Backend, p: Pid, req: Request, n: Name, uuid: Text)
    requires req.source == NoSource && n in b.subs && uuid != Empty && uuid !in b.issued
    requires Matches(req, b.subs[n]) && MayAdopt(req, b.subs[n]) && Get(b.subs[n], Protocol) == req.protocol
    ensures Enabled(b, p, Starts(req), Search(Some(n), uuid)) && Adopts(b, p, Starts(req), Search(Some(n), uuid))
  {
    hide Matches, IdentityProperties;
  }

  /** A retried create that finds such a copy adopts it: two volumes then share a UUID. The search
      has to come up with the copy although the source matches just as well; nothing says which of
      the two the backend returns. */
  lemma AdoptingACopyDuplicates(s: State, p: Pid, req: Request, m: Name, n: Name, uuid: Text, time: Text)
    returns (states: seq<State>)
    requires p !in s.calls && WellFormed(req) && req.source == NoSource
    requires m != n && Owned(s.backend, m) && n in s.backend.subs && s.backend.subs[n] == s.backend.subs[m]
    requires Matches(req, s.backend.subs[n]) && MayAdopt(req, s.backend.subs[n])
    requires Get(s.backend.subs[n], Protocol) == req.protocol && s.backend.mutex.None?
    requires uuid != Empty && uuid !in s.backend.issued
    ensures IsPath(states, [Begin(p, req), Act(p, Search(Some(n), uuid)), Act(p, List(time)), Act(p, Persist)])
    ensures |states| == 5 && states[0] == s && !UniqueUUIDs(states[4].backend)
  {
    hide Matches, MayAdopt, UniqueUUIDs, HasCompleteV2Identity, IdentityProperties, IdentityFor, Move, Adopts, Do,
         Enabled;
    var s1 := State(s.backend, s.calls[p := Starts(req)]);
    SearchAdopts(s.backend, p, req, n, uuid);
    AdoptionPending(s1, p, n, uuid, time);
    var s2 := Next(s1, Act(p, Search(Some(n), uuid)));
    var s3 := Next(s2, Act(p, List(time)));
    CopyIsRelabelled(s3.backend, p, s3.calls[p], m, uuid);
    states := [s, s1, s2, s3, Next(s3, Act(p, Persist))];
  }

  lemma CopyIsRelabelled(b: Backend, p: Pid, c: Call, m: Name, uuid: Text)
    requires c.pc.Persisting? && c.name in b.subs && c.name != m && b.mutex.None? && WellFormed(c.req) && uuid != Empty
    requires Owned(b, m) && c.pc.local == b.subs[c.name] == b.subs[m]
    requires c.pc.identity == IdentityProperties(c.pc.local, c.req.name, c.name, c.req.protocol, uuid)
    ensures Enabled(b, p, c, Persist) && !UniqueUUIDs(Do(b, p, c, Persist))
  {
    var n, w := c.name, Wanted(c.pc.local, c.pc.base, c.pc.identity);
    DecisionIsIdentity(c.req, n, c.pc.local, uuid);
    if PropertiesContain(c.pc.local, w) { WantedOwns(c.pc.local, c.pc.local, c.pc.base, c.pc.identity, n); }
    assert c.pc.identity[VolumeUUID] == Get(b.subs[m], VolumeUUID);
    hide Wanted, PropertiesContain;
    WriteStoresIdentity(b, p, c);
    hide HasCompleteV2Identity, Do;
    var b' := Do(b, p, c, Persist);
    assert Owned(b', m) && Owned(b', n) && Get(b'.subs[m], VolumeUUID) == Get(b'.subs[n], VolumeUUID);
  }

  // ----- The run -----

  const ORIGINAL := Other(1)
  const COPY := Other(2)
  const NOW := Other(3)
  const PROTOCOL := Other(4)

  /** An adoptable volume whose backend name is its request name, and a clone of it. */
  const CREATE_ORIGINAL :=
    Request(ORIGINAL, ORIGINAL, ORIGINAL, PROTOCOL, Protocols.NFS, NoSource, 1024, 0, false, Empty, Empty,
            map[Adoptable := Yes])
  const CREATE_COPY :=
    Request(COPY, COPY, COPY, PROTOCOL, Protocols.NFS, FromVolume(ORIGINAL), 1024, 0, false, Empty, Empty, map[])

  const EMPTY_BACKEND := Backend(map[], map[], map[], None, map[], map[], map[], {})

  lemma CopyMayBeAdopted(uuid: Text)
    requires uuid != Empty
    ensures var q := FirstProperties(CREATE_ORIGINAL, uuid, NOW);
            && HasCompleteV2Identity(q, ORIGINAL) && Matches(CREATE_ORIGINAL, q) && MayAdopt(CREATE_ORIGINAL, q) &&
               Get(q, Protocol) == PROTOCOL
  {
    var base := BaseOf(Starts(CREATE_ORIGINAL), NOW);
    var identity := IdentityProperties(map[], ORIGINAL, ORIGINAL, PROTOCOL, uuid);
    var w := Wanted(map[], base, identity);
    DecisionIsIdentity(CREATE_ORIGINAL, ORIGINAL, map[], uuid);
    WantedOwns(w, map[], base, identity, ORIGINAL);
    assert base[Adoptable] == Yes && Adoptable !in IDENTITY_KEYS;
    assert w[Adoptable] == Yes;
  }

  lemma PathIsRun(states: seq<State>, actions: seq<Action>)
    requires IsPath(states, actions) && states[0] == State(EMPTY_BACKEND, map[])
    ensures IsRun(states, actions)
  {
    hide CanHappen, Next;
  }

  const CREATING := [
    Begin(0, CREATE_ORIGINAL), Act(0, Search(None, Other(10))), Act(0, Select(Other(11))),
    Act(0, Create(Other(12), NOW)), Act(0, Persist)]
  const CLONING := [Begin(1, CREATE_COPY), Act(1, ReadSource), Act(1, Choose), Act(1, Clone), Crash]
  const ADOPTING := [
    Begin(2, CREATE_ORIGINAL), Act(2, Search(Some(COPY), Other(13))), Act(2, List(NOW)), Act(2, Persist)]

  /** First the original is created, up to the write of its identity. */
  lemma CreatingPart() returns (states: seq<State>)
    ensures IsPath(states, CREATING) && |states| == 6 && states[0] == State(EMPTY_BACKEND, map[])
    ensures var t := states[5];
            && t.backend.subs == map[ORIGINAL := FirstProperties(CREATE_ORIGINAL, Other(12), NOW)]
            && t.backend.mutex.None? && Other(13) !in t.backend.issued && 1 !in t.calls && 2 !in t.calls
  {
    hide FirstProperties, CanHappen, Next, IsPath;
    states := CreatePath(State(EMPTY_BACKEND, map[]), 0, CREATE_ORIGINAL, Other(10), Other(11), Other(12), NOW);
  }

  /** Then its clone crashes. */
  lemma CloningPart(s: State) returns (states: seq<State>)
    requires s.backend.subs == map[ORIGINAL := FirstProperties(CREATE_ORIGINAL, Other(12), NOW)]
    requires Other(13) !in s.backend.issued && 1 !in s.calls && 2 !in s.calls
    ensures IsPath(states, CLONING) && |states| == 6 && states[0] == s
    ensures var t, q := states[5], FirstProperties(CREATE_ORIGINAL, Other(12), NOW);
            && t.backend.subs == map[ORIGINAL := q][COPY := q] && t.backend.mutex.None?
            && Other(13) !in t.backend.issued && 2 !in t.calls
  {
    hide FirstProperties, CanHappen, Next, IsPath;
    states := CrashedCloneKeepsCopy(s, 1, CREATE_COPY, ORIGINAL, COPY);
  }

  /** Then the retried create of the original finds the clone. */
  lemma AdoptingPart(s: State) returns (states: seq<State>)
    requires var q := FirstProperties(CREATE_ORIGINAL, Other(12), NOW); s.backend.subs == map[ORIGINAL := q][COPY := q]
    requires s.backend.mutex.None? && Other(13) !in s.backend.issued && 2 !in s.calls
    ensures IsPath(states, ADOPTING) && |states| == 5 && states[0] == s && !UniqueUUIDs(states[4].backend)
  {
    hide FirstProperties, CanHappen, Next, IsPath, Matches, MayAdopt, HasCompleteV2Identity, UniqueUUIDs;
    CopyMayBeAdopted(Other(12));
    states := AdoptingACopyDuplicates(s, 2, CREATE_ORIGINAL, ORIGINAL, COPY, Other(13), NOW);
  }

  /** From an empty backend: a volume is created, its clone crashes, the retried create of the
      volume finds the clone, and the run ends with two owners of one UUID. */
  lemma AdoptionRunDuplicates() returns (states: seq<State>)
    ensures IsRun(states, CREATING + CLONING + ADOPTING) && |states| == 15 && states[0].backend == EMPTY_BACKEND
    ensures !UniqueUUIDs(states[14].backend)
  {
    hide FirstProperties, UniqueUUIDs, CanHappen, Next, IsPath, IsRun;
    var p1 := CreatingPart();
    var p2 := CloningPart(p1[5]);
    var p3 := AdoptingPart(p2[5]);
    var p12 := JoinPaths(p1, CREATING, p2, CLONING);
    states := JoinPaths(p12, CREATING + CLONING, p3, ADOPTING);
    PathIsRun(states, CREATING + CLONING + ADOPTING);
  }
}
