/** Why stability asks that no name is used again while something refers to the volume that had it: a
    clone of such a volume's snapshot, made under that very name, is its owner at once, by the
    identity it copied, and then gets another. */
module NameReuse {
  import opened CreateAdoption
  import opened CreateOwnership
  import opened CreateSteps
  import opened VolumeIdentity

  function Recreating(p: Pid, req: Request, uuid: Text, current: Reported, resized: Reported): seq<Action> {
    [Begin(p, req), Act(p, ReadSource), Act(p, Choose), Act(p, Clone), Act(p, Reread(uuid, current, resized)),
     Act(p, Persist)]
  }

  lemma SameSize(c: Call, c': Call, current: Reported, resized: Reported)
    requires c.capacity == c'.capacity && c.req.limit == c'.req.limit
    ensures SizeOf(c, current, resized) == SizeOf(c', current, resized)
  {
  }

  /** The clone that has just been made, whatever identity it holds, is to get the one that is drawn. */
  lemma CopyIsClassified(b: Backend, p: Pid, c: Call, uuid: Text, current: Reported, resized: Reported)
    requires c.pc.Rereading? && c.pc.facts.created && c.name in b.subs && c.req.source != NoSource
    requires uuid != Empty && uuid !in b.issued && SizeOf(c, current, resized).Ok?
    ensures var st := Reread(uuid, current, resized);
            var identity := IdentityProperties(map[], c.req.name, c.name, c.req.protocol, uuid);
            && Enabled(b, p, c, st)
            && Do(b, p, c, st).subs == b.subs && (b.mutex.None? ==> Do(b, p, c, st).mutex.None?)
            && Do(b, p, c, st).shares == b.shares && Do(b, p, c, st).origins == b.origins
            && Do(b, p, c, st).issued.Keys == b.issued.Keys + {uuid}
            && var c' := Move(b, p, c, st);
               && c'.name == c.name && c'.req == c.req && c'.capacity == SizeOf(c, current, resized).value
               && c'.pc == Persisting(map[], CloneBase(c'.capacity, identity), identity, true, ThenProtocol)
  {
    hide SizeOf, IdentityProperties, CloneBase, CarriesCopy;
  }

  lemma EmptyWants(w: Props, c: Call)
    requires c.pc.Persisting? && w == Wanted(c.pc.local, c.pc.base, c.pc.identity)
    ensures !PropertiesContain(map[], w)
  {
    assert w[ManagedBy] == ManagedByNasty;
  }

  lemma CopyIsWritten(b: Backend, p: Pid, c: Call)
    requires c.pc.Persisting? && c.pc.local == map[] && b.mutex.None? && c.name in b.subs
    requires IdentityFor(c.pc.identity, c.name)
    ensures Enabled(b, p, c, Persist)
    ensures Owned(Do(b, p, c, Persist), c.name)
    ensures VolumeUUID in c.pc.identity
    ensures Get(Do(b, p, c, Persist).subs[c.name], VolumeUUID) == c.pc.identity[VolumeUUID]
  {
    hide Do, Wanted, PropertiesContain, HasCompleteV2Identity;
    EmptyWants(Wanted(c.pc.local, c.pc.base, c.pc.identity), c);
    WriteStoresIdentity(b, p, c);
  }

  lemma CopyIsReplaced(s: State, p: Pid, uuid: Text, current: Reported, resized: Reported)
    returns (s1: State, s2: State)
    requires p in s.calls && s.calls[p].pc.Rereading? && s.calls[p].pc.facts.created
    requires s.calls[p].name in s.backend.subs && s.backend.mutex.None?
    requires WellFormed(s.calls[p].req) && s.calls[p].req.source != NoSource
    requires uuid != Empty && uuid !in s.backend.issued && SizeOf(s.calls[p], current, resized).Ok?
    ensures var a := Act(p, Reread(uuid, current, resized)); CanHappen(s, a) && s1 == Next(s, a)
    ensures CanHappen(s1, Act(p, Persist)) && s2 == Next(s1, Act(p, Persist))
    ensures var n := s.calls[p].name; Owned(s2.backend, n) && Get(s2.backend.subs[n], VolumeUUID) == uuid
  {
    var b, c, st := s.backend, s.calls[p], Reread(uuid, current, resized);
    CopyIsClassified(b, p, c, uuid, current, resized);
    hide Do, Move, Enabled, SizeOf;
    var b1, c1 := Do(b, p, c, st), Move(b, p, c, st);
    DecisionIsIdentity(c.req, c.name, map[], uuid);
    CopyIsWritten(b1, p, c1);
    assert c1.pc.identity[VolumeUUID] == uuid;
    hide IdentityProperties, DecideExisting, IdentityFor, HasCompleteV2Identity;
    s1 := State(b1, s.calls[p := c1]);
    s2 := State(Do(b1, p, c1, Persist), s1.calls[p := Move(b1, p, c1, Persist)]);
  }

  function Chosen(req: Request): Call {
    Call(req, req.backendName, req.capacity, Cloning(CloneFacts(map[], false, false, false, false)))
  }

  /** With no subvolume under the request's name, and the snapshot's volume gone, the call goes on to
      clone. */
  lemma NameIsChosen(b: Backend, p: Pid, req: Request)
    requires req.source.FromSnapshot? && req.backendName == req.legacyName
    requires req.backendName !in b.subs && req.source.volume !in b.subs
    ensures var c := Starts(req);
            && Enabled(b, p, c, ReadSource) && Do(b, p, c, ReadSource) == b
            && var c' := Move(b, p, c, ReadSource);
               Enabled(b, p, c', Choose) && Do(b, p, c', Choose) == b && Move(b, p, c', Choose) == Chosen(req)
  {
  }

  lemma CloneIsMade(b: Backend, p: Pid, c: Call)
    requires c.pc.Cloning? && c.name !in b.subs && SourceAvailable(b, c.req.source)
    ensures Enabled(b, p, c, Clone) && Move(b, p, c, Clone) == c.(pc := Rereading(c.pc.facts.(created := true)))
    ensures var b' := Do(b, p, c, Clone);
            && b'.subs == b.subs[c.name := SourceCopy(b, c.req.source)]
            && b'.mutex == b.mutex && b'.issued == b.issued && b'.shares == b.shares
            && b'.origins == b.origins[c.name := c.req.source]
  {
    hide SourceCopy;
  }

  lemma CopyIsMade(s: State, p: Pid, req: Request) returns (s1: State, s2: State, s3: State, s4: State)
    requires p !in s.calls && WellFormed(req) && req.source.FromSnapshot? && req.backendName == req.legacyName
    requires req.backendName !in s.backend.subs
    requires SourceAvailable(s.backend, req.source) && req.source.volume !in s.backend.subs
    ensures CanHappen(s, Begin(p, req)) && s1 == Next(s, Begin(p, req))
    ensures CanHappen(s1, Act(p, ReadSource)) && s2 == Next(s1, Act(p, ReadSource))
    ensures CanHappen(s2, Act(p, Choose)) && s3 == Next(s2, Act(p, Choose))
    ensures CanHappen(s3, Act(p, Clone)) && s4 == Next(s3, Act(p, Clone))
    ensures var facts := CloneFacts(map[], false, false, false, true);
            && p in s4.calls && s4.calls[p] == Call(req, req.backendName, req.capacity, Rereading(facts))
            && s4.backend.subs == s.backend.subs[req.backendName := SourceCopy(s.backend, req.source)]
            && s4.backend.mutex == s.backend.mutex && s4.backend.issued == s.backend.issued
  {
    var b := s.backend;
    NameIsChosen(b, p, req);
    CloneIsMade(b, p, Chosen(req));
    hide Do, Move, Enabled, Starts, SourceCopy, SourceAvailable;
    var c1 := Move(b, p, Starts(req), ReadSource);
    s1 := State(b, s.calls[p := Starts(req)]);
    s2 := State(b, s1.calls[p := c1]);
    s3 := State(b, s2.calls[p := Chosen(req)]);
    s4 := State(Do(b, p, Chosen(req), Clone), s3.calls[p := Move(b, p, Chosen(req), Clone)]);
  }

  /** From any state in which a volume is gone but a snapshot keeps its identity: cloning that
      snapshot under the volume's own name makes a subvolume that holds the old identity, complete and
      for its own name, and then gets a new UUID. */
  lemma RecreationChangesIdentity(s: State, p: Pid, req: Request, uuid: Text, current: Reported, resized: Reported)
    returns (states: seq<State>)
    requires p !in s.calls && WellFormed(req) && req.source.FromSnapshot? && req.backendName == req.legacyName
    requires s.backend.mutex.None? && req.backendName !in s.backend.subs
    requires SourceAvailable(s.backend, req.source) && req.source.volume !in s.backend.subs
    requires HasCompleteV2Identity(SourceCopy(s.backend, req.source), req.backendName)
    requires uuid != Empty && uuid !in s.backend.issued
    requires uuid != Get(SourceCopy(s.backend, req.source), VolumeUUID)
    requires SizeOf(Starts(req), current, resized).Ok?
    ensures IsPath(states, Recreating(p, req, uuid, current, resized)) && |states| == 7 && states[0] == s
    ensures var n, before, after := req.backendName, states[4].backend, states[6].backend;
            && Owned(before, n) && Owned(after, n)
            && Get(before.subs[n], VolumeUUID) != Get(after.subs[n], VolumeUUID)
  {
    hide CanHappen, Next, HasCompleteV2Identity, SizeOf, SourceCopy, SourceAvailable;
    var s1, s2, s3, s4 := CopyIsMade(s, p, req);
    assert SizeOf(s4.calls[p], current, resized) == SizeOf(Starts(req), current, resized) by {
      SameSize(s4.calls[p], Starts(req), current, resized);
    }
    var s5, s6 := CopyIsReplaced(s4, p, uuid, current, resized);
    states := [s, s1, s2, s3, s4, s5, s6];
  }
}
