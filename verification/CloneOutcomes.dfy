/** Clones and adoptions that meet no errors: they can be carried out, and end with the volume owned by
    the request and presented. */
module CloneOutcomes {
  import opened CloneCapacity
  import opened CreateIdentity
  import opened CreateOutcomes
  import opened CreateOwnership
  import opened CreateRetry
  import opened CreateSteps
  import opened NameReuse
  import opened VolumeIdentity
  import opened Wrappers

  // ----- Adoption -----

  /** What a request that takes `n` over is left with. */
  ghost predicate TakenOver(b: Backend, req: Request, n: Name) {
    && Owned(b, n) && Get(b.subs[n], RequestName) == req.name && Get(b.subs[n], Protocol) == req.protocol
    && n in b.shares
  }

  function AfterList(b: Backend, n: Name): seq<Step> {
    if n in b.shares then [Persist] else [Persist] + [Expose]
  }

  lemma KeysOfIdentity(identity: Props, n: Name)
    requires IdentityFor(identity, n)
    ensures RequestName in identity && Protocol in identity
  {
    assert RequestName in IDENTITY_KEYS && Protocol in IDENTITY_KEYS;
  }

  lemma WriteContains(b: Backend, p: Pid, c: Call)
    requires c.pc.Persisting? && c.name in b.subs && b.mutex.None?
    requires PropertiesContain(c.pc.local, Wanted(c.pc.local, c.pc.base, c.pc.identity)) ==>
               c.pc.local == b.subs[c.name]
    ensures Enabled(b, p, c, Persist)
    ensures var b', w := Do(b, p, c, Persist), Wanted(c.pc.local, c.pc.base, c.pc.identity);
            && b'.subs.Keys == b.subs.Keys && PropertiesContain(b'.subs[c.name], w)
            && b'.shares == b.shares && b'.mutex.None? && b'.origins == b.origins && b'.issued == b.issued
    ensures Move(b, p, c, Persist) ==
            c.(pc := match c.pc.after
                     case ThenExpose => Exposing
                     case ThenReturn(capacity) => Returned(capacity)
                     case ThenProtocol => Selecting(false))
  {
    MergeContains(b.subs[c.name], Wanted(c.pc.local, c.pc.base, c.pc.identity));
    hide Wanted, PropertiesContain;
  }

  lemma ExposeShows(b: Backend, p: Pid, c: Call)
    requires c.pc.Exposing?
    ensures Enabled(b, p, c, Expose) && Move(b, p, c, Expose) == c.(pc := Returned(c.capacity))
    ensures Do(b, p, c, Expose) == b.(shares := b.shares[c.name := c.capacity])
  {
  }

  lemma WriteIsOwned(q: Props, c: Call)
    requires c.pc.Persisting? && IdentityFor(c.pc.identity, c.name)
    requires PropertiesContain(q, Wanted(c.pc.local, c.pc.base, c.pc.identity))
    requires Get(c.pc.identity, RequestName) == c.req.name && Get(c.pc.identity, Protocol) == c.req.protocol
    ensures HasCompleteV2Identity(q, c.name) && Get(q, RequestName) == c.req.name && Get(q, Protocol) == c.req.protocol
  {
    KeysOfIdentity(c.pc.identity, c.name);
    WantedOwns(q, c.pc.local, c.pc.base, c.pc.identity, c.name);
  }

  /** A write, and the exposure if that is still to come. */
  lemma WriteTakesOver(b: Backend, p: Pid, c: Call) returns (b': Backend, c': Call)
    requires c.pc.Persisting? && c.name in b.subs && b.mutex.None? && IdentityFor(c.pc.identity, c.name)
    requires PropertiesContain(c.pc.local, Wanted(c.pc.local, c.pc.base, c.pc.identity)) ==>
               c.pc.local == b.subs[c.name]
    requires Get(c.pc.identity, RequestName) == c.req.name && Get(c.pc.identity, Protocol) == c.req.protocol
    requires c.pc.after == if c.name in b.shares then ThenReturn(c.capacity) else ThenExpose
    ensures Leads(b, p, c, AfterList(b, c.name), b', c')
    ensures TakenOver(b', c.req, c.name) && c' == c.(pc := Returned(c.capacity))
    ensures b'.subs.Keys == b.subs.Keys
    ensures PropertiesContain(b'.subs[c.name], Wanted(c.pc.local, c.pc.base, c.pc.identity))
    ensures b'.shares == (if c.name in b.shares then b.shares else b.shares[c.name := c.capacity])
    ensures b'.origins == b.origins
  {
    WriteContains(b, p, c);
    hide Do, Move, Enabled, Leads, Wanted, PropertiesContain, HasCompleteV2Identity, IdentityFor;
    var b1, c1 := Do(b, p, c, Persist), Move(b, p, c, Persist);
    WriteIsOwned(b1.subs[c.name], c);
    LeadsOnce(b, p, c, Persist);
    if c.name in b.shares {
      b', c' := b1, c1;
    } else {
      ExposeShows(b1, p, c1);
      b', c' := Do(b1, p, c1, Expose), Move(b1, p, c1, Expose);
      LeadsOnce(b1, p, c1, Expose);
      LeadsOn(b, p, c, [Persist], b1, c1, [Expose], b', c');
    }
  }

  lemma UUIDIsKept(q: Props, c: Call)
    requires c.pc.Persisting? && IdentityFor(c.pc.identity, c.name)
    requires PropertiesContain(q, Wanted(c.pc.local, c.pc.base, c.pc.identity))
    ensures VolumeUUID in c.pc.identity && Get(q, VolumeUUID) == c.pc.identity[VolumeUUID]
  {
    WantedOwns(q, c.pc.local, c.pc.base, c.pc.identity, c.name);
    assert VolumeUUID in IDENTITY_KEYS;
  }

  lemma ListAdopting(b: Backend, p: Pid, c: Call, time: Text) returns (b': Backend, c': Call)
    requires c.pc.Listing? && c.pc.adopting
    ensures Leads(b, p, c, [List(time)], b', c')
    ensures b'.subs == b.subs && b'.shares == b.shares && b'.mutex == b.mutex
    ensures c' == c.(pc := Persisting(c.pc.local, BaseOf(c, time), c.pc.identity, false,
                                      if c.name in b.shares then ThenReturn(c.capacity) else ThenExpose))
  {
    hide BaseOf;
    b', c' := Do(b, p, c, List(time)), Move(b, p, c, List(time));
    LeadsOnce(b, p, c, List(time));
    hide Leads;
  }

  lemma ListingTakesOver(b: Backend, p: Pid, c: Call, time: Text) returns (b': Backend, c': Call)
    requires c.pc.Listing? && c.pc.adopting && c.name in b.subs && c.pc.local == b.subs[c.name] && b.mutex.None?
    requires IdentityFor(c.pc.identity, c.name)
    requires Get(c.pc.identity, RequestName) == c.req.name && Get(c.pc.identity, Protocol) == c.req.protocol
    ensures Leads(b, p, c, [List(time)] + AfterList(b, c.name), b', c')
    ensures TakenOver(b', c.req, c.name) && c'.pc == Returned(c.capacity) && c'.name == c.name
    ensures Get(b'.subs[c.name], VolumeUUID) == Get(c.pc.identity, VolumeUUID)
    ensures b'.subs.Keys == b.subs.Keys && b'.shares.Keys == b.shares.Keys + {c.name}
  {
    hide Leads, Wanted, PropertiesContain, IdentityFor, HasCompleteV2Identity, BaseOf;
    var b1, c1 := ListAdopting(b, p, c, time);
    b', c' := WriteTakesOver(b1, p, c1);
    UUIDIsKept(b'.subs[c.name], c1);
    LeadsOn(b, p, c, [List(time)], b1, c1, AfterList(b, c.name), b', c');
  }

  /** An adoption can be carried out, and ends with the subvolume that the search found owned by the
      request and presented. */
  lemma AdoptionConverges(b: Backend, p: Pid, req: Request, n: Name, u: Text, time: Text)
    returns (b': Backend, c': Call)
    requires req.source == NoSource && WellFormed(req) && b.mutex.None? && New(b.issued, u) && n in b.subs
    requires Matches(req, b.subs[n]) && MayAdopt(req, b.subs[n]) && Get(b.subs[n], Protocol) == req.protocol
    ensures Leads(b, p, Starts(req), [Search(Some(n), u)] + ([List(time)] + AfterList(b, n)), b', c')
    ensures TakenOver(b', req, n) && c'.pc == Returned(req.capacity) && c'.name == n
    ensures n in b'.subs && b'.subs.Keys == b.subs.Keys && b'.shares.Keys == b.shares.Keys + {n}
    ensures var was, now := Get(b.subs[n], VolumeUUID), Get(b'.subs[n], VolumeUUID); was != Empty ==> now == was
  {
    var b1, c1 := SearchTakes(b, p, req, n, u);
    hide Matches, MayAdopt, Leads, TakenOver, IdentityProperties, IdentityFor, Starts;
    b', c' := ListingTakesOver(b1, p, c1, time);
    LeadsOn(b, p, Starts(req), [Search(Some(n), u)], b1, c1, [List(time)] + AfterList(b, n), b', c');
  }

  lemma SearchTakes(b: Backend, p: Pid, req: Request, n: Name, u: Text) returns (b': Backend, c': Call)
    requires req.source == NoSource && WellFormed(req) && New(b.issued, u) && n in b.subs
    requires Matches(req, b.subs[n]) && MayAdopt(req, b.subs[n]) && Get(b.subs[n], Protocol) == req.protocol
    ensures Leads(b, p, Starts(req), [Search(Some(n), u)], b', c')
    ensures b'.subs == b.subs && b'.shares == b.shares && b'.mutex == b.mutex
    ensures var identity := IdentityProperties(b.subs[n], req.name, n, req.protocol, u);
            && c' == Call(req, n, req.capacity, Listing(b.subs[n], identity, true)) && IdentityFor(identity, n)
            && Get(identity, RequestName) == req.name && Get(identity, Protocol) == req.protocol
            && var was := Get(b.subs[n], VolumeUUID);
               Get(identity, VolumeUUID) == if was == Empty then u else was
  {
    DecisionIsIdentity(req, n, b.subs[n], u);
    hide DecideExisting, HasCompleteV2Identity, Matches;
    b', c' := Do(b, p, Starts(req), Search(Some(n), u)), Move(b, p, Starts(req), Search(Some(n), u));
    LeadsOnce(b, p, Starts(req), Search(Some(n), u));
    hide Leads, IdentityFor;
  }

  // ----- The destination of a clone -----

  /** A clone of a volume needs that volume; one of a snapshot goes on without. */
  lemma SourceIsNeededIff(b: Backend, p: Pid, c: Call)
    requires Enabled(b, p, c, ReadSource)
    ensures var m := c.req.source.volume;
            && (Move(b, p, c, ReadSource).pc.Failed? <==> m !in b.subs && c.req.source.FromVolume?)
            && Move(b, p, c, ReadSource) ==
                 c.(pc := if m in b.subs then Choosing(b.subs[m], true, false)
                          else if c.req.source.FromSnapshot? then Choosing(map[], false, false)
                          else Failed(false))
  {
  }

  /** The destination that a clone goes on with: the one under the current name if that is there; else
      the one under the legacy name, if its record is managed, of the protocol, and names the request or
      its whole claim; and if that is not there either, a new one under the current name. It gives up
      exactly on a legacy one without that record. */
  lemma DestinationIff(b: Backend, p: Pid, c: Call, source: Props, there: bool)
    requires c.pc == Choosing(source, there, false)
    ensures var n, legacy, req := c.req.backendName, c.req.legacyName, c.req;
            var first := Move(b, p, c, Choose);
            var second := if n !in b.subs && legacy != n then Move(b, p, first, Choose) else first;
            var proven := && legacy in b.subs
                          && Get(b.subs[legacy], ManagedBy) == ManagedByNasty
                          && Get(b.subs[legacy], Protocol) == req.protocol
                          && (|| Get(b.subs[legacy], CSIVolumeName) == req.name
                              || (&& req.pvcName != Empty && Get(b.subs[legacy], PVCName) == req.pvcName
                                  && req.pvcNamespace != Empty
                                  && Get(b.subs[legacy], PVCNamespace) == req.pvcNamespace));
            && (n !in b.subs && legacy != n ==> first == c.(pc := Choosing(source, there, true)))
            && second ==
                 if n in b.subs then c.(name := n, pc := Cloning(CloneFacts(source, there, true, false, false)))
                 else if legacy !in b.subs then
                   c.(name := n, pc := Cloning(CloneFacts(source, there, false, false, false)))
                 else if proven then
                   c.(name := legacy, pc := Cloning(CloneFacts(source, there, true, true, false)))
                 else c.(pc := Failed(false))
  {
  }

  // ----- Clones -----

  /** The destination is looked for under the current and then the legacy name. */
  function Choosings(req: Request): seq<Step> {
    if req.backendName == req.legacyName then [Choose] else [Choose] + [Choose]
  }

  lemma CloneIsChosen(b: Backend, p: Pid, req: Request) returns (c': Call, facts: CloneFacts)
    requires NotThere(b, req) && SourceAvailable(b, req.source)
    ensures Leads(b, p, Starts(req), [ReadSource] + Choosings(req), b, c')
    ensures c' == Call(req, req.backendName, req.capacity, Cloning(facts)) && !facts.existed && !facts.legacy
  {
    var c1 := Move(b, p, Starts(req), ReadSource);
    LeadsOnce(b, p, Starts(req), ReadSource);
    var c2 := Move(b, p, c1, Choose);
    LeadsOnce(b, p, c1, Choose);
    if req.backendName == req.legacyName {
      c' := c2;
    } else {
      c' := Move(b, p, c2, Choose);
      LeadsOnce(b, p, c2, Choose);
      LeadsOn(b, p, c1, [Choose], b, c2, [Choose], b, c');
    }
    facts := c'.pc.facts;
    LeadsOn(b, p, Starts(req), [ReadSource], b, c1, Choosings(req), b, c');
    hide Leads;
  }

  /** The copy is made, sized and given its own identity, with which it is handed to the protocol. */
  lemma CopyIsRecorded(b: Backend, p: Pid, c: Call, uuid: Text, current: Reported, resized: Reported)
    returns (b': Backend, c': Call)
    requires c.pc.Cloning? && c.name !in b.subs && SourceAvailable(b, c.req.source) && b.mutex.None?
    requires WellFormed(c.req) && New(b.issued, uuid) && SizeOf(c, current, resized).Ok?
    ensures Leads(b, p, c, [Clone] + ([Reread(uuid, current, resized)] + [Persist]), b', c')
    ensures c' == Call(c.req, c.name, SizeOf(c, current, resized).value, Selecting(false))
    ensures b'.subs.Keys == b.subs.Keys + {c.name} && RecordsClone(b'.subs[c.name], c') && b'.mutex.None?
    ensures Get(b'.subs[c.name], VolumeUUID) == uuid
    ensures b'.shares == b.shares && b'.issued.Keys == b.issued.Keys + {uuid}
    ensures c.name in b'.origins && b'.origins[c.name] == c.req.source
  {
    CloneIsMade(b, p, c);
    hide Do, Move, Enabled, Leads, SourceCopy, SizeOf;
    var b1, c1 := Do(b, p, c, Clone), Move(b, p, c, Clone);
    SameSize(c, c1, current, resized);
    LeadsOnce(b, p, c, Clone);
    b', c' := CopyIsSized(b1, p, c1, uuid, current, resized);
    LeadsOn(b, p, c, [Clone], b1, c1, [Reread(uuid, current, resized)] + [Persist], b', c');
  }

  lemma CopyIsStored(b: Backend, p: Pid, c: Call) returns (b': Backend, c': Call)
    requires c.name in b.subs && b.mutex.None? && WellFormed(c.req)
    requires c.pc.Persisting? && IdentityFor(c.pc.identity, c.name)
    requires c.pc == Persisting(map[], CloneBase(c.capacity, c.pc.identity), c.pc.identity, true, ThenProtocol)
    requires Get(c.pc.identity, RequestName) == c.req.name && Get(c.pc.identity, Protocol) == c.req.protocol
    ensures Leads(b, p, c, [Persist], b', c') && c' == c.(pc := Selecting(false))
    ensures b'.subs.Keys == b.subs.Keys && RecordsClone(b'.subs[c.name], c') && b'.mutex.None?
    ensures Get(b'.subs[c.name], VolumeUUID) == Get(c.pc.identity, VolumeUUID)
    ensures b'.shares == b.shares && b'.issued == b.issued && b'.origins == b.origins
  {
    EmptyWants(Wanted(map[], c.pc.base, c.pc.identity), c);
    hide Do, Move, Enabled, Leads, IdentityFor, Wanted, PropertiesContain, HasCompleteV2Identity;
    WriteContains(b, p, c);
    b', c' := Do(b, p, c, Persist), Move(b, p, c, Persist);
    ContainedRecordsClone(b'.subs[c.name], c);
    SameRecord(c, c');
    UUIDIsKept(b'.subs[c.name], c);
    LeadsOnce(b, p, c, Persist);
  }

  lemma CopyIsSized(b: Backend, p: Pid, c: Call, uuid: Text, current: Reported, resized: Reported)
    returns (b': Backend, c': Call)
    requires c.pc.Rereading? && c.pc.facts.created && c.name in b.subs && c.req.source != NoSource && b.mutex.None?
    requires WellFormed(c.req) && New(b.issued, uuid) && SizeOf(c, current, resized).Ok?
    ensures Leads(b, p, c, [Reread(uuid, current, resized)] + [Persist], b', c')
    ensures c' == Call(c.req, c.name, SizeOf(c, current, resized).value, Selecting(false))
    ensures b'.subs.Keys == b.subs.Keys && RecordsClone(b'.subs[c.name], c') && b'.mutex.None?
    ensures Get(b'.subs[c.name], VolumeUUID) == uuid
    ensures b'.shares == b.shares && b'.issued.Keys == b.issued.Keys + {uuid} && b'.origins == b.origins
  {
    CopyIsClassified(b, p, c, uuid, current, resized);
    DecisionIsIdentity(c.req, c.name, map[], uuid);
    hide Do, Move, Enabled, Leads, SizeOf, DecideExisting, HasCompleteV2Identity, RecordsClone, IdentityFor, CloneBase;
    var st := Reread(uuid, current, resized);
    var b1, c1 := Do(b, p, c, st), Move(b, p, c, st);
    b', c' := CopyIsStored(b1, p, c1);
    LeadsOnce(b, p, c, st);
    LeadsOn(b, p, c, [st], b1, c1, [Persist], b', c');
  }

  /** A clone that its request owns, not presented yet, with the size that is asked for. */
  ghost predicate Recorded(b: Backend, c: Call) {
    && c.name == c.req.backendName && c.name in b.subs && c.name !in b.shares && RecordsClone(b.subs[c.name], c)
    && WellFormed(c.req) && c.capacity > 0 && b.mutex.None?
  }

  lemma OwnIsAccepted(b: Backend, c: Call, uuid: Text) returns (identity: Props)
    requires Recorded(b, c) && uuid != Empty
    ensures DecideExisting(c.req, c.name, b.subs[c.name], uuid) == Identity(identity)
    ensures IdentityFor(identity, c.name) && Get(identity, VolumeUUID) == Get(b.subs[c.name], VolumeUUID)
    ensures Get(identity, RequestName) == c.req.name && Get(identity, Protocol) == c.req.protocol
  {
    identity := DecideExisting(c.req, c.name, b.subs[c.name], uuid).properties;
    DecisionIsIdentity(c.req, c.name, b.subs[c.name], uuid);
    DecideExistingIff(c.req, c.name, b.subs[c.name], uuid);
    hide DecideExisting, IdentityFor;
  }

  lemma OwnIsSelected(b: Backend, p: Pid, c: Call, uuid: Text) returns (b': Backend, c': Call, identity: Props)
    requires Recorded(b, c) && c.pc == Selecting(false) && New(b.issued, uuid)
    ensures Leads(b, p, c, [Select(uuid)], b', c') && c' == c.(pc := Listing(b.subs[c.name], identity, false))
    ensures b'.subs == b.subs && b'.shares == b.shares && b'.mutex == b.mutex && b'.origins == b.origins
    ensures b'.issued.Keys == b.issued.Keys + {uuid}
    ensures IdentityFor(identity, c.name) && Get(identity, VolumeUUID) == Get(b.subs[c.name], VolumeUUID)
    ensures Get(identity, RequestName) == c.req.name && Get(identity, Protocol) == c.req.protocol
  {
    identity := OwnIsAccepted(b, c, uuid);
    hide DecideExisting, IdentityFor, RecordsClone;
    b', c' := Do(b, p, c, Select(uuid)), Move(b, p, c, Select(uuid));
    LeadsOnce(b, p, c, Select(uuid));
    hide Leads;
  }

  lemma OwnIsListed(b: Backend, p: Pid, c: Call, time: Text) returns (b': Backend, c': Call)
    requires Recorded(b, c) && c.pc.Listing? && !c.pc.adopting && c.pc.local == b.subs[c.name]
    ensures Leads(b, p, c, [List(time)], b', c') && b' == b
    ensures c' == c.(pc := if c.req.kind.IsBlock() then Acquiring
                           else Persisting(c.pc.local, BaseOf(c, time), c.pc.identity, false, ThenExpose))
  {
    hide BaseOf, HasCompleteV2Identity;
    b', c' := Do(b, p, c, List(time)), Move(b, p, c, List(time));
    LeadsOnce(b, p, c, List(time));
    hide Leads;
  }

  lemma OwnIsAcquired(b: Backend, p: Pid, c: Call, uuid: Text, time: Text)
    returns (b': Backend, c': Call, identity: Props)
    requires Recorded(b, c) && c.pc.Acquiring? && New(b.issued, uuid)
    ensures Leads(b, p, c, [Acquire(uuid, time)], b', c')
    ensures c' == c.(pc := Persisting(b.subs[c.name], BaseOf(c, time), identity, false, ThenExpose))
    ensures b'.subs == b.subs && b'.shares == b.shares && b'.mutex == b.mutex && b'.origins == b.origins
    ensures IdentityFor(identity, c.name) && Get(identity, VolumeUUID) == Get(b.subs[c.name], VolumeUUID)
    ensures Get(identity, RequestName) == c.req.name && Get(identity, Protocol) == c.req.protocol
  {
    identity := OwnIsAccepted(b, c, uuid);
    hide DecideExisting, IdentityFor, RecordsClone, BaseOf;
    b', c' := Do(b, p, c, Acquire(uuid, time)), Move(b, p, c, Acquire(uuid, time));
    LeadsOnce(b, p, c, Acquire(uuid, time));
    hide Leads;
  }

  function Handing(req: Request, u: Text, v: Text, time: Text): seq<Step> {
    [Select(u)] + ([List(time)] + (if req.kind.IsBlock() then [Acquire(v, time)] else []))
  }

  lemma OwnIsHandedOver(b: Backend, p: Pid, c: Call, u: Text, v: Text, time: Text)
    returns (b': Backend, c': Call, identity: Props)
    requires Recorded(b, c) && c.pc == Selecting(false) && New(b.issued, u) && New(b.issued, v) && u != v
    ensures Leads(b, p, c, Handing(c.req, u, v, time), b', c')
    ensures c' == c.(pc := Persisting(b.subs[c.name], BaseOf(c, time), identity, false, ThenExpose))
    ensures b'.subs == b.subs && b'.shares == b.shares && b'.mutex == b.mutex && b'.origins == b.origins
    ensures IdentityFor(identity, c.name) && Get(identity, VolumeUUID) == Get(b.subs[c.name], VolumeUUID)
    ensures Get(identity, RequestName) == c.req.name && Get(identity, Protocol) == c.req.protocol
  {
    hide IdentityFor, Leads, RecordsClone, BaseOf;
    var b1, c1, identity1 := OwnIsSelected(b, p, c, u);
    SameRecord(c, c1);
    var b2, c2 := OwnIsListed(b1, p, c1, time);
    SameBase(c, c1, time);
    if c.req.kind.IsBlock() {
      SameRecord(c, c2);
      b', c', identity := OwnIsAcquired(b2, p, c2, v, time);
      SameBase(c, c2, time);
      LeadsOn(b1, p, c1, [List(time)], b2, c2, [Acquire(v, time)], b', c');
    } else {
      b', c', identity := b2, c2, identity1;
      assert [List(time)] + [] == [List(time)];
    }
    var rest := [List(time)] + (if c.req.kind.IsBlock() then [Acquire(v, time)] else []);
    LeadsOn(b, p, c, [Select(u)], b1, c1, rest, b', c');
  }

  /** What a finished clone is: owned by the request with a UUID of its own, recorded as made from the
      source, and stored and presented in its size. */
  ghost predicate IsClone(b: Backend, req: Request, size: nat, uuid: Text) {
    var n := req.backendName;
    && TakenOver(b, req, n) && Get(b.subs[n], VolumeUUID) == uuid && Get(b.subs[n], CapacityBytes) == Number(size)
    && b.shares[n] == size && n in b.origins && b.origins[n] == req.source
  }

  lemma HandedOverFinishes(b: Backend, p: Pid, c: Call, u: Text, v: Text, time: Text)
    returns (b': Backend, c': Call)
    requires Recorded(b, c) && c.pc == Selecting(false) && time != Empty
    requires New(b.issued, u) && New(b.issued, v) && u != v
    requires c.name in b.origins && b.origins[c.name] == c.req.source
    ensures Leads(b, p, c, Handing(c.req, u, v, time) + ([Persist] + [Expose]), b', c')
    ensures IsClone(b', c.req, c.capacity, Get(b.subs[c.name], VolumeUUID)) && c'.pc == Returned(c.capacity)
    ensures b'.subs.Keys == b.subs.Keys
  {
    hide IdentityFor, Leads, RecordsClone, HasCompleteV2Identity, Handing;
    var b1, c1, identity := OwnIsHandedOver(b, p, c, u, v, time);
    b', c' := WriteTakesOver(b1, p, c1);
    UUIDIsKept(b'.subs[c.name], c1);
    CapacityIsStored(b'.subs[c.name], c1, time);
    LeadsOn(b, p, c, Handing(c.req, u, v, time), b1, c1, [Persist] + [Expose], b', c');
    hide Wanted, PropertiesContain;
  }

  lemma CapacityIsStored(q: Props, c: Call, time: Text)
    requires c.pc.Persisting? && c.pc.base == BaseOf(c, time) && IdentityFor(c.pc.identity, c.name)
    requires PropertiesContain(q, Wanted(c.pc.local, c.pc.base, c.pc.identity))
    ensures Get(q, CapacityBytes) == Number(c.capacity)
  {
    assert CapacityBytes !in IDENTITY_KEYS;
    assert Wanted(c.pc.local, c.pc.base, c.pc.identity)[CapacityBytes] == Number(c.capacity);
  }

  /** A clone of a source that is there, to a name that is not, over any of the four protocols, can be
      carried out, and ends with the clone owned, presented and answered in the size it was given. */
  lemma CloneConverges(b: Backend, p: Pid, req: Request, us: seq<Text>, time: Text,
                       current: Reported, resized: Reported)
    returns (b': Backend, c': Call)
    requires WellFormed(req) && NotThere(b, req) && req.backendName !in b.shares && b.mutex.None? && time != Empty
    requires SourceAvailable(b, req.source) && SizeOf(Starts(req), current, resized).Ok?
    requires |us| == 3 && AllNew(b.issued, us)
    ensures Leads(b, p, Starts(req),
                  [ReadSource] + Choosings(req)
                    + ([Clone] + ([Reread(us[0], current, resized)] + [Persist])
                       + (Handing(req, us[1], us[2], time) + ([Persist] + [Expose]))), b', c')
    ensures var size := SizeOf(Starts(req), current, resized).value;
            size >= req.capacity && IsClone(b', req, size, us[0]) && c'.pc == Returned(size)
    ensures b'.subs.Keys == b.subs.Keys + {req.backendName}
  {
    hide Leads, RecordsClone, IsClone, Handing, Choosings, SizeOf, SourceCopy;
    var c1, facts := CloneIsChosen(b, p, req);
    SameSize(Starts(req), c1, current, resized);
    SizeIsPositive(c1, current, resized);
    hide Starts;
    var b2, c2 := CopyIsRecorded(b, p, c1, us[0], current, resized);
    assert New(b2.issued, us[1]) && New(b2.issued, us[2]) && us[1] != us[2];
    b', c' := HandedOverFinishes(b2, p, c2, us[1], us[2], time);
    var copying := [Clone] + ([Reread(us[0], current, resized)] + [Persist]);
    var handing := Handing(req, us[1], us[2], time) + ([Persist] + [Expose]);
    LeadsOn(b, p, c1, copying, b2, c2, handing, b', c');
    LeadsOn(b, p, Starts(req), [ReadSource] + Choosings(req), b, c1, copying + handing, b', c');
  }
}
