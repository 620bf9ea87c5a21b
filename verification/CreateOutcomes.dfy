/** What becomes of a create, from both sides: when it is refused, when it takes a found subvolume
    over, that without errors it succeeds, and that with an error what it made is deleted again. */
module CreateOutcomes {
  import opened CreateIdentity
  import opened CreateOwnership
  import opened CreateRetry
  import opened CreateSteps
  import opened NameReuse
  import opened VolumeIdentity
  import opened Wrappers

  // ----- Another size -----

  /** The volume is known to have another size than is asked for: by the capacity that is noted on its
      share, or for block volumes by the one that is stored. */
  predicate HasOtherSize(b: Backend, req: Request, capacity: nat, n: Name, p: Props) {
    if req.kind.ISCSI? || req.kind.NVMeOF? then
      CapacityBytes in p && p[CapacityBytes].Number? && p[CapacityBytes].n !in {0, capacity}
    else n in b.shares && b.shares[n] !in {0, capacity}
  }

  /** Unless it adopts, a create refuses a volume exactly if that has another size, whether or not it
      is presented, and writes nothing to find out. */
  lemma ListRefusesIff(b: Backend, p: Pid, c: Call, time: Text)
    requires Enabled(b, p, c, List(time)) && !c.pc.adopting && c.capacity > 0
    ensures Move(b, p, c, List(time)).pc == Failed(false) <==> HasOtherSize(b, c.req, c.capacity, c.name, c.pc.local)
    ensures EffectOf(b, p, c, List(time)) == Nothing
  {
    hide BaseOf;
  }

  /** What a create that is not refused, and finds the volume presented, answers with. */
  lemma ListAnswers(b: Backend, p: Pid, c: Call, time: Text)
    requires Enabled(b, p, c, List(time)) && !Move(b, p, c, List(time)).pc.Failed? && c.name in b.shares
    ensures var pc := Move(b, p, c, List(time)).pc;
            pc.Persisting? && pc.after == ThenReturn(c.capacity)
  {
    hide BaseOf;
  }

  /** Where a create of another size can be, and how many steps it has left. */
  ghost predicate Refusing(b: Backend, c: Call, req: Request, left: nat) {
    && c.req == req && c.capacity == req.capacity
    && match c.pc
       case Searching => left == 4
       case Selecting(legacyTurn) => if legacyTurn then left == 2 && req.backendName !in b.subs else left == 3
       case Listing(local, _, adopting) =>
         left == 1 && !adopting && c.name == HomeIn(b, req) && c.name in b.subs && local == b.subs[c.name]
       case Failed(aborted) => !aborted && left == 0
       case _ => false
  }

  ghost predicate Mismatched(b: Backend, req: Request) {
    && req.source == NoSource && WellFormed(req) && NotAdoptable(b, req)
    && var n := HomeIn(b, req); n in b.subs && HasOtherSize(b, req, req.capacity, n, b.subs[n])
  }

  lemma MismatchStep(b: Backend, p: Pid, c: Call, req: Request, left: nat, st: Step) returns (left': nat)
    requires Mismatched(b, req) && Refusing(b, c, req, left) && Enabled(b, p, c, st)
    ensures EffectOf(b, p, c, st) == Nothing && left' < left && Refusing(b, Move(b, p, c, st), req, left')
  {
    hide HasCompleteV2Identity, DecideExisting, PropertiesContain, Wanted, BaseOf, Matches, MayAdopt;
    var pc := Move(b, p, c, st).pc;
    left' := if pc.Selecting? then (if pc.legacyTurn then 2 else 3) else if pc.Listing? then 1 else 0;
    match st
    case Search(found, _) => if found.Some? { SearchFindsNothing(b, req, found.value); }
    case List(time) => ListRefusesIff(b, p, c, time);
    case _ =>
  }

  lemma SearchFindsNothing(b: Backend, req: Request, n: Name)
    requires NotAdoptable(b, req) && n in b.subs && Matches(req, b.subs[n])
    ensures !MayAdopt(req, b.subs[n])
  {
  }

  lemma MismatchIsAboutData(b: Backend, b': Backend, c: Call, req: Request, left: nat)
    requires Mismatched(b, req) && Refusing(b, c, req, left) && Same(b', b)
    ensures Mismatched(b', req) && Refusing(b', c, req, left)
  {
  }

  /** A create of a volume that is there in another size, wherever it fails, writes nothing and is never
      answered with success: it takes at most four steps and then has failed. */
  lemma {:induction false} MismatchIsRefused(states: seq<State>, steps: seq<Step>, p: Pid, req: Request, i: nat)
    returns (left: nat)
    requires |states| == |steps| + 1 && i < |states|
    requires p in states[0].calls && states[0].calls[p] == Starts(req) && Mismatched(states[0].backend, req)
    requires forall j :: 0 <= j < |steps| ==>
               CanHappen(states[j], Act(p, steps[j])) && states[j + 1] == Next(states[j], Act(p, steps[j]))
    ensures Same(states[i].backend, states[0].backend)
    ensures p in states[i].calls && Refusing(states[i].backend, states[i].calls[p], req, left) && left + i <= 4
    ensures i == 4 ==> states[i].calls[p].pc == Failed(false)
  {
    hide Mismatched, Refusing, Enabled, Move, EffectOf;
    if i == 0 {
      left := 4;
      StartRefuses(states[0].backend, req);
    } else {
      var before := MismatchIsRefused(states, steps, p, req, i - 1);
      assert states[i - 1 + 1] == Next(states[i - 1], Act(p, steps[i - 1]));
      assert CanHappen(states[i - 1], Act(p, steps[i - 1]));
      var b, c := states[i - 1].backend, states[i - 1].calls[p];
      MismatchCarries(states[0].backend, b, req);
      left := MismatchStep(b, p, c, req, before, steps[i - 1]);
      MismatchIsAboutData(b, states[i].backend, states[i].calls[p], req, left);
    }
    RefusingLeft(states[i].backend, states[i].calls[p], req, left);
  }

  lemma StartRefuses(b: Backend, req: Request)
    requires Mismatched(b, req)
    ensures Refusing(b, Starts(req), req, 4)
  {
  }

  lemma MismatchCarries(b: Backend, b': Backend, req: Request)
    requires Mismatched(b, req) && Same(b', b)
    ensures Mismatched(b', req)
  {
  }

  lemma RefusingLeft(b: Backend, c: Call, req: Request, left: nat)
    requires Refusing(b, c, req, left)
    ensures left == 0 ==> c.pc == Failed(false)
  {
  }

  // ----- Adoption -----

  /** The search takes a subvolume over exactly if it is managed, over the request's protocol, and marked
      as adoptable or asked for by the class; it fails exactly if only the protocol is wrong; and else the
      create goes on without it. It comes up only with what has the request's name or its whole claim. */
  lemma SearchAdoptsIff(b: Backend, p: Pid, c: Call, n: Name, uuid: Text)
    requires Enabled(b, p, c, Search(Some(n), uuid))
    ensures n in b.subs
    ensures var q := b.subs[n];
            var named := Get(q, CSIVolumeName) == c.req.name;
            var claimed := && c.req.pvcName != Empty && PVCName in q && q[PVCName] == c.req.pvcName
                           && c.req.pvcNamespace != Empty && PVCNamespace in q && q[PVCNamespace] == c.req.pvcNamespace;
            var adoptable := && ManagedBy in q && q[ManagedBy] == ManagedByNasty && Get(q, Protocol) != Empty
                             && ((Adoptable in q && q[Adoptable] == Yes) || c.req.adoptExisting);
            var c' := Move(b, p, c, Search(Some(n), uuid));
            && (named || claimed)
            && (c'.pc.Listing? <==> adoptable && q[Protocol] == c.req.protocol)
            && (c'.pc == Failed(false) <==> adoptable && q[Protocol] != c.req.protocol)
            && (c'.pc == Selecting(false) <==> !adoptable)
            && (c'.pc.Listing? ==> c'.name == n && c'.pc.local == q && c'.pc.adopting)
  {
  }

  // ----- Undoing -----

  /** Whatever goes wrong before a subvolume that the call made is owned, deleting it is what an
      error-free end of the call comes to; and if a write erred, that follows a clean read-back. */
  lemma MadeIsRolledBack(b: Backend, p: Pid, c: Call) returns (b': Backend, c': Call)
    requires c.pc.Created() && (c.pc.Rereading? || c.pc.Persisting?)
    requires b.mutex.None? && c.name in b.subs && !Owned(b, c.name)
    ensures Leads(b, p, c, [Abandon, RollbackRead(true), Delete(true)], b', c')
    ensures b'.subs == b.subs - {c.name} && b'.shares == b.shares && c'.pc == Failed(false)
  {
    var b1, c1 := Do(b, p, c, Abandon), Move(b, p, c, Abandon);
    b', c' := RollbackDeletes(b1, p, c1);
    LeadsOnce(b, p, c, Abandon);
    LeadsOn(b, p, c, [Abandon], b1, c1, [RollbackRead(true)] + [Delete(true)], b', c');
    assert [Abandon] + ([RollbackRead(true)] + [Delete(true)]) == [Abandon, RollbackRead(true), Delete(true)];
    hide *;
  }

  lemma RollbackDeletes(b: Backend, p: Pid, c: Call) returns (b': Backend, c': Call)
    requires c.pc == RollingBack(false) && b.mutex.None? && c.name in b.subs && !Owned(b, c.name)
    ensures Leads(b, p, c, [RollbackRead(true)] + [Delete(true)], b', c')
    ensures b'.subs == b.subs - {c.name} && b'.shares == b.shares && c'.pc == Failed(false)
  {
    hide HasCompleteV2Identity;
    var b1, c1 := Do(b, p, c, RollbackRead(true)), Move(b, p, c, RollbackRead(true));
    b', c' := Do(b1, p, c1, Delete(true)), Move(b1, p, c1, Delete(true));
    LeadsOnce(b, p, c, RollbackRead(true));
    LeadsOnce(b1, p, c1, Delete(true));
    LeadsOn(b, p, c, [RollbackRead(true)], b1, c1, [Delete(true)], b', c');
    hide Leads;
  }

  lemma FailedWriteIsVerified(b: Backend, p: Pid, c: Call) returns (b': Backend, c': Call)
    requires c.pc.Persisting? && c.pc.created && Enabled(b, p, c, WriteErrs(false))
    requires c.name in b.subs && !Owned(b, c.name) && IdentityFor(c.pc.identity, c.name)
    ensures Leads(b, p, c, [WriteErrs(false)] + [Verify(true)], b', c')
    ensures c'.pc == RollingBack(false) && c'.name == c.name
    ensures b'.subs == b.subs && b'.shares == b.shares && b'.mutex.None?
  {
    hide Wanted, PropertiesContain, HasCompleteV2Identity, IdentityFor;
    var w := Wanted(c.pc.local, c.pc.base, c.pc.identity);
    if PropertiesContain(b.subs[c.name], w) {
      WantedOwns(b.subs[c.name], c.pc.local, c.pc.base, c.pc.identity, c.name);
    }
    var b1, c1 := Do(b, p, c, WriteErrs(false)), Move(b, p, c, WriteErrs(false));
    b', c' := Do(b1, p, c1, Verify(true)), Move(b1, p, c1, Verify(true));
    LeadsOnce(b, p, c, WriteErrs(false));
    LeadsOnce(b1, p, c1, Verify(true));
    LeadsOn(b, p, c, [WriteErrs(false)], b1, c1, [Verify(true)], b', c');
    hide Leads;
  }

  /** A write that certainly failed leads a call to the rollback of what it made. */
  lemma FailedWriteIsRolledBack(b: Backend, p: Pid, c: Call) returns (b': Backend, c': Call)
    requires c.pc.Persisting? && c.pc.created && Enabled(b, p, c, WriteErrs(false))
    requires c.name in b.subs && !Owned(b, c.name) && IdentityFor(c.pc.identity, c.name)
    ensures Leads(b, p, c, [WriteErrs(false)] + [Verify(true)] + ([RollbackRead(true)] + [Delete(true)]), b', c')
    ensures b'.subs == b.subs - {c.name} && b'.shares == b.shares && c'.pc == Failed(false)
  {
    var b1, c1 := FailedWriteIsVerified(b, p, c);
    assert !Owned(b1, c.name);
    b', c' := RollbackDeletes(b1, p, c1);
    LeadsOn(b, p, c, [WriteErrs(false)] + [Verify(true)], b1, c1, [RollbackRead(true)] + [Delete(true)], b', c');
    hide *;
  }

  // ----- Creates that meet no errors -----

  /** The lookups of a volume that is not there. */
  function FreshLookups(req: Request, u: Text, v: Text): seq<Step> {
    if req.backendName == req.legacyName then [Select(u)] else [Select(u)] + [Select(v)]
  }

  function Making(req: Request, u: Text, v: Text, time: Text): seq<Step> {
    if req.kind.NFS? then [Create(v, time)] else [Acquire(u, time)] + [Create(v, time)]
  }

  predicate NotThere(b: Backend, req: Request) { req.backendName !in b.subs && req.legacyName !in b.subs }

  lemma FreshLookupsProceed(b: Backend, p: Pid, c: Call, req: Request, u: Text, v: Text)
    returns (b': Backend, c': Call)
    requires NotThere(b, req) && At(b, b, c, req, Selecting(false)) && New(b.issued, u) && New(b.issued, v) && u != v
    ensures Leads(b, p, c, FreshLookups(req, u, v), b', c')
    ensures At(b, b', c', req, if req.kind.NFS? then Creating else Acquiring) && c'.name == req.backendName
    ensures b'.issued.Keys <= b.issued.Keys + {u, v} && b'.makers == b.makers
  {
    hide DecideExisting, HasCompleteV2Identity;
    var b1, c1 := Do(b, p, c, Select(u)), Move(b, p, c, Select(u));
    LeadsOnce(b, p, c, Select(u));
    if req.backendName == req.legacyName {
      b', c' := b1, c1;
    } else {
      b', c' := Do(b1, p, c1, Select(v)), Move(b1, p, c1, Select(v));
      LeadsOnce(b1, p, c1, Select(v));
      LeadsOn(b, p, c, [Select(u)], b1, c1, [Select(v)], b', c');
    }
    hide Leads;
  }

  lemma CreateMakes(b: Backend, p: Pid, c: Call, v: Text, time: Text)
    requires c.pc.Creating? && c.name !in b.subs && New(b.issued, v) && WellFormed(c.req)
    ensures Enabled(b, p, c, Create(v, time))
    ensures var b', c' := Do(b, p, c, Create(v, time)), Move(b, p, c, Create(v, time));
            var identity := IdentityProperties(map[], c.req.name, c.name, c.req.protocol, v);
            && b'.subs == b.subs[c.name := map[]] && b'.shares == b.shares && b'.mutex == b.mutex
            && c' == c.(pc := Persisting(map[], BaseOf(c, time), identity, true, ThenExpose))
            && CallInv(b', p, c') && IdentityFor(identity, c.name)
  {
    DecisionIsIdentity(c.req, c.name, map[], v);
    EmptyOwnsNothing(c.name);
    hide IdentityProperties, BaseOf, DecideExisting, HasCompleteV2Identity, IdentityFor;
  }

  lemma MakingProceeds(b: Backend, p: Pid, c: Call, req: Request, u: Text, v: Text, time: Text)
    returns (b': Backend, c': Call, identity: Props)
    requires NotThere(b, req) && c.name == req.backendName && WellFormed(req)
    requires At(b, b, c, req, if req.kind.NFS? then Creating else Acquiring)
    requires New(b.issued, u) && New(b.issued, v) && u != v && b.mutex.None?
    ensures Leads(b, p, c, Making(req, u, v, time), b', c')
    ensures b'.subs == b.subs[c.name := map[]] && b'.mutex.None? && CallInv(b', p, c')
    ensures c' == Call(req, c.name, req.capacity, Persisting(map[], BaseOf(c', time), identity, true, ThenExpose))
    ensures Get(identity, RequestName) == req.name && Get(identity, Protocol) == req.protocol
  {
    hide HasCompleteV2Identity, CallInv, IdentityFor, BaseOf, Leads;
    var b1, c1 := b, c;
    if !req.kind.NFS? {
      b1, c1 := Do(b, p, c, Acquire(u, time)), Move(b, p, c, Acquire(u, time));
      LeadsOnce(b, p, c, Acquire(u, time));
    }
    assert c1 == Call(req, c.name, req.capacity, Creating) && b1.subs == b.subs && b1.mutex.None? && New(b1.issued, v);
    hide Do, Move, Enabled;
    CreateMakes(b1, p, c1, v, time);
    b', c' := Do(b1, p, c1, Create(v, time)), Move(b1, p, c1, Create(v, time));
    identity := IdentityProperties(map[], req.name, c.name, req.protocol, v);
    SameBase(c1, c', time);
    LeadsOnce(b1, p, c1, Create(v, time));
    if !req.kind.NFS? { LeadsOn(b, p, c, [Acquire(u, time)], b1, c1, [Create(v, time)], b', c'); }
  }

  lemma WriteKeepsNames(b: Backend, p: Pid, c: Call)
    requires Enabled(b, p, c, Persist) && c.name in b.subs
    ensures var b1, c1 := Do(b, p, c, Persist), Move(b, p, c, Persist);
            Enabled(b1, p, c1, Expose) ==> Do(b1, p, c1, Expose).subs.Keys == b.subs.Keys
  {
    hide Wanted, PropertiesContain;
  }

  lemma WritingMade(b: Backend, p: Pid, c: Call, time: Text) returns (b': Backend, c': Call)
    requires CallInv(b, p, c) && c.pc.Persisting? && c.pc.local == map[] && c.pc.after == ThenExpose
    requires c.req.source == NoSource && c.capacity == c.req.capacity && time != Empty && b.mutex.None?
    requires c.pc.base == BaseOf(c, time) && c.name in b.subs && c.name == c.req.backendName
    requires Get(c.pc.identity, RequestName) == c.req.name && Get(c.pc.identity, Protocol) == c.req.protocol
    ensures Leads(b, p, c, [Persist] + [Expose], b', c')
    ensures Finished(b', c.req) && HomeIn(b', c.req) == c.name == c'.name && c'.pc == Returned(c.req.capacity)
    ensures b'.subs.Keys == b.subs.Keys
  {
    hide CallInv, BaseOf, Finished, Leads, PropertiesContain;
    EmptyWants(Wanted(c.pc.local, c.pc.base, c.pc.identity), c);
    hide Wanted;
    assert HomeIn(b, c.req) == c.name && Enabled(b, p, c, Persist);
    CreateFinishes(b, p, c, time);
    WriteKeepsNames(b, p, c);
    hide Do, Move, Enabled, HomeIn;
    var b1, c1 := Do(b, p, c, Persist), Move(b, p, c, Persist);
    b', c' := Do(b1, p, c1, Expose), Move(b1, p, c1, Expose);
    LeadsOnce(b, p, c, Persist);
    LeadsOnce(b1, p, c1, Expose);
    LeadsOn(b, p, c, [Persist], b1, c1, [Expose], b', c');
  }

  /** UUIDs that are new, and all different. */
  predicate AllNew(issued: map<Text, Name>, us: seq<Text>) {
    (forall i :: 0 <= i < |us| ==> New(issued, us[i])) && forall i, j :: 0 <= i < j < |us| ==> us[i] != us[j]
  }

  lemma SelectingConverges(b: Backend, p: Pid, c: Call, req: Request, us: seq<Text>, time: Text)
    returns (b': Backend, c': Call)
    requires req.source == NoSource && WellFormed(req) && NotThere(b, req) && b.mutex.None? && time != Empty
    requires At(b, b, c, req, Selecting(false)) && |us| == 4 && AllNew(b.issued, us)
    ensures Leads(b, p, c, FreshLookups(req, us[0], us[1]) + (Making(req, us[2], us[3], time) + ([Persist] + [Expose])),
                  b', c')
    ensures Finished(b', req) && c'.pc == Returned(req.capacity) && c'.name == req.backendName
    ensures HomeIn(b', req) == req.backendName && b'.subs.Keys == b.subs.Keys + {req.backendName}
  {
    hide Leads, Finished, CallInv, BaseOf, Making, FreshLookups, HomeIn;
    var b2, c2 := FreshLookupsProceed(b, p, c, req, us[0], us[1]);
    var b3, c3, identity := MakingProceeds(b2, p, c2, req, us[2], us[3], time);
    b', c' := WritingMade(b3, p, c3, time);
    LeadsOn(b2, p, c2, Making(req, us[2], us[3], time), b3, c3, [Persist] + [Expose], b', c');
    LeadsOn(b, p, c, FreshLookups(req, us[0], us[1]), b2, c2, Making(req, us[2], us[3], time) + ([Persist] + [Expose]),
            b', c');
  }

  /** A create of a volume that is not there, over any of the four protocols, can be carried out, and
      ends with the volume finished: owned by the request, with its properties and presented. */
  lemma CreateConverges(b: Backend, p: Pid, req: Request, u: Text, us: seq<Text>, time: Text)
    returns (b': Backend, c': Call)
    requires req.source == NoSource && WellFormed(req) && NotThere(b, req) && b.mutex.None? && time != Empty
    requires |us| == 4 && AllNew(b.issued, [u] + us)
    ensures Leads(b, p, Starts(req),
                  [Search(None, u)] + (FreshLookups(req, us[0], us[1])
                    + (Making(req, us[2], us[3], time) + ([Persist] + [Expose]))), b', c')
    ensures Finished(b', req) && c'.pc == Returned(req.capacity) && c'.name == req.backendName
    ensures HomeIn(b', req) == req.backendName && b'.subs.Keys == b.subs.Keys + {req.backendName}
  {
    assert forall i :: 0 <= i < 4 ==> ([u] + us)[i + 1] == us[i];
    assert ([u] + us)[0] == u;
    hide Leads, Finished, Making, FreshLookups, HomeIn;
    var b1, c1 := SearchProceeds(b, p, req, u);
    b', c' := SelectingConverges(b1, p, c1, req, us, time);
    var rest := FreshLookups(req, us[0], us[1]) + (Making(req, us[2], us[3], time) + ([Persist] + [Expose]));
    LeadsOn(b, p, Starts(req), [Search(None, u)], b1, c1, rest, b', c');
  }

  // ----- Errors -----

  /** The same data, apart from the lock and the UUIDs drawn. */
  predicate SameData(b: Backend, b': Backend) { b' == b.(mutex := b'.mutex, issued := b'.issued) }

  /** The failure of a backend call that writes. */
  function Erring(works: Step, committed: bool): Step
    requires works.Create? || works.Clone? || works.Persist? || works.Expose?
  {
    match works
    case Create(_, _) => CreateErrs(committed)
    case Clone => CloneErrs(committed)
    case Persist => WriteErrs(committed)
    case Expose => ExposeErrs(committed)
  }

  /** Whenever a call would write to the backend, that may as well end with an error: after the very
      same effect on the data, or after none. */
  lemma ErrorsHideEffects(b: Backend, p: Pid, c: Call, works: Step)
    requires works.Create? || works.Clone? || works.Persist? || works.Expose?
    requires Enabled(b, p, c, works) && EffectOf(b, p, c, works) != Nothing
    ensures Enabled(b, p, c, Erring(works, true)) && Enabled(b, p, c, Erring(works, false))
    ensures SameData(Do(b, p, c, works), Do(b, p, c, Erring(works, true)))
    ensures SameData(b, Do(b, p, c, Erring(works, false)))
  {
    hide BaseOf, IdentityProperties, PersistExisting, HasCompleteV2Identity, Wanted, PropertiesContain, SourceCopy;
    hide SourceAvailable, DecideExisting, ClassifyClone, ProvesLegacyOwnership, SizeOf, CloneBase, MayAdopt;
  }

  // ----- Aborted calls -----

  /** A call ends as aborted, with its outcome unknown, exactly at three places: at a rollback that is
      refused since the write may have happened, at one that cannot read its subvolume or finds it owned,
      and at a failed write to what the call did not make, unless that is read back without it. */
  lemma AbortedIff(b: Backend, p: Pid, c: Call, st: Step)
    requires Enabled(b, p, c, st)
    ensures Move(b, p, c, st).pc == Failed(true) <==>
              || st.RollbackRefuses?
              || (st.RollbackRead? &&
                    (!st.readable || (c.name in b.subs && HasCompleteV2Identity(b.subs[c.name], c.name))))
              || (st.Verify? && !c.pc.created &&
                    !(st.readable && c.name in b.subs && !PropertiesContain(b.subs[c.name], c.pc.wanted)))
  {
    hide HasCompleteV2Identity, PropertiesContain, DecideExisting, ClassifyClone, ProvesLegacyOwnership;
    hide Wanted, BaseOf, CloneBase, IdentityProperties, MayAdopt, SizeOf;
  }

  /** What is still ahead of a call that meets an error. */
  function Rank(pc: Pc): nat {
    match pc
    case Returned(_) => 0
    case Failed(_) => 0
    case Deleting => 1
    case RollingBack(_) => 2
    case Verifying(_, _) => 3
    case _ => 4
  }

  /** The step brings the call nearer to its end. */
  ghost predicate Nears(b: Backend, p: Pid, c: Call, st: Step) {
    && Enabled(b, p, c, st)
    && var b', c' := Do(b, p, c, st), Move(b, p, c, st);
       && Rank(c'.pc) < Rank(c.pc) && b'.mutex == (if c'.pc.HasLock() then Some(p) else None)
       && b'.subs == (if c.pc.Deleting? then b.subs - {c.name} else b.subs)
       && c'.name == c.name && b'.shares == b.shares
  }

  lemma AbandonNears(b: Backend, p: Pid, c: Call)
    requires !c.pc.Done() && !c.pc.HasLock() && !c.pc.RollingBack? && b.mutex.None?
    ensures Nears(b, p, c, Abandon)
  {
  }

  lemma RollbackNears(b: Backend, p: Pid, c: Call)
    requires b.mutex.None?
    ensures c.pc == RollingBack(true) ==> Nears(b, p, c, RollbackRefuses)
    ensures c.pc == RollingBack(false) ==> Nears(b, p, c, RollbackRead(true))
  {
    hide HasCompleteV2Identity;
  }

  lemma LockedNears(b: Backend, p: Pid, c: Call)
    requires b.mutex == Some(p)
    ensures c.pc.Verifying? ==> Nears(b, p, c, Verify(true))
    ensures c.pc.Deleting? ==> Nears(b, p, c, Delete(true))
  {
    hide HasCompleteV2Identity, PropertiesContain;
  }

  lemma ErrorMoves(b: Backend, p: Pid, c: Call) returns (st: Step)
    requires !c.pc.Done() && b.mutex == if c.pc.HasLock() then Some(p) else None
    ensures Nears(b, p, c, st)
  {
    hide Nears;
    st := match c.pc
          case Verifying(_, _) => Verify(true)
          case RollingBack(aborted) => (if aborted then RollbackRefuses else RollbackRead(true))
          case Deleting => Delete(true)
          case _ => Abandon;
    if c.pc.HasLock() {
      LockedNears(b, p, c);
    } else if c.pc.RollingBack? {
      RollbackNears(b, p, c);
    } else {
      AbandonNears(b, p, c);
    }
  }

  /** No call ever gets stuck: wherever it is, it can end, which frees the lock, presents nothing and
      deletes no other subvolume than its own. */
  lemma {:induction false} CallCanEnd(b: Backend, p: Pid, c: Call)
    returns (steps: seq<Step>, b': Backend, c': Call)
    requires b.mutex == if c.pc.HasLock() then Some(p) else None
    ensures Leads(b, p, c, steps, b', c') && c'.pc.Done() && |steps| <= 4
    ensures b'.mutex.None? && b'.shares == b.shares && b.subs.Keys - {c.name} <= b'.subs.Keys <= b.subs.Keys
    ensures |steps| <= Rank(c.pc)
    decreases Rank(c.pc)
  {
    if c.pc.Done() {
      steps, b', c' := [], b, c;
    } else {
      var st := ErrorMoves(b, p, c);
      var b1, c1 := Do(b, p, c, st), Move(b, p, c, st);
      var rest;
      hide Enabled, Do, Move, Leads;
      rest, b', c' := CallCanEnd(b1, p, c1);
      steps := [st] + rest;
      LeadsOnce(b, p, c, st);
      LeadsOn(b, p, c, [st], b1, c1, rest, b', c');
    }
  }

  // ----- Snapshots, expansions and crashes -----

  lemma ActionKeepsSnapshots(s: State, a: Action, id: Text)
    requires CanHappen(s, a) && id in s.backend.snaps
    ensures id in Next(s, a).backend.snaps && Next(s, a).backend.snaps[id] == s.backend.snaps[id]
  {
    hide Move, Enabled;
  }

  lemma SnapshotIsTaken(s: State, id: Text, n: Name)
    requires CanHappen(s, TakeSnapshot(id, n))
    ensures n in s.backend.subs && id in Next(s, TakeSnapshot(id, n)).backend.snaps
    ensures Next(s, TakeSnapshot(id, n)).backend.snaps[id] == Snapshot(n, s.backend.subs[n])
  {
  }

  /** A snapshot keeps for the rest of the run what its volume recorded when it was taken, whatever
      becomes of the volume. */
  lemma {:induction false} SnapshotIsPermanent(states: seq<State>, actions: seq<Action>, id: Text, n: Name,
                                               i: nat, j: nat)
    requires IsPath(states, actions) && i < |actions| && actions[i] == TakeSnapshot(id, n) && i < j < |states|
    ensures n in states[i].backend.subs && id in states[j].backend.snaps
    ensures states[j].backend.snaps[id] == Snapshot(n, states[i].backend.subs[n])
    decreases j
  {
    hide CanHappen, Next;
    assert CanHappen(states[j - 1], actions[j - 1]) && states[j - 1 + 1] == Next(states[j - 1], actions[j - 1]);
    if j == i + 1 {
      SnapshotIsTaken(states[i], id, n);
    } else {
      SnapshotIsPermanent(states, actions, id, n, i, j - 1);
      ActionKeepsSnapshots(states[j - 1], actions[j - 1], id);
    }
  }

  /** An expansion records the new size of its volume, and touches nothing else. */
  lemma ExpandOnlyResizes(s: State, n: Name, capacity: nat, m: Name, k: Key)
    requires CanHappen(s, Expand(n, capacity)) && m in s.backend.subs
    ensures var t := Next(s, Expand(n, capacity));
            && t.calls == s.calls && t.backend == s.backend.(subs := t.backend.subs)
            && t.backend.subs.Keys == s.backend.subs.Keys
            && Get(t.backend.subs[m], k) ==
                 if m == n && k == CapacityBytes then Number(capacity) else Get(s.backend.subs[m], k)
  {
  }

  /** The steps of deleting a volume. */
  function Deleting(s: State, n: Name): seq<Action> {
    (if n in s.backend.shares then [Withdraw(n)] else []) + [Remove(n)]
  }

  /** A volume can be deleted as soon as no call under way has to do with it, whatever calls have ended;
      and then nothing is left of it but its snapshots. */
  lemma VolumeCanBeDeleted(s: State, n: Name) returns (states: seq<State>)
    requires n in s.backend.subs
    requires forall p :: p in s.calls && (s.calls[p].name == n || n in NamesOf(s.calls[p].req)) ==>
               s.calls[p].pc.Returned? || s.calls[p].pc.Failed?
    ensures IsPath(states, Deleting(s, n)) && states[0] == s
    ensures var t := states[|states| - 1];
            && t.calls == s.calls && t.backend.subs == s.backend.subs - {n}
            && t.backend.shares == s.backend.shares - {n} && t.backend.snaps == s.backend.snaps
            && t.backend.deleted == s.backend.deleted + {n}
  {
    if n in s.backend.shares {
      var s1 := Next(s, Withdraw(n));
      states := [s, s1, Next(s1, Remove(n))];
    } else {
      states := [s, Next(s, Remove(n))];
      assert s.backend.shares - {n} == s.backend.shares;
    }
  }

  /** A crash ends every call and frees the lock, and leaves all data as it is. */
  lemma CrashKeepsData(s: State, p: Pid)
    requires p in s.calls
    ensures var t := Next(s, Crash);
            && t.backend == s.backend.(mutex := None)
            && p in t.calls
            && t.calls[p] == if s.calls[p].pc.Returned? || s.calls[p].pc.Failed? then s.calls[p]
                             else s.calls[p].(pc := Failed(false))
  {
  }
}
