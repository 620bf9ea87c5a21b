/** The per-volume lifecycle lock of the node service: a keyed, reference-counted lock whose
    waiters can be cancelled. Each entry owns a one-slot channel that carries a single token.

    The protocol is a state machine whose actions are the atomic steps of any number of
    goroutines. `E` is the identity of an entry, so the same machine describes entries that are
    plain names and entries that are objects (see `VolumeLifecycleLocks`). */
module LifecycleLock {

  /** Volume IDs are only compared, so any type of keys will do. */
  type Volume(==, !new)
  type Goroutine = nat

  /** An entry: how many tokens its channel buffers, and how many goroutines refer to it. */
  datatype Entry = Entry(tokens: int, refs: int)

  /** Where a goroutine is inside one call of `lock`, or inside the unlock closure it got back. */
  datatype Phase<E> =
    | Waiting(volume: Volume, entry: E)    // registered under mu, blocked in the select
    | Received(volume: Volume, entry: E)   // took the token, context not checked again yet
    | Holding(volume: Volume, entry: E)    // `lock` returned the unlock closure
    | Returning(volume: Volume, entry: E)  // about to send the token back
    | Leaving(volume: Volume, entry: E)    // without the token, about to release the entry
  {
    predicate HasToken() { Received? || Holding? || Returning? }
  }

  datatype State<E(==)> = State(
    entries: map<Volume, E>,
    heap: map<E, Entry>,
    phases: map<Goroutine, Phase<E>>,
    cancelled: set<Goroutine>)

  /** One atomic step. `spare` is the entry allocated if the volume has none. */
  datatype Action<E> =
    | Enter(g: Goroutine, volume: Volume, spare: E, done: bool)
    | Receive(g: Goroutine)
    | GiveUp(g: Goroutine)
    | Recheck(g: Goroutine)
    | Unlock(g: Goroutine)
    | Return(g: Goroutine)
    | Release(g: Goroutine)
    | Cancel(g: Goroutine)

  function Init<E(==)>(): State<E> { State(map[], map[], map[], {}) }

  ghost predicate WellFormed<E>(s: State<E>) {
    && (forall v :: v in s.entries ==> s.entries[v] in s.heap)
    && (forall g :: g in s.phases ==> s.phases[g].entry in s.heap)
  }

  /** A step is enabled when the Go runtime could take it: a receive needs a buffered token, and
      a send needs the one slot to be free. */
  ghost predicate Enabled<E>(s: State<E>, a: Action<E>) {
    && WellFormed(s)
    && match a
       case Enter(g, v, spare, _) => g !in s.phases && g !in s.cancelled && (v in s.entries || spare !in s.heap)
       case Receive(g) => g in s.phases && s.phases[g].Waiting? && s.heap[s.phases[g].entry].tokens > 0
       case GiveUp(g) => g in s.phases && s.phases[g].Waiting? && g in s.cancelled
       case Recheck(g) => g in s.phases && s.phases[g].Received?
       case Unlock(g) => g in s.phases && s.phases[g].Holding?
       case Return(g) => g in s.phases && s.phases[g].Returning? && s.heap[s.phases[g].entry].tokens < 1
       case Release(g) => g in s.phases && s.phases[g].Leaving?
       case Cancel(g) => g in s.phases
  }

  ghost function Next<E>(s: State<E>, a: Action<E>): State<E>
    requires Enabled(s, a)
  {
    match a
    case Enter(g, v, spare, done) =>
      var known := v in s.entries;
      var e := if known then s.entries[v] else spare;
      var was := if known then s.heap[e] else Entry(1, 0);
      State(s.entries[v := e], s.heap[e := was.(refs := was.refs + 1)],
            s.phases[g := Waiting(v, e)], if done then s.cancelled + {g} else s.cancelled)
    case Receive(g) =>
      var p := s.phases[g];
      s.(heap := s.heap[p.entry := s.heap[p.entry].(tokens := s.heap[p.entry].tokens - 1)],
         phases := s.phases[g := Received(p.volume, p.entry)])
    case GiveUp(g) =>
      s.(phases := s.phases[g := Leaving(s.phases[g].volume, s.phases[g].entry)])
    case Recheck(g) =>
      var p := s.phases[g];
      s.(phases := s.phases[g := if g in s.cancelled then Returning(p.volume, p.entry)
                                 else Holding(p.volume, p.entry)])
    case Unlock(g) =>
      s.(phases := s.phases[g := Returning(s.phases[g].volume, s.phases[g].entry)])
    case Return(g) =>
      var p := s.phases[g];
      s.(heap := s.heap[p.entry := s.heap[p.entry].(tokens := s.heap[p.entry].tokens + 1)],
         phases := s.phases[g := Leaving(p.volume, p.entry)])
    case Release(g) =>
      var p := s.phases[g];
      var left := s.heap[p.entry].refs - 1;
      State(if left == 0 then s.entries - {p.volume} else s.entries,
            s.heap[p.entry := s.heap[p.entry].(refs := left)],
            s.phases - {g}, s.cancelled - {g})
    case Cancel(g) =>
      s.(cancelled := s.cancelled + {g})
  }

  // ----- The invariant -----

  type Phases<E> = map<Goroutine, Phase<E>>

  ghost function Users<E>(ps: Phases<E>, v: Volume): set<Goroutine> {
    set g | g in ps && ps[g].volume == v
  }

  ghost function TokenHolders<E>(ps: Phases<E>, v: Volume): set<Goroutine> {
    set g | g in ps && ps[g].volume == v && ps[g].HasToken()
  }

  ghost function Uses<E>(ps: Phases<E>, g: Goroutine, v: Volume): int { if g in Users(ps, v) then 1 else 0 }

  ghost function Tokens<E>(ps: Phases<E>, g: Goroutine, v: Volume): int { if g in TokenHolders(ps, v) then 1 else 0 }

  ghost predicate SameBut<E>(ps: Phases<E>, qs: Phases<E>, g: Goroutine) {
    forall h :: h != g ==> (h in ps <==> h in qs) && (h in ps && h in qs ==> ps[h] == qs[h])
  }

  /** Two sets that differ at most in `g` differ in size by `g`. */
  lemma SizesDiffer(gs: set<Goroutine>, hs: set<Goroutine>, g: Goroutine)
    requires forall h :: h != g ==> (h in gs <==> h in hs)
    ensures |gs| - (if g in gs then 1 else 0) == |hs| - (if g in hs then 1 else 0)
  {
    if g in gs && g !in hs {
      assert gs == hs + {g};
    } else if g !in gs && g in hs {
      assert hs == gs + {g};
    } else {
      assert gs == hs;
    }
  }

  /** Changing the phase of one goroutine changes the counts only by that goroutine. */
  lemma CountsChange<E>(ps: Phases<E>, qs: Phases<E>, g: Goroutine, v: Volume)
    requires SameBut(ps, qs, g)
    ensures |Users(qs, v)| - Uses(qs, g, v) == |Users(ps, v)| - Uses(ps, g, v)
    ensures |TokenHolders(qs, v)| - Tokens(qs, g, v) == |TokenHolders(ps, v)| - Tokens(ps, g, v)
  {
    SizesDiffer(Users(ps, v), Users(qs, v), g);
    SizesDiffer(TokenHolders(ps, v), TokenHolders(qs, v), g);
  }

  /** The bookkeeping of one live entry: `refs` counts exactly the goroutines between enter and
      release, and there is exactly one token, in the channel or with one goroutine. */
  ghost predicate EntryInv<E>(e: Entry, ps: Phases<E>, v: Volume) {
    && e.refs == |Users(ps, v)| && e.refs > 0
    && 0 <= e.tokens && e.tokens + |TokenHolders(ps, v)| == 1
  }

  /** Every goroutine's entry is the one in the table, and no two volumes share an entry. */
  ghost predicate Shape<E>(s: State<E>) {
    && WellFormed(s)
    && (forall g :: g in s.phases ==> s.phases[g].volume in s.entries)
    && (forall g :: g in s.phases ==> s.entries[s.phases[g].volume] == s.phases[g].entry)
    && (forall v, w :: v in s.entries && w in s.entries && s.entries[v] == s.entries[w] ==> v == w)
    && s.cancelled <= s.phases.Keys
  }

  ghost predicate Inv<E>(s: State<E>) {
    && Shape(s)
    && forall v :: v in s.entries ==> EntryInv(s.heap[s.entries[v]], s.phases, v)
  }

  lemma EnterShape<E>(s: State<E>, a: Action<E>)
    requires Inv(s) && Enabled(s, a) && a.Enter?
    ensures Shape(Next(s, a))
  {
  }

  lemma EnterKeeps<E>(s: State<E>, a: Action<E>)
    requires Inv(s) && Enabled(s, a) && a.Enter?
    ensures Inv(Next(s, a))
  {
    var t := Next(s, a);
    EnterShape(s, a);
    forall v | v in t.entries ensures EntryInv(t.heap[t.entries[v]], t.phases, v) {
      CountsChange(s.phases, t.phases, a.g, v);
      if v !in s.entries {
        assert Users(s.phases, v) == {} && TokenHolders(s.phases, v) == {};
      }
    }
  }

  lemma ReleaseShape<E>(s: State<E>, a: Action<E>)
    requires Inv(s) && Enabled(s, a) && a.Release?
    ensures Shape(Next(s, a))
  {
    var t, v := Next(s, a), s.phases[a.g].volume;
    if v !in t.entries {
      CountsChange(s.phases, t.phases, a.g, v);
      forall g | g in t.phases ensures t.phases[g].volume != v {
        assert |Users(t.phases, v)| == 0;
        assert g !in Users(t.phases, v);
      }
    }
  }

  lemma ReleaseKeeps<E>(s: State<E>, a: Action<E>)
    requires Inv(s) && Enabled(s, a) && a.Release?
    ensures Inv(Next(s, a))
  {
    var t := Next(s, a);
    ReleaseShape(s, a);
    forall v | v in t.entries ensures EntryInv(t.heap[t.entries[v]], t.phases, v) {
      CountsChange(s.phases, t.phases, a.g, v);
      assert EntryInv(s.heap[s.entries[v]], s.phases, v);
    }
  }

  /** A goroutine moves on inside its own entry and the number of tokens is conserved. */
  lemma MoveKeeps<E>(s: State<E>, t: State<E>, g: Goroutine, to: Phase<E>, tokens: int)
    requires Inv(s) && g in s.phases && to.volume == s.phases[g].volume && to.entry == s.phases[g].entry
    requires t == s.(phases := s.phases[g := to], heap := s.heap[to.entry := s.heap[to.entry].(tokens := tokens)])
    requires tokens - s.heap[to.entry].tokens
          == (if s.phases[g].HasToken() then 1 else 0) - (if to.HasToken() then 1 else 0)
    requires tokens >= 0
    ensures Inv(t)
  {
    assert Shape(t);
    forall v | v in t.entries ensures EntryInv(t.heap[t.entries[v]], t.phases, v) {
      CountsChange(s.phases, t.phases, g, v);
    }
  }

  /** Every step keeps the invariant. */
  lemma StepKeeps<E>(s: State<E>, a: Action<E>)
    requires Inv(s) && Enabled(s, a)
    ensures Inv(Next(s, a))
  {
    var t := Next(s, a);
    match a
    case Enter(_, _, _, _) => EnterKeeps(s, a);
    case Release(_) => ReleaseKeeps(s, a);
    case Cancel(_) =>
    case _ =>
      var e := s.phases[a.g].entry;
      assert s.heap[e := t.heap[e]] == t.heap;
      MoveKeeps(s, t, a.g, t.phases[a.g], t.heap[e].tokens);
  }

  // ----- Whole runs -----

  /** `states` is a run of the actions: any interleaving of any goroutines over any volumes. */
  ghost predicate IsRun<E>(states: seq<State<E>>, actions: seq<Action<E>>) {
    && |states| == |actions| + 1
    && states[0] == Init()
    && forall i :: 0 <= i < |actions| ==> Enabled(states[i], actions[i]) && states[i + 1] == Next(states[i], actions[i])
  }

  lemma {:induction false} RunKeeps<E>(states: seq<State<E>>, actions: seq<Action<E>>, i: nat)
    requires IsRun(states, actions) && i < |states|
    ensures Inv(states[i])
  {
    if i > 0 {
      RunKeeps(states, actions, i - 1);
      assert states[i - 1 + 1] == Next(states[i - 1], actions[i - 1]);
      StepKeeps(states[i - 1], actions[i - 1]);
    }
  }

  /** What the lock promises in one state. */
  ghost predicate Safe<E>(s: State<E>) {
    && WellFormed(s)
    // at most one holder for each volume
    && (forall g, h | g in s.phases && h in s.phases && s.phases[g].Holding? && s.phases[h].Holding? ::
          s.phases[g].volume == s.phases[h].volume ==> g == h)
    // a goroutine with the token finds the slot free, so sending it back never blocks
    && (forall g :: g in s.phases && s.phases[g].HasToken() ==> s.heap[s.phases[g].entry].tokens == 0)
    // a waiter without a buffered token waits for another goroutine that has it
    && (forall g | g in s.phases && s.phases[g].Waiting? && s.heap[s.phases[g].entry].tokens == 0 ::
          exists h :: h in s.phases && h != g && s.phases[h].HasToken() && s.phases[h].entry == s.phases[g].entry)
    // the table holds exactly the volumes in use, each goroutine under its own volume's entry
    && (forall v :: v in s.entries <==> exists g :: g in s.phases && s.phases[g].volume == v)
    && (forall g :: g in s.phases && s.phases[g].volume in s.entries ==>
         s.entries[s.phases[g].volume] == s.phases[g].entry)
    && (forall v :: v in s.entries ==> s.heap[s.entries[v]].refs == |Users(s.phases, v)|)
  }

  lemma InvIsSafe<E>(s: State<E>)
    requires Inv(s)
    ensures Safe(s)
  {
    forall g, h | g in s.phases && h in s.phases && s.phases[g].Holding? && s.phases[h].Holding?
                  && s.phases[g].volume == s.phases[h].volume
      ensures g == h
    {
      OneTokenHolder(s, g, h);
    }
    forall g | g in s.phases && s.phases[g].HasToken() ensures s.heap[s.phases[g].entry].tokens == 0 {
      assert EntryInv(s.heap[s.phases[g].entry], s.phases, s.phases[g].volume);
      assert {g} <= TokenHolders(s.phases, s.phases[g].volume);
      CardinalityMonotone({g}, TokenHolders(s.phases, s.phases[g].volume));
    }
    forall g | g in s.phases && s.phases[g].Waiting? && s.heap[s.phases[g].entry].tokens == 0
      ensures exists h :: h in s.phases && h != g && s.phases[h].HasToken() && s.phases[h].entry == s.phases[g].entry
    {
      assert EntryInv(s.heap[s.phases[g].entry], s.phases, s.phases[g].volume);
      var h :| h in TokenHolders(s.phases, s.phases[g].volume);
    }
    forall v | v in s.entries ensures exists g :: g in s.phases && s.phases[g].volume == v {
      assert EntryInv(s.heap[s.entries[v]], s.phases, v);
      var g :| g in Users(s.phases, v);
    }
    forall v | v in s.entries ensures s.heap[s.entries[v]].refs == |Users(s.phases, v)| {
      assert EntryInv(s.heap[s.entries[v]], s.phases, v);
    }
  }

  lemma OneTokenHolder<E>(s: State<E>, g: Goroutine, h: Goroutine)
    requires Inv(s) && g in s.phases && h in s.phases
    requires s.phases[g].HasToken() && s.phases[h].HasToken() && s.phases[g].volume == s.phases[h].volume
    ensures g == h
  {
    var v := s.phases[g].volume;
    assert EntryInv(s.heap[s.entries[v]], s.phases, v);
    if g != h {
      assert {g, h} <= TokenHolders(s.phases, v);
      CardinalityMonotone({g, h}, TokenHolders(s.phases, v));
    }
  }

  lemma {:induction false} CardinalityMonotone<T>(small: set<T>, large: set<T>)
    requires small <= large
    ensures |small| <= |large|
  {
    assert large == small + (large - small);
  }

  /** Main result: in every state of every interleaving the lock is safe, and when no goroutine is
      inside, the table is empty. */
  lemma LockIsSafe<E>(states: seq<State<E>>, actions: seq<Action<E>>, i: nat)
    requires IsRun(states, actions) && i < |states|
    ensures Safe(states[i])
    ensures states[i].phases == map[] ==> states[i].entries == map[]
  {
    RunKeeps(states, actions, i);
    InvIsSafe(states[i]);
    var s := states[i];
    if s.phases == map[] {
      assert forall v :: v !in s.entries;
    }
  }

  /** The goroutine has a step of its own that needs nobody else. */
  ghost predicate CanMove<E>(s: State<E>, g: Goroutine) {
    || Enabled(s, Receive(g)) || Enabled(s, GiveUp(g)) || Enabled(s, Recheck(g))
    || Enabled(s, Unlock(g)) || Enabled(s, Return(g)) || Enabled(s, Release(g))
  }

  lemma TokenHolderCanMove<E>(s: State<E>, g: Goroutine)
    requires Safe(s) && g in s.phases && s.phases[g].HasToken()
    ensures CanMove(s, g)
  {
    match s.phases[g]
    case Received(_, _) => assert Enabled(s, Recheck(g));
    case Holding(_, _) => assert Enabled(s, Unlock(g));
    case Returning(_, _) => assert Enabled(s, Return(g));
  }

  lemma TokenlessCanMove<E>(s: State<E>, g: Goroutine)
    requires WellFormed(s) && g in s.phases && !s.phases[g].HasToken()
    requires s.phases[g].Leaving? || g in s.cancelled || s.heap[s.phases[g].entry].tokens > 0
    ensures CanMove(s, g)
  {
    if s.phases[g].Leaving? {
      assert Enabled(s, Release(g));
    } else if g in s.cancelled {
      assert Enabled(s, GiveUp(g));
    } else {
      assert Enabled(s, Receive(g));
    }
  }

  /** No goroutine gets stuck: whoever is inside has a step of its own, or waits uncancelled for
      a goroutine on the same volume that has the token and a step of its own. */
  lemma NoLostToken<E>(states: seq<State<E>>, actions: seq<Action<E>>, i: nat, g: Goroutine)
    requires IsRun(states, actions) && i < |states| && g in states[i].phases
    ensures var s := states[i];
            || CanMove(s, g)
            || (s.phases[g].Waiting? && g !in s.cancelled &&
                exists h ::
                  && h in s.phases && s.phases[h].HasToken()
                  && s.phases[h].volume == s.phases[g].volume && CanMove(s, h))
  {
    LockIsSafe(states, actions, i);
    var s := states[i];
    if s.phases[g].HasToken() {
      TokenHolderCanMove(s, g);
    } else if s.phases[g].Leaving? || g in s.cancelled || s.heap[s.phases[g].entry].tokens > 0 {
      TokenlessCanMove(s, g);
    } else {
      RunKeeps(states, actions, i);
      var h := TokenIsSomewhere(s, g);
      TokenHolderCanMove(s, h);
    }
  }

  lemma TokenIsSomewhere<E>(s: State<E>, g: Goroutine) returns (h: Goroutine)
    requires Inv(s) && g in s.phases && s.heap[s.phases[g].entry].tokens <= 0
    ensures h in s.phases && s.phases[h].HasToken() && s.phases[h].volume == s.phases[g].volume
  {
    assert EntryInv(s.heap[s.phases[g].entry], s.phases, s.phases[g].volume);
    h :| h in TokenHolders(s.phases, s.phases[g].volume);
  }

  // ----- The lock refines a plain ownership table -----

  /** The abstract lock: which goroutine owns which volume. */
  ghost function Owned<E>(ps: Phases<E>): map<Goroutine, Volume> {
    map g | g in ps && ps[g].Holding? :: ps[g].volume
  }

  /** A goroutine about to hold the lock shuts everyone out of its volume. */
  lemma NobodyElseOwns<E>(s: State<E>, g: Goroutine)
    requires Inv(s) && g in s.phases && s.phases[g].HasToken()
    ensures forall h :: h in Owned(s.phases) && h != g ==> Owned(s.phases)[h] != s.phases[g].volume
  {
    forall h | h in Owned(s.phases) && h != g ensures Owned(s.phases)[h] != s.phases[g].volume {
      if Owned(s.phases)[h] == s.phases[g].volume { OneTokenHolder(s, g, h); }
    }
  }

  lemma OwnedAfter<E>(s: State<E>, a: Action<E>)
    requires Enabled(s, a)
    ensures var o, o' := Owned(s.phases), Owned(Next(s, a).phases);
            o' == if a.Recheck? && a.g !in s.cancelled then o[a.g := s.phases[a.g].volume]
                  else if a.Unlock? then o - {a.g}
                  else o
  {
    var o, o' := Owned(s.phases), Owned(Next(s, a).phases);
    var want := if a.Recheck? && a.g !in s.cancelled then o[a.g := s.phases[a.g].volume]
                else if a.Unlock? then o - {a.g}
                else o;
    assert SameBut(s.phases, Next(s, a).phases, a.g);
    assert a.g in o' <==> a.g in want;
    assert o'.Keys == want.Keys;
  }

  /** Each concrete step is an acquire of a volume nobody owns, a release by its owner, or
      invisible; in particular cancelling a goroutine never takes a lock away. */
  lemma StepRefinesOwned<E>(s: State<E>, a: Action<E>)
    requires Inv(s) && Enabled(s, a)
    ensures Inv(Next(s, a))
    ensures var o, o' := Owned(s.phases), Owned(Next(s, a).phases);
            if a.Recheck? && a.g !in s.cancelled then
              (forall h :: h in o ==> o[h] != s.phases[a.g].volume) && o' == o[a.g := s.phases[a.g].volume]
            else if a.Unlock? then
              a.g in o && o' == o - {a.g}
            else o' == o
  {
    assert Inv(Next(s, a)) by { StepKeeps(s, a); }
    OwnedAfter(s, a);
    if a.Recheck? && a.g !in s.cancelled {
      NobodyElseOwns(s, a.g);
      assert a.g !in Owned(s.phases);
    }
  }
}
