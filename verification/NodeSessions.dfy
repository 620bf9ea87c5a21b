/** The stage and unstage RPCs of a node over the lifecycle lock, with the operations on a volume's
    device that take time: a filesystem repair, and a logout from the volume's session. Any number
    of RPCs for any volumes interleave, and any of them may be cancelled at any moment, in the
    middle of a repair too. */
module NodeSessions {
  import ISCSIStaging
  import opened LifecycleLock

  datatype Kind = Stage | Unstage

  /** Inside its critical section an RPC works, has a command under way, or is about to return. */
  datatype Progress = Working | Repairing | LoggingOut | Over

  datatype Rpc = Rpc(kind: Kind, progress: Progress)

  datatype Node<E(==)> = Node(lock: State<E>, rpcs: map<Goroutine, Rpc>)

  /** What can happen: a step of the lock, of which `Enter` begins an RPC of the given kind, the
      beginning or end of a command, or the end of an RPC's work, whatever its result. */
  datatype Event<E> =
    | Lock(action: Action<E>, kind: Kind)
    | RepairBegins(g: Goroutine)
    | RepairEnds(g: Goroutine)
    | LogoutBegins(g: Goroutine)
    | LogoutEnds(g: Goroutine)
    | Finishes(g: Goroutine)

  ghost predicate Is<E>(s: Node<E>, g: Goroutine, progress: Progress) {
    g in s.rpcs && s.rpcs[g].progress == progress
  }

  /** The lock has been acquired, and the RPC's work is under way with no command running. */
  ghost predicate AtWork<E>(s: Node<E>, g: Goroutine) {
    Is(s, g, Working) && g in s.lock.phases && s.lock.phases[g].Holding?
  }

  /** Work begins when `lock` has returned; the unlock closure runs when the work is over. A repair
      belongs to staging and does not begin once the RPC is cancelled. Commands end by themselves:
      nothing here says that the lock is still held by then. */
  ghost predicate CanOccur<E>(s: Node<E>, e: Event<E>) {
    match e
    case Lock(a, _) => Enabled(s.lock, a) && (a.Unlock? ==> Is(s, a.g, Over))
    case RepairBegins(g) => AtWork(s, g) && s.rpcs[g].kind.Stage? && g !in s.lock.cancelled
    case RepairEnds(g) => Is(s, g, Repairing)
    case LogoutBegins(g) => AtWork(s, g)
    case LogoutEnds(g) => Is(s, g, LoggingOut)
    case Finishes(g) => AtWork(s, g)
  }

  ghost function Progresses<E>(s: Node<E>, g: Goroutine, progress: Progress): Node<E>
    requires g in s.rpcs
  {
    s.(rpcs := s.rpcs[g := s.rpcs[g].(progress := progress)])
  }

  ghost function After<E>(s: Node<E>, e: Event<E>): Node<E>
    requires CanOccur(s, e)
  {
    match e
    case Lock(a, kind) =>
      Node(Next(s.lock, a),
           if a.Enter? then s.rpcs[a.g := Rpc(kind, Working)] else if a.Release? then s.rpcs - {a.g} else s.rpcs)
    case RepairBegins(g) => Progresses(s, g, Repairing)
    case RepairEnds(g) => Progresses(s, g, Working)
    case LogoutBegins(g) => Progresses(s, g, LoggingOut)
    case LogoutEnds(g) => Progresses(s, g, Working)
    case Finishes(g) => Progresses(s, g, Over)
  }

  ghost predicate IsNodeRun<E>(states: seq<Node<E>>, events: seq<Event<E>>) {
    && |states| == |events| + 1 && states[0] == Node(Init(), map[])
    && forall i :: 0 <= i < |events| ==> CanOccur(states[i], events[i]) && states[i + 1] == After(states[i], events[i])
  }

  // ----- The invariant -----

  /** A command of the goroutine is under way. */
  ghost predicate Busy<E>(s: Node<E>, g: Goroutine) { Is(s, g, Repairing) || Is(s, g, LoggingOut) }

  /** Every RPC is inside the lock's protocol, and one with a command under way holds the lock. */
  ghost predicate NodeInv<E>(s: Node<E>) {
    && Inv(s.lock)
    && (forall g :: g in s.rpcs ==> g in s.lock.phases)
    && (forall g :: Busy(s, g) ==> s.lock.phases[g].Holding?)
    && (forall g :: Is(s, g, Repairing) ==> s.rpcs[g].kind.Stage?)
  }

  /** A step of the lock moves nobody else, and moves a holder only by its unlock. */
  lemma LockMovesOnly<E>(s: State<E>, a: Action<E>, g: Goroutine)
    requires Enabled(s, a) && g in s.phases && (a.g != g || a.Cancel? || (s.phases[g].Holding? && !a.Unlock?))
    ensures g in Next(s, a).phases && Next(s, a).phases[g] == s.phases[g]
  {
  }

  lemma EntersOnce<E>(s: State<E>, a: Action<E>)
    requires Enabled(s, a)
    ensures a.Enter? ==> a.g in Next(s, a).phases
    ensures a.Release? ==> s.phases[a.g].Leaving?
    ensures !a.Release? ==> s.phases.Keys <= Next(s, a).phases.Keys
  {
  }

  lemma EventKeeps<E>(s: Node<E>, e: Event<E>)
    requires NodeInv(s) && CanOccur(s, e)
    ensures NodeInv(After(s, e))
  {
    hide Inv, Enabled, Next, WellFormed;
    if e.Lock? {
      StepKeeps(s.lock, e.action);
      EntersOnce(s.lock, e.action);
      forall g | g in s.lock.phases &&
          (e.action.g != g || e.action.Cancel? || (s.lock.phases[g].Holding? && !e.action.Unlock?))
        ensures g in Next(s.lock, e.action).phases && Next(s.lock, e.action).phases[g] == s.lock.phases[g]
      {
        LockMovesOnly(s.lock, e.action, g);
      }
    }
  }

  lemma {:induction false} NodeRunKeeps<E>(states: seq<Node<E>>, events: seq<Event<E>>, i: nat)
    requires IsNodeRun(states, events) && i < |states|
    ensures NodeInv(states[i])
  {
    if i == 0 {
      InitHolds<E>();
    } else {
      NodeRunKeeps(states, events, i - 1);
      hide NodeInv, CanOccur, After;
      assert states[i - 1 + 1] == After(states[i - 1], events[i - 1]);
      EventKeeps(states[i - 1], events[i - 1]);
    }
  }

  lemma InitHolds<E>()
    ensures NodeInv<E>(Node(Init(), map[]))
  {
  }

  // ----- The main results -----

  /** In every state of every run a volume has at most one command under way: in particular no
      repair while an unstage, or anything else, logs out of its session. */
  lemma OneCommandPerVolume<E>(states: seq<Node<E>>, events: seq<Event<E>>, i: nat, g: Goroutine, h: Goroutine)
    requires IsNodeRun(states, events) && i < |states| && Busy(states[i], g) && Busy(states[i], h)
    ensures g in states[i].lock.phases && h in states[i].lock.phases
    ensures states[i].lock.phases[g].volume == states[i].lock.phases[h].volume ==> g == h
  {
    NodeRunKeeps(states, events, i);
    if states[i].lock.phases[g].volume == states[i].lock.phases[h].volume {
      OneTokenHolder(states[i].lock, g, h);
    }
  }

  /** No volume has a repair and a logout in progress at once. */
  lemma RepairNeverOverlapsLogout<E>(states: seq<Node<E>>, events: seq<Event<E>>, i: nat, v: Volume)
    requires IsNodeRun(states, events) && i < |states|
    ensures !exists g, h ::
              && Is(states[i], g, Repairing) && Is(states[i], h, LoggingOut)
              && g in states[i].lock.phases && states[i].lock.phases[g].volume == v
              && h in states[i].lock.phases && states[i].lock.phases[h].volume == v
  {
    forall g, h | && Is(states[i], g, Repairing) && g in states[i].lock.phases && states[i].lock.phases[g].volume == v
                  && Is(states[i], h, LoggingOut) && h in states[i].lock.phases
      ensures states[i].lock.phases[h].volume != v
    {
      OneCommandPerVolume(states, events, i, g, h);
    }
  }

  /** A repair that has begun is never interrupted: until it ends by itself its RPC keeps the lock,
      whatever is cancelled meanwhile. */
  lemma {:induction false} RepairIsNotInterrupted<E>(states: seq<Node<E>>, events: seq<Event<E>>, i: nat, j: nat,
                                                     g: Goroutine)
    requires IsNodeRun(states, events) && i <= j < |states| && Is(states[i], g, Repairing)
    requires forall k :: i <= k < j ==> events[k] != RepairEnds(g)
    ensures Is(states[j], g, Repairing) && g in states[j].lock.phases && states[j].lock.phases[g].Holding?
    decreases j
  {
    hide NodeInv, After, CanOccur;
    NodeRunKeeps(states, events, j);
    if i < j {
      RepairIsNotInterrupted(states, events, i, j - 1, g);
      assert states[j - 1 + 1] == After(states[j - 1], events[j - 1]) && CanOccur(states[j - 1], events[j - 1]);
      RepairGoesOn(states[j - 1], events[j - 1], g);
    }
    RepairingHolds(states[j], g);
  }

  lemma RepairingHolds<E>(s: Node<E>, g: Goroutine)
    requires NodeInv(s) && Is(s, g, Repairing)
    ensures g in s.lock.phases && s.lock.phases[g].Holding?
  {
    assert Busy(s, g);
    hide Inv;
  }

  lemma RepairGoesOn<E>(s: Node<E>, e: Event<E>, g: Goroutine)
    requires Is(s, g, Repairing) && g in s.lock.phases && s.lock.phases[g].Holding? && CanOccur(s, e) &&
             e != RepairEnds(g)
    ensures Is(After(s, e), g, Repairing)
  {
    if e.Lock? { EntersOnce(s.lock, e.action); HolderDoesNotEnter(s.lock, e.action, g); }
    hide Next, WellFormed;
  }

  lemma HolderDoesNotEnter<E>(s: State<E>, a: Action<E>, g: Goroutine)
    requires Enabled(s, a) && g in s.phases && s.phases[g].Holding?
    ensures a.g == g ==> a.Unlock? || a.Cancel?
  {
  }

  // ----- The commands of one RPC -----

  /** The events of the commands that staging or unstaging runs. */
  function Commands<E>(trace: seq<ISCSIStaging.Event>, g: Goroutine): seq<Event<E>> {
    if trace == [] then []
    else (if trace[0].Repair? then [RepairBegins(g), RepairEnds(g)] else [LogoutBegins(g), LogoutEnds(g)])
         + Commands(trace[1..], g)
  }

  ghost predicate Reaches<E>(s: Node<E>, events: seq<Event<E>>, t: Node<E>)
    decreases |events|
  {
    if events == [] then s == t else CanOccur(s, events[0]) && Reaches(After(s, events[0]), events[1..], t)
  }

  /** Whatever commands staging or unstaging has run, in that order, its RPC can run here while it
      holds the lock, and is then at work again: the runs above cover all of them. Once the RPC is
      cancelled that is so of the commands that are left, of which none is a repair. */
  lemma {:induction false} CommandsCanOccur<E>(s: Node<E>, g: Goroutine, trace: seq<ISCSIStaging.Event>)
    requires AtWork(s, g)
    requires forall e :: e in trace && e.Repair? ==> s.rpcs[g].kind.Stage? && g !in s.lock.cancelled
    ensures Reaches(s, Commands(trace, g), s)
  {
    if trace != [] {
      var begins: Event<E> := if trace[0].Repair? then RepairBegins(g) else LogoutBegins(g);
      var ends: Event<E> := if trace[0].Repair? then RepairEnds(g) else LogoutEnds(g);
      var s1 := After(s, begins);
      assert After(s1, ends) == s;
      CommandsCanOccur(s, g, trace[1..]);
      var rest: seq<Event<E>> := Commands(trace[1..], g);
      assert Commands(trace, g) == [begins] + ([ends] + rest);
      ReachesOn(s1, ends, rest, s);
      ReachesOn(s, begins, [ends] + rest, s);
    }
  }

  lemma ReachesOn<E>(s: Node<E>, e: Event<E>, rest: seq<Event<E>>, t: Node<E>)
    requires CanOccur(s, e) && Reaches(After(s, e), rest, t)
    ensures Reaches(s, [e] + rest, t)
  {
    assert ([e] + rest)[1..] == rest;
    hide CanOccur, After;
  }

  /** The steps by which an RPC comes to hold the lock of a volume that nobody uses. */
  function Opening<E>(g: Goroutine, v: Volume, spare: E, kind: Kind): seq<Event<E>> {
    [Lock(Enter(g, v, spare, false), kind), Lock(Receive(g), kind), Lock(Recheck(g), kind)]
  }

  /** The steps by which it ends. */
  function Closing<E>(g: Goroutine, kind: Kind): seq<Event<E>> {
    [Finishes(g), Lock(Unlock(g), kind), Lock(Return(g), kind), Lock(Release(g), kind)]
  }

  lemma StartingSteps<E>(s: Node<E>, g: Goroutine, v: Volume, spare: E, kind: Kind)
    returns (s1: Node<E>, s2: Node<E>, working: Node<E>)
    requires WellFormed(s.lock) && g !in s.lock.phases && g !in s.lock.cancelled
    requires v !in s.lock.entries && spare !in s.lock.heap
    ensures var steps := Opening(g, v, spare, kind);
            && CanOccur(s, steps[0]) && After(s, steps[0]) == s1
            && CanOccur(s1, steps[1]) && After(s1, steps[1]) == s2
            && CanOccur(s2, steps[2]) && After(s2, steps[2]) == working
    ensures working.rpcs == s.rpcs[g := Rpc(kind, Working)]
    ensures working.lock == State(s.lock.entries[v := spare], s.lock.heap[spare := Entry(0, 1)],
                                  s.lock.phases[g := Holding(v, spare)], s.lock.cancelled)
  {
    var l := s.lock;
    var entries, rpcs := l.entries[v := spare], s.rpcs[g := Rpc(kind, Working)];
    s1 := Node(State(entries, l.heap[spare := Entry(1, 1)], l.phases[g := Waiting(v, spare)], l.cancelled), rpcs);
    s2 := Node(State(entries, l.heap[spare := Entry(0, 1)], l.phases[g := Received(v, spare)], l.cancelled), rpcs);
    working := Node(State(entries, l.heap[spare := Entry(0, 1)], l.phases[g := Holding(v, spare)], l.cancelled), rpcs);
  }

  /** An RPC for a volume that nobody uses gets to work, alone with its volume. */
  lemma RpcCanStart<E>(s: Node<E>, g: Goroutine, v: Volume, spare: E, kind: Kind) returns (working: Node<E>)
    requires WellFormed(s.lock) && g !in s.lock.phases && g !in s.lock.cancelled
    requires v !in s.lock.entries && spare !in s.lock.heap
    ensures Reaches(s, Opening(g, v, spare, kind), working)
    ensures working.rpcs == s.rpcs[g := Rpc(kind, Working)]
    ensures working.lock == State(s.lock.entries[v := spare], s.lock.heap[spare := Entry(0, 1)],
                                  s.lock.phases[g := Holding(v, spare)], s.lock.cancelled)
    ensures AtWork(working, g) && WellFormed(working.lock)
  {
    var s1, s2;
    s1, s2, working := StartingSteps(s, g, v, spare, kind);
    assert AtWork(working, g) && WellFormed(working.lock);
    hide Enabled, Next, CanOccur, After, AtWork, WellFormed;
    var enter := Lock(Enter(g, v, spare, false), kind);
    var receive, recheck := Lock(Receive(g), kind), Lock(Recheck(g), kind);
    ReachesOn(s2, recheck, [], working);
    ReachesOn(s1, receive, [recheck], working);
    ReachesOn(s, enter, [receive, recheck], working);
  }

  lemma EndingSteps<E>(s: Node<E>, g: Goroutine, kind: Kind)
    returns (s1: Node<E>, s2: Node<E>, s3: Node<E>, ended: Node<E>)
    requires AtWork(s, g) && WellFormed(s.lock)
    requires var p := s.lock.phases[g];
             && s.lock.heap[p.entry] == Entry(0, 1)
             && p.volume in s.lock.entries && s.lock.entries[p.volume] == p.entry
    ensures var steps := Closing(g, kind);
            && CanOccur(s, steps[0]) && After(s, steps[0]) == s1
            && CanOccur(s1, steps[1]) && After(s1, steps[1]) == s2
            && CanOccur(s2, steps[2]) && After(s2, steps[2]) == s3
            && CanOccur(s3, steps[3]) && After(s3, steps[3]) == ended
    ensures ended.rpcs == s.rpcs - {g} && ended.lock.entries == s.lock.entries - {s.lock.phases[g].volume}
    ensures ended.lock.phases == s.lock.phases - {g} && ended.lock.cancelled == s.lock.cancelled - {g}
  {
    var l := s.lock;
    var v, e := l.phases[g].volume, l.phases[g].entry;
    var rpcs := s.rpcs[g := s.rpcs[g].(progress := Over)];
    s1 := Node(l, rpcs);
    s2 := Node(l.(phases := l.phases[g := Returning(v, e)]), rpcs);
    s3 := Node(l.(phases := l.phases[g := Leaving(v, e)], heap := l.heap[e := Entry(1, 1)]), rpcs);
    ended := Node(State(l.entries - {v}, l.heap[e := Entry(1, 0)], l.phases - {g}, l.cancelled - {g}), s.rpcs - {g});
  }

  /** An RPC at work that is alone with its volume can end, and leaves nothing behind in the table,
      among the goroutines or among the RPCs. */
  lemma RpcCanEnd<E>(s: Node<E>, g: Goroutine, kind: Kind) returns (ended: Node<E>)
    requires AtWork(s, g) && WellFormed(s.lock)
    requires var p := s.lock.phases[g];
             && s.lock.heap[p.entry] == Entry(0, 1)
             && p.volume in s.lock.entries && s.lock.entries[p.volume] == p.entry
    ensures Reaches(s, Closing(g, kind), ended)
    ensures ended.rpcs == s.rpcs - {g} && ended.lock.entries == s.lock.entries - {s.lock.phases[g].volume}
    ensures ended.lock.phases == s.lock.phases - {g} && ended.lock.cancelled == s.lock.cancelled - {g}
  {
    var s1, s2, s3;
    s1, s2, s3, ended := EndingSteps(s, g, kind);
    hide Enabled, Next, CanOccur, After;
    var unlock, giveBack, release := Lock(Unlock(g), kind), Lock(Return(g), kind), Lock(Release(g), kind);
    ReachesOn(s3, release, [], ended);
    ReachesOn(s2, giveBack, [release], ended);
    ReachesOn(s1, unlock, [giveBack, release], ended);
    ReachesOn(s, Finishes(g), [unlock, giveBack, release], ended);
  }
}
