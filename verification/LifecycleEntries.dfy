/** The lock table as the objects that implement it. Each method is one atomic section of the
    code: the two that run under `mu`, and the channel operations of an entry. The ghost fields
    record where each goroutine is, so that every method is proved to be a step of the machine
    in `LifecycleLock`. */
module LifecycleEntries {
  import opened LifecycleLock

  class LifecycleEntry {
    var tokens: int
    var refs: int

    constructor ()
      ensures tokens == 1 && refs == 0
    {
      tokens, refs := 1, 0;
    }
  }

  lemma EnterReady(s: State<LifecycleEntry>, step: Action<LifecycleEntry>)
    requires Inv(s) && step.Enter? && step.g !in s.phases
    requires if step.volume in s.entries then step.spare == s.entries[step.volume] else step.spare !in s.heap
    ensures Enabled(s, step)
    ensures var e := step.spare;
            Next(s, step) ==
            State(s.entries[step.volume := e],
                  s.heap[e := if e in s.heap then Entry(s.heap[e].tokens, s.heap[e].refs + 1) else Entry(1, 1)],
                  s.phases[step.g := Waiting(step.volume, e)],
                  if step.done then s.cancelled + {step.g} else s.cancelled)
  {
  }

  /** What entering leaves behind is the machine's next state. */
  lemma EnterReaches(s: State<LifecycleEntry>, t: State<LifecycleEntry>, step: Action<LifecycleEntry>)
    requires Inv(s) && step.Enter? && step.g !in s.phases
    requires if step.volume in s.entries then step.spare == s.entries[step.volume] else step.spare !in s.heap
    requires t.entries == s.entries[step.volume := step.spare] && step.spare in t.heap
    requires t.heap == s.heap[step.spare := t.heap[step.spare]]
    requires t.heap[step.spare] ==
             if step.spare in s.heap then s.heap[step.spare].(refs := s.heap[step.spare].refs + 1) else Entry(1, 1)
    requires t.phases == s.phases[step.g := Waiting(step.volume, step.spare)]
    requires t.cancelled == if step.done then s.cancelled + {step.g} else s.cancelled
    ensures Enabled(s, step) && t == Next(s, step) && Inv(t)
  {
    EnterReady(s, step);
    hide Inv, Enabled, WellFormed, Next;
    StepKeeps(s, step);
  }

  lemma EntryKnown(s: State<LifecycleEntry>, v: Volume)
    requires Inv(s) && v in s.entries
    ensures s.entries[v] in s.heap
  {
  }

  lemma ReleaseReady(s: State<LifecycleEntry>, g: Goroutine)
    requires Inv(s) && g in s.phases && s.phases[g].Leaving?
    ensures s.phases[g].entry in s.heap && Enabled(s, Action.Release(g))
  {
  }

  lemma ReceiveReady(s: State<LifecycleEntry>, g: Goroutine)
    requires Enabled(s, Action.Receive(g))
    ensures g in s.phases && s.phases[g].entry in s.heap
  {
  }

  /** Sending the token back never blocks. */
  lemma SendReady(s: State<LifecycleEntry>, g: Goroutine)
    requires Inv(s) && g in s.phases && s.phases[g].Returning?
    ensures Enabled(s, Action.Return(g)) && s.phases[g].entry in s.heap && s.heap[s.phases[g].entry].tokens == 0
  {
    InvIsSafe(s);
  }

  class VolumeLifecycleLocks {
    var entries: map<Volume, LifecycleEntry>
    ghost var heap: map<LifecycleEntry, Entry>
    ghost var phases: Phases<LifecycleEntry>
    ghost var cancelled: set<Goroutine>

    /** The machine state this table is in. */
    ghost function View(): State<LifecycleEntry>
      reads this
    {
      State(entries, heap, phases, cancelled)
    }

    ghost predicate Valid()
      reads this, heap.Keys
    {
      && Inv(View())
      && forall e :: e in heap ==> heap[e] == Entry(e.tokens, e.refs)
    }

    constructor ()
      ensures Valid() && View() == Init()
    {
      entries, heap, phases, cancelled := map[], map[], map[], {};
    }

    /** Registers the goroutine with the volume's entry, creating the entry if needed. */
    method Enter(ghost g: Goroutine, volume: Volume, ghost done: bool) returns (entry: LifecycleEntry)
      requires Valid() && g !in phases
      modifies this, if volume in entries then {entries[volume]} else {}
      ensures volume in old(entries) || fresh(entry)
      ensures Enabled(old(View()), Action.Enter(g, volume, entry, done))
      ensures View() == Next(old(View()), Action.Enter(g, volume, entry, done))
      ensures Valid()
    {
      hide Inv, Enabled, WellFormed, Next;
      ghost var before := View();
      if volume in entries {
        EntryKnown(before, volume);
        entry := entries[volume];
      } else {
        entry := new LifecycleEntry();
        entries := entries[volume := entry];
      }
      entry.refs := entry.refs + 1;
      heap := heap[entry := Entry(entry.tokens, entry.refs)];
      phases := phases[g := Waiting(volume, entry)];
      cancelled := if done then cancelled + {g} else cancelled;
      EnterReaches(before, View(), Action.Enter(g, volume, entry, done));
    }

    /** The receive in the select of `lock`: takes the buffered token. */
    method Receive(ghost g: Goroutine, entry: LifecycleEntry)
      requires Valid() && Enabled(View(), Action.Receive(g)) && entry == phases[g].entry
      modifies this`heap, this`phases, entry`tokens
      ensures Valid() && View() == Next(old(View()), Action.Receive(g))
    {
      hide Inv, Enabled, WellFormed;
      ghost var before := View();
      ReceiveReady(before, g);
      entry.tokens := entry.tokens - 1;
      heap := heap[entry := Entry(entry.tokens, entry.refs)];
      phases := phases[g := Received(phases[g].volume, entry)];
      StepKeeps(before, Action.Receive(g));
    }

    /** Sends the token back. The slot is free whenever a goroutine gets here. */
    method SendToken(ghost g: Goroutine, entry: LifecycleEntry)
      requires Valid() && g in phases && phases[g].Returning? && entry == phases[g].entry
      modifies this`heap, this`phases, entry`tokens
      ensures Enabled(old(View()), Action.Return(g))
      ensures Valid() && View() == Next(old(View()), Action.Return(g))
    {
      hide Inv, Enabled, WellFormed;
      ghost var before := View();
      SendReady(before, g);
      entry.tokens := entry.tokens + 1;
      heap := heap[entry := Entry(entry.tokens, entry.refs)];
      phases := phases[g := Leaving(phases[g].volume, entry)];
      StepKeeps(before, Action.Return(g));
    }

    /** Drops the goroutine's reference; the last one out removes the entry from the table. */
    method Release(ghost g: Goroutine, volume: Volume, entry: LifecycleEntry)
      requires Valid() && g in phases && phases[g] == Leaving(volume, entry)
      modifies this, entry`refs
      ensures Valid() && View() == Next(old(View()), Action.Release(g))
    {
      hide Inv, Enabled, WellFormed;
      ghost var before := View();
      ReleaseReady(before, g);
      entry.refs := entry.refs - 1;
      if entry.refs == 0 {
        entries := entries - {volume};
      }
      heap := heap[entry := Entry(entry.tokens, entry.refs)];
      phases := phases - {g};
      cancelled := cancelled - {g};
      StepKeeps(before, Action.Release(g));
    }
  }
}
