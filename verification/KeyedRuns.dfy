/**
 Runs of a keyed state machine: a table of states, and operations that each change the entry
 of one key in one atomic step.  An entry may vanish at any time (idle eviction).
 */
module KeyedRuns {
  import opened Wrappers

  datatype Op = Check | Success | Failure | Reset | Evict

  datatype Event = Event(key: string, op: Op, at: nat)

  /** How an operation changes the entry of its own key. */
  type KeyStep<!S> = (Option<S>, Event) -> Option<S>

  function EntryAt<S>(states: map<string, S>, key: string): Option<S> {
    if key in states then Some(states[key]) else None
  }

  function WithEntry<S>(states: map<string, S>, key: string, entry: Option<S>): map<string, S> {
    match entry
    case Some(s) => states[key := s]
    case None => states - {key}
  }

  function Apply<S>(step: KeyStep<S>, states: map<string, S>, e: Event): map<string, S> {
    WithEntry(states, e.key, step(EntryAt(states, e.key), e))
  }

  function Run<S>(step: KeyStep<S>, states: map<string, S>, events: seq<Event>): map<string, S> {
    if events == [] then states
    else Apply(step, Run(step, states, events[..|events| - 1]), events[|events| - 1])
  }

  /** The run of one key on its own. */
  function RunKey<S>(step: KeyStep<S>, entry: Option<S>, events: seq<Event>): Option<S> {
    if events == [] then entry
    else step(RunKey(step, entry, events[..|events| - 1]), events[|events| - 1])
  }

  function Project(events: seq<Event>, key: string): seq<Event> {
    if events == [] then []
    else
      var last := events[|events| - 1];
      Project(events[..|events| - 1], key) + (if last.key == key then [last] else [])
  }

  lemma EntryAfter<S>(step: KeyStep<S>, states: map<string, S>, e: Event, key: string)
    ensures EntryAt(Apply(step, states, e), key) ==
              if e.key == key then step(EntryAt(states, key), e) else EntryAt(states, key)
  {
  }

  lemma RunKeyExtends<S>(step: KeyStep<S>, entry: Option<S>, events: seq<Event>, e: Event)
    ensures RunKey(step, entry, events + [e]) == step(RunKey(step, entry, events), e)
  {
    assert (events + [e])[..|events|] == events;
  }

  /** What other keys do makes no difference to a key. */
  lemma {:induction false} KeysAreIndependent<S>(step: KeyStep<S>, states: map<string, S>, events: seq<Event>,
                                                 key: string)
    ensures EntryAt(Run(step, states, events), key) == RunKey(step, EntryAt(states, key), Project(events, key))
  {
    if events != [] {
      var front, last := events[..|events| - 1], events[|events| - 1];
      KeysAreIndependent(step, states, front, key);
      EntryAfter(step, Run(step, states, front), last, key);
      RunKeyExtends(step, EntryAt(states, key), Project(front, key), last);
      assert Project(front, key) + [] == Project(front, key);
    }
  }

  lemma {:induction false} ProjectMembers(events: seq<Event>, key: string, e: Event)
    requires e in Project(events, key)
    ensures e in events && e.key == key
  {
    var front, last := events[..|events| - 1], events[|events| - 1];
    assert events == front + [last];
    if e in Project(front, key) {
      ProjectMembers(front, key, e);
    }
  }

  lemma NothingProjected(events: seq<Event>, key: string)
    requires forall e :: e in events ==> e.key != key
    ensures Project(events, key) == []
  {
    if Project(events, key) != [] {
      ProjectMembers(events, key, Project(events, key)[0]);
      assert false;
    }
  }

  ghost predicate TimesOrdered(events: seq<Event>) {
    forall i, j :: 0 <= i < j < |events| ==> events[i].at <= events[j].at
  }
}
