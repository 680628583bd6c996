/** The per-path backup lock: entries shared by reference count, each with a one-slot token channel.

    An entry is a pointer in the source; here it is the number of the allocation that made it.  Every call
    of `acquire` is a caller of its own. */
module PathLock {
  import opened Sets

  type Key = string

  const CAPACITY := 1  // of a token channel

  datatype Entry = Entry(key: Key, refs: int, tokens: nat)

  datatype Caller =
    | Waiting(entry: nat)   // referenced; in the select
    | Canceled(entry: nat)  // the context won; about to drop the reference
    | Holding(entry: nat)
    | Returned(entry: nat)  // the token is back; about to drop the reference
    | Gone

  datatype State = State(entries: map<Key, nat>, cells: map<nat, Entry>, callers: map<nat, Caller>)

  datatype Event =
    | Register(id: nat, key: Key, made: nat)  // look up or create the entry and reference it, under the mutex
    | Cancel(id: nat)
    | Take(id: nat)      // receive the token
    | Return(id: nat)    // the release function sends it back
    | Drop(id: nat)      // dropReference, under the mutex
    | ReleaseAgain(id: nat)  // the release function called once more

  predicate Refers(c: Caller, e: nat) {
    !c.Gone? && c.entry == e
  }

  predicate Enabled(s: State, ev: Event) {
    match ev
    case Register(i, _, made) => i !in s.callers && made !in s.cells
    case Cancel(i) => i in s.callers && s.callers[i].Waiting?
    case Take(i) =>
      i in s.callers && s.callers[i].Waiting? && s.callers[i].entry in s.cells &&
      s.cells[s.callers[i].entry].tokens > 0
    case Return(i) =>
      i in s.callers && s.callers[i].Holding? && s.callers[i].entry in s.cells &&
      s.cells[s.callers[i].entry].tokens < CAPACITY
    case Drop(i) =>
      i in s.callers && (s.callers[i].Canceled? || s.callers[i].Returned?) && s.callers[i].entry in s.cells
    case ReleaseAgain(i) => i in s.callers && (s.callers[i].Returned? || s.callers[i].Gone?)
  }

  /** `acquire` up to its select. */
  function RegisterCaller(s: State, id: nat, key: Key, made: nat): State {
    var e := if key in s.entries then s.entries[key] else made;
    var cell := if key in s.entries && e in s.cells then s.cells[e] else Entry(key, 0, CAPACITY);
    State(s.entries[key := e], s.cells[e := cell.(refs := cell.refs + 1)], s.callers[id := Waiting(e)])
  }

  /** `dropReference`. */
  function DropReference(s: State, id: nat): State
    requires id in s.callers && !s.callers[id].Gone? && s.callers[id].entry in s.cells
  {
    var e := s.callers[id].entry;
    var cell := s.cells[e].(refs := s.cells[e].refs - 1);
    State(if cell.refs == 0 && cell.key in s.entries && s.entries[cell.key] == e then s.entries - {cell.key}
          else s.entries,
          s.cells[e := cell], s.callers[id := Gone])
  }

  function Step(s: State, ev: Event): State
    requires Enabled(s, ev)
  {
    match ev
    case Register(i, key, made) => RegisterCaller(s, i, key, made)
    case Cancel(i) => s.(callers := s.callers[i := Canceled(s.callers[i].entry)])
    case Take(i) =>
      var e := s.callers[i].entry;
      s.(cells := s.cells[e := s.cells[e].(tokens := s.cells[e].tokens - 1)],
         callers := s.callers[i := Holding(e)])
    case Return(i) =>
      var e := s.callers[i].entry;
      s.(cells := s.cells[e := s.cells[e].(tokens := s.cells[e].tokens + 1)],
         callers := s.callers[i := Returned(e)])
    case Drop(i) => DropReference(s, i)
    case ReleaseAgain(i) => s
  }

  function Referents(s: State, e: nat): set<nat> {
    set i | i in s.callers && Refers(s.callers[i], e)
  }

  function Holders(s: State, e: nat): set<nat> {
    set i | i in s.callers && s.callers[i] == Holding(e)
  }

  /** Everything the registry points at is there. */
  ghost predicate Linked(s: State) {
    && (forall i | i in s.callers && !s.callers[i].Gone? :: s.callers[i].entry in s.cells)
    && (forall k | k in s.entries :: s.entries[k] in s.cells && s.cells[s.entries[k]].key == k)
  }

  /** `refs` counts the callers; holders and tokens together are one; an entry is in the map exactly while
      somebody references it. */
  ghost predicate EntryOk(s: State, e: nat)
    requires e in s.cells
  {
    var entry := s.cells[e];
    && entry.refs == |Referents(s, e)|
    && |Holders(s, e)| + entry.tokens == 1
    && (entry.refs > 0 <==> entry.key in s.entries && s.entries[entry.key] == e)
  }

  ghost predicate Counted(s: State) {
    forall e | e in s.cells :: EntryOk(s, e)
  }

  ghost predicate Inv(s: State) {
    Linked(s) && Counted(s)
  }

  /** Moving one caller from `was` to `now` changes each count by that caller alone. */
  lemma CountsMove(s: State, s': State, i: nat, now: Caller, e: nat)
    requires s'.callers == s.callers[i := now]
    ensures var was := if i in s.callers then s.callers[i] else Gone;
            && |Referents(s', e)| == |Referents(s, e)| + One(Refers(now, e)) - One(Refers(was, e))
            && |Holders(s', e)| == |Holders(s, e)| + One(now == Holding(e)) - One(was == Holding(e))
  {
    OneMoves(Referents(s, e), Referents(s', e), i);
    OneMoves(Holders(s, e), Holders(s', e), i);
  }

  lemma RegisterKeepsInv(s: State, i: nat, key: Key, made: nat)
    requires Inv(s) && Enabled(s, Register(i, key, made))
    ensures Inv(RegisterCaller(s, i, key, made))
  {
    if key in s.entries {
      JoinKeepsInv(s, i, key, made);
    } else {
      CreateKeepsInv(s, i, key, made);
    }
  }

  lemma JoinKeepsInv(s: State, i: nat, key: Key, made: nat)
    requires Inv(s) && Enabled(s, Register(i, key, made)) && key in s.entries
    ensures Inv(RegisterCaller(s, i, key, made))
  {
    var s' := RegisterCaller(s, i, key, made);
    assert Linked(s');
    forall e | e in s'.cells ensures EntryOk(s', e) {
      assert e in s.cells ==> EntryOk(s, e);
      CountsMove(s, s', i, s'.callers[i], e);
    }
  }

  lemma CreateKeepsInv(s: State, i: nat, key: Key, made: nat)
    requires Inv(s) && Enabled(s, Register(i, key, made)) && key !in s.entries
    ensures Inv(RegisterCaller(s, i, key, made))
  {
    var s' := RegisterCaller(s, i, key, made);
    assert Linked(s');
    assert Referents(s, made) == {} && Holders(s, made) == {};
    forall e | e in s'.cells ensures EntryOk(s', e) {
      assert e in s.cells ==> EntryOk(s, e);
      CountsMove(s, s', i, s'.callers[i], e);
    }
  }

  lemma DropKeepsInv(s: State, i: nat)
    requires Inv(s) && Enabled(s, Drop(i))
    ensures Inv(DropReference(s, i))
  {
    var s' := DropReference(s, i);
    assert Linked(s');
    forall e | e in s'.cells ensures EntryOk(s', e) {
      assert e in s.cells ==> EntryOk(s, e);
      CountsMove(s, s', i, Gone, e);
    }
    assert i in Referents(s, s.callers[i].entry);
  }

  lemma ChannelKeepsInv(s: State, ev: Event)
    requires Inv(s) && Enabled(s, ev) && (ev.Cancel? || ev.Take? || ev.Return?)
    ensures Inv(Step(s, ev))
  {
    var s' := Step(s, ev);
    forall e | e in s'.cells ensures EntryOk(s', e) {
      assert e in s.cells ==> EntryOk(s, e);
      CountsMove(s, s', ev.id, s'.callers[ev.id], e);
    }
  }

  lemma StepKeepsInv(s: State, ev: Event)
    requires Inv(s) && Enabled(s, ev)
    ensures Inv(Step(s, ev))
  {
    match ev
    case Register(i, key, made) => RegisterKeepsInv(s, i, key, made);
    case Drop(i) => DropKeepsInv(s, i);
    case ReleaseAgain(_) =>
    case _ => ChannelKeepsInv(s, ev);
  }

  ghost predicate Run(s: State, events: seq<Event>, s': State)
    decreases |events|
  {
    if events == [] then s' == s
    else Enabled(s, events[0]) && Run(Step(s, events[0]), events[1..], s')
  }

  const INITIAL := State(map[], map[], map[])

  lemma {:induction false} RunKeepsInv(s: State, events: seq<Event>, s': State)
    requires Inv(s) && Run(s, events, s')
    ensures Inv(s')
    decreases |events|
  {
    if events != [] {
      StepKeepsInv(s, events[0]);
      RunKeepsInv(Step(s, events[0]), events[1..], s');
    }
  }

  /** Mutual exclusion: in every interleaving, with cancellation and repeated release, two callers that hold
      a lock for the same key at the same time are one caller, whatever entries were made and dropped. */
  lemma AtMostOneHolder(events: seq<Event>, s: State, i: nat, j: nat)
    requires Run(INITIAL, events, s)
    requires i in s.callers && j in s.callers && s.callers[i].Holding? && s.callers[j].Holding?
    ensures s.callers[i].entry in s.cells && s.callers[j].entry in s.cells
    ensures s.cells[s.callers[i].entry].key == s.cells[s.callers[j].entry].key ==> i == j
  {
    hide Run, Inv;
    RunKeepsInv(INITIAL, events, s);
    var d, e := s.callers[i].entry, s.callers[j].entry;
    HolderIsReferenced(s, i);
    HolderIsReferenced(s, j);
    if d == e && i != j { SubsetSize({i, j}, Holders(s, d)); }
  }

  /** A holder's entry is the one in the map, and it is the only holder of that entry. */
  lemma HolderIsReferenced(s: State, i: nat)
    requires Inv(s) && i in s.callers && s.callers[i].Holding?
    ensures var e := s.callers[i].entry;
            && e in s.cells && i in Holders(s, e) && |Holders(s, e)| == 1
            && s.cells[e].key in s.entries && s.entries[s.cells[e].key] == e
  {
    var e := s.callers[i].entry;
    assert i in Referents(s, e) && i in Holders(s, e);
  }

  /** A release never blocks: while a caller holds an entry its channel has room. */
  lemma ReleaseNeverBlocks(events: seq<Event>, s: State, i: nat)
    requires Run(INITIAL, events, s)
    requires i in s.callers && s.callers[i].Holding?
    ensures s.callers[i].entry in s.cells && s.cells[s.callers[i].entry].tokens == 0
    ensures Enabled(s, Return(i))
  {
    RunKeepsInv(INITIAL, events, s);
    assert i in Holders(s, s.callers[i].entry);
  }

  /** No token is ever lost: a waiting caller can take it unless somebody holds the entry. */
  lemma WaiterCanProceed(events: seq<Event>, s: State, i: nat)
    requires Run(INITIAL, events, s)
    requires i in s.callers && s.callers[i].Waiting?
    ensures Enabled(s, Take(i)) || exists j | j in s.callers :: s.callers[j] == Holding(s.callers[i].entry)
  {
    RunKeepsInv(INITIAL, events, s);
    var e := s.callers[i].entry;
    if Holders(s, e) != {} {
      var j :| j in Holders(s, e);
    }
  }

  /** Nothing is kept for nobody: the map is empty exactly when no caller references anything. */
  lemma EmptyWhenUnreferenced(events: seq<Event>, s: State)
    requires Run(INITIAL, events, s)
    ensures s.entries == map[] <==> forall i | i in s.callers :: s.callers[i].Gone?
  {
    RunKeepsInv(INITIAL, events, s);
    if s.entries != map[] {
      var k :| k in s.entries;
      assert |Referents(s, s.entries[k])| > 0;
      var i :| i in Referents(s, s.entries[k]);
    }
    if i :| i in s.callers && !s.callers[i].Gone? {
      assert i in Referents(s, s.callers[i].entry);
      assert s.cells[s.callers[i].entry].key in s.entries;
    }
  }

  lemma {:induction false} Extend(s: State, events: seq<Event>, mid: State, e: Event)
    requires Run(s, events, mid) && Enabled(mid, e)
    ensures Run(s, events + [e], Step(mid, e))
    decreases |events|
  {
    if events == [] {
      assert events + [e] == [e] && [e][1..] == [];
    } else {
      assert (events + [e])[1..] == events[1..] + [e];
      Extend(Step(s, events[0]), events[1..], mid, e);
    }
  }

  /** The registry, with its mutex-protected sections as single methods. */
  class Registry {
    var entries: map<Key, nat>
    var cells: map<nat, Entry>
    var callers: map<nat, Caller>
    var nextEntry: nat
    ghost var events: seq<Event>

    ghost function Now(): State
      reads this
    {
      State(entries, cells, callers)
    }

    ghost predicate Valid()
      reads this
    {
      Run(INITIAL, events, Now()) && Inv(Now()) && forall e | e in cells :: e < nextEntry
    }

    constructor ()
      ensures Valid() && Now() == INITIAL
    {
      entries, cells, callers, nextEntry, events := map[], map[], map[], 0, [];
    }

    ghost method Record(from: State, e: Event)
      requires Run(INITIAL, events, from) && Inv(from) && Enabled(from, e) && Now() == Step(from, e)
      requires forall c | c in cells :: c < nextEntry
      modifies `events
      ensures Valid() && events == old(events) + [e]
    {
      Extend(INITIAL, events, from, e);
      StepKeepsInv(from, e);
      events := events + [e];
    }

    /** `acquire` up to its select. */
    method Register(id: nat, key: Key) returns (entry: nat)
      requires Valid() && id !in callers
      modifies this
      ensures Valid() && old(events) <= events
      ensures Now() == Step(old(Now()), Event.Register(id, key, old(nextEntry)))
      ensures callers[id] == Waiting(entry)
    {
      hide Run, Counted;
      ghost var from := Now();
      ghost var made := nextEntry;
      if key in entries {
        entry := entries[key];
      } else {
        entry := nextEntry;
        nextEntry := nextEntry + 1;
        cells := cells[entry := Entry(key, 0, CAPACITY)];
        entries := entries[key := entry];
      }
      cells := cells[entry := cells[entry].(refs := cells[entry].refs + 1)];
      callers := callers[id := Waiting(entry)];
      Record(from, Event.Register(id, key, made));
    }

    /** `dropReference`. */
    method Drop(id: nat)
      requires Valid() && id in callers && (callers[id].Canceled? || callers[id].Returned?)
      modifies this
      ensures Valid() && old(events) <= events && Now() == Step(old(Now()), Event.Drop(id))
    {
      hide Run, Counted;
      ghost var from := Now();
      var entry := callers[id].entry;
      cells := cells[entry := cells[entry].(refs := cells[entry].refs - 1)];
      var key := cells[entry].key;
      if cells[entry].refs == 0 && key in entries && entries[key] == entry {
        entries := entries - {key};
      }
      callers := callers[id := Gone];
      Record(from, Event.Drop(id));
    }

    /** Steps of other callers, as many as `turns`. */
    method Others(id: nat, turns: nat)
      requires Valid()
      modifies this
      ensures Valid() && old(events) <= events
      ensures id in callers <==> id in old(callers)
      ensures id in callers ==> callers[id] == old(callers[id])
      ensures forall e | e in old(cells) :: e in cells && cells[e].key == old(cells[e].key)
    {
      hide Run, Counted;
      for k := 0 to turns
        invariant Valid() && old(events) <= events
        invariant forall e | e in old(cells) :: e in cells && cells[e].key == old(cells[e].key)
        invariant id in callers <==> id in old(callers)
        invariant id in callers ==> callers[id] == old(callers[id])
      {
        var other: nat, key: Key := *, *;
        if other == id {
        } else if other !in callers {
          var _ := Register(other, key);
        } else if callers[other].Waiting? {
          if * { Leave(other); } else if cells[callers[other].entry].tokens > 0 { TakeToken(other); }
        } else if callers[other].Holding? {
          PutToken(other);
        } else if !callers[other].Gone? {
          Drop(other);
        }
      }
    }

    method Leave(id: nat)
      requires Valid() && id in callers && callers[id].Waiting?
      modifies this
      ensures Valid() && old(events) <= events && Now() == Step(old(Now()), Cancel(id))
    {
      hide Run, Counted;
      ghost var from := Now();
      callers := callers[id := Canceled(callers[id].entry)];
      Record(from, Cancel(id));
    }

    method TakeToken(id: nat)
      requires Valid() && id in callers && callers[id].Waiting? && cells[callers[id].entry].tokens > 0
      modifies this
      ensures Valid() && old(events) <= events && Now() == Step(old(Now()), Take(id))
    {
      hide Run, Counted;
      ghost var from := Now();
      var entry := callers[id].entry;
      cells := cells[entry := cells[entry].(tokens := cells[entry].tokens - 1)];
      callers := callers[id := Holding(entry)];
      Record(from, Take(id));
    }

    /** The send in the release function: the one-slot channel has room, so it does not block. */
    method PutToken(id: nat)
      requires Valid() && id in callers && callers[id].Holding?
      modifies this
      ensures Valid() && old(events) <= events
      ensures Enabled(old(Now()), Return(id)) && Now() == Step(old(Now()), Return(id))
    {
      hide Run, Counted;
      ReleaseNeverBlocks(events, Now(), id);
      ghost var from := Now();
      var entry := callers[id].entry;
      cells := cells[entry := cells[entry].(tokens := cells[entry].tokens + 1)];
      callers := callers[id := Returned(entry)];
      Record(from, Return(id));
    }

    /** `acquire`: wait among any other callers until the token comes, or until the context ends after
        `patience` looks.  A caller that gave up references nothing; one that did not holds the key. */
    method Acquire(id: nat, key: Key, patience: nat, turns: nat) returns (held: bool)
      requires Valid() && id !in callers
      modifies this
      ensures Valid() && old(events) <= events && id in callers
      ensures held ==> callers[id].Holding? && callers[id].entry in cells && cells[callers[id].entry].key == key
      ensures !held ==> callers[id] == Gone
    {
      hide Run, Counted;
      var entry := Register(id, key);
      for k := 0 to patience
        invariant Valid() && old(events) <= events && id in callers && callers[id] == Waiting(entry)
        invariant entry in cells && cells[entry].key == key
      {
        Others(id, turns);
        if cells[entry].tokens > 0 {
          TakeToken(id);
          return true;
        }
      }
      Leave(id);
      Others(id, turns);
      Drop(id);
      return false;
    }

    /** The release function: only the first call does anything. */
    method Release(id: nat, turns: nat)
      requires Valid() && id in callers && (callers[id].Holding? || callers[id].Gone?)
      modifies this
      ensures Valid() && old(events) <= events && id in callers && callers[id] == Gone
      ensures old(callers[id]).Gone? ==> Now() == old(Now())
    {
      hide Run, Counted;
      if callers[id].Holding? {
        PutToken(id);
        Others(id, turns);
        Drop(id);
      }
    }
  }
}
