/** The registry that keeps an ephemeral repository client's local files while tasks use them, and deletes
    them in the background after the last release.

    A state is a pointer in the source; here it is the number of the allocation that made it.  Every call of
    `acquireEphemeralKopiaServerClientState` is a caller of its own. */
module ClientCleanup {
  import opened Sets
  import opened Wrappers

  type Key = string

  datatype Channel = NoChannel | Open | Closed

  datatype Client = Client(key: Key, users: int, cleaning: Channel)

  datatype Caller =
    | Trying(key: Key)                // at the head of the retry loop
    | Blocked(key: Key, client: nat)  // waiting for a cleanup to end
    | Holding(key: Key, client: nat)
    | Released
    | Unheld                          // its context ended while it waited

  /** The background goroutine of a client: still deleting local files, or about to close the channel. */
  datatype Cleaner = Deleting | Closing

  datatype State = State(
    states: map<Key, nat>, clients: map<nat, Client>, callers: map<nat, Caller>, cleaners: map<nat, Cleaner>)

  datatype Event =
    | Arrive(id: nat, key: Key)
    | TryAcquire(id: nat, made: nat)
    | Wake(id: nat)
    | Cancel(id: nat)
    | Release(id: nat)
    | ReleaseAgain(id: nat)
    | Delete(client: nat)
    | Finish(client: nat)

  predicate Enabled(s: State, e: Event) {
    match e
    case Arrive(i, _) => i !in s.callers
    case TryAcquire(i, made) => i in s.callers && s.callers[i].Trying? && made !in s.clients
    case Wake(i) =>
      i in s.callers && s.callers[i].Blocked? && s.callers[i].client in s.clients &&
      s.clients[s.callers[i].client].cleaning == Closed
    case Cancel(i) => i in s.callers && s.callers[i].Blocked?
    case Release(i) => i in s.callers && s.callers[i].Holding?
    case ReleaseAgain(i) => i in s.callers && (s.callers[i].Released? || s.callers[i].Unheld?)
    case Delete(c) => c in s.cleaners && s.cleaners[c] == Deleting
    case Finish(c) => c in s.cleaners && s.cleaners[c] == Closing && c in s.clients
  }

  /** One turn of the retry loop, under the lock. */
  function Acquired(s: State, i: nat, made: nat): State
    requires i in s.callers && s.callers[i].Trying?
  {
    var key := s.callers[i].key;
    if key !in s.states || s.states[key] !in s.clients then
      s.(states := s.states[key := made], clients := s.clients[made := Client(key, 1, NoChannel)],
         callers := s.callers[i := Holding(key, made)])
    else
      var c := s.states[key];
      if s.clients[c].cleaning == NoChannel then
        s.(clients := s.clients[c := s.clients[c].(users := s.clients[c].users + 1)],
           callers := s.callers[i := Holding(key, c)])
      else
        s.(callers := s.callers[i := Blocked(key, c)])
  }

  /** The first call of a release function, under the lock; the last user starts the cleanup. */
  function ReleasedBy(s: State, i: nat): State
    requires i in s.callers && s.callers[i].Holding?
  {
    var key, c := s.callers[i].key, s.callers[i].client;
    var gone := s.(callers := s.callers[i := Released]);
    if key !in s.states || s.states[key] != c || c !in s.clients || s.clients[c].users <= 0 then gone
    else
      var client := s.clients[c].(users := s.clients[c].users - 1);
      if client.users > 0 then gone.(clients := s.clients[c := client])
      else gone.(clients := s.clients[c := client.(cleaning := Open)], cleaners := s.cleaners[c := Deleting])
  }

  /** The end of the background goroutine, under the lock. */
  function Finished(s: State, c: nat): State
    requires c in s.clients
  {
    var key := s.clients[c].key;
    State(if key in s.states && s.states[key] == c then s.states - {key} else s.states,
          s.clients[c := s.clients[c].(cleaning := Closed)], s.callers, s.cleaners - {c})
  }

  function Step(s: State, e: Event): State
    requires Enabled(s, e)
  {
    match e
    case Arrive(i, key) => s.(callers := s.callers[i := Trying(key)])
    case TryAcquire(i, made) => Acquired(s, i, made)
    case Wake(i) => s.(callers := s.callers[i := Trying(s.callers[i].key)])
    case Cancel(i) => s.(callers := s.callers[i := Unheld])
    case Release(i) => ReleasedBy(s, i)
    case ReleaseAgain(_) => s
    case Delete(c) => s.(cleaners := s.cleaners[c := Closing])
    case Finish(c) => Finished(s, c)
  }

  function Holders(s: State, c: nat): set<nat> {
    set i | i in s.callers && s.callers[i].Holding? && s.callers[i].client == c
  }

  /** Everything the registry points at is there, under the right key. */
  ghost predicate Linked(s: State) {
    && (forall k | k in s.states :: s.states[k] in s.clients && s.clients[s.states[k]].key == k)
    && (forall i | i in s.callers && (s.callers[i].Holding? || s.callers[i].Blocked?) ::
          s.callers[i].client in s.clients && s.clients[s.callers[i].client].key == s.callers[i].key)
    && (forall c | c in s.cleaners :: c in s.clients)
  }

  /** `users` counts the holders.  A client is in the map until its cleanup ends; it has users exactly while
      nothing is being cleaned, and a cleaner exactly while its channel is open. */
  ghost predicate ClientOk(s: State, c: nat)
    requires c in s.clients
  {
    var client := s.clients[c];
    && client.users == |Holders(s, c)|
    && (client.users > 0 <==> client.cleaning == NoChannel)
    && (c in s.cleaners <==> client.cleaning == Open)
    && (client.cleaning != Closed <==> client.key in s.states && s.states[client.key] == c)
  }

  ghost predicate Phased(s: State)
    requires Linked(s)
  {
    && (forall c | c in s.clients :: ClientOk(s, c))
    && (forall i | i in s.callers && s.callers[i].Blocked? :: s.clients[s.callers[i].client].cleaning != NoChannel)
  }

  ghost predicate Inv(s: State) {
    Linked(s) && Phased(s)
  }

  predicate Holds(c: Caller, client: nat) {
    c.Holding? && c.client == client
  }

  /** Moving one caller from `was` to `now` changes each count by that caller alone. */
  lemma CountMoves(s: State, s': State, i: nat, now: Caller, c: nat)
    requires s'.callers == s.callers[i := now]
    ensures var was := if i in s.callers then s.callers[i] else Unheld;
            |Holders(s', c)| == |Holders(s, c)| + One(Holds(now, c)) - One(Holds(was, c))
  {
    OneMoves(Holders(s, c), Holders(s', c), i);
  }

  lemma AcquireKeepsInv(s: State, i: nat, made: nat)
    requires Inv(s) && Enabled(s, TryAcquire(i, made))
    ensures Inv(Acquired(s, i, made))
  {
    hide ClientOk;
    var s' := Acquired(s, i, made);
    assert Linked(s');
    forall c | c in s'.clients ensures ClientOk(s', c) {
      if s.callers[i].key in s.states { JoinedOk(s, i, made, c); } else { CreatedOk(s, i, made, c); }
    }
  }

  lemma JoinedOk(s: State, i: nat, made: nat, c: nat)
    requires Inv(s) && Enabled(s, TryAcquire(i, made)) && s.callers[i].key in s.states
    requires c in Acquired(s, i, made).clients
    ensures ClientOk(Acquired(s, i, made), c)
  {
    var s' := Acquired(s, i, made);
    CountMoves(s, s', i, s'.callers[i], c);
    assert ClientOk(s, c);
  }

  lemma CreatedOk(s: State, i: nat, made: nat, c: nat)
    requires Inv(s) && Enabled(s, TryAcquire(i, made)) && s.callers[i].key !in s.states
    requires c in Acquired(s, i, made).clients
    ensures ClientOk(Acquired(s, i, made), c)
  {
    var s' := Acquired(s, i, made);
    CountMoves(s, s', i, s'.callers[i], c);
    if c in s.clients {
      assert ClientOk(s, c);
    } else {
      assert Holders(s, c) == {};
    }
  }

  /** A holder's client is in the map, in use and not being cleaned. */
  lemma HolderIsUser(s: State, i: nat)
    requires Inv(s) && i in s.callers && s.callers[i].Holding?
    ensures var key, c := s.callers[i].key, s.callers[i].client;
            && c in s.clients && s.clients[c].users > 0 && s.clients[c].cleaning == NoChannel
            && s.clients[c].key == key && key in s.states && s.states[key] == c && c !in s.cleaners
  {
    var c := s.callers[i].client;
    assert ClientOk(s, c) && i in Holders(s, c);
  }

  lemma FinishKeepsInv(s: State, c: nat)
    requires Inv(s) && Enabled(s, Finish(c))
    ensures Inv(Finished(s, c))
  {
    hide ClientOk;
    var s' := Finished(s, c);
    assert Linked(s');
    forall d | d in s'.clients ensures ClientOk(s', d) {
      FinishedOk(s, c, d);
    }
  }

  lemma FinishedOk(s: State, c: nat, d: nat)
    requires Inv(s) && Enabled(s, Finish(c)) && d in s.clients
    ensures ClientOk(Finished(s, c), d)
  {
    assert ClientOk(s, c) && ClientOk(s, d);
    assert Holders(Finished(s, c), d) == Holders(s, d);
  }

  lemma ReleaseKeepsInv(s: State, i: nat)
    requires Inv(s) && Enabled(s, Release(i))
    ensures Inv(ReleasedBy(s, i))
  {
    hide ClientOk;
    var s' := ReleasedBy(s, i);
    HolderIsUser(s, i);
    assert Linked(s');
    forall c | c in s'.clients ensures ClientOk(s', c) {
      ReleasedOk(s, i, c);
    }
  }

  lemma ReleasedOk(s: State, i: nat, c: nat)
    requires Inv(s) && Enabled(s, Release(i)) && c in s.clients
    ensures c in ReleasedBy(s, i).clients && ClientOk(ReleasedBy(s, i), c)
  {
    HolderIsUser(s, i);
    CountMoves(s, ReleasedBy(s, i), i, Released, c);
    assert ClientOk(s, c);
  }

  /** Steps that only move a caller, or only a cleaner from deleting to closing. */
  lemma QuietStepKeepsInv(s: State, e: Event)
    requires Inv(s) && Enabled(s, e) && (e.Arrive? || e.Wake? || e.Cancel? || e.Delete?)
    ensures Inv(Step(s, e))
  {
    hide ClientOk;
    var s' := Step(s, e);
    assert Linked(s');
    forall c | c in s'.clients ensures ClientOk(s', c) {
      QuietOk(s, e, c);
    }
  }

  lemma QuietOk(s: State, e: Event, c: nat)
    requires Inv(s) && Enabled(s, e) && (e.Arrive? || e.Wake? || e.Cancel? || e.Delete?) && c in s.clients
    ensures c in Step(s, e).clients && ClientOk(Step(s, e), c)
  {
    assert ClientOk(s, c);
    if e.Delete? {
      assert Holders(Step(s, e), c) == Holders(s, c);
    } else {
      CountMoves(s, Step(s, e), e.id, Step(s, e).callers[e.id], c);
    }
  }

  lemma StepKeepsInv(s: State, e: Event)
    requires Inv(s) && Enabled(s, e)
    ensures Inv(Step(s, e))
  {
    hide Inv, Acquired, ReleasedBy, Finished;
    match e
    case TryAcquire(i, made) => AcquireKeepsInv(s, i, made);
    case Release(i) => ReleaseKeepsInv(s, i);
    case ReleaseAgain(_) =>
    case Finish(c) => FinishKeepsInv(s, c);
    case _ => QuietStepKeepsInv(s, e);
  }

  ghost predicate Run(s: State, events: seq<Event>, s': State)
    decreases |events|
  {
    if events == [] then s' == s
    else Enabled(s, events[0]) && Run(Step(s, events[0]), events[1..], s')
  }

  const INITIAL := State(map[], map[], map[], map[])

  lemma {:induction false} RunKeepsInv(s: State, events: seq<Event>, s': State)
    requires Inv(s) && Run(s, events, s')
    ensures Inv(s')
    decreases |events|
  {
    if events != [] {
      StepKeepsInv(s, events[0]);
      RunKeepsInv(Step(s, events[0]), events[1..], s');
    }
  }

  lemma {:induction false} Extend(s: State, events: seq<Event>, mid: State, e: Event)
    requires Run(s, events, mid) && Enabled(mid, e)
    ensures Run(s, events + [e], Step(mid, e))
    decreases |events|
  {
    if events == [] {
      assert events + [e] == [e] && [e][1..] == [];
    } else {
      assert (events + [e])[1..] == events[1..] + [e];
      Extend(Step(s, events[0]), events[1..], mid, e);
    }
  }

  /** Local state is never deleted while a caller holds it: in every interleaving, a cleaner and a holder
      never have the same config file. */
  lemma NeverDeletedWhileHeld(events: seq<Event>, s: State, i: nat, c: nat)
    requires Run(INITIAL, events, s)
    requires i in s.callers && s.callers[i].Holding? && c in s.cleaners
    ensures c in s.clients && s.clients[c].key != s.callers[i].key
  {
    RunKeepsInv(INITIAL, events, s);
    HolderIsUser(s, i);
    assert ClientOk(s, c);
  }

  /** At most one cleanup per config file at a time. */
  lemma OneCleanupPerFile(events: seq<Event>, s: State, c: nat, d: nat)
    requires Run(INITIAL, events, s)
    requires c in s.cleaners && d in s.cleaners
    ensures c in s.clients && d in s.clients && (s.clients[c].key == s.clients[d].key ==> c == d)
  {
    RunKeepsInv(INITIAL, events, s);
    assert ClientOk(s, c) && ClientOk(s, d);
  }

  function ChannelOf(s: State, c: nat): Channel {
    if c in s.clients then s.clients[c].cleaning else NoChannel
  }

  /** The channel of `c` is left alone, or goes from none to open, or is closed by its own cleaner. */
  predicate ChannelMove(was: Channel, now: Channel, closing: bool) {
    && (now == was || (was == NoChannel && now == Open) || (was == Open && now == Closed && closing))
    && (closing ==> was == Open && now == Closed)
  }

  lemma ChannelMoves(s: State, e: Event, c: nat)
    requires Inv(s) && Enabled(s, e)
    ensures ChannelMove(ChannelOf(s, c), ChannelOf(Step(s, e), c), e == Finish(c))
  {
    match e
    case Release(i) => HolderIsUser(s, i);
    case Finish(d) => assert ClientOk(s, d);
    case _ =>
  }

  /** How often the channel of `c` is closed in a run. */
  function Closings(events: seq<Event>, c: nat): nat {
    if events == [] then 0 else Closings(events[1..], c) + One(events[0] == Finish(c))
  }

  /** A cleaning channel is closed at most once: in every run from the start as often as it is closed at the end,
      once or never. */
  lemma ChannelClosedOnce(events: seq<Event>, s: State, c: nat)
    requires Run(INITIAL, events, s)
    ensures Closings(events, c) == One(ChannelOf(s, c) == Closed)
  {
    ClosingsAddUp(INITIAL, events, s, c);
  }

  lemma {:induction false} ClosingsAddUp(s: State, events: seq<Event>, s': State, c: nat)
    requires Inv(s) && Run(s, events, s')
    ensures Closings(events, c) + One(ChannelOf(s, c) == Closed) == One(ChannelOf(s', c) == Closed)
    decreases |events|
  {
    hide Inv, Step, Enabled, ChannelOf;
    if events != [] {
      StepKeepsInv(s, events[0]);
      ChannelMoves(s, events[0], c);
      ClosingsAddUp(Step(s, events[0]), events[1..], s', c);
    }
  }

  /** A step that closes a channel finds it open; no other step closes it or opens it again. */
  lemma ChannelGoesForward(events: seq<Event>, s: State, e: Event, c: nat)
    requires Run(INITIAL, events, s) && Enabled(s, e)
    ensures ChannelMove(ChannelOf(s, c), ChannelOf(Step(s, e), c), e == Finish(c))
  {
    RunKeepsInv(INITIAL, events, s);
    ChannelMoves(s, e, c);
  }

  /** No waiter is forgotten: the channel it waits for is closed, or a cleaner is on its way to close it. */
  lemma WaiterIsWoken(events: seq<Event>, s: State, i: nat)
    requires Run(INITIAL, events, s)
    requires i in s.callers && s.callers[i].Blocked?
    ensures Enabled(s, Wake(i)) || s.callers[i].client in s.cleaners
  {
    RunKeepsInv(INITIAL, events, s);
    assert ClientOk(s, s.callers[i].client);
  }

  /** Nothing is kept for nobody: the map is empty exactly when there is no holder and no cleaner. */
  lemma EmptyWhenIdle(events: seq<Event>, s: State)
    requires Run(INITIAL, events, s)
    ensures s.states == map[] <==>
            s.cleaners == map[] && forall i | i in s.callers :: !s.callers[i].Holding?
  {
    RunKeepsInv(INITIAL, events, s);
    if s.states != map[] {
      var k :| k in s.states;
      var c := s.states[k];
      assert ClientOk(s, c);
      if c !in s.cleaners { var i :| i in Holders(s, c); }
    }
    if i :| i in s.callers && s.callers[i].Holding? { HolderIsUser(s, i); }
    if c :| c in s.cleaners { assert ClientOk(s, c); }
  }

  /** The registry, with its locked sections as single methods. */
  class Registry {
    var states: map<Key, nat>
    var clients: map<nat, Client>
    var callers: map<nat, Caller>
    var cleaners: map<nat, Cleaner>
    var nextClient: nat
    ghost var events: seq<Event>

    ghost function Now(): State
      reads this
    {
      State(states, clients, callers, cleaners)
    }

    ghost predicate Valid()
      reads this
    {
      Run(INITIAL, events, Now()) && Inv(Now()) && forall c | c in clients :: c < nextClient
    }

    constructor ()
      ensures Valid() && Now() == INITIAL
    {
      states, clients, callers, cleaners, nextClient, events := map[], map[], map[], map[], 0, [];
    }

    ghost method Record(from: State, e: Event)
      requires Run(INITIAL, events, from) && Inv(from) && Enabled(from, e) && Now() == Step(from, e)
      requires forall c | c in clients :: c < nextClient
      modifies `events
      ensures Valid() && events == old(events) + [e]
    {
      Extend(INITIAL, events, from, e);
      StepKeepsInv(from, e);
      events := events + [e];
    }

    /** The retry loop of `acquireEphemeralKopiaServerClientState` between two waits. */
    method TryAcquire(id: nat)
      requires Valid() && id in callers && callers[id].Trying?
      modifies this
      ensures Valid() && old(events) <= events
      ensures Now() == Step(old(Now()), Event.TryAcquire(id, old(nextClient)))
    {
      hide Run, Phased;
      ghost var from := Now();
      ghost var made := nextClient;
      var key := callers[id].key;
      if key !in states {
        var client := nextClient;
        nextClient := nextClient + 1;
        clients := clients[client := Client(key, 1, NoChannel)];
        states := states[key := client];
        callers := callers[id := Holding(key, client)];
      } else {
        var client := states[key];
        if clients[client].cleaning == NoChannel {
          clients := clients[client := clients[client].(users := clients[client].users + 1)];
          callers := callers[id := Holding(key, client)];
        } else {
          callers := callers[id := Blocked(key, client)];
        }
      }
      Record(from, Event.TryAcquire(id, made));
    }

    /** The release function; a second call does nothing. */
    method Release(id: nat)
      requires Valid() && id in callers && !callers[id].Trying? && !callers[id].Blocked?
      modifies this
      ensures Valid() && old(events) <= events
      ensures Now() == if old(callers[id].Holding?) then Step(old(Now()), Event.Release(id)) else old(Now())
    {
      hide Run, Phased;
      if !callers[id].Holding? { return; }
      ghost var from := Now();
      var key, client := callers[id].key, callers[id].client;
      callers := callers[id := Released];
      if key in states && states[key] == client && clients[client].users > 0 {
        clients := clients[client := clients[client].(users := clients[client].users - 1)];
        if clients[client].users <= 0 {
          clients := clients[client := clients[client].(cleaning := Open)];
          cleaners := cleaners[client := Deleting];
        }
      }
      Record(from, Event.Release(id));
    }

    method Arrive(id: nat, key: Key)
      requires Valid() && id !in callers
      modifies this
      ensures Valid() && old(events) <= events && Now() == Step(old(Now()), Event.Arrive(id, key))
    {
      ghost var from := Now();
      callers := callers[id := Trying(key)];
      Record(from, Event.Arrive(id, key));
    }

    /** The channel is closed: back to the head of the loop. */
    method WakeUp(id: nat)
      requires Valid() && id in callers && callers[id].Blocked?
      requires clients[callers[id].client].cleaning == Closed
      modifies this
      ensures Valid() && old(events) <= events && Now() == Step(old(Now()), Wake(id))
    {
      ghost var from := Now();
      callers := callers[id := Trying(callers[id].key)];
      Record(from, Wake(id));
    }

    /** The context ended. */
    method GiveUp(id: nat)
      requires Valid() && id in callers && callers[id].Blocked?
      modifies this
      ensures Valid() && old(events) <= events && Now() == Step(old(Now()), Cancel(id))
    {
      ghost var from := Now();
      callers := callers[id := Unheld];
      Record(from, Cancel(id));
    }

    /** `acquireEphemeralKopiaServerClientState`: try, and while a cleanup is under way wait for its end among
        any other calls, or until the context ends after `patience` looks.  A caller that gave up holds nothing;
        one that did not holds a client of its own config file that nobody is cleaning. */
    method Acquire(id: nat, key: Key, patience: nat, turns: nat) returns (held: bool)
      requires Valid() && id !in callers
      modifies this
      ensures Valid() && old(events) <= events && id in callers
      ensures held ==>
                && callers[id].Holding? && callers[id].key == key && callers[id].client in clients
                && clients[callers[id].client].key == key && callers[id].client !in cleaners
      ensures !held ==> callers[id] == Unheld
    {
      hide Run, Phased, Acquired, ReleasedBy, Finished;
      Arrive(id, key);
      Attempt(id, key);
      for k := 0 to patience
        invariant Valid() && old(events) <= events && Settled(id, key)
      {
        if callers[id].Holding? { break; }
        Retry(id, key, turns);
      }
      held := callers[id].Holding?;
      if held {
        HolderIsUser(Now(), id);
      } else {
        GiveUp(id);
      }
    }

    /** Waiting, or holding. */
    predicate Settled(id: nat, key: Key)
      reads this
    {
      id in callers && (callers[id].Blocked? || callers[id].Holding?) && callers[id].key == key
    }

    method Attempt(id: nat, key: Key)
      requires Valid() && id in callers && callers[id] == Trying(key)
      modifies this
      ensures Valid() && old(events) <= events && Settled(id, key)
    {
      hide Run, Inv;
      TryAcquire(id);
    }

    /** One look at the channel while waiting. */
    method Retry(id: nat, key: Key, turns: nat)
      requires Valid() && Settled(id, key) && callers[id].Blocked?
      modifies this
      ensures Valid() && old(events) <= events && Settled(id, key)
    {
      hide Run, Phased;
      Others(Some(id), None, turns);
      if clients[callers[id].client].cleaning == Closed {
        WakeUp(id);
        Others(Some(id), None, turns);
        Attempt(id, key);
      }
    }

    method DeleteFiles(client: nat)
      requires Valid() && client in cleaners && cleaners[client] == Deleting
      modifies this
      ensures Valid() && old(events) <= events && Now() == Step(old(Now()), Delete(client))
    {
      ghost var from := Now();
      cleaners := cleaners[client := Closing];
      Record(from, Delete(client));
    }

    /** Unregister the client and close its channel. */
    method FinishCleanup(client: nat)
      requires Valid() && client in cleaners && cleaners[client] == Closing
      modifies this
      ensures Valid() && old(events) <= events && Now() == Step(old(Now()), Finish(client))
    {
      hide Run, Phased;
      ghost var from := Now();
      var key := clients[client].key;
      if key in states && states[key] == client { states := states - {key}; }
      clients := clients[client := clients[client].(cleaning := Closed)];
      cleaners := cleaners - {client};
      Record(from, Finish(client));
    }

    /** The background goroutine, among any other calls. */
    method Clean(client: nat, turns: nat)
      requires Valid() && client in cleaners && cleaners[client] == Deleting
      modifies this
      ensures Valid() && old(events) <= events
      ensures client !in cleaners && client in clients && clients[client].cleaning == Closed
    {
      hide Run, Phased;
      DeleteFiles(client);
      Others(None, Some(client), turns);
      FinishCleanup(client);
    }

    /** Calls that come and go, and cleaners that work, while one caller or one cleaner does not. */
    method Others(caller: Option<nat>, cleaner: Option<nat>, turns: nat)
      requires Valid()
      requires caller.Some? ==> caller.value in callers
      requires cleaner.Some? ==> cleaner.value in cleaners
      modifies this
      ensures Valid() && old(events) <= events
      ensures caller.Some? ==> caller.value in callers && callers[caller.value] == old(callers)[caller.value]
      ensures cleaner.Some? ==> cleaner.value in cleaners && cleaners[cleaner.value] == old(cleaners)[cleaner.value]
    {
      hide Run, Phased;
      for k := 0 to turns
        invariant Valid() && old(events) <= events
        invariant caller.Some? ==> caller.value in callers && callers[caller.value] == old(callers)[caller.value]
        invariant cleaner.Some? ==>
                    cleaner.value in cleaners && cleaners[cleaner.value] == old(cleaners)[cleaner.value]
      {
        var id: nat, key: Key, client: nat := *, *, *;
        if * {
          if Some(id) != caller { OtherCaller(id, key, cleaner); }
        } else if client in cleaners && Some(client) != cleaner {
          if cleaners[client] == Deleting { DeleteFiles(client); } else { FinishCleanup(client); }
        }
      }
    }

    /** One step of caller `id`, whatever it can do next. */
    method OtherCaller(id: nat, key: Key, ghost cleaner: Option<nat>)
      requires Valid() && (cleaner.Some? ==> cleaner.value in cleaners)
      modifies this
      ensures Valid() && old(events) <= events
      ensures forall other | other != id ::
                (other in callers <==> other in old(callers)) &&
                (other in callers ==> callers[other] == old(callers)[other])
      ensures cleaner.Some? ==> cleaner.value in cleaners && cleaners[cleaner.value] == old(cleaners)[cleaner.value]
    {
      hide Run, Phased;
      if id !in callers {
        Arrive(id, key);
      } else if callers[id].Trying? {
        TryAcquire(id);
      } else if callers[id].Blocked? {
        if clients[callers[id].client].cleaning == Closed { WakeUp(id); } else if * { GiveUp(id); }
      } else if callers[id].Holding? {
        HolderIsUser(Now(), id);
        Release(id);
      }
    }
  }
}
