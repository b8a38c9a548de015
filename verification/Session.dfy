/** src/security/session.cpp: the session store, its two lock-guarded phases and the background sweeper. */
module Session {
  import opened Text

  type Id = string

  datatype Record = Record(expires: int, data: map<string, string>)

  type Store = map<Id, Record>

  predicate Live(store: Store, id: Id, now: int) { id in store && store[id].expires > now }

  /** The first phase on a presented id: a live session gets a new lease. */
  function Refreshed(store: Store, cookie: Option<Id>, now: int, ttl: int): Store {
    if cookie.Some? && Live(store, cookie.value, now)
    then store[cookie.value := store[cookie.value].(expires := now + ttl)]
    else store
  }

  /** The second phase, after a miss: the presented id goes, whatever it holds by now, and a new session starts. */
  function Created(store: Store, cookie: Option<Id>, id: Id, now: int, ttl: int): Store {
    (if cookie.Some? then store - {cookie.value} else store)[id := Record(now + ttl, map[])]
  }

  function Swept(store: Store, now: int): Store {
    map id | id in store && store[id].expires > now :: store[id]
  }

  class SessionStore {
    const ttl: int
    var storage: Store

    constructor (ttl: int)
      ensures storage == map[] && this.ttl == ttl
    {
      this.ttl := ttl;
      storage := map[];
    }

    method Lookup(cookie: Option<Id>, now: int) returns (session: Option<Id>)
      modifies this
      ensures storage == Refreshed(old(storage), cookie, now, ttl)
      ensures session == if cookie.Some? && Live(old(storage), cookie.value, now) then cookie else None
    {
      session := None;
      if cookie.Some? {
        var id := cookie.value;
        if id in storage && storage[id].expires > now {
          storage := storage[id := storage[id].(expires := now + ttl)];
          session := Some(id);
        }
      }
    }

    method Create(cookie: Option<Id>, id: Id, now: int)
      modifies this
      ensures storage == Created(old(storage), cookie, id, now, ttl)
    {
      if cookie.Some? {
        if cookie.value in storage { storage := storage - {cookie.value}; }
      }
      assert storage == if cookie.Some? then old(storage) - {cookie.value} else old(storage);
      storage := storage[id := Record(now + ttl, map[])];
    }

    /** One round of cleanup: erase while iterating. */
    method Sweep(now: int)
      modifies this
      ensures storage == Swept(old(storage), now)
    {
      var rest := storage.Keys;
      while rest != {}
        invariant rest <= storage.Keys <= old(storage).Keys
        invariant forall id | id in storage :: storage[id] == old(storage)[id]
        invariant forall id | id in old(storage) && id !in rest :: id in storage <==> old(storage)[id].expires > now
        decreases |rest|
      {
        var it :| it in rest;
        if storage[it].expires <= now {
          storage := storage - {it};
        }
        rest := rest - {it};
      }
    }
  }

  // ---- Interleavings ----

  /** used holds every id issued or presented so far; pending the requests between the two phases. */
  datatype State = State(now: int, store: Store, used: set<Id>, pending: map<nat, Option<Id>>)

  datatype Event =
    | Tick(time: int)
    | Lookup(request: nat, cookie: Option<Id>)
    | Create(request: nat, id: Id)
    | Write(session: Id, key: string, value: string)
    | Sweep

  /** The clock never goes back, and a new id is one nobody has issued or presented. */
  predicate Enabled(s: State, ev: Event) {
    match ev
    case Tick(time) => time >= s.now
    case Lookup(request, _) => request !in s.pending
    case Create(request, id) => request in s.pending && id !in s.used
    case Write(_, _, _) => true
    case Sweep => true
  }

  function Step(s: State, ttl: int, ev: Event): State
    requires Enabled(s, ev)
  {
    match ev
    case Tick(time) => s.(now := time)
    case Lookup(request, cookie) =>
      var presented := s.used + if cookie.Some? then {cookie.value} else {};
      if cookie.Some? && Live(s.store, cookie.value, s.now)
      then s.(store := Refreshed(s.store, cookie, s.now, ttl), used := presented)
      else s.(pending := s.pending[request := cookie], used := presented)
    case Create(request, id) =>
      State(s.now, Created(s.store, s.pending[request], id, s.now, ttl), s.used + {id}, s.pending - {request})
    case Write(id, key, value) =>
      if id in s.store then s.(store := s.store[id := s.store[id].(data := s.store[id].data[key := value])]) else s
    case Sweep => s.(store := Swept(s.store, s.now))
  }

  /** What the client of an event sees: the session found with its data, a new cookie, or nothing yet. */
  datatype Answer = Found(id: Id, data: map<string, string>) | SetCookie(id: Id) | Nothing

  function AnswerTo(s: State, ev: Event): Answer {
    match ev
    case Lookup(_, cookie) =>
      if cookie.Some? && Live(s.store, cookie.value, s.now)
      then Found(cookie.value, s.store[cookie.value].data)
      else Nothing
    case Create(_, id) => SetCookie(id)
    case _ => Nothing
  }

  predicate Runs(s: State, ttl: int, events: seq<Event>)
    decreases |events|
  {
    events == [] || (Enabled(s, events[0]) && Runs(Step(s, ttl, events[0]), ttl, events[1..]))
  }

  function After(s: State, ttl: int, events: seq<Event>): State
    requires Runs(s, ttl, events)
    decreases |events|
  {
    if events == [] then s else After(Step(s, ttl, events[0]), ttl, events[1..])
  }

  /** The answers to all events but the sweeps. */
  function Answers(s: State, ttl: int, events: seq<Event>): seq<Answer>
    requires Runs(s, ttl, events)
    decreases |events|
  {
    if events == [] then []
    else
      var rest := Answers(Step(s, ttl, events[0]), ttl, events[1..]);
      if events[0].Sweep? then rest else [AnswerTo(s, events[0])] + rest
  }

  const START := State(0, map[], {}, map[])

  // ---- The second phase erases no live session ----

  /** Presented ids that missed are dead for good, nothing outlives a full lease, and used covers it all. */
  ghost predicate Inv(s: State, ttl: int) {
    && s.store.Keys <= s.used
    && (forall r | r in s.pending && s.pending[r].Some? ::
          s.pending[r].value in s.used && !Live(s.store, s.pending[r].value, s.now))
    && (forall id | id in s.store :: s.store[id].expires <= s.now + ttl)
  }

  lemma StepKeepsInv(s: State, ttl: int, ev: Event)
    requires Inv(s, ttl) && Enabled(s, ev)
    ensures Inv(Step(s, ttl, ev), ttl)
  {
  }

  lemma {:induction false} RunKeepsInv(s: State, ttl: int, events: seq<Event>)
    requires Inv(s, ttl) && Runs(s, ttl, events)
    ensures Inv(After(s, ttl, events), ttl)
    decreases |events|
  {
    if events != [] {
      StepKeepsInv(s, ttl, events[0]);
      RunKeepsInv(Step(s, ttl, events[0]), ttl, events[1..]);
    }
  }

  /** However lookups, creations, writes, sweeps and the clock interleave, a creation takes no live session
      away: whoever had one before has it after. */
  lemma CreateSparesTheLive(ttl: int, events: seq<Event>, request: nat, id: Id, other: Id)
    requires Runs(START, ttl, events)
    requires var s := After(START, ttl, events); Enabled(s, Create(request, id)) && Live(s.store, other, s.now)
    ensures var s := After(START, ttl, events);
            var t := Step(s, ttl, Create(request, id));
            Live(t.store, other, t.now) && t.store[other] == s.store[other]
  {
    RunKeepsInv(START, ttl, events);
  }

  // ---- The sweeper cannot be noticed ----

  function WithoutSweeps(events: seq<Event>): seq<Event> {
    if events == [] then []
    else if events[0].Sweep? then WithoutSweeps(events[1..])
    else [events[0]] + WithoutSweeps(events[1..])
  }

  /** Two stores that agree on everything but dead sessions. */
  ghost predicate Alike(a: State, b: State) {
    && a.now == b.now && a.used == b.used && a.pending == b.pending
    && (forall id :: Live(a.store, id, a.now) <==> Live(b.store, id, b.now))
    && (forall id | Live(a.store, id, a.now) :: a.store[id] == b.store[id])
  }

  lemma StepAlike(a: State, b: State, ttl: int, ev: Event)
    requires Alike(a, b) && Enabled(a, ev)
    ensures Enabled(b, ev) && Alike(Step(a, ttl, ev), Step(b, ttl, ev)) && AnswerTo(a, ev) == AnswerTo(b, ev)
    ensures ev.Sweep? ==> Alike(Step(a, ttl, ev), b)
  {
    var a', b' := Step(a, ttl, ev), Step(b, ttl, ev);
    forall id ensures Live(a'.store, id, a'.now) <==> Live(b'.store, id, b'.now) {
      assert Live(a.store, id, a.now) <==> Live(b.store, id, b.now);
    }
    forall id | Live(a'.store, id, a'.now) ensures a'.store[id] == b'.store[id] {
      assert Live(b'.store, id, b'.now);
      assert Live(a.store, id, a.now) <==> Live(b.store, id, b.now);
    }
  }

  lemma {:induction false} RunAlike(a: State, b: State, ttl: int, events: seq<Event>)
    requires Alike(a, b) && Runs(a, ttl, events)
    ensures Runs(b, ttl, WithoutSweeps(events)) && Answers(b, ttl, WithoutSweeps(events)) == Answers(a, ttl, events)
    decreases |events|
  {
    if events != [] {
      var ev, rest := events[0], events[1..];
      StepAlike(a, b, ttl, ev);
      if ev.Sweep? {
        RunAlike(Step(a, ttl, ev), b, ttl, rest);
      } else {
        RunAlike(Step(a, ttl, ev), Step(b, ttl, ev), ttl, rest);
        assert WithoutSweeps(events)[1..] == WithoutSweeps(rest);
      }
    }
  }

  /** Every request gets the same session, the same data and the same cookie with the sweeper as without it. */
  lemma SweeperUnobservable(ttl: int, events: seq<Event>)
    requires Runs(START, ttl, events)
    ensures Runs(START, ttl, WithoutSweeps(events))
    ensures Answers(START, ttl, WithoutSweeps(events)) == Answers(START, ttl, events)
  {
    RunAlike(START, START, ttl, events);
  }

  // ---- Sliding expiry ----

  /** The clock stays less than ttl behind the last visit of this session, which last says. */
  predicate Regular(id: Id, ttl: int, last: int, now: int, events: seq<Event>)
    decreases |events|
  {
    if events == [] then true
    else
      match events[0]
      case Tick(time) => time < last + ttl && Regular(id, ttl, last, time, events[1..])
      case Lookup(_, cookie) => Regular(id, ttl, if cookie == Some(id) then now else last, now, events[1..])
      case _ => Regular(id, ttl, last, now, events[1..])
  }

  /** The answers to the visits of this session, its data being what the writes made of it. */
  function Visits(id: Id, data: map<string, string>, events: seq<Event>): seq<Answer>
    decreases |events|
  {
    if events == [] then []
    else
      match events[0]
      case Lookup(_, cookie) =>
        (if cookie == Some(id) then [Found(id, data)] else []) + Visits(id, data, events[1..])
      case Write(session, key, value) => Visits(id, if session == id then data[key := value] else data, events[1..])
      case _ => Visits(id, data, events[1..])
  }

  /** What the store answered to the visits of this session. */
  function AnswersFor(id: Id, s: State, ttl: int, events: seq<Event>): seq<Answer>
    requires Runs(s, ttl, events)
    decreases |events|
  {
    if events == [] then []
    else
      var rest := AnswersFor(id, Step(s, ttl, events[0]), ttl, events[1..]);
      (if events[0].Lookup? && events[0].cookie == Some(id) then [AnswerTo(s, events[0])] else []) + rest
  }

  lemma {:induction false} RegularKeeps(id: Id, s: State, ttl: int, last: int, events: seq<Event>)
    requires Inv(s, ttl) && Runs(s, ttl, events) && Regular(id, ttl, last, s.now, events)
    requires last <= s.now < last + ttl && id in s.store && s.store[id].expires >= last + ttl
    ensures AnswersFor(id, s, ttl, events) == Visits(id, s.store[id].data, events)
    decreases |events|
  {
    if events != [] {
      var ev, t := events[0], Step(s, ttl, events[0]);
      StepKeepsInv(s, ttl, ev);
      var last' := if ev.Lookup? && ev.cookie == Some(id) then s.now else last;
      StepSpares(id, s, ttl, last, ev);
      RegularKeeps(id, t, ttl, last', events[1..]);
    }
  }

  lemma StepSpares(id: Id, s: State, ttl: int, last: int, ev: Event)
    requires Inv(s, ttl) && Enabled(s, ev) && (ev.Tick? ==> ev.time < last + ttl)
    requires last <= s.now < last + ttl && id in s.store && s.store[id].expires >= last + ttl
    ensures var t, last' := Step(s, ttl, ev), if ev.Lookup? && ev.cookie == Some(id) then s.now else last;
            && last' <= t.now < last' + ttl && id in t.store && t.store[id].expires >= last' + ttl
            && t.store[id].data ==
               if ev.Write? && ev.session == id then s.store[id].data[ev.key := ev.value] else s.store[id].data
  {
  }

  /** A client that comes back before the lease of its last visit is over finds its session, with everything
      written to it, on every visit for ever, whatever else happens to the store. */
  lemma SessionLasts(ttl: int, before: seq<Event>, request: nat, id: Id, events: seq<Event>)
    requires ttl > 0 && Runs(START, ttl, before) && Enabled(After(START, ttl, before), Create(request, id))
    requires var s := Step(After(START, ttl, before), ttl, Create(request, id));
             Runs(s, ttl, events) && Regular(id, ttl, s.now, s.now, events)
    ensures var s := Step(After(START, ttl, before), ttl, Create(request, id));
            AnswersFor(id, s, ttl, events) == Visits(id, map[], events)
  {
    RunKeepsInv(START, ttl, before);
    var s := After(START, ttl, before);
    StepKeepsInv(s, ttl, Create(request, id));
    RegularKeeps(id, Step(s, ttl, Create(request, id)), ttl, s.now, events);
  }

  /** And once a session has expired no visit finds it again, swept or not: it is lost exactly then. */
  lemma {:induction false} ExpiredIsLost(id: Id, s: State, ttl: int, events: seq<Event>)
    requires id in s.used && !Live(s.store, id, s.now) && Runs(s, ttl, events)
    ensures forall a | a in AnswersFor(id, s, ttl, events) :: a == Nothing
    decreases |events|
  {
    if events != [] {
      DeadStaysDead(id, s, ttl, events[0]);
      ExpiredIsLost(id, Step(s, ttl, events[0]), ttl, events[1..]);
    }
  }

  lemma DeadStaysDead(id: Id, s: State, ttl: int, ev: Event)
    requires id in s.used && !Live(s.store, id, s.now) && Enabled(s, ev)
    ensures id in Step(s, ttl, ev).used && !Live(Step(s, ttl, ev).store, id, Step(s, ttl, ev).now)
  {
  }
}
