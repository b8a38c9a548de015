/** src/core/server.cpp as a state machine: the event loop of Server::start and the workers that run
    handleRequest, one step per lock section, system call or queue operation, interleaved in any order.
    A connection is the number of its accept; a descriptor is reused as soon as nothing refers to the
    connection it belonged to. */
module Server {
  import opened Text
  import Exchange
  import Http

  /** A task of the thread pool: the arguments its lambda captured. */
  datatype Job = Job(fd: nat, conn: nat)

  /** Releasing: past the last statement of handleRequest, with the captured connection still alive. */
  datatype Worker = Idle | Handling(fd: nat, conn: nat) | Releasing(conn: nat)

  /** Where the event loop is: waiting, between the events of a batch, between accept and storing the
      connection, or between deregistering a descriptor, looking it up and submitting it. */
  datatype Loop =
    | Polling
    | Batch(rest: seq<nat>)
    | Storing(fd: nat, conn: nat, rest: seq<nat>)
    | Removed(fd: nat, rest: seq<nat>)
    | Looked(fd: nat, conn: nat, rest: seq<nat>)

  /** fdOf[c] is the descriptor of connection c; connections is the map under conn_mtx, where None is a
      null pointer; the three numbers count what tasks have done. */
  datatype State = State(connections: map<nat, Option<nat>>, epoll: set<nat>, queue: seq<Job>,
                         workers: seq<Worker>, loop: Loop, fdOf: seq<nat>,
                         taken: nat, erased: nat, rearmed: nat)

  const LISTENER: nat := 0

  function Init(workers: nat): State {
    State(map[], {LISTENER}, [], seq(workers, _ => Idle), Polling, [], 0, 0, 0)
  }

  /** Something still holds a pointer to connection c. */
  ghost predicate Referenced(s: State, c: nat) {
    || (exists fd | fd in s.connections :: s.connections[fd] == Some(c))
    || (exists i | 0 <= i < |s.queue| :: s.queue[i].conn == c)
    || (exists w | 0 <= w < |s.workers| :: s.workers[w] != Idle && s.workers[w].conn == c)
    || ((s.loop.Storing? || s.loop.Looked?) && s.loop.conn == c)
  }

  /** A descriptor is open while its connection is referenced: the destructor closes it. */
  ghost predicate Open(s: State, fd: nat) {
    fd == LISTENER || exists c | 0 <= c < |s.fdOf| :: s.fdOf[c] == fd && Referenced(s, c)
  }

  /** The kernel drops closed descriptors from the epoll set. */
  ghost function Closed(s: State): State {
    s.(epoll := set fd | fd in s.epoll && Open(s, fd))
  }

  datatype Step =
    | Poll(ready: seq<nat>)
    | EndBatch
    | Accept(fd: nat)
    | AcceptFails
    | Store
    | Remove
    | Lookup
    | Submit
    | Take(w: nat)
    | Erase(w: nat)
    | Rearm(w: nat)
    | Release(w: nat)

  predicate Distinct(fds: seq<nat>) { forall i, j | 0 <= i < j < |fds| :: fds[i] != fds[j] }

  ghost predicate Enabled(s: State, step: Step) {
    match step
    case Poll(ready) => s.loop.Polling? && Distinct(ready) && forall fd | fd in ready :: fd in s.epoll
    case EndBatch => s.loop == Batch([])
    case Accept(fd) => s.loop.Batch? && s.loop.rest != [] && s.loop.rest[0] == LISTENER && !Open(s, fd)
    case AcceptFails => s.loop.Batch? && s.loop.rest != [] && s.loop.rest[0] == LISTENER
    case Store => s.loop.Storing?
    case Remove => s.loop.Batch? && s.loop.rest != [] && s.loop.rest[0] != LISTENER
    case Lookup => s.loop.Removed?
    case Submit => s.loop.Looked?
    case Take(w) => w < |s.workers| && s.workers[w].Idle? && s.queue != []
    case Erase(w) => w < |s.workers| && s.workers[w].Handling?
    case Rearm(w) => w < |s.workers| && s.workers[w].Handling?
    case Release(w) => w < |s.workers| && s.workers[w].Releasing?
  }

  ghost function Do(s: State, step: Step): State
    requires Enabled(s, step)
  {
    match step
    case Poll(ready) => s.(loop := Batch(ready))
    case EndBatch => s.(loop := Polling)
    case Accept(fd) =>
      s.(epoll := s.epoll + {fd}, fdOf := s.fdOf + [fd], loop := Storing(fd, |s.fdOf|, s.loop.rest[1..]))
    case AcceptFails => s.(loop := Batch(s.loop.rest[1..]))
    case Store => s.(connections := s.connections[s.loop.fd := Some(s.loop.conn)], loop := Batch(s.loop.rest))
    case Remove => s.(epoll := s.epoll - {s.loop.rest[0]}, loop := Removed(s.loop.rest[0], s.loop.rest[1..]))
    case Lookup =>
      // operator[] inserts a null pointer under a missing descriptor
      var fd := s.loop.fd;
      var found := if fd in s.connections then s.connections[fd] else None;
      s.(connections := s.connections[fd := found],
         loop := if found.Some? then Looked(fd, found.value, s.loop.rest) else Batch(s.loop.rest))
    case Submit => s.(queue := s.queue + [Job(s.loop.fd, s.loop.conn)], loop := Batch(s.loop.rest))
    case Take(w) =>
      var job := s.queue[0];
      s.(queue := s.queue[1..], workers := s.workers[w := Handling(job.fd, job.conn)], taken := s.taken + 1)
    case Erase(w) =>
      var h := s.workers[w];
      s.(connections := s.connections - {h.fd}, workers := s.workers[w := Releasing(h.conn)], erased := s.erased + 1)
    case Rearm(w) =>
      var h := s.workers[w];
      s.(epoll := s.epoll + {h.fd}, workers := s.workers[w := Releasing(h.conn)], rearmed := s.rearmed + 1)
    case Release(w) => Closed(s.(workers := s.workers[w := Idle]))
  }

  /** The server itself: one method per lock section, system call and queue operation. The epoll set and
      the descriptor of each connection belong to the kernel. */
  class EventLoop {
    var connections: map<nat, Option<nat>>
    var tasks: seq<Job>
    var workers: seq<Worker>
    var loop: Loop
    ghost var epoll: set<nat>
    ghost var fdOf: seq<nat>
    ghost var taken: nat
    ghost var erased: nat
    ghost var rearmed: nat

    ghost function Abstract(): State
      reads this
    {
      State(connections, epoll, tasks, workers, loop, fdOf, taken, erased, rearmed)
    }

    constructor (threads: nat)
      ensures Abstract() == Init(threads) && Inv(Abstract())
    {
      connections, tasks, loop, workers := map[], [], Polling, seq(threads, _ => Idle);
      epoll, fdOf, taken, erased, rearmed := {LISTENER}, [], 0, 0, 0;
      new;
      InitInv(threads);
    }

    /** A new connection: registered for events before it is in the map. */
    method AcceptConnection(fd: nat, conn: nat)
      requires Inv(Abstract()) && Enabled(Abstract(), Accept(fd)) && conn == |fdOf|
      modifies this
      ensures Inv(Abstract()) && Abstract() == Do(old(Abstract()), Accept(fd))
    {
      hide Inv;
      StepKeeps(Abstract(), Accept(fd));
      epoll, fdOf := epoll + {fd}, fdOf + [fd];
      loop := Storing(fd, conn, loop.rest[1..]);
    }

    method StoreConnection()
      requires Inv(Abstract()) && Enabled(Abstract(), Store)
      modifies this
      ensures Inv(Abstract()) && Abstract() == Do(old(Abstract()), Store)
    {
      hide Inv;
      StepKeeps(Abstract(), Store);
      connections := connections[loop.fd := Some(loop.conn)];
      loop := Batch(loop.rest);
    }

    method Deregister()
      requires Inv(Abstract()) && Enabled(Abstract(), Remove)
      modifies this
      ensures Inv(Abstract()) && Abstract() == Do(old(Abstract()), Remove)
    {
      hide Inv;
      StepKeeps(Abstract(), Remove);
      var fd := loop.rest[0];
      epoll := epoll - {fd};
      loop := Removed(fd, loop.rest[1..]);
    }

    /** conn_ptr = connections[fd], and continue on a null pointer. */
    method FindConnection()
      requires Enabled(Abstract(), Lookup)
      modifies this
      ensures Abstract() == Do(old(Abstract()), Lookup)
    {
      var fd := loop.fd;
      if fd !in connections { connections := connections[fd := None]; }
      var connPtr := connections[fd];
      assert connections == connections[fd := connPtr];
      if connPtr.None? {
        loop := Batch(loop.rest);
      } else {
        loop := Looked(fd, connPtr.value, loop.rest);
      }
    }

    method SubmitTask()
      requires Inv(Abstract()) && Enabled(Abstract(), Submit)
      modifies this
      ensures Inv(Abstract()) && Abstract() == Do(old(Abstract()), Submit)
    {
      hide Inv;
      StepKeeps(Abstract(), Submit);
      tasks := tasks + [Job(loop.fd, loop.conn)];
      loop := Batch(loop.rest);
    }

    method TakeTask(w: nat)
      requires Inv(Abstract()) && Enabled(Abstract(), Take(w))
      modifies this
      ensures Inv(Abstract()) && Abstract() == Do(old(Abstract()), Take(w))
    {
      hide Inv;
      StepKeeps(Abstract(), Take(w));
      var job := tasks[0];
      tasks, workers := tasks[1..], workers[w := Handling(job.fd, job.conn)];
      taken := taken + 1;
    }

    method EraseConnection(fd: nat)
      modifies this`connections, this`erased
      ensures connections == old(connections) - {fd} && erased == old(erased) + 1
    {
      connections := connections - {fd};
      erased := erased + 1;
    }

    method RegisterAgain(fd: nat)
      modifies this`epoll, this`rearmed
      ensures epoll == old(epoll) + {fd} && rearmed == old(rearmed) + 1
    {
      epoll := epoll + {fd};
      rearmed := rearmed + 1;
    }

    /** handleRequest, from the first read to one of its exits: every exit but an exception has erased the
        connection or registered its descriptor, once. */
    method Exchanged(fd: nat, peer: Exchange.Peer, app: Exchange.App) returns (end: Exchange.End)
      modifies this`connections, this`erased, this`epoll, this`rearmed
      ensures end == Exchange.EndOf(peer, app)
      ensures Abstract() == match end
                            case Closed => old(Abstract()).(connections := old(connections) - {fd},
                                                            erased := old(erased) + 1)
                            case Kept => old(Abstract()).(epoll := old(epoll) + {fd}, rearmed := old(rearmed) + 1)
                            case Escaped => old(Abstract())
    {
      hide Find, MatchAt, Contains, Http.ParsedRequest, Exchange.ReadHead, Exchange.ReadBody, Exchange.Announced,
        Exchange.MaxReads;
      if peer.tls && !peer.shakesHands {
        EraseConnection(fd);
        return Exchange.Closed;
      }
      var raw, next := Exchange.ReceiveHead(peer.pieces);
      var headerEnd := Find(raw, Exchange.BLANK, 0);
      if headerEnd.Some? {
        var length := Exchange.Announced(raw);
        if length.None? {
          EraseConnection(fd);
          return Exchange.Closed;
        }
        if length.value > app.maxUpload {
          EraseConnection(fd);
          return Exchange.Closed;
        }
        raw := Exchange.ReceiveBody(raw, peer.pieces[next..], headerEnd.value + 4, length.value);
      }
      if raw == "" {
        EraseConnection(fd);
        return Exchange.Closed;
      }
      var outcome := Http.Parse(raw, app.config);
      if outcome.Thrown? { return Exchange.Escaped; }
      if outcome.Rejected? {
        EraseConnection(fd);
        return Exchange.Closed;
      }
      var headers := outcome.request.headers;
      if Exchange.IsUpgrade(headers) {
        if app.escapes { return Exchange.Escaped; }
        EraseConnection(fd);
        return Exchange.Closed;
      }
      if !app.hasRouter {
        EraseConnection(fd);
        return Exchange.Closed;
      }
      if app.escapes { return Exchange.Escaped; }
      if "Connection" in headers && headers["Connection"] == "close" {
        EraseConnection(fd);
        return Exchange.Closed;
      }
      RegisterAgain(fd);
      return Exchange.Kept;
    }

    /** A task: whatever its peer sends, it is one erase or one re-registration of its own connection, unless an
        exception leaves it. */
    method HandleRequest(w: nat, peer: Exchange.Peer, app: Exchange.App) returns (end: Exchange.End)
      requires Inv(Abstract()) && w < |workers| && workers[w].Handling?
      modifies this
      ensures Inv(Abstract()) && end == Exchange.EndOf(peer, app) && Ended(old(Abstract()), w, end, Abstract())
    {
      hide Inv, Exchange.EndOf, Ended;
      EndsKeep(Abstract(), w);
      var fd, conn := workers[w].fd, workers[w].conn;
      end := Exchanged(fd, peer, app);
      if !end.Escaped? { workers := workers[w := Releasing(conn)]; }
    }

    /** One event of a batch, uninterrupted, on a connection: its descriptor leaves epoll and its own live
        connection is queued. Nothing else changes. */
    method Dispatch()
      requires Inv(Abstract()) && loop.Batch? && loop.rest != [] && loop.rest[0] != LISTENER
      modifies this
      ensures Inv(Abstract())
      ensures var fd := old(loop.rest[0]);
              && fd in old(connections) && old(connections)[fd].Some?
              && Abstract() == old(Abstract()).(epoll := old(epoll) - {fd}, loop := Batch(old(loop.rest)[1..]),
                                                queue := old(tasks) + [Job(fd, old(connections)[fd].value)])
    {
      Deregister();
      LookupKeeps(Abstract());
      FindConnection();
      SubmitTask();
    }

    /** A new connection, uninterrupted: registered and stored under a descriptor that was free. */
    method Admit(fd: nat, conn: nat)
      requires Inv(Abstract()) && Enabled(Abstract(), Accept(fd)) && conn == |fdOf|
      modifies this
      ensures Inv(Abstract()) && fd !in old(connections)
      ensures Abstract() == old(Abstract()).(epoll := old(epoll) + {fd}, fdOf := old(fdOf) + [fd],
                                             connections := old(connections)[fd := Some(conn)],
                                             loop := Batch(old(loop.rest)[1..]))
    {
      AcceptConnection(fd, conn);
      StoreConnection();
    }
  }

  // ---- Who owns a connection ----

  function JobsOn(queue: seq<Job>, fd: nat): nat {
    if queue == [] then 0 else (if queue[0].fd == fd then 1 else 0) + JobsOn(queue[1..], fd)
  }

  function HandlersOn(workers: seq<Worker>, fd: nat): nat {
    if workers == [] then 0
    else (if workers[0].Handling? && workers[0].fd == fd then 1 else 0) + HandlersOn(workers[1..], fd)
  }

  function Handlers(workers: seq<Worker>): nat {
    if workers == [] then 0 else (if workers[0].Handling? then 1 else 0) + Handlers(workers[1..])
  }

  predicate LoopHolds(loop: Loop, fd: nat) { (loop.Removed? || loop.Looked?) && loop.fd == fd }

  /** How many of epoll, event loop, queue and workers have the connection on a descriptor in hand. */
  function Owners(s: State, fd: nat): nat {
    (if fd in s.epoll then 1 else 0) + (if LoopHolds(s.loop, fd) then 1 else 0) +
    JobsOn(s.queue, fd) + HandlersOn(s.workers, fd)
  }

  ghost predicate Live(s: State, fd: nat, c: nat) {
    fd in s.connections && s.connections[fd] == Some(c)
  }

  function Pending(loop: Loop): seq<nat> { if loop.Polling? then [] else loop.rest }

  /** The map holds no null pointer, and every connection under its own descriptor. */
  ghost predicate MapOk(s: State) {
    forall fd | fd in s.connections ::
      s.connections[fd].Some? && fd != LISTENER &&
      s.connections[fd].value < |s.fdOf| && s.fdOf[s.connections[fd].value] == fd
  }

  ghost predicate OneOwner(s: State) { forall fd | fd in s.connections :: Owners(s, fd) == 1 }

  /** Whoever has a connection in hand has the one in the map. */
  ghost predicate HandsOk(s: State) {
    && (forall i | 0 <= i < |s.queue| :: Live(s, s.queue[i].fd, s.queue[i].conn))
    && (forall w | 0 <= w < |s.workers| && s.workers[w].Handling? :: Live(s, s.workers[w].fd, s.workers[w].conn))
    && (s.loop.Looked? ==> Live(s, s.loop.fd, s.loop.conn))
    && (s.loop.Removed? ==> s.loop.fd in s.connections)
    && (s.loop.Storing? ==>
          s.loop.fd !in s.connections && s.loop.fd != LISTENER && s.loop.fd in s.epoll &&
          s.loop.conn < |s.fdOf| && s.fdOf[s.loop.conn] == s.loop.fd)
  }

  /** Only live descriptors are registered. */
  ghost predicate EpollOk(s: State) {
    && LISTENER in s.epoll
    && (forall fd | fd in s.epoll :: fd == LISTENER || fd in s.connections || (s.loop.Storing? && fd == s.loop.fd))
  }

  /** The events still to be processed are registered, and for different descriptors. */
  ghost predicate BatchOk(s: State) {
    && Distinct(Pending(s.loop))
    && (forall fd | fd in Pending(s.loop) :: fd in s.epoll && (s.loop.Storing? ==> fd != s.loop.fd))
  }

  /** Conservation of connections and of tasks. */
  ghost predicate Conserved(s: State) {
    && |s.fdOf| == |s.connections| + s.erased + (if s.loop.Storing? then 1 else 0)
    && s.taken == s.erased + s.rearmed + Handlers(s.workers)
  }

  ghost predicate Inv(s: State) {
    MapOk(s) && OneOwner(s) && HandsOk(s) && EpollOk(s) && BatchOk(s) && Conserved(s)
  }

  lemma {:induction false} JobsAppend(queue: seq<Job>, job: Job, fd: nat)
    ensures JobsOn(queue + [job], fd) == JobsOn(queue, fd) + if job.fd == fd then 1 else 0
  {
    if queue == [] {
      assert queue + [job] == [job];
    } else {
      assert (queue + [job])[1..] == queue[1..] + [job];
      JobsAppend(queue[1..], job, fd);
    }
  }

  lemma {:induction false} JobCounts(queue: seq<Job>, i: nat)
    requires i < |queue|
    ensures JobsOn(queue, queue[i].fd) >= 1
  {
    if i > 0 {
      JobCounts(queue[1..], i - 1);
    }
  }

  lemma {:induction false} HandlersUpdate(workers: seq<Worker>, w: nat, h: Worker, fd: nat)
    requires w < |workers|
    ensures HandlersOn(workers[w := h], fd) == HandlersOn(workers, fd)
              - (if workers[w].Handling? && workers[w].fd == fd then 1 else 0)
              + (if h.Handling? && h.fd == fd then 1 else 0)
    ensures Handlers(workers[w := h]) ==
            Handlers(workers) - (if workers[w].Handling? then 1 else 0) + if h.Handling? then 1 else 0
  {
    if w == 0 {
      assert workers[0 := h][1..] == workers[1..];
    } else {
      assert workers[w := h][1..] == workers[1..][w - 1 := h];
      HandlersUpdate(workers[1..], w - 1, h, fd);
    }
  }

  lemma {:induction false} HandlerCounts(workers: seq<Worker>, w: nat)
    requires w < |workers| && workers[w].Handling?
    ensures HandlersOn(workers, workers[w].fd) >= 1
    ensures forall v | 0 <= v < |workers| && v != w && workers[v].Handling? && workers[v].fd == workers[w].fd ::
              HandlersOn(workers, workers[w].fd) >= 2
  {
    HandlersUpdate(workers, w, Idle, workers[w].fd);
    forall v | 0 <= v < |workers| && v != w && workers[v].Handling? && workers[v].fd == workers[w].fd
      ensures HandlersOn(workers, workers[w].fd) >= 2
    {
      var rest := workers[w := Idle];
      HandlersUpdate(rest, v, Idle, workers[w].fd);
    }
  }

  // ---- Every step keeps the invariant ----

  lemma LiveIsOpen(s: State, fd: nat)
    requires Inv(s) && fd in s.connections
    ensures Open(s, fd)
  {
    var c := s.connections[fd].value;
    assert s.connections[fd] == Some(c) && Referenced(s, c) && s.fdOf[c] == fd;
  }

  lemma {:induction false} NoJobs(queue: seq<Job>, fd: nat)
    requires forall i | 0 <= i < |queue| :: queue[i].fd != fd
    ensures JobsOn(queue, fd) == 0
  {
    if queue != [] {
      NoJobs(queue[1..], fd);
    }
  }

  lemma {:induction false} NoHandlersOn(workers: seq<Worker>, fd: nat)
    requires forall w | 0 <= w < |workers| && workers[w].Handling? :: workers[w].fd != fd
    ensures HandlersOn(workers, fd) == 0
  {
    if workers != [] {
      NoHandlersOn(workers[1..], fd);
    }
  }

  lemma AcceptKeeps(s: State, fd: nat)
    requires Inv(s) && Enabled(s, Accept(fd))
    ensures Inv(Do(s, Accept(fd)))
  {
    var q := Do(s, Accept(fd));
    forall f | f in s.connections ensures f != fd {
      LiveIsOpen(s, f);
    }
    assert fd !in s.connections && fd !in s.epoll;
    forall f | f in q.connections ensures Owners(q, f) == 1 {
      assert Owners(s, f) == 1;
    }
    assert OneOwner(q);
    hide OneOwner, Owners, Referenced, JobsOn, HandlersOn;
    var rest := s.loop.rest;
    assert forall i | 0 <= i < |rest| :: rest[i] in Pending(s.loop);
    assert forall i | 0 <= i < |rest[1..]| :: rest[1..][i] == rest[i + 1];
  }

  lemma LoopKeeps(s: State, step: Step)
    requires Inv(s) && Enabled(s, step) && (step.Poll? || step.EndBatch? || step.AcceptFails?)
    ensures Inv(Do(s, step))
  {
    var q := Do(s, step);
    forall f | f in q.connections ensures Owners(q, f) == 1 {
      assert Owners(s, f) == 1;
    }
    assert OneOwner(q);
    hide OneOwner, Owners, Referenced, JobsOn, HandlersOn;
  }

  lemma StoreKeeps(s: State)
    requires Inv(s) && Enabled(s, Store)
    ensures Inv(Do(s, Store))
  {
    var q, fd := Do(s, Store), s.loop.fd;
    forall i | 0 <= i < |s.queue| ensures s.queue[i].fd != fd {
      assert Live(s, s.queue[i].fd, s.queue[i].conn);
    }
    NoJobs(s.queue, fd);
    forall w | 0 <= w < |s.workers| && s.workers[w].Handling? ensures s.workers[w].fd != fd {
      assert Live(s, s.workers[w].fd, s.workers[w].conn);
    }
    NoHandlersOn(s.workers, fd);
    forall f | f in q.connections ensures Owners(q, f) == 1 {
      if f != fd {
        assert Owners(s, f) == 1;
      }
    }
    assert OneOwner(q);
    hide OneOwner, Owners, Referenced, JobsOn, HandlersOn;
  }

  function JobOn(queue: seq<Job>, fd: nat): (i: nat)
    requires JobsOn(queue, fd) > 0
    ensures i < |queue| && queue[i].fd == fd
  {
    if queue[0].fd == fd then 0 else 1 + JobOn(queue[1..], fd)
  }

  function HandlerOn(workers: seq<Worker>, fd: nat): (w: nat)
    requires HandlersOn(workers, fd) > 0
    ensures w < |workers| && workers[w].Handling? && workers[w].fd == fd
  {
    if workers[0].Handling? && workers[0].fd == fd then 0 else 1 + HandlerOn(workers[1..], fd)
  }

  lemma RemoveKeeps(s: State)
    requires Inv(s) && Enabled(s, Remove)
    ensures Inv(Do(s, Remove))
  {
    var q, rest := Do(s, Remove), s.loop.rest;
    assert rest[0] in Pending(s.loop);
    assert forall i | 0 <= i < |rest[1..]| :: rest[1..][i] == rest[i + 1];
    assert forall f | f in rest[1..] :: f in rest;
    forall f | f in q.connections ensures Owners(q, f) == 1 {
      assert Owners(s, f) == 1;
    }
    assert OneOwner(q);
    hide OneOwner, Owners, Referenced, JobsOn, HandlersOn;
  }

  lemma LookupKeeps(s: State)
    requires Inv(s) && Enabled(s, Lookup)
    ensures Inv(Do(s, Lookup)) && Do(s, Lookup).loop.Looked?
    ensures Do(s, Lookup).connections == s.connections
  {
    var q := Do(s, Lookup);
    assert q.connections == s.connections;
    forall f | f in q.connections ensures Owners(q, f) == 1 {
      assert Owners(s, f) == 1;
    }
    assert OneOwner(q);
    hide OneOwner, Owners, Referenced, JobsOn, HandlersOn;
  }

  lemma SubmitKeeps(s: State)
    requires Inv(s) && Enabled(s, Submit)
    ensures Inv(Do(s, Submit))
  {
    var q := Do(s, Submit);
    forall f | f in q.connections ensures Owners(q, f) == 1 {
      assert Owners(s, f) == 1;
      JobsAppend(s.queue, Job(s.loop.fd, s.loop.conn), f);
    }
    assert OneOwner(q);
    hide OneOwner, Owners, Referenced, JobsOn, HandlersOn;
  }

  lemma TakeKeeps(s: State, w: nat)
    requires Inv(s) && Enabled(s, Take(w))
    ensures Inv(Do(s, Take(w)))
  {
    var q, job := Do(s, Take(w)), s.queue[0];
    assert Live(s, job.fd, job.conn);
    HandlersUpdate(s.workers, w, Handling(job.fd, job.conn), job.fd);
    forall f | f in q.connections ensures Owners(q, f) == 1 {
      assert Owners(s, f) == 1;
      HandlersUpdate(s.workers, w, Handling(job.fd, job.conn), f);
    }
    assert OneOwner(q);
    hide OneOwner, Owners, Referenced, JobsOn, HandlersOn;
  }

  /** The connection a worker handles is in nobody else's hands. */
  lemma SoleOwner(s: State, w: nat)
    requires Inv(s) && w < |s.workers| && s.workers[w].Handling?
    ensures var fd := s.workers[w].fd;
            && fd !in s.epoll && !LoopHolds(s.loop, fd)
            && (forall i | 0 <= i < |s.queue| :: s.queue[i].fd != fd)
            && (forall v | 0 <= v < |s.workers| && v != w && s.workers[v].Handling? :: s.workers[v].fd != fd)
  {
    var fd := s.workers[w].fd;
    assert Live(s, fd, s.workers[w].conn) && Owners(s, fd) == 1;
    HandlerCounts(s.workers, w);
    forall i | 0 <= i < |s.queue| ensures s.queue[i].fd != fd {
      JobCounts(s.queue, i);
    }
  }

  lemma EraseKeeps(s: State, w: nat)
    requires Inv(s) && Enabled(s, Erase(w))
    ensures Inv(Do(s, Erase(w)))
  {
    var q, h := Do(s, Erase(w)), s.workers[w];
    SoleOwner(s, w);
    assert Live(s, h.fd, h.conn);
    assert q.connections.Keys == s.connections.Keys - {h.fd};
    assert |s.connections.Keys| == |q.connections.Keys| + 1;
    HandlersUpdate(s.workers, w, Releasing(h.conn), h.fd);
    forall f | f in q.connections ensures Owners(q, f) == 1 {
      assert Owners(s, f) == 1;
      HandlersUpdate(s.workers, w, Releasing(h.conn), f);
    }
    forall v | 0 <= v < |q.workers| && q.workers[v].Handling? ensures Live(q, q.workers[v].fd, q.workers[v].conn) {
      assert v != w && Live(s, s.workers[v].fd, s.workers[v].conn);
    }
    forall i | 0 <= i < |q.queue| ensures Live(q, q.queue[i].fd, q.queue[i].conn) {
      assert Live(s, s.queue[i].fd, s.queue[i].conn);
    }
  }

  lemma RearmKeeps(s: State, w: nat)
    requires Inv(s) && Enabled(s, Rearm(w))
    ensures Inv(Do(s, Rearm(w)))
  {
    var q, h := Do(s, Rearm(w)), s.workers[w];
    SoleOwner(s, w);
    assert Live(s, h.fd, h.conn);
    HandlersUpdate(s.workers, w, Releasing(h.conn), h.fd);
    forall f | f in q.connections ensures Owners(q, f) == 1 {
      assert Owners(s, f) == 1;
      HandlersUpdate(s.workers, w, Releasing(h.conn), f);
    }
    forall v | 0 <= v < |q.workers| && q.workers[v].Handling? ensures Live(q, q.workers[v].fd, q.workers[v].conn) {
      assert v != w && Live(s, s.workers[v].fd, s.workers[v].conn);
    }
  }

  lemma ReleaseKeeps(s: State, w: nat)
    requires Inv(s) && Enabled(s, Release(w))
    ensures Inv(Do(s, Release(w))) && Do(s, Release(w)).epoll == s.epoll
  {
    var q := s.(workers := s.workers[w := Idle]);
    forall fd | fd in s.epoll ensures Open(q, fd) {
      if fd in s.connections {
        var c := s.connections[fd].value;
        assert Live(s, fd, c) && q.connections[fd] == Some(c) && Referenced(q, c) && q.fdOf[c] == fd;
      } else if fd != LISTENER {
        assert Referenced(q, s.loop.conn) && q.fdOf[s.loop.conn] == fd;
      }
    }
    assert Closed(q).epoll == s.epoll;
    HandlersUpdate(s.workers, w, Idle, 0);
    forall f | f in q.connections ensures Owners(Closed(q), f) == 1 {
      assert Owners(s, f) == 1;
      HandlersUpdate(s.workers, w, Idle, f);
    }
    forall v | 0 <= v < |q.workers| && q.workers[v].Handling? ensures Live(q, q.workers[v].fd, q.workers[v].conn) {
      assert v != w && Live(s, s.workers[v].fd, s.workers[v].conn);
    }
  }

  /** The end of the task of worker w as a step of the server. */
  ghost predicate Ended(s: State, w: nat, end: Exchange.End, q: State)
    requires w < |s.workers| && s.workers[w].Handling?
  {
    match end
    case Closed => q == Do(s, Erase(w))
    case Kept => q == Do(s, Rearm(w))
    case Escaped => q == s
  }

  lemma EndsKeep(s: State, w: nat)
    requires Inv(s) && w < |s.workers| && s.workers[w].Handling?
    ensures var h := s.workers[w];
            var q := s.(workers := s.workers[w := Releasing(h.conn)]);
            var closed := q.(connections := s.connections - {h.fd}, erased := s.erased + 1);
            var kept := q.(epoll := s.epoll + {h.fd}, rearmed := s.rearmed + 1);
            && Inv(closed) && Ended(s, w, Exchange.Closed, closed)
            && Inv(kept) && Ended(s, w, Exchange.Kept, kept) && Ended(s, w, Exchange.Escaped, s)
  {
    hide Inv;
    StepKeeps(s, Erase(w));
    StepKeeps(s, Rearm(w));
  }

  lemma StepKeeps(s: State, step: Step)
    requires Inv(s) && Enabled(s, step)
    ensures Inv(Do(s, step))
  {
    hide Inv, Do;
    match step {
      case Accept(fd) => AcceptKeeps(s, fd);
      case Store => StoreKeeps(s);
      case Remove => RemoveKeeps(s);
      case Lookup => LookupKeeps(s);
      case Submit => SubmitKeeps(s);
      case Take(w) => TakeKeeps(s, w);
      case Erase(w) => EraseKeeps(s, w);
      case Rearm(w) => RearmKeeps(s, w);
      case Release(w) => ReleaseKeeps(s, w);
      case _ => LoopKeeps(s, step);
    }
  }

  /** A run of a server with a number of workers. */
  ghost predicate Run(workers: nat, states: seq<State>, steps: seq<Step>) {
    && |states| == |steps| + 1 && states[0] == Init(workers)
    && (forall i | 0 <= i < |steps| :: Enabled(states[i], steps[i]) && Do(states[i], steps[i]) == states[i + 1])
  }

  ghost predicate Reachable(workers: nat, s: State) {
    exists states, steps :: Run(workers, states, steps) && states[|steps|] == s
  }

  lemma {:induction false} InitInv(workers: nat)
    ensures Inv(Init(workers))
  {
    NoHandlers(workers);
  }

  lemma {:induction false} NoHandlers(n: nat)
    ensures Handlers(seq(n, _ => Idle)) == 0
  {
    if n > 0 {
      assert seq(n, _ => Idle)[1..] == seq(n - 1, _ => Idle);
      NoHandlers(n - 1);
    }
  }

  lemma {:induction false} RunInv(workers: nat, states: seq<State>, steps: seq<Step>, i: nat)
    requires Run(workers, states, steps) && i <= |steps|
    ensures Inv(states[i])
  {
    if i == 0 {
      InitInv(workers);
    } else {
      RunInv(workers, states, steps, i - 1);
      StepKeeps(states[i - 1], steps[i - 1]);
    }
  }

  lemma ReachableInv(workers: nat, s: State)
    requires Reachable(workers, s)
    ensures Inv(s)
  {
    var states, steps :| Run(workers, states, steps) && states[|steps|] == s;
    RunInv(workers, states, steps, |steps|);
  }

  // ---- What the invariant gives ----

  /** Where a connection is: one of the four owners, as a witness. */
  datatype Owner = Epoll | EventLoop | Queue(i: nat) | Task(w: nat)

  ghost predicate Owns(s: State, o: Owner, fd: nat, c: nat) {
    match o
    case Epoll => fd in s.epoll
    case EventLoop => LoopHolds(s.loop, fd) && (s.loop.Looked? ==> s.loop.conn == c)
    case Queue(i) => i < |s.queue| && s.queue[i] == Job(fd, c)
    case Task(w) => w < |s.workers| && s.workers[w] == Handling(fd, c)
  }

  lemma {:induction false} TwoJobs(queue: seq<Job>, i: nat, j: nat)
    requires i < j < |queue| && queue[i].fd == queue[j].fd
    ensures JobsOn(queue, queue[i].fd) >= 2
  {
    if i == 0 {
      JobCounts(queue[1..], j - 1);
    } else {
      TwoJobs(queue[1..], i - 1, j - 1);
    }
  }

  /** In every reachable state each live connection has exactly one owner. */
  lemma ExactlyOneOwner(workers: nat, s: State, fd: nat, c: nat) returns (o: Owner)
    requires Reachable(workers, s) && Live(s, fd, c)
    ensures Owns(s, o, fd, c)
    ensures forall o' | Owns(s, o', fd, c) :: o' == o
  {
    ReachableInv(workers, s);
    assert Owners(s, fd) == 1;
    if fd in s.epoll {
      o := Epoll;
    } else if LoopHolds(s.loop, fd) {
      o := EventLoop;
    } else if JobsOn(s.queue, fd) > 0 {
      var i := JobOn(s.queue, fd);
      assert Live(s, s.queue[i].fd, s.queue[i].conn);
      o := Queue(i);
    } else {
      var w := HandlerOn(s.workers, fd);
      assert Live(s, s.workers[w].fd, s.workers[w].conn);
      o := Task(w);
    }
    forall o' | Owns(s, o', fd, c) ensures o' == o {
      OwnerCounts(s, o', fd, c);
      OwnerCounts(s, o, fd, c);
      if o.Queue? && o'.Queue? && o.i != o'.i {
        TwoJobs(s.queue, if o.i < o'.i then o.i else o'.i, if o.i < o'.i then o'.i else o.i);
      }
    }
  }

  lemma OwnerCounts(s: State, o: Owner, fd: nat, c: nat)
    requires Owns(s, o, fd, c)
    ensures match o
            case Epoll => fd in s.epoll
            case EventLoop => LoopHolds(s.loop, fd)
            case Queue(i) => JobsOn(s.queue, fd) >= 1
            case Task(w) =>
              HandlersOn(s.workers, fd) >= 1 &&
              forall v | 0 <= v < |s.workers| && v != w && s.workers[v] == Handling(fd, c) ::
                  HandlersOn(s.workers, fd) >= 2
  {
    match o {
      case Queue(i) => JobCounts(s.queue, i);
      case Task(w) => HandlerCounts(s.workers, w);
      case _ =>
    }
  }

  /** An erase by descriptor removes the connection its worker was handling, and no other, although
      descriptors are reused. */
  lemma EraseHitsOwn(workers: nat, s: State, w: nat)
    requires Reachable(workers, s) && Enabled(s, Erase(w))
    ensures var fd, c, q := s.workers[w].fd, s.workers[w].conn, Do(s, Erase(w));
            && Live(s, fd, c) && fd !in q.connections
            && (forall f, d :: Live(q, f, d) <==> Live(s, f, d) && d != c)
  {
    ReachableInv(workers, s);
    var fd, c, q := s.workers[w].fd, s.workers[w].conn, Do(s, Erase(w));
    assert Live(s, fd, c);
    forall f, d ensures Live(q, f, d) <==> Live(s, f, d) && d != c {
      assert Live(q, f, d) <==> Live(s, f, d) && f != fd;
    }
  }

  /** The lookup after an event finds the live connection the event was for: no null pointer is ever
      inserted, and no event of a batch is stale. */
  lemma LookupFindsLive(workers: nat, s: State)
    requires Reachable(workers, s) && Enabled(s, Lookup)
    ensures var q := Do(s, Lookup);
            && q.connections == s.connections && q.loop.Looked?
            && Live(s, s.loop.fd, q.loop.conn) && q.loop.conn < |s.fdOf| && s.fdOf[q.loop.conn] == s.loop.fd
  {
    ReachableInv(workers, s);
    LookupKeeps(s);
  }

  /** Storing an accepted connection overwrites nothing, and live connections have different descriptors. */
  lemma StoreOverwritesNothing(workers: nat, s: State)
    requires Reachable(workers, s)
    ensures s.loop.Storing? ==> s.loop.fd !in s.connections
    ensures forall fd, c, fd', c' | Live(s, fd, c) && Live(s, fd', c') :: c == c' <==> fd == fd'
  {
    ReachableInv(workers, s);
  }

  /** Every accepted connection is live or was erased, once; every task taken has ended in exactly one
      erase or re-registration, or is still running. */
  lemma Conservation(workers: nat, s: State)
    requires Reachable(workers, s)
    ensures |s.fdOf| == |s.connections| + s.erased + if s.loop.Storing? then 1 else 0
    ensures s.taken == s.erased + s.rearmed + Handlers(s.workers)
  {
    ReachableInv(workers, s);
  }

  /** No connection is forgotten: when nothing is in progress, every live connection is registered. */
  lemma RestingServerListens(workers: nat, s: State, fd: nat)
    requires Reachable(workers, s) && s.loop.Polling? && s.queue == [] && fd in s.connections
    requires forall w | 0 <= w < |s.workers| :: !s.workers[w].Handling?
    ensures fd in s.epoll
  {
    ReachableInv(workers, s);
    NoHandlersOn(s.workers, fd);
    assert Owners(s, fd) == 1;
  }

  // ---- What the server does by itself ----

  function Weight(w: Worker): nat {
    match w
    case Idle => 0
    case Releasing(_) => 1
    case Handling(_, _) => 2
  }

  function Weights(workers: seq<Worker>): nat {
    if workers == [] then 0 else Weight(workers[0]) + Weights(workers[1..])
  }

  function LoopWeight(loop: Loop): nat {
    7 * |Pending(loop)| +
    match loop
    case Polling => 0
    case Batch(_) => 1
    case Storing(_, _, _) => 2
    case Looked(_, _, _) => 6
    case Removed(_, _) => 7
  }

  function Measure(s: State): nat { LoopWeight(s.loop) + 3 * |s.queue| + Weights(s.workers) }

  lemma {:induction false} WeightsUpdate(workers: seq<Worker>, w: nat, h: Worker)
    requires w < |workers|
    ensures Weights(workers[w := h]) == Weights(workers) - Weight(workers[w]) + Weight(h)
  {
    if w == 0 {
      assert workers[0 := h][1..] == workers[1..];
    } else {
      assert workers[w := h][1..] == workers[1..][w - 1 := h];
      WeightsUpdate(workers[1..], w - 1, h);
    }
  }

  /** Between two waits for events the server comes to an end: every step but the wait lowers a measure. */
  lemma StepsDecrease(s: State, step: Step)
    requires Enabled(s, step) && !step.Poll?
    ensures Measure(Do(s, step)) < Measure(s)
  {
    hide Open, Referenced;
    match step {
      case Take(w) => WeightsUpdate(s.workers, w, Handling(s.queue[0].fd, s.queue[0].conn));
      case Erase(w) => WeightsUpdate(s.workers, w, Releasing(s.workers[w].conn));
      case Rearm(w) => WeightsUpdate(s.workers, w, Releasing(s.workers[w].conn));
      case Release(w) => WeightsUpdate(s.workers, w, Idle);
      case _ =>
    }
  }

  /** The steps that need nothing from outside: no event and no new connection. */
  predicate Own(step: Step) { !step.Poll? && !step.Accept? }

  /** A server at rest waits for events, has nothing queued or running, has ended every task it took, and
      every live connection is registered. */
  lemma RestMeansListening(workers: nat, s: State)
    requires Reachable(workers, s) && workers > 0
    requires forall step | Own(step) :: !Enabled(s, step)
    ensures s.loop.Polling? && s.queue == [] && s.workers == seq(workers, _ => Idle)
    ensures forall fd | fd in s.connections :: fd in s.epoll
    ensures s.taken == s.erased + s.rearmed && |s.fdOf| == |s.connections| + s.erased
  {
    hide Open, Referenced, Owners, Inv;
    WorkersStay(workers, s);
    assert !Enabled(s, EndBatch) && !Enabled(s, Store) && !Enabled(s, Lookup) && !Enabled(s, Submit);
    assert !Enabled(s, AcceptFails) && !Enabled(s, Remove);
    forall w: nat | w < workers ensures s.workers[w] == Idle {
      assert !Enabled(s, Erase(w)) && !Enabled(s, Release(w));
    }
    assert !Enabled(s, Take(0));
    assert s.workers == seq(workers, _ => Idle);
    NoHandlers(workers);
    Conservation(workers, s);
    forall fd | fd in s.connections ensures fd in s.epoll { RestingServerListens(workers, s, fd); }
  }

  lemma WorkersStay(workers: nat, s: State)
    requires Reachable(workers, s)
    ensures |s.workers| == workers
  {
    var states, steps :| Run(workers, states, steps) && states[|steps|] == s;
    RunWorkers(workers, states, steps, |steps|);
  }

  lemma {:induction false} RunWorkers(workers: nat, states: seq<State>, steps: seq<Step>, i: nat)
    requires Run(workers, states, steps) && i <= |steps|
    ensures |states[i].workers| == workers
  {
    if i > 0 {
      RunWorkers(workers, states, steps, i - 1);
      assert Enabled(states[i - 1], steps[i - 1]) && Do(states[i - 1], steps[i - 1]) == states[i];
    }
  }

  lemma ReachableStep(workers: nat, s: State, step: Step)
    requires Reachable(workers, s) && Enabled(s, step)
    ensures Reachable(workers, Do(s, step))
  {
    hide Enabled, Do;
    var states, steps :| Run(workers, states, steps) && states[|steps|] == s;
    var more, longer := states + [Do(s, step)], steps + [step];
    assert Run(workers, more, longer) && more[|longer|] == Do(s, step);
  }

  /** Left to itself, the server ends every task and then listens on every live connection, with no
      connection added and none gone but those its tasks have erased. */
  lemma {:induction false} Settles(workers: nat, s: State) returns (r: State)
    requires Reachable(workers, s) && workers > 0
    ensures Reachable(workers, r) && r.fdOf == s.fdOf
    ensures r.loop.Polling? && r.queue == [] && r.workers == seq(workers, _ => Idle)
    ensures forall fd | fd in r.connections :: fd in r.epoll
    ensures r.taken == r.erased + r.rearmed && |r.fdOf| == |r.connections| + r.erased
    decreases Measure(s)
  {
    hide Enabled, Do, Reachable, Measure;
    if step :| Own(step) && Enabled(s, step) {
      StepsDecrease(s, step);
      ReachableStep(workers, s, step);
      OwnAccepts(s, step);
      r := Settles(workers, Do(s, step));
    } else {
      RestMeansListening(workers, s);
      r := s;
    }
  }

  lemma OwnAccepts(s: State, step: Step)
    requires Own(step) && Enabled(s, step)
    ensures Do(s, step).fdOf == s.fdOf
  {
  }
}
