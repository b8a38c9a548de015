/** src/cache/cache.cpp and src/cache/lru_policy.cpp: a bounded file cache that revalidates by
    modification time and evicts by access time. */
module Cache {
  import opened Text

  datatype Entry = Entry(content: string, mtime: int, lastAccess: int)

  datatype File = File(content: string, mtime: int)

  type Entries = map<string, Entry>
  type Disk = map<string, File>

  /** What CachePolicy::evict may turn a full cache into. */
  type Policy = (Entries, Entries) -> bool

  ghost predicate IsOldest(e: Entries, path: string) {
    path in e && forall p | p in e :: e[path].lastAccess <= e[p].lastAccess
  }

  /** LRUPolicy: one entry that no other is older than. */
  ghost predicate Lru(e: Entries, e': Entries) {
    exists path :: IsOldest(e, path) && e' == e - {path}
  }

  predicate Hit(e: Entries, disk: Disk, path: string) {
    path in e && path in disk && e[path].mtime == disk[path].mtime
  }

  /** What eviction leaves: nothing is asked of the policy below capacity. */
  ghost predicate MakesRoom(max: nat, policy: Policy, e: Entries, kept: Entries) {
    if |e| >= max then policy(e, kept) else kept == e
  }

  /** loadFile as a relation between the cache before and after; None is the exception on a missing file. */
  ghost predicate Loads(max: nat, policy: Policy, e: Entries, disk: Disk, path: string, now: int, e': Entries,
          r: Option<string>) {
    if path !in disk then e' == e && r == None
    else if Hit(e, disk, path) then e' == e[path := e[path].(lastAccess := now)] && r == Some(e[path].content)
    else
      && r == Some(disk[path].content)
      && exists kept :: MakesRoom(max, policy, e, kept)
                     && e' == kept[path := Entry(disk[path].content, disk[path].mtime, now)]
  }

  class FileCache {
    const maxEntries: nat
    var entries: Entries

    ghost predicate Valid()
      reads this
    {
      maxEntries >= 1 && |entries| <= maxEntries
    }

    constructor (maxEntries: nat)
      requires maxEntries >= 1
      ensures Valid() && entries == map[] && this.maxEntries == maxEntries
    {
      this.maxEntries := maxEntries;
      entries := map[];
    }

    method Clear()
      requires Valid()
      modifies this
      ensures Valid() && entries == map[]
    {
      entries := map[];
    }

    /** LRUPolicy::evict on the entries of this cache. */
    method Evict()
      requires entries != map[]
      modifies this
      ensures Lru(old(entries), entries)
    {
      var oldest :| oldest in entries;
      var rest := entries.Keys;
      while rest != {}
        invariant rest <= entries.Keys && oldest in entries && entries == old(entries)
        invariant forall p | p in entries && p !in rest :: entries[oldest].lastAccess <= entries[p].lastAccess
        decreases |rest|
      {
        var it :| it in rest;
        if entries[it].lastAccess < entries[oldest].lastAccess {
          oldest := it;
        }
        rest := rest - {it};
      }
      assert IsOldest(entries, oldest);
      entries := entries - {oldest};
    }

    method LoadFile(disk: Disk, path: string, now: int) returns (r: Option<string>)
      requires Valid()
      modifies this
      ensures Valid()
      ensures Loads(maxEntries, Lru, old(entries), disk, path, now, entries, r)
      // the current content, unless a file changed without its time changing
      ensures path in disk ==>
                (r == Some(disk[path].content) <==>
                 !(Hit(old(entries), disk, path) && old(entries)[path].content != disk[path].content))
    {
      if path !in disk { return None; }
      var current := disk[path].mtime;
      if path in entries && entries[path].mtime == current {
        entries := entries[path := entries[path].(lastAccess := now)];
        assert entries.Keys == old(entries).Keys;
        assert |entries.Keys| == |old(entries).Keys|;
        return Some(entries[path].content);
      }
      if |entries| >= maxEntries {
        Evict();
        LruErasesOne(old(entries), entries);
      }
      assert MakesRoom(maxEntries, Lru, old(entries), entries);
      InsertSize(entries, path, Entry(disk[path].content, current, now));
      entries := entries[path := Entry(disk[path].content, current, now)];
      return Some(disk[path].content);
    }
  }

  lemma InsertSize(e: Entries, path: string, v: Entry)
    ensures |e[path := v]| <= |e| + 1
    ensures path in e ==> |e[path := v]| == |e|
  {
    assert e[path := v].Keys == e.Keys + {path};
    assert |e[path := v].Keys| <= |e.Keys| + 1;
    if path in e { assert e.Keys + {path} == e.Keys; }
  }

  lemma LruErasesOne(e: Entries, e': Entries)
    requires Lru(e, e')
    ensures |e'| == |e| - 1 && Erases(e, e')
  {
    var path :| IsOldest(e, path) && e' == e - {path};
    assert e'.Keys == e.Keys - {path};
  }

  // ---- Coherence and size under any policy ----

  /** e' is what is left of e. */
  ghost predicate Erases(e: Entries, e': Entries) {
    forall p | p in e' :: p in e && e'[p] == e[p]
  }

  ghost predicate OnlyErases(policy: Policy) { forall e, e' | policy(e, e') :: Erases(e, e') }

  ghost predicate ErasesSome(policy: Policy) { forall e, e' | policy(e, e') && |e| > 0 :: |e'| < |e| }

  lemma LruIsAPolicy()
    ensures OnlyErases(Lru) && ErasesSome(Lru)
  {
    forall e, e' | Lru(e, e') ensures Erases(e, e') && |e'| < |e| {
      LruErasesOne(e, e');
    }
  }

  datatype Event =
    | Write(path: string, file: File)
    | Delete(path: string)
    | Load(path: string, now: int, r: Option<string>)
    | Clear

  datatype World = World(disk: Disk, entries: Entries)

  /** One event: somebody else changes the disk, or the cache is used. */
  ghost predicate Step(max: nat, policy: Policy, w: World, ev: Event, w': World) {
    match ev
    case Write(path, file) => w' == World(w.disk[path := file], w.entries)
    case Delete(path) => w' == World(w.disk - {path}, w.entries)
    case Load(path, now, r) => w'.disk == w.disk && Loads(max, policy, w.entries, w.disk, path, now, w'.entries, r)
    case Clear => w' == World(w.disk, map[])
  }

  ghost predicate Trace(max: nat, policy: Policy, worlds: seq<World>, events: seq<Event>) {
    && |worlds| == |events| + 1 && worlds[0].entries == map[]
    && (forall i | 0 <= i < |events| :: Step(max, policy, worlds[i], events[i], worlds[i + 1]))
  }

  /** The content every version of a file has: equal modification times mean equal contents. */
  ghost predicate Stamped(version: (string, int) -> string, disk: Disk) {
    forall p | p in disk :: disk[p].content == version(p, disk[p].mtime)
  }

  ghost predicate Faithful(version: (string, int) -> string, e: Entries) {
    forall p | p in e :: e[p].content == version(p, e[p].mtime)
  }

  lemma {:induction false} TraceFaithful(max: nat, policy: Policy, worlds: seq<World>, events: seq<Event>,
                                         version: (string, int) -> string, i: nat)
    requires Trace(max, policy, worlds, events) && OnlyErases(policy) && i <= |events|
    requires forall w | w in worlds :: Stamped(version, w.disk)
    ensures Faithful(version, worlds[i].entries)
  {
    if i > 0 {
      TraceFaithful(max, policy, worlds, events, version, i - 1);
      var w, w', ev := worlds[i - 1], worlds[i], events[i - 1];
      assert Step(max, policy, w, ev, w') && Stamped(version, w.disk);
      if ev.Load? && ev.path in w.disk && !Hit(w.entries, w.disk, ev.path) {
        var kept :| MakesRoom(max, policy, w.entries, kept)
                    && w'.entries == kept[ev.path := Entry(w.disk[ev.path].content, w.disk[ev.path].mtime, ev.now)];
        assert Erases(w.entries, kept);
      }
    }
  }

  /** Whatever files are written, deleted and loaded in between, and whatever the policy erases, a load
      returns the content the file has now, as long as a changed file has a changed time. */
  lemma LoadsAreCurrent(max: nat, policy: Policy, worlds: seq<World>, events: seq<Event>,
                        version: (string, int) -> string, i: nat)
    requires Trace(max, policy, worlds, events) && OnlyErases(policy)
    requires forall w | w in worlds :: Stamped(version, w.disk)
    requires i < |events| && events[i].Load?
    ensures var disk, path := worlds[i].disk, events[i].path;
            events[i].r == if path in disk then Some(disk[path].content) else None
  {
    TraceFaithful(max, policy, worlds, events, version, i);
    assert Step(max, policy, worlds[i], events[i], worlds[i + 1]) && Stamped(version, worlds[i].disk);
  }

  /** The cache never holds more than its capacity, under any policy that makes room when asked. */
  lemma {:induction false} SizeBound(max: nat, policy: Policy, worlds: seq<World>, events: seq<Event>, i: nat)
    requires max >= 1 && Trace(max, policy, worlds, events) && ErasesSome(policy) && i <= |events|
    ensures |worlds[i].entries| <= max
  {
    if i > 0 {
      SizeBound(max, policy, worlds, events, i - 1);
      var w, w', ev := worlds[i - 1], worlds[i], events[i - 1];
      assert Step(max, policy, w, ev, w');
      if ev.Load? && ev.path in w.disk {
        if Hit(w.entries, w.disk, ev.path) {
          InsertSize(w.entries, ev.path, w.entries[ev.path].(lastAccess := ev.now));
        } else {
          var kept :| MakesRoom(max, policy, w.entries, kept)
                      && w'.entries == kept[ev.path := Entry(w.disk[ev.path].content, w.disk[ev.path].mtime, ev.now)];
          InsertSize(kept, ev.path, Entry(w.disk[ev.path].content, w.disk[ev.path].mtime, ev.now));
        }
      }
    }
  }

  // ---- Least recently used ----

  function Without(order: seq<string>, path: string): seq<string> {
    if order == [] then []
    else if order[0] == path then order[1..]
    else [order[0]] + Without(order[1..], path)
  }

  function Touch(order: seq<string>, path: string): seq<string> { [path] + Without(order, path) }

  /** The paths a run has loaded since the last clear, the latest first. */
  ghost function Recency(disk: Disk, events: seq<Event>): seq<string> {
    if events == [] then []
    else
      var order, ev := Recency(disk, events[..|events| - 1]), events[|events| - 1];
      match ev
      case Load(path, _, _) => if path in disk then Touch(order, path) else order
      case Clear => []
      case _ => order
  }

  ghost predicate Distinct(s: seq<string>) {
    forall i, j | 0 <= i < j < |s| :: s[i] != s[j]
  }

  function First(n: nat, s: seq<string>): seq<string> {
    if |s| <= n then s else s[..n]
  }

  function Elements(s: seq<string>): set<string> { set x | x in s }

  lemma {:induction false} WithoutAbsent(order: seq<string>, path: string)
    requires path !in order
    ensures Without(order, path) == order
  {
    if order != [] { WithoutAbsent(order[1..], path); }
  }

  lemma {:induction false} WithoutAt(order: seq<string>, path: string, k: nat)
    requires k < |order| && order[k] == path && Distinct(order)
    ensures Without(order, path) == order[..k] + order[k + 1..]
  {
    if k > 0 { WithoutAt(order[1..], path, k - 1); }
  }

  function ToFront(order: seq<string>, k: nat): seq<string>
    requires k < |order|
  {
    [order[k]] + (order[..k] + order[k + 1..])
  }

  /** Where the j-th path of the new order came from. */
  function CameFrom(k: nat, j: nat): nat { if j == 0 then k else if j <= k then j - 1 else j }

  lemma ToFrontAt(order: seq<string>, k: nat)
    requires k < |order|
    ensures |ToFront(order, k)| == |order|
    ensures forall j | 0 <= j < |order| :: ToFront(order, k)[j] == order[CameFrom(k, j)]
    ensures Distinct(order) ==> Distinct(ToFront(order, k))
    ensures Elements(ToFront(order, k)) == Elements(order)
  {
    var order' := ToFront(order, k);
    forall p | p in order ensures p in order' {
      var i :| 0 <= i < |order| && order[i] == p;
      assert order'[if i < k then i + 1 else if i == k then 0 else i] == p;
    }
  }

  lemma TouchIs(order: seq<string>, path: string)
    requires Distinct(order)
    ensures forall k | 0 <= k < |order| && order[k] == path :: Touch(order, path) == ToFront(order, k)
    ensures path !in order ==> Touch(order, path) == [path] + order
    ensures Distinct(Touch(order, path))
  {
    if path in order {
      var k :| 0 <= k < |order| && order[k] == path;
      WithoutAt(order, path, k);
      ToFrontAt(order, k);
    } else {
      WithoutAbsent(order, path);
    }
  }

  /** The part of a list of at most max paths that leaves room for one more. */
  function Uncut(max: nat, front: seq<string>): seq<string>
    requires max >= 1
  {
    if |front| < max then front else front[..max - 1]
  }

  /** The front of the list after a path that is in it, and after one that is not. */
  lemma FirstOfTouch(max: nat, order: seq<string>, path: string)
    requires Distinct(order) && max >= 1
    ensures forall k | 0 <= k < |First(max, order)| && order[k] == path ::
              First(max, Touch(order, path)) == ToFront(First(max, order), k)
    ensures path !in First(max, order) ==>
              First(max, Touch(order, path)) == [path] + Uncut(max, First(max, order))
  {
    var front := First(max, order);
    TouchIs(order, path);
    if k :| 0 <= k < |front| && order[k] == path {
      assert First(max, ToFront(order, k)) == ToFront(front, k);
    } else if k :| 0 <= k < |order| && order[k] == path {
      assert path !in front;
      assert ToFront(order, k)[..max] == [path] + front[..max - 1];
    } else if |order| >= max {
      assert ([path] + order)[..max] == [path] + front[..max - 1];
    }
  }

  lemma {:induction false} DistinctSize(s: seq<string>)
    requires Distinct(s)
    ensures |Elements(s)| == |s|
  {
    if s != [] {
      DistinctSize(s[1..]);
      assert Elements(s) == {s[0]} + Elements(s[1..]);
      assert s[0] !in Elements(s[1..]);
    }
  }

  /** e holds exactly the paths of order, later ones accessed earlier, all of them before now and up to date. */
  ghost predicate Ordered(e: Entries, order: seq<string>, disk: Disk, now: int) {
    && Distinct(order) && e.Keys == Elements(order)
    && (forall i, j | 0 <= i < j < |order| :: e[order[i]].lastAccess > e[order[j]].lastAccess)
    && (forall p | p in e :: e[p].lastAccess < now && p in disk && e[p].mtime == disk[p].mtime)
  }

  lemma OldestIsLast(e: Entries, order: seq<string>, disk: Disk, now: int, path: string)
    requires Ordered(e, order, disk, now) && IsOldest(e, path)
    ensures order != [] && path == order[|order| - 1]
  {
    assert path in Elements(order);
  }

  lemma InElements(order: seq<string>, i: nat)
    requires i < |order|
    ensures order[i] in Elements(order)
  {
  }

  /** A hit moves the path to the front. */
  lemma HitKeepsOrder(e: Entries, order: seq<string>, disk: Disk, now: int, k: nat, later: int)
    requires Ordered(e, order, disk, now) && now < later && k < |order| && order[k] in e
    ensures Ordered(e[order[k] := e[order[k]].(lastAccess := now)], ToFront(order, k), disk, later)
  {
    hide ToFront, Elements;
    ToFrontAt(order, k);
    var path := order[k];
    var e', order' := e[path := e[path].(lastAccess := now)], ToFront(order, k);
    assert e'.Keys == e.Keys;
    forall i, j | 0 <= i < j < |order'|
      ensures order'[i] in e' && order'[j] in e' && e'[order'[i]].lastAccess > e'[order'[j]].lastAccess
    {
      InElements(order, CameFrom(k, i));
      InElements(order, CameFrom(k, j));
    }
  }

  /** A new path goes to the front, with whatever came last among those that stay cut off. */
  lemma MissKeepsOrder(e: Entries, order: seq<string>, disk: Disk, now: int, path: string, later: int)
    requires Ordered(e, order, disk, now) && now < later && path !in e && path in disk
    ensures Ordered(e[path := Entry(disk[path].content, disk[path].mtime, now)], [path] + order, disk, later)
  {
    var e', order' := e[path := Entry(disk[path].content, disk[path].mtime, now)], [path] + order;
    assert path in order ==> path in Elements(order);
    assert Elements(order') == {path} + Elements(order);
    assert e'.Keys == e.Keys + {path};
  }

  lemma CutElements(order: seq<string>)
    requires Distinct(order) && order != []
    ensures Elements(order[..|order| - 1]) == Elements(order) - {order[|order| - 1]}
  {
    var n := |order| - 1;
    forall p ensures p in order[..n] <==> p in order && p != order[n] {
      if p in order && p != order[n] {
        var i :| 0 <= i < |order| && order[i] == p;
        assert order[..n][i] == p;
      }
    }
  }

  lemma CutKeepsOrder(e: Entries, order: seq<string>, disk: Disk, now: int)
    requires Ordered(e, order, disk, now) && order != []
    ensures Ordered(e - {order[|order| - 1]}, order[..|order| - 1], disk, now)
  {
    var n := |order| - 1;
    CutElements(order);
    forall i | 0 <= i < n ensures order[i] in e - {order[n]} { InElements(order, i); }
    hide Elements;
    assert (e - {order[n]}).Keys == e.Keys - {order[n]};
  }

  lemma CachedAt(e: Entries, order: seq<string>, disk: Disk, now: int, path: string) returns (k: nat)
    requires Ordered(e, order, disk, now) && path in e
    ensures k < |order| && order[k] == path && Hit(e, disk, path)
  {
    assert path in Elements(order);
    k :| 0 <= k < |order| && order[k] == path;
  }

  lemma NotCached(e: Entries, order: seq<string>, disk: Disk, now: int, path: string)
    requires Ordered(e, order, disk, now)
    ensures |e| == |order|
    ensures path !in e ==> path !in order
  {
    DistinctSize(order);
    assert |e| == |e.Keys|;
    assert path in order ==> path in Elements(order);
  }

  /** What a miss leaves of the recency order before the new path goes to its front. */
  lemma RoomKeepsOrder(max: nat, e: Entries, order: seq<string>, disk: Disk, now: int, kept: Entries)
    requires max >= 1 && Ordered(e, order, disk, now) && |order| <= max && MakesRoom(max, Lru, e, kept)
    ensures Ordered(kept, Uncut(max, order), disk, now)
    ensures Erases(e, kept)
  {
    hide Ordered, Elements;
    NotCached(e, order, disk, now, "");
    if |e| >= max {
      var oldest :| IsOldest(e, oldest) && kept == e - {oldest};
      OldestIsLast(e, order, disk, now, oldest);
      CutKeepsOrder(e, order, disk, now);
    }
  }

  /** One load of the cache is one step of the recency list, cut to capacity. */
  lemma LoadRefines(max: nat, e: Entries, order: seq<string>, disk: Disk, path: string, now: int, later: int,
                    e': Entries, r: Option<string>)
    requires max >= 1 && Distinct(order) && Ordered(e, First(max, order), disk, now) && now < later
    requires Loads(max, Lru, e, disk, path, now, e', r) && path in disk
    ensures Distinct(Touch(order, path))
    ensures Ordered(e', First(max, Touch(order, path)), disk, later)
  {
    hide Ordered, Touch, ToFront, MakesRoom, Elements;
    var front := First(max, order);
    TouchIs(order, path);
    FirstOfTouch(max, order, path);
    if path in e {
      var k := CachedAt(e, front, disk, now, path);
      HitKeepsOrder(e, front, disk, now, k, later);
    } else {
      NotCached(e, front, disk, now, path);
      var kept :| MakesRoom(max, Lru, e, kept)
                  && e' == kept[path := Entry(disk[path].content, disk[path].mtime, now)];
      RoomKeepsOrder(max, e, front, disk, now, kept);
      MissKeepsOrder(kept, Uncut(max, front), disk, now, path, later);
    }
  }

  /** A run whose files stay as they are and whose loads happen at increasing times. */
  ghost predicate Quiet(disk: Disk, worlds: seq<World>, events: seq<Event>, times: seq<int>) {
    && |times| == |worlds| == |events| + 1
    && (forall w | w in worlds :: w.disk == disk)
    && (forall i | 0 <= i < |events| :: times[i] < times[i + 1])
    && (forall i | 0 <= i < |events| && events[i].Load? :: events[i].now == times[i])
  }

  lemma LaterOrdered(e: Entries, order: seq<string>, disk: Disk, now: int, later: int)
    requires Ordered(e, order, disk, now) && now <= later
    ensures Ordered(e, order, disk, later)
  {
  }

  lemma NothingOrdered(max: nat, disk: Disk, now: int)
    ensures Distinct([]) && Ordered(map[], First(max, []), disk, now)
  {
  }

  /** One event of a quiet run. */
  lemma QuietStep(max: nat, w: World, ev: Event, w': World, order: seq<string>, order': seq<string>, now: int,
          later: int)
    requires max >= 1 && Step(max, Lru, w, ev, w') && w'.disk == w.disk && now < later && (ev.Load? ==> ev.now == now)
    requires Distinct(order) && Ordered(w.entries, First(max, order), w.disk, now)
    requires order' == match ev
                       case Load(path, _, _) => if path in w.disk then Touch(order, path) else order
                       case Clear => []
                       case _ => order
    ensures Distinct(order') && Ordered(w'.entries, First(max, order'), w.disk, later)
  {
    hide Ordered, Distinct, Touch, First, Hit;
    if ev.Clear? {
      NothingOrdered(max, w.disk, later);
    } else if ev.Load? && ev.path in w.disk {
      LoadRefines(max, w.entries, order, w.disk, ev.path, now, later, w'.entries, ev.r);
    } else {
      LaterOrdered(w.entries, First(max, order), w.disk, now, later);
    }
  }

  lemma {:induction false} QuietOrdered(max: nat, disk: Disk, worlds: seq<World>, events: seq<Event>,
          times: seq<int>, i: nat)
    requires max >= 1 && Trace(max, Lru, worlds, events) && Quiet(disk, worlds, events, times) && i <= |events|
    ensures Distinct(Recency(disk, events[..i]))
    ensures Ordered(worlds[i].entries, First(max, Recency(disk, events[..i])), disk, times[i])
  {
    hide Ordered, Distinct, Touch, First, Step;
    if i == 0 {
      NothingOrdered(max, disk, times[0]);
    } else {
      QuietOrdered(max, disk, worlds, events, times, i - 1);
      var w, w', ev := worlds[i - 1], worlds[i], events[i - 1];
      assert events[..i][..i - 1] == events[..i - 1] && events[..i][i - 1] == ev;
      assert Step(max, Lru, w, ev, worlds[i - 1 + 1]) && w in worlds && w' in worlds;
      assert times[i - 1] < times[i - 1 + 1];
      QuietStep(max, w, ev, w', Recency(disk, events[..i - 1]), Recency(disk, events[..i]), times[i - 1], times[i]);
    }
  }

  /** The cache holds exactly the max most recently loaded paths. */
  lemma HoldsTheMostRecent(max: nat, disk: Disk, worlds: seq<World>, events: seq<Event>, times: seq<int>, i: nat)
    requires max >= 1 && Trace(max, Lru, worlds, events) && Quiet(disk, worlds, events, times) && i <= |events|
    ensures worlds[i].entries.Keys == Elements(First(max, Recency(disk, events[..i])))
    ensures forall p :: Hit(worlds[i].entries, disk, p) <==> p in First(max, Recency(disk, events[..i]))
  {
    QuietOrdered(max, disk, worlds, events, times, i);
    var front := First(max, Recency(disk, events[..i]));
    forall p ensures Hit(worlds[i].entries, disk, p) <==> p in front {
      assert p in front <==> p in Elements(front);
    }
  }

  /** Inclusion: a larger cache holds whatever a smaller one does and hits whenever the smaller one does. */
  lemma Inclusion(small: nat, large: nat, disk: Disk, worlds: seq<World>, worlds': seq<World>, events: seq<Event>,
                  times: seq<int>, i: nat)
    requires 1 <= small <= large && i <= |events|
    requires Trace(small, Lru, worlds, events) && Quiet(disk, worlds, events, times)
    requires Trace(large, Lru, worlds', events) && Quiet(disk, worlds', events, times)
    ensures worlds[i].entries.Keys <= worlds'[i].entries.Keys
    ensures forall p | Hit(worlds[i].entries, disk, p) :: Hit(worlds'[i].entries, disk, p)
  {
    HoldsTheMostRecent(small, disk, worlds, events, times, i);
    HoldsTheMostRecent(large, disk, worlds', events, times, i);
    var order := Recency(disk, events[..i]);
    assert forall p | p in First(small, order) :: p in First(large, order);
  }

  // ---- What the conditions are for ----

  lemma KeysAfter(e: Entries, gone: string, path: string, v: Entry)
    requires gone in e && path in e
    ensures (e - {gone})[path := v].Keys == e.Keys - {gone} + {path}
    ensures |(e - {gone})[path := v]| == if gone == path then |e| else |e| - 1
  {
    var e' := (e - {gone})[path := v];
    assert e'.Keys == if gone == path then e.Keys else e.Keys - {gone};
    assert |e'| == |e'.Keys|;
  }

  /** No two entries were accessed at the same time. */
  ghost predicate DistinctTimes(e: Entries) {
    forall p, q | p in e && q in e && p != q :: e[p].lastAccess != e[q].lastAccess
  }

  /** When a reload of a cached file costs no entry: exactly when the file is unchanged, there is room, or
      it is itself the oldest. Otherwise the oldest entry goes although none is added, and the cache is
      one entry short. */
  lemma ReloadCostsAnEntry(max: nat, e: Entries, disk: Disk, path: string, now: int, e': Entries, r: Option<string>)
    requires Loads(max, Lru, e, disk, path, now, e', r) && path in e && path in disk && DistinctTimes(e)
    ensures e'.Keys == e.Keys <==> Hit(e, disk, path) || |e| < max || IsOldest(e, path)
    ensures e'.Keys != e.Keys ==> exists gone :: IsOldest(e, gone) && gone != path && e'.Keys == e.Keys - {gone}
  {
    hide IsOldest, DistinctTimes, MakesRoom;
    if Hit(e, disk, path) {
      assert e'.Keys == e.Keys + {path} == e.Keys;
    } else {
      var v := Entry(disk[path].content, disk[path].mtime, now);
      var kept :| MakesRoom(max, Lru, e, kept) && e' == kept[path := v];
      Room(max, e, kept);
      if |e| >= max {
        var gone :| IsOldest(e, gone) && kept == e - {gone};
        OldestUnique(e, gone, path);
        KeysAfter(e, gone, path, v);
        assert gone == path ==> e'.Keys == e.Keys;
        assert gone != path ==> e'.Keys == e.Keys - {gone} && gone in e.Keys && gone !in e'.Keys;
      } else {
        assert e'.Keys == e.Keys + {path} == e.Keys;
      }
    }
  }

  lemma Room(max: nat, e: Entries, kept: Entries)
    requires MakesRoom(max, Lru, e, kept)
    ensures if |e| >= max then exists gone :: IsOldest(e, gone) && kept == e - {gone} else kept == e
  {
  }

  lemma OldestUnique(e: Entries, gone: string, path: string)
    requires IsOldest(e, gone) && DistinctTimes(e) && path in e
    ensures gone in e && (IsOldest(e, path) <==> gone == path)
  {
  }

  /** A file that is written again under the same time after it was loaded is served as it was before. */
  lemma SameTimeIsStale(path: string, before: string, after: string, t: int, now: int, later: int)
    requires before != after
    ensures var disk, disk' := map[path := File(before, t)], map[path := File(after, t)];
            var cached, touched := map[path := Entry(before, t, now)], map[path := Entry(before, t, later)];
            Trace(1, Lru,
                  [World(map[], map[]), World(disk, map[]), World(disk, cached), World(disk', cached),
                   World(disk', touched)],
                  [Write(path, File(before, t)), Load(path, now, Some(before)), Write(path, File(after, t)),
                   Load(path, later, Some(before))])
  {
    var disk, disk' := map[path := File(before, t)], map[path := File(after, t)];
    var cached, touched := map[path := Entry(before, t, now)], map[path := Entry(before, t, later)];
    assert disk[path := File(after, t)] == disk';
    assert MakesRoom(1, Lru, map[], map[]);
    assert Loads(1, Lru, map[], disk, path, now, cached, Some(before));
    assert Loads(1, Lru, cached, disk', path, later, touched, Some(before));
  }
}
