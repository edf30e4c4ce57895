/**
 The refcounted LRU cache of zip readers in internal/api/content.go, as a state machine on
 values. Entries are numbered in order of creation and never forgotten, so that a state also
 says how often the reader of an entry that left the cache was closed.
 */
module ZipCacheSpec {
  import opened Wrappers

  datatype Entry = Entry(path: string, hash: string, refs: int, evicted: bool, closes: nat)

  datatype Handle = Handle(entry: nat, released: bool)

  /** order lists entry numbers, most recently used first; items finds them by path. */
  datatype Cache = Cache(cap: int, entries: seq<Entry>, order: seq<nat>, items: map<string, nat>,
                         handles: seq<Handle>)

  datatype Op = Get(path: string, hash: string, opens: bool) | Release(handle: nat)

  function New(cap: int): Cache {
    Cache(cap, [], [], map[], [])
  }

  function Room(cap: int): nat {
    if cap < 1 then 1 else cap
  }

  function Without<T(==)>(s: seq<T>, x: T): (r: seq<T>)
    ensures forall y | y in s :: y != x ==> y in r
    ensures forall y | y in r :: y in s && y != x
    ensures |r| <= |s|
  {
    if s == [] then [] else if s[0] == x then Without(s[1..], x) else [s[0]] + Without(s[1..], x)
  }

  /* ---- the operations ---- */

  ghost predicate InRange(c: Cache) {
    && (forall id :: id in c.order ==> id < |c.entries|)
    && (forall p :: p in c.items ==> c.items[p] < |c.entries|)
    && (forall h :: 0 <= h < |c.handles| ==> c.handles[h].entry < |c.entries|)
  }

  function CloseOrMarkEvicted(e: Entry): Entry {
    if e.refs == 0 then e.(closes := e.closes + 1) else e.(evicted := true)
  }

  /** Takes an entry out of the cache: its reader is closed now or marked for closing. */
  function Drop(c: Cache, id: nat): Cache
    requires id < |c.entries|
  {
    c.(entries := c.entries[id := CloseOrMarkEvicted(c.entries[id])],
       items := c.items - {c.entries[id].path},
       order := Without(c.order, id))
  }

  function Hand(c: Cache, id: nat): Cache {
    c.(handles := c.handles + [Handle(id, false)])
  }

  function Hit(c: Cache, id: nat): Cache
    requires id < |c.entries|
  {
    var e := c.entries[id];
    Hand(c.(entries := c.entries[id := e.(refs := e.refs + 1)],
            order := [id] + Without(c.order, id)), id)
  }

  /** Drops a stale entry of the path, if there is one. */
  function DropStale(c: Cache, path: string): Cache
    requires InRange(c)
  {
    if path in c.items then Drop(c, c.items[path]) else c
  }

  function EvictBack(c: Cache): Cache
    requires InRange(c)
  {
    if |c.order| >= c.cap && c.order != [] then
      assert c.order[|c.order| - 1] in c.order;
      Drop(c, c.order[|c.order| - 1])
    else c
  }

  function Insert(c: Cache, path: string, hash: string): Cache {
    var id := |c.entries|;
    Hand(c.(entries := c.entries + [Entry(path, hash, 1, false, 0)],
            order := [id] + c.order,
            items := c.items[path := id]), id)
  }

  predicate IsHit(c: Cache, path: string, hash: string)
    requires InRange(c)
  {
    path in c.items && c.entries[c.items[path]].hash == hash
  }

  /** zipCache.get: opens says whether zip.OpenReader would succeed. */
  function GetSpec(c: Cache, path: string, hash: string, opens: bool): (Cache, Option<nat>)
    requires InRange(c)
  {
    if IsHit(c, path, hash) then (Hit(c, c.items[path]), Some(|c.handles|))
    else
      var c1 := DropStale(c, path);
      if opens then (Insert(EvictBack(c1), path, hash), Some(|c.handles|)) else (c1, None)
  }

  predicate Held(c: Cache, h: nat) {
    h < |c.handles| && !c.handles[h].released
  }

  function Unref(e: Entry): Entry {
    var r := e.refs - 1;
    e.(refs := r, closes := if r == 0 && e.evicted then e.closes + 1 else e.closes)
  }

  /** zipHandle.Release */
  function ReleaseSpec(c: Cache, h: nat): Cache
    requires InRange(c) && h < |c.handles|
  {
    var id := c.handles[h].entry;
    c.(entries := c.entries[id := Unref(c.entries[id])],
       handles := c.handles[h := Handle(id, true)])
  }

  /* ---- the invariant ---- */

  /** Number of handles of an entry that are not released yet. */
  function Outstanding(handles: seq<Handle>, id: nat): nat {
    if handles == [] then 0
    else
      var last := handles[|handles| - 1];
      Outstanding(handles[..|handles| - 1], id) + (if last.entry == id && !last.released then 1 else 0)
  }

  ghost predicate Distinct<T>(s: seq<T>) {
    forall i, j :: 0 <= i < j < |s| ==> s[i] != s[j]
  }

  /** Map and list hold the same entries, one per path. */
  ghost predicate Consistent(c: Cache)
    requires InRange(c)
  {
    && Distinct(c.order)
    && (forall id :: id in c.order ==> c.entries[id].path in c.items && c.items[c.entries[id].path] == id)
    && (forall p :: p in c.items ==> c.items[p] in c.order && c.entries[c.items[p]].path == p)
  }

  /** An entry in the cache is open; one that left it is closed once, as soon as nobody reads it. */
  ghost predicate Closing(c: Cache) {
    forall id :: 0 <= id < |c.entries| ==>
      var e := c.entries[id];
      && (id in c.order ==> !e.evicted && e.closes == 0)
      && (id !in c.order ==> e.closes == (if e.refs == 0 then 1 else 0) && (e.refs > 0 ==> e.evicted))
  }

  ghost predicate Counted(c: Cache) {
    forall id :: 0 <= id < |c.entries| ==> c.entries[id].refs == Outstanding(c.handles, id)
  }

  ghost predicate Inv(c: Cache) {
    && InRange(c)
    && Consistent(c)
    && Closing(c)
    && Counted(c)
    && |c.order| <= Room(c.cap)
  }

  /* ---- list lemmas ---- */

  lemma WithoutHead<T>(x: T, first: T, more: seq<T>)
    ensures Without([first] + more, x) == if first == x then Without(more, x) else [first] + Without(more, x)
  {
    assert ([first] + more)[1..] == more;
  }

  lemma {:induction false} WithoutDistinct<T>(s: seq<T>, x: T)
    requires Distinct(s)
    ensures Distinct(Without(s, x))
    ensures |Without(s, x)| == if x in s then |s| - 1 else |s|
    ensures x !in s ==> Without(s, x) == s
  {
    if s != [] {
      hide Without;
      var first, more := s[0], s[1..];
      assert s == [first] + more;
      WithoutDistinct(more, x);
      WithoutHead(x, first, more);
      assert first !in more by { HeadNotInTail(s); }
    } else {
      assert Without(s, x) == s;
    }
  }

  lemma HeadNotInTail<T>(s: seq<T>)
    requires Distinct(s) && s != []
    ensures s[0] !in s[1..]
  {
  }

  lemma {:induction false} WithoutLast<T>(s: seq<T>)
    requires Distinct(s) && s != []
    ensures Without(s, s[|s| - 1]) == s[..|s| - 1]
  {
    var last := s[|s| - 1];
    if |s| > 1 {
      WithoutLast(s[1..]);
      assert s[1..][|s| - 2] == last;
      assert [s[0]] + s[1..][..|s| - 2] == s[..|s| - 1];
    } else {
      assert s == [last];
    }
  }

  lemma OutstandingSnoc(handles: seq<Handle>, h: Handle, id: nat)
    ensures Outstanding(handles + [h], id)
         == Outstanding(handles, id) + (if h.entry == id && !h.released then 1 else 0)
  {
    assert (handles + [h])[..|handles|] == handles;
  }

  lemma {:induction false} OutstandingRelease(handles: seq<Handle>, h: nat, id: nat)
    requires h < |handles| && !handles[h].released
    ensures Outstanding(handles[h := Handle(handles[h].entry, true)], id)
         == Outstanding(handles, id) - (if handles[h].entry == id then 1 else 0)
  {
    var k := |handles| - 1;
    var after := handles[h := Handle(handles[h].entry, true)];
    if h == k {
      assert after[..k] == handles[..k];
    } else {
      OutstandingRelease(handles[..k], h, id);
      assert after[..k] == handles[..k][h := Handle(handles[h].entry, true)];
    }
  }

  lemma {:induction false} NoneOutstanding(handles: seq<Handle>, id: nat)
    requires forall h :: 0 <= h < |handles| ==> handles[h].entry != id
    ensures Outstanding(handles, id) == 0
  {
    if handles != [] {
      NoneOutstanding(handles[..|handles| - 1], id);
    }
  }

  lemma {:induction false} HeldIsOutstanding(handles: seq<Handle>, h: nat)
    requires h < |handles| && !handles[h].released
    ensures Outstanding(handles, handles[h].entry) >= 1
  {
    if h < |handles| - 1 {
      HeldIsOutstanding(handles[..|handles| - 1], h);
    }
  }

  /* ---- every operation keeps the invariant ---- */

  lemma NewInv(cap: int)
    ensures Inv(New(cap))
  {
  }

  lemma DropInv(c: Cache, id: nat)
    requires Inv(c) && id in c.order
    ensures Inv(Drop(c, id)) && |Drop(c, id).order| == |c.order| - 1
    ensures c.entries[id].path !in Drop(c, id).items
  {
    WithoutDistinct(c.order, id);
    var c' := Drop(c, id);
    assert id !in c'.order;
    assert forall i :: 0 <= i < |c.entries| ==>
             c'.entries[i].path == c.entries[i].path && c'.entries[i].refs == c.entries[i].refs;
    forall i | i in c'.order ensures c'.entries[i].path in c'.items && c'.items[c'.entries[i].path] == i {
      assert i in c.order && i != id;
    }
    forall p | p in c'.items ensures c'.items[p] in c'.order && c'.entries[c'.items[p]].path == p {
      assert p in c.items && c.items[p] != id;
    }
  }

  lemma HitInv(c: Cache, id: nat)
    requires Inv(c) && id in c.order
    ensures Inv(Hit(c, id))
  {
    WithoutDistinct(c.order, id);
    var c' := Hit(c, id);
    forall i | 0 <= i < |c'.entries| ensures c'.entries[i].refs == Outstanding(c'.handles, i) {
      OutstandingSnoc(c.handles, Handle(id, false), i);
    }
    assert Consistent(c');
    assert Closing(c');
  }

  lemma InsertInv(c: Cache, path: string, hash: string)
    requires Inv(c) && path !in c.items && |c.order| < Room(c.cap)
    ensures Inv(Insert(c, path, hash))
  {
    var id := |c.entries|;
    var c' := Insert(c, path, hash);
    forall i | 0 <= i < |c'.entries| ensures c'.entries[i].refs == Outstanding(c'.handles, i) {
      OutstandingSnoc(c.handles, Handle(id, false), i);
      if i == id {
        NoneOutstanding(c.handles, id);
      }
    }
    assert id !in c.order;
    forall i | i in c'.order ensures c'.entries[i].path in c'.items && c'.items[c'.entries[i].path] == i {
      assert i == id || (i in c.order && c.entries[i].path in c.items);
    }
    forall p | p in c'.items ensures c'.items[p] in c'.order && c'.entries[c'.items[p]].path == p {
      assert p == path || (p in c.items && c.items[p] in c.order);
    }
    assert Closing(c');
  }

  lemma EvictInv(c: Cache)
    requires Inv(c)
    ensures Inv(EvictBack(c)) && |EvictBack(c).order| < Room(c.cap)
    ensures forall p :: p in EvictBack(c).items ==> p in c.items
  {
    if c.order != [] {
      assert c.order[|c.order| - 1] in c.order;
      DropInv(c, c.order[|c.order| - 1]);
    }
  }

  lemma GetInv(c: Cache, path: string, hash: string, opens: bool)
    requires Inv(c)
    ensures Inv(GetSpec(c, path, hash, opens).0) && GetSpec(c, path, hash, opens).0.cap == c.cap
  {
    hide Inv, EvictBack;
    assert InRange(c) && Consistent(c) by { InvParts(c); }
    if IsHit(c, path, hash) {
      HitInv(c, c.items[path]);
    } else {
      MissFacts(c, path);
      InvParts(DropStale(c, path));
      if opens {
        InsertInv(EvictBack(DropStale(c, path)), path, hash);
      }
    }
  }

  lemma InvParts(c: Cache)
    requires Inv(c)
    ensures InRange(c) && Consistent(c)
  {
  }

  /** On a miss: dropping the stale entry and evicting leaves room for the path. */
  lemma MissFacts(c: Cache, path: string)
    requires Inv(c)
    ensures Inv(DropStale(c, path)) && DropStale(c, path).cap == c.cap
    ensures var c2 := EvictBack(DropStale(c, path));
            Inv(c2) && path !in c2.items && |c2.order| < Room(c.cap) && c2.cap == c.cap
  {
    hide Inv, EvictBack;
    InvParts(c);
    var c1 := DropStale(c, path);
    if path in c.items {
      DropInv(c, c.items[path]);
    }
    InvParts(c1);
    EvictInv(c1);
    EvictKeepsCap(c1);
  }

  lemma EvictKeepsCap(c: Cache)
    requires InRange(c)
    ensures EvictBack(c).cap == c.cap
  {
  }

  lemma ReleaseInv(c: Cache, h: nat)
    requires Inv(c) && Held(c, h)
    ensures Inv(ReleaseSpec(c, h)) && ReleaseSpec(c, h).cap == c.cap
  {
    var c' := ReleaseSpec(c, h);
    HeldIsOutstanding(c.handles, h);
    forall i | 0 <= i < |c'.entries| ensures c'.entries[i].refs == Outstanding(c'.handles, i) {
      OutstandingRelease(c.handles, h, i);
    }
    assert Consistent(c');
    assert Closing(c');
  }

  /* ---- safety of every run ---- */

  /** Each handle is released once, after it was obtained. */
  ghost predicate Legal(c: Cache, ops: seq<Op>)
    requires Inv(c)
    decreases |ops|
  {
    ops == [] ||
    match ops[0]
    case Get(path, hash, opens) =>
      GetInv(c, path, hash, opens);
      Legal(GetSpec(c, path, hash, opens).0, ops[1..])
    case Release(h) =>
      Held(c, h) && (ReleaseInv(c, h); Legal(ReleaseSpec(c, h), ops[1..]))
  }

  ghost function Run(c: Cache, ops: seq<Op>): Cache
    requires Inv(c) && Legal(c, ops)
    decreases |ops|
  {
    if ops == [] then c else
    match ops[0]
    case Get(path, hash, opens) =>
      GetInv(c, path, hash, opens);
      Run(GetSpec(c, path, hash, opens).0, ops[1..])
    case Release(h) =>
      ReleaseInv(c, h);
      Run(ReleaseSpec(c, h), ops[1..])
  }

  lemma {:induction false} RunInv(c: Cache, ops: seq<Op>)
    requires Inv(c) && Legal(c, ops)
    ensures Inv(Run(c, ops)) && Run(c, ops).cap == c.cap
    decreases |ops|
  {
    if ops != [] {
      match ops[0]
      case Get(path, hash, opens) =>
        GetInv(c, path, hash, opens);
        RunInv(GetSpec(c, path, hash, opens).0, ops[1..]);
      case Release(h) =>
        ReleaseInv(c, h);
        RunInv(ReleaseSpec(c, h), ops[1..]);
    }
  }

  /** In every state of every run: the reader behind a held handle is open; a reader is closed at
      most once, and exactly when its entry left the cache and its last handle is gone; refs counts
      the outstanding handles; and the list holds at most max(cap, 1) distinct paths, those of the map. */
  lemma RunIsSafe(cap: int, ops: seq<Op>)
    requires Inv(New(cap)) && Legal(New(cap), ops)
    ensures var c := Run(New(cap), ops);
            && InRange(c)
            && (forall h: nat :: Held(c, h) ==> c.entries[c.handles[h].entry].closes == 0)
            && (forall id: nat :: id < |c.entries| ==>
                  && c.entries[id].refs == Outstanding(c.handles, id)
                  && c.entries[id].closes == if id !in c.order && Outstanding(c.handles, id) == 0 then 1 else 0)
            && |c.order| <= Room(cap)
            && Distinct(Paths(c))
            && (forall p :: p in Paths(c) <==> p in c.items)
  {
    hide Run, Legal;
    RunInv(New(cap), ops);
    var c := Run(New(cap), ops);
    forall h: nat | Held(c, h) ensures c.entries[c.handles[h].entry].closes == 0 {
      HeldIsOutstanding(c.handles, h);
    }
    PathsDistinct(c);
  }

  /** The paths in the cache, most recently used first. */
  ghost function Paths(c: Cache): (r: seq<string>)
    requires InRange(c)
    ensures |r| == |c.order|
  {
    PathsOf(c.entries, c.order)
  }

  ghost function PathsOf(entries: seq<Entry>, order: seq<nat>): (r: seq<string>)
    requires forall id :: id in order ==> id < |entries|
    ensures |r| == |order|
    ensures forall i :: 0 <= i < |order| ==> order[i] in order
    ensures forall i :: 0 <= i < |order| ==> r[i] == entries[order[i]].path
  {
    seq(|order|, i requires 0 <= i < |order| => assert order[i] in order; entries[order[i]].path)
  }

  lemma PathsDistinct(c: Cache)
    requires InRange(c) && Consistent(c)
    ensures Distinct(Paths(c))
    ensures forall p :: p in Paths(c) <==> p in c.items
  {
    var ps := Paths(c);
    forall i, j | 0 <= i < j < |ps| ensures ps[i] != ps[j] {
      assert c.items[c.entries[c.order[i]].path] == c.order[i];
      assert c.items[c.entries[c.order[j]].path] == c.order[j];
    }
    forall p | p in c.items ensures p in ps {
      var i :| 0 <= i < |c.order| && c.order[i] == c.items[p];
      assert ps[i] == p;
    }
    forall p | p in ps ensures p in c.items {
      var i :| 0 <= i < |ps| && ps[i] == p;
      assert c.order[i] in c.order;
    }
  }

  /** What a successful get hands out: an open entry of the requested path and hash. */
  lemma GetReturnsRequested(c: Cache, path: string, hash: string, opens: bool)
    requires Inv(c)
    ensures var (c', r) := GetSpec(c, path, hash, opens);
            && InRange(c')
            && (r.None? <==> !opens && !IsHit(c, path, hash))
            && (r.Some? ==>
                 && r.value == |c.handles| && Held(c', r.value)
                 && var e := c'.entries[c'.handles[r.value].entry];
                    e.path == path && e.hash == hash && e.closes == 0)
  {
    GetInv(c, path, hash, opens);
    if !IsHit(c, path, hash) && opens {
      var c1 := DropStale(c, path);
      if path in c.items {
        DropInv(c, c.items[path]);
      }
      EvictInv(c1);
    }
  }

  /** An open archive is opened again only if it has to be: a cached entry of the path and hash is the one
      handed out, and otherwise a new entry is, if the file opens. */
  lemma GetReusesCached(c: Cache, path: string, hash: string, opens: bool)
    requires Inv(c)
    ensures var (c', r) := GetSpec(c, path, hash, opens);
            && (forall id :: id in c.order && c.entries[id].path == path && c.entries[id].hash == hash ==>
                  && r.Some? && |c'.entries| == |c.entries| && r.value < |c'.handles|
                  && c'.handles[r.value].entry == id)
            && ((forall id :: id in c.order && c.entries[id].path == path ==> c.entries[id].hash != hash) ==>
                  && r.Some? == opens
                  && |c'.entries| == (if opens then |c.entries| + 1 else |c.entries|)
                  && (opens ==> r.value < |c'.handles| && c'.handles[r.value].entry == |c.entries|))
  {
    hide Closing, Counted, CloseOrMarkEvicted, Without, EvictBack, Inv;
    InvParts(c);
    CachedIsListed(c, path);
    if !IsHit(c, path, hash) {
      MissFacts(c, path);
      InvParts(DropStale(c, path));
      EvictAddsNothing(DropStale(c, path));
    }
  }

  lemma CachedIsListed(c: Cache, path: string)
    requires InRange(c) && Consistent(c)
    ensures path in c.items ==> c.items[path] in c.order && c.entries[c.items[path]].path == path
    ensures forall id :: id in c.order && c.entries[id].path == path ==> path in c.items && c.items[path] == id
  {
  }

  lemma EvictAddsNothing(c: Cache)
    requires InRange(c)
    ensures |EvictBack(c).entries| == |c.entries| && EvictBack(c).handles == c.handles
  {
    if c.order != [] {
      assert c.order[|c.order| - 1] in c.order;
    }
  }
}
