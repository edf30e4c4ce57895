/**
 The cache of ZipCacheSpec really is least-recently-used: while no get fails, its list is the
 beginning of the list of all paths ordered by their last get, whatever hashes were asked for
 and however releases are interleaved.
 */
module ZipCacheLru {
  import opened ZipCacheSpec

  function Take<T>(s: seq<T>, k: nat): seq<T> {
    if |s| <= k then s else s[..k]
  }

  /** The paths asked for, in order. */
  function Gets(ops: seq<Op>): seq<string> {
    if ops == [] then []
    else (if ops[0].Get? then [ops[0].path] else []) + Gets(ops[1..])
  }

  /** The distinct paths of a history, the one used last coming first. */
  function Recent(history: seq<string>): seq<string> {
    if history == [] then []
    else
      var last := history[|history| - 1];
      [last] + Without(Recent(history[..|history| - 1]), last)
  }

  function LastUse(history: seq<string>, p: string): (k: nat)
    requires p in history
    ensures k < |history| && history[k] == p
    ensures forall j :: k < j < |history| ==> history[j] != p
  {
    var n := |history| - 1;
    if history[n] == p then n else
      assert p in history[..n];
      LastUse(history[..n], p)
  }

  /** No get of the run fails to open its file. */
  ghost predicate AllSucceed(c: Cache, ops: seq<Op>)
    requires Inv(c) && Legal(c, ops)
    decreases |ops|
  {
    ops == [] ||
    match ops[0]
    case Get(path, hash, opens) =>
      GetInv(c, path, hash, opens);
      GetSpec(c, path, hash, opens).1.Some? && AllSucceed(GetSpec(c, path, hash, opens).0, ops[1..])
    case Release(h) =>
      ReleaseInv(c, h);
      AllSucceed(ReleaseSpec(c, h), ops[1..])
  }

  ghost predicate ByLastUse(history: seq<string>, r: seq<string>)
    requires forall p :: p in r ==> p in history
  {
    forall i, j :: 0 <= i < j < |r| ==>
      r[i] in r && r[j] in r && LastUse(history, r[i]) > LastUse(history, r[j])
  }

  /** Recent is what its name says: each path of the history once, ordered by last use. */
  lemma {:induction false} RecentIsByLastUse(history: seq<string>)
    ensures Distinct(Recent(history))
    ensures forall p :: p in Recent(history) <==> p in history
    ensures ByLastUse(history, Recent(history))
  {
    hide LastUse, Without, Distinct;
    if history == [] {
      assert Distinct(Recent(history)) by { NoneDistinct(); }
    } else {
      var n := |history| - 1;
      var last, before := history[n], history[..n];
      assert before + [last] == history;
      RecentIsByLastUse(before);
      WithoutDistinct(Recent(before), last);
      var rest := Without(Recent(before), last);
      assert forall p :: p in history <==> p == last || p in before;
      assert forall p :: p in [last] + rest <==> p == last || p in rest;
      RestByLastUse(before, Recent(before), last, rest);
      LastFirst(before, last, rest);
      DistinctCons(last, rest);
    }
  }

  lemma NoneDistinct()
    ensures Distinct<string>([])
  {
  }

  lemma DistinctCons(x: string, s: seq<string>)
    requires Distinct(s) && x !in s
    ensures Distinct([x] + s)
  {
  }

  lemma LastUseBefore(before: seq<string>, last: string, p: string)
    requires p in before && p != last
    ensures p in before + [last] && LastUse(before + [last], p) == LastUse(before, p)
  {
    assert (before + [last])[..|before|] == before;
    assert p == (before + [last])[LastUse(before, p)];
  }

  lemma RestByLastUse(before: seq<string>, r: seq<string>, last: string, rest: seq<string>)
    requires forall p :: p in r ==> p in before
    requires ByLastUse(before, r) && rest == Without(r, last)
    ensures forall i, j :: 0 <= i < j < |rest| ==>
              rest[i] in before && rest[j] in before && LastUse(before, rest[i]) > LastUse(before, rest[j])
  {
    hide LastUse;
    forall i, j | 0 <= i < j < |rest|
      ensures rest[i] in before && rest[j] in before && LastUse(before, rest[i]) > LastUse(before, rest[j])
    {
      var a, b := WithoutKeepsPair(r, last, i, j);
      assert r[a] in r && r[b] in r;
    }
  }

  lemma LastFirst(before: seq<string>, last: string, rest: seq<string>)
    requires forall p :: p in rest ==> p in before && p != last
    requires forall i, j :: 0 <= i < j < |rest| ==>
               rest[i] in before && rest[j] in before && LastUse(before, rest[i]) > LastUse(before, rest[j])
    ensures forall p :: p in [last] + rest ==> p in before + [last]
    ensures ByLastUse(before + [last], [last] + rest)
  {
    hide LastUse;
    var h, r := before + [last], [last] + rest;
    forall p | p in r ensures p in h {
      if p != last { assert p in rest; LastUseBefore(before, last, p); } else { assert h[|before|] == last; }
    }
    forall i, j | 0 <= i < j < |r| ensures LastUse(h, r[i]) > LastUse(h, r[j]) {
      assert r[j] == rest[j - 1] && rest[j - 1] in rest;
      LastUseBefore(before, last, r[j]);
      if i > 0 {
        assert r[i] == rest[i - 1] && rest[i - 1] in rest;
        LastUseBefore(before, last, r[i]);
      } else {
        assert h[|before|] == last;
        assert LastUse(h, last) == |before|;
      }
    }
  }

  /** Two elements left by Without stood in the same order before. */
  lemma {:induction false} WithoutKeepsPair(s: seq<string>, x: string, i: nat, j: nat) returns (a: nat, b: nat)
    requires i < j < |Without(s, x)|
    ensures a < b < |s| && s[a] == Without(s, x)[i] && s[b] == Without(s, x)[j]
  {
    if s[0] == x {
      a, b := WithoutKeepsPair(s[1..], x, i, j);
      a, b := a + 1, b + 1;
    } else if i == 0 {
      a := 0;
      b := WithoutHas(s[1..], x, j - 1);
      b := b + 1;
    } else {
      a, b := WithoutKeepsPair(s[1..], x, i - 1, j - 1);
      a, b := a + 1, b + 1;
    }
  }

  lemma WithoutHas(s: seq<string>, x: string, j: nat) returns (b: nat)
    requires j < |Without(s, x)|
    ensures b < |s| && s[b] == Without(s, x)[j]
  {
    assert Without(s, x)[j] in s;
    b :| 0 <= b < |s| && s[b] == Without(s, x)[j];
  }

  /* ---- the list of paths under each operation ---- */

  lemma {:induction false} PathsWithout(entries: seq<Entry>, order: seq<nat>, id: nat)
    requires id < |entries| && forall i :: i in order ==> i < |entries|
    requires forall i :: i in order && entries[i].path == entries[id].path ==> i == id
    ensures PathsOf(entries, Without(order, id)) == Without(PathsOf(entries, order), entries[id].path)
  {
    hide PathsOf, Without;
    if order == [] {
      assert Without(order, id) == [] && Without(PathsOf(entries, order), entries[id].path) == [];
    } else {
      var first, more := order[0], order[1..];
      assert order == [first] + more && first in order;
      assert forall i :: i in more ==> i in order;
      PathsWithout(entries, more, id);
      PathsCons(entries, first, more);
      WithoutCons(first, more, id);
      WithoutCons(entries[first].path, PathsOf(entries, more), entries[id].path);
      if first != id {
        PathsCons(entries, first, Without(more, id));
      }
    }
  }

  lemma WithoutCons<T>(x: T, more: seq<T>, y: T)
    ensures Without([x] + more, y) == if x == y then Without(more, y) else [x] + Without(more, y)
  {
    assert ([x] + more)[1..] == more;
  }

  lemma PathsCons(entries: seq<Entry>, id: nat, order: seq<nat>)
    requires id < |entries| && forall i :: i in order ==> i < |entries|
    ensures PathsOf(entries, [id] + order) == [entries[id].path] + PathsOf(entries, order)
  {
  }

  lemma PathsDependOnPaths(entries: seq<Entry>, entries': seq<Entry>, order: seq<nat>)
    requires |entries| <= |entries'| && forall i :: i in order ==> i < |entries|
    requires forall i :: 0 <= i < |entries| ==> entries'[i].path == entries[i].path
    ensures PathsOf(entries', order) == PathsOf(entries, order)
  {
  }

  lemma DropPaths(c: Cache, id: nat)
    requires Inv(c) && id in c.order
    ensures InRange(Drop(c, id)) && Paths(Drop(c, id)) == Without(Paths(c), c.entries[id].path)
  {
    DropInv(c, id);
    SamePathSameEntry(c, id);
    PathsWithout(c.entries, c.order, id);
    PathsDependOnPaths(c.entries, Drop(c, id).entries, Without(c.order, id));
  }

  lemma SamePathSameEntry(c: Cache, id: nat)
    requires Inv(c) && id in c.order
    ensures forall i :: i in c.order && c.entries[i].path == c.entries[id].path ==> i == id
  {
  }

  lemma HitPaths(c: Cache, id: nat)
    requires Inv(c) && id in c.order
    ensures InRange(Hit(c, id))
    ensures Paths(Hit(c, id)) == [c.entries[id].path] + Without(Paths(c), c.entries[id].path)
  {
    HitInv(c, id);
    SamePathSameEntry(c, id);
    PathsWithout(c.entries, c.order, id);
    PathsCons(c.entries, id, Without(c.order, id));
    PathsDependOnPaths(c.entries, Hit(c, id).entries, [id] + Without(c.order, id));
  }

  lemma InsertPaths(c: Cache, path: string, hash: string)
    requires Inv(c)
    ensures InRange(Insert(c, path, hash)) && Paths(Insert(c, path, hash)) == [path] + Paths(c)
  {
    var c' := Insert(c, path, hash);
    PathsDependOnPaths(c.entries, c'.entries, c.order);
    PathsCons(c'.entries, |c.entries|, c.order);
  }

  lemma EvictPaths(c: Cache)
    requires Inv(c)
    ensures InRange(EvictBack(c))
    ensures Paths(EvictBack(c)) == Take(Paths(c), Room(c.cap) - 1)
  {
    hide Drop, Without, PathsOf, Inv;
    InvParts(c);
    if |c.order| >= c.cap && c.order != [] {
      var k := |c.order| - 1;
      var id := c.order[k];
      assert id in c.order;
      DropPaths(c, id);
      PathsDistinct(c);
      assert Paths(c)[k] == c.entries[id].path;
      WithoutLast(Paths(c));
      assert |Paths(c)| <= Room(c.cap) by { Fits(c); }
    }
  }

  lemma Fits(c: Cache)
    requires Inv(c)
    ensures |Paths(c)| <= Room(c.cap)
  {
  }

  lemma StalePaths(c: Cache, path: string)
    requires Inv(c)
    ensures Inv(DropStale(c, path)) && DropStale(c, path).cap == c.cap
    ensures path !in DropStale(c, path).items
    ensures Paths(DropStale(c, path)) == Without(Paths(c), path)
  {
    PathsDistinct(c);
    if path in c.items {
      DropInv(c, c.items[path]);
      DropPaths(c, c.items[path]);
    } else {
      WithoutDistinct(Paths(c), path);
    }
  }

  /** A get that fails to reopen a changed file only forgets that path. */
  lemma FailedGetForgets(c: Cache, path: string, hash: string)
    requires Inv(c) && GetSpec(c, path, hash, false).1.None?
    ensures InRange(GetSpec(c, path, hash, false).0)
    ensures Paths(GetSpec(c, path, hash, false).0) == Without(Paths(c), path)
  {
    StalePaths(c, path);
  }

  /** A successful get moves its path to the front and keeps as many others as there is room for. */
  lemma GetPaths(c: Cache, path: string, hash: string, opens: bool)
    requires Inv(c) && GetSpec(c, path, hash, opens).1.Some?
    ensures InRange(GetSpec(c, path, hash, opens).0)
    ensures Paths(GetSpec(c, path, hash, opens).0) == [path] + Take(Without(Paths(c), path), Room(c.cap) - 1)
  {
    hide Inv, Hit, Insert, EvictBack, DropStale, Paths, PathsOf;
    assert InRange(c) && Consistent(c) by { InvParts(c); }
    if IsHit(c, path, hash) {
      HitPaths(c, c.items[path]);
      FitsWithout(c, path);
    } else {
      StalePaths(c, path);
      var c1 := DropStale(c, path);
      InvParts(c1);
      EvictPaths(c1);
      EvictInv(c1);
      InsertPaths(EvictBack(c1), path, hash);
    }
  }

  lemma FitsWithout(c: Cache, path: string)
    requires Inv(c) && path in c.items
    ensures Take(Without(Paths(c), path), Room(c.cap) - 1) == Without(Paths(c), path)
  {
    PathsDistinct(c);
    assert |Paths(c)| <= Room(c.cap);
    WithoutDistinct(Paths(c), path);
  }

  lemma {:induction false} TakeWithout(r: seq<string>, p: string, k: nat)
    requires Distinct(r) && k >= 1
    ensures Take(Without(Take(r, k), p), k - 1) == Take(Without(r, p), k - 1)
  {
    hide Distinct;
    if r != [] {
      var more := r[1..];
      assert Distinct(more) && r[0] !in more by { DistinctTail(r); }
      assert Take(r, k)[1..] == Take(more, k - 1);
      if r[0] == p {
        WithoutDistinct(more, p);
        assert Distinct(Take(more, k - 1)) by { DistinctTake(more, k - 1); }
        WithoutDistinct(Take(more, k - 1), p);
      } else if k > 1 {
        TakeWithout(more, p, k - 1);
      }
    }
  }

  lemma DistinctTail(r: seq<string>)
    requires Distinct(r) && r != []
    ensures Distinct(r[1..]) && r[0] !in r[1..]
  {
  }

  lemma DistinctTake(r: seq<string>, k: nat)
    requires Distinct(r)
    ensures Distinct(Take(r, k))
  {
  }

  /** One successful get, on both sides. */
  lemma GetIsLru(c: Cache, path: string, hash: string, opens: bool, history: seq<string>)
    requires Inv(c) && GetSpec(c, path, hash, opens).1.Some?
    requires Paths(c) == Take(Recent(history), Room(c.cap))
    ensures InRange(GetSpec(c, path, hash, opens).0)
    ensures Paths(GetSpec(c, path, hash, opens).0) == Take(Recent(history + [path]), Room(c.cap))
  {
    hide GetSpec, Inv, Paths, Without;
    GetPaths(c, path, hash, opens);
    RecentIsByLastUse(history);
    TakeWithout(Recent(history), path, Room(c.cap));
    assert (history + [path])[..|history|] == history;
  }

  lemma ReleasePaths(c: Cache, h: nat)
    requires Inv(c) && Held(c, h)
    ensures InRange(ReleaseSpec(c, h)) && Paths(ReleaseSpec(c, h)) == Paths(c)
  {
    PathsDependOnPaths(c.entries, ReleaseSpec(c, h).entries, c.order);
  }

  lemma {:induction false} LruFrom(c: Cache, ops: seq<Op>, history: seq<string>)
    requires Inv(c) && Legal(c, ops) && AllSucceed(c, ops)
    requires Paths(c) == Take(Recent(history), Room(c.cap))
    ensures Inv(Run(c, ops))
    ensures Paths(Run(c, ops)) == Take(Recent(history + Gets(ops)), Room(c.cap))
    decreases |ops|
  {
    hide Inv, Paths, Recent, GetSpec, ReleaseSpec;
    if ops == [] {
      assert history + Gets(ops) == history;
    } else {
      InvParts(c);
      match ops[0]
      case Get(path, hash, opens) =>
        GetInv(c, path, hash, opens);
        GetIsLru(c, path, hash, opens, history);
        LruFrom(GetSpec(c, path, hash, opens).0, ops[1..], history + [path]);
        assert history + Gets(ops) == history + [path] + Gets(ops[1..]);
      case Release(h) =>
        ReleaseInv(c, h);
        ReleasePaths(c, h);
        LruFrom(ReleaseSpec(c, h), ops[1..], history);
        assert Gets(ops) == Gets(ops[1..]);
    }
  }

  /** After every run without failures the cache lists the paths used last, as many as fit. */
  lemma CacheIsLru(cap: int, ops: seq<Op>)
    requires Inv(New(cap)) && Legal(New(cap), ops) && AllSucceed(New(cap), ops)
    ensures Inv(Run(New(cap), ops))
    ensures Paths(Run(New(cap), ops)) == Take(Recent(Gets(ops)), Room(cap))
  {
    LruFrom(New(cap), ops, []);
    assert [] + Gets(ops) == Gets(ops);
  }

  /* ---- with failures too ---- */

  /** The paths of the gets that succeed, in order. */
  ghost function Succeeded(c: Cache, ops: seq<Op>): seq<string>
    requires Inv(c) && Legal(c, ops)
    decreases |ops|
  {
    if ops == [] then [] else
    match ops[0]
    case Get(path, hash, opens) =>
      GetInv(c, path, hash, opens);
      var (c', r) := GetSpec(c, path, hash, opens);
      (if r.Some? then [path] else []) + Succeeded(c', ops[1..])
    case Release(h) =>
      ReleaseInv(c, h);
      Succeeded(ReleaseSpec(c, h), ops[1..])
  }

  /** Paths of the history, each once, the one used last coming first. */
  ghost predicate Ordered(history: seq<string>, r: seq<string>) {
    Distinct(r) && (forall p :: p in r ==> p in history) && ByLastUse(history, r)
  }

  lemma OrderedPrefix(history: seq<string>, r: seq<string>, k: nat)
    requires Ordered(history, r)
    ensures Ordered(history, Take(r, k))
  {
    hide LastUse;
    var t := Take(r, k);
    assert forall i :: 0 <= i < |t| ==> t[i] == r[i];
  }

  lemma OrderedWithout(history: seq<string>, r: seq<string>, p: string)
    requires Ordered(history, r)
    ensures Ordered(history, Without(r, p)) && p !in Without(r, p)
  {
    hide LastUse;
    WithoutDistinct(r, p);
    RestByLastUse(history, r, p, Without(r, p));
  }

  lemma OrderedUse(history: seq<string>, r: seq<string>, p: string)
    requires Ordered(history, r) && p !in r
    ensures Ordered(history + [p], [p] + r)
  {
    hide LastUse;
    assert forall i :: 0 <= i < |r| ==> r[i] in r;
    LastFirst(history, p, r);
    DistinctCons(p, r);
  }

  /** The order after a get of any outcome. */
  lemma GetKeepsOrder(c: Cache, path: string, hash: string, opens: bool, history: seq<string>)
    requires Inv(c) && Ordered(history, Paths(c))
    ensures var (c', r) := GetSpec(c, path, hash, opens);
            InRange(c') && Ordered(if r.Some? then history + [path] else history, Paths(c'))
  {
    hide Ordered, GetSpec, Inv, Paths;
    InvParts(c);
    OrderedWithout(history, Paths(c), path);
    if GetSpec(c, path, hash, opens).1.Some? {
      GetPaths(c, path, hash, opens);
      OrderedPrefix(history, Without(Paths(c), path), Room(c.cap) - 1);
      OrderedUse(history, Take(Without(Paths(c), path), Room(c.cap) - 1), path);
    } else {
      FailsOnlyUnopened(c, path, hash, opens);
      FailedGetForgets(c, path, hash);
    }
  }

  lemma FailsOnlyUnopened(c: Cache, path: string, hash: string, opens: bool)
    requires Inv(c) && GetSpec(c, path, hash, opens).1.None?
    ensures !opens
  {
  }

  lemma {:induction false} OrderFrom(c: Cache, ops: seq<Op>, history: seq<string>)
    requires Inv(c) && Legal(c, ops) && Ordered(history, Paths(c))
    ensures Inv(Run(c, ops)) && Ordered(history + Succeeded(c, ops), Paths(Run(c, ops)))
    decreases |ops|
  {
    hide Inv, Paths, Ordered, GetSpec, ReleaseSpec;
    if ops == [] {
      assert history + [] == history;
    } else {
      InvParts(c);
      match ops[0]
      case Get(path, hash, opens) =>
        GetInv(c, path, hash, opens);
        GetKeepsOrder(c, path, hash, opens, history);
        var (c', r) := GetSpec(c, path, hash, opens);
        OrderFrom(c', ops[1..], if r.Some? then history + [path] else history);
        Regroup(history, path, Succeeded(c', ops[1..]));
      case Release(h) =>
        ReleaseInv(c, h);
        ReleasePaths(c, h);
        OrderFrom(ReleaseSpec(c, h), ops[1..], history);
    }
  }

  lemma Regroup(history: seq<string>, path: string, more: seq<string>)
    ensures history + [path] + more == history + ([path] + more) && [] + more == more
  {
  }

  /** After every run, failed gets included, the cache lists its paths by their last successful get. */
  lemma RunIsOrdered(cap: int, ops: seq<Op>)
    requires Inv(New(cap)) && Legal(New(cap), ops)
    ensures Inv(Run(New(cap), ops))
    ensures Ordered(Succeeded(New(cap), ops), Paths(Run(New(cap), ops)))
  {
    OrderFrom(New(cap), ops, []);
    assert [] + Succeeded(New(cap), ops) == Succeeded(New(cap), ops);
  }

  /** In a cache reached by any run, a get pushes out another path only if the cache is full and the path
      asked for is new; what goes is the last of the list, whose last successful get is before that of
      every path that stays. */
  lemma EvictionIsLeastRecent(cap: int, ops: seq<Op>, path: string, hash: string, opens: bool, q: string)
    requires Inv(New(cap)) && Legal(New(cap), ops) && Inv(Run(New(cap), ops))
    requires var c := Run(New(cap), ops);
             && GetSpec(c, path, hash, opens).1.Some? && InRange(GetSpec(c, path, hash, opens).0)
             && q in Paths(c) && q != path && q !in Paths(GetSpec(c, path, hash, opens).0)
    ensures var c, history := Run(New(cap), ops), Succeeded(New(cap), ops);
            && |Paths(c)| == Room(cap) && path !in Paths(c)
            && q == Paths(c)[Room(cap) - 1] && q in history
            && forall kept :: kept in Paths(GetSpec(c, path, hash, opens).0) && kept != path ==>
                 kept in history && LastUse(history, kept) > LastUse(history, q)
  {
    hide Ordered, GetSpec, Inv, Paths, Run, Legal, Succeeded;
    var c, history := Run(New(cap), ops), Succeeded(New(cap), ops);
    RunInv(New(cap), ops);
    InvParts(c);
    RunIsOrdered(cap, ops);
    GetPaths(c, path, hash, opens);
    WithoutHasOthers(Paths(c), path, q);
    FullBeforeEviction(c, path, q);
    FrontIsNewer(history, Paths(c));
  }

  lemma {:induction false} WithoutHasOthers(s: seq<string>, x: string, q: string)
    requires q in s && q != x
    ensures q in Without(s, x)
  {
    if s[0] != q { WithoutHasOthers(s[1..], x, q); }
  }

  lemma CutOff(r: seq<string>, room: nat, path: string, q: string)
    requires Distinct(r) && 0 < |r| <= room
    requires q in Without(r, path) && q !in Take(Without(r, path), room - 1)
    ensures |r| == room && path !in r && Without(r, path) == r && q == r[room - 1]
  {
    hide Without;
    WithoutDistinct(r, path);
    var rest, k := Without(r, path), room - 1;
    assert |rest| > k;
    assert rest == rest[..k] + [rest[k]];
  }

  lemma FullBeforeEviction(c: Cache, path: string, q: string)
    requires Inv(c) && q in Without(Paths(c), path) && q !in Take(Without(Paths(c), path), Room(c.cap) - 1)
    ensures |Paths(c)| == Room(c.cap) && path !in Paths(c) && Without(Paths(c), path) == Paths(c)
    ensures q == Paths(c)[Room(c.cap) - 1]
  {
    hide Closing, Counted, Paths, Without;
    PathsDistinct(c);
    WithoutDistinct(Paths(c), path);
    CutOff(Paths(c), Room(c.cap), path, q);
  }

  lemma FrontIsNewer(history: seq<string>, r: seq<string>)
    requires Ordered(history, r) && r != []
    ensures var q := r[|r| - 1];
            && q in history
            && forall kept :: kept in r[..|r| - 1] ==> kept in history && LastUse(history, kept) > LastUse(history, q)
  {
    hide LastUse;
    assert r[|r| - 1] in r;
    assert forall i :: 0 <= i < |r| ==> r[i] in r;
  }
}
