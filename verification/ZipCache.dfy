/**
 internal/api/content.go: the zip cache as the objects of the source. Every method is tied to
 the state machine of ZipCacheSpec, so its theorems hold of every sequence of calls.

 A call holds the mutex throughout, so it is one atomic step. The ghost fields record every
 entry and handle ever made; Valid ties them and the real fields to one abstract state.
 */
module ZipCache {
  import Spec = ZipCacheSpec

  /** An open archive; closes counts the calls of Close. */
  class Reader {
    var closes: nat

    constructor ()
      ensures closes == 0
    {
      closes := 0;
    }

    method Close()
      modifies this
      ensures closes == old(closes) + 1
    {
      closes := closes + 1;
    }
  }

  class CacheEntry {
    ghost const id: nat
    const path: string
    const hash: string
    const rc: Reader
    var refs: int
    var evicted: bool

    constructor (ghost id: nat, path: string, hash: string, rc: Reader)
      ensures this.id == id && this.path == path && this.hash == hash && this.rc == rc
      ensures refs == 1 && !evicted
    {
      this.id, this.path, this.hash, this.rc := id, path, hash, rc;
      refs, evicted := 1, false;
    }

    ghost predicate Is(e: Spec.Entry)
      reads this, rc
    {
      e == Spec.Entry(path, hash, refs, evicted, rc.closes)
    }

    /** closeOrMarkEvicted */
    method CloseOrMarkEvicted()
      modifies this`evicted, rc
      ensures Is(Spec.CloseOrMarkEvicted(old(Spec.Entry(path, hash, refs, evicted, rc.closes))))
    {
      if refs == 0 {
        rc.Close();
      } else {
        evicted := true;
      }
    }
  }

  class ZipHandle {
    ghost const id: nat
    const cache: ZipCache
    const entry: CacheEntry

    constructor (ghost id: nat, cache: ZipCache, entry: CacheEntry)
      ensures this.id == id && this.cache == cache && this.entry == entry
    {
      this.id, this.cache, this.entry := id, cache, entry;
    }

    /** Files reads from the entry's reader, which is open as long as the handle is held. */
    method Files() returns (rc: Reader)
      requires cache.Valid() && cache.Holds(this)
      ensures rc == entry.rc && rc.closes == 0
    {
      rc := entry.rc;
      Spec.HeldIsOutstanding(cache.state.handles, id);
    }

    method Release()
      requires cache.Valid() && cache.Holds(this)
      modifies cache, entry, entry.rc
      ensures cache.Valid() && !cache.Holds(this)
      ensures cache.state == Spec.ReleaseSpec(old(cache.state), id)
      ensures cache.entries == old(cache.entries) && cache.handles == old(cache.handles)
    {
      hide Spec.Inv;
      Spec.ReleaseInv(cache.state, id);
      Spec.InvParts(cache.state);
      entry.refs := entry.refs - 1;
      if entry.refs == 0 && entry.evicted {
        entry.rc.Close();
      }
      cache.state := Spec.ReleaseSpec(cache.state, id);
    }
  }

  /** A list of entries and the list of their numbers. */
  ghost predicate SameList(entries: seq<CacheEntry>, o: seq<CacheEntry>, s: seq<nat>) {
    |o| == |s| && forall k :: 0 <= k < |s| ==> s[k] < |entries| && o[k] == entries[s[k]]
  }

  ghost predicate SameMap(entries: seq<CacheEntry>, m: map<string, CacheEntry>, s: map<string, nat>) {
    m.Keys == s.Keys && forall p :: p in s ==> s[p] < |entries| && m[p] == entries[s[p]]
  }

  ghost predicate Numbered(entries: seq<CacheEntry>) {
    forall i :: 0 <= i < |entries| ==> entries[i].id == i
  }

  /** Removing an entry from a list removes its number. */
  lemma {:induction false} RemoveSame(entries: seq<CacheEntry>, o: seq<CacheEntry>, s: seq<nat>, entry: CacheEntry)
    requires Numbered(entries) && entry.id < |entries| && entries[entry.id] == entry
    requires SameList(entries, o, s)
    ensures SameList(entries, Spec.Without(o, entry), Spec.Without<nat>(s, entry.id))
  {
    if o != [] {
      RemoveSame(entries, o[1..], s[1..], entry);
    }
  }

  lemma AddSame(entries: seq<CacheEntry>, o: seq<CacheEntry>, s: seq<nat>, e: CacheEntry)
    requires SameList(entries, o, s)
    ensures SameList(entries + [e], [e] + o, [|entries|] + s)
  {
  }

  lemma AddSameMap(entries: seq<CacheEntry>, m: map<string, CacheEntry>, s: map<string, nat>, p: string, e: CacheEntry)
    requires SameMap(entries, m, s)
    ensures SameMap(entries + [e], m[p := e], s[p := |entries|])
  {
  }

  lemma RemoveSameMap(entries: seq<CacheEntry>, m: map<string, CacheEntry>, s: map<string, nat>, p: string)
    requires SameMap(entries, m, s)
    ensures SameMap(entries, m - {p}, s - {p})
  {
  }

  lemma FrontSame(entries: seq<CacheEntry>, o: seq<CacheEntry>, s: seq<nat>, e: CacheEntry)
    requires Numbered(entries) && SameList(entries, o, s) && e.id < |entries| && entries[e.id] == e
    ensures SameList(entries, [e] + o, [e.id] + s)
  {
  }

  lemma SameIn(entries: seq<CacheEntry>, o: seq<CacheEntry>, s: seq<nat>, entry: CacheEntry)
    requires Numbered(entries) && SameList(entries, o, s) && entry in o
    ensures entry.id < |entries| && entries[entry.id] == entry && entry.id in s
  {
    var k :| 0 <= k < |o| && o[k] == entry;
    assert s[k] == entry.id;
  }

  class ZipCache {
    const cap: int
    var items: map<string, CacheEntry>
    var order: seq<CacheEntry>

    ghost var entries: seq<CacheEntry>
    ghost var handles: seq<ZipHandle>
    ghost var state: Spec.Cache

    ghost function Readers(): set<Reader>
      reads this
    {
      set e | e in entries :: e.rc
    }

    /** Entries and readers are numbered apart from each other and agree with the state. */
    ghost predicate EntriesAgree()
      reads this, entries, Readers()
    {
      && |state.entries| == |entries|
      && Numbered(entries)
      && (forall i :: 0 <= i < |entries| ==> entries[i].Is(state.entries[i]))
      && (forall i, j :: 0 <= i < j < |entries| ==> entries[i].rc != entries[j].rc)
    }

    ghost predicate ListsAgree()
      reads this
    {
      && SameList(entries, order, state.order)
      && SameMap(entries, items, state.items)
    }

    ghost predicate HandlesAgree()
      reads this
    {
      && |state.handles| == |handles|
      && (forall h :: 0 <= h < |handles| ==>
            && handles[h].id == h && handles[h].cache == this
            && state.handles[h].entry < |entries| && handles[h].entry == entries[state.handles[h].entry])
    }

    ghost predicate Valid()
      reads this, entries, Readers()
    {
      && state.cap == cap
      && EntriesAgree()
      && ListsAgree()
      && HandlesAgree()
      && Spec.Inv(state)
    }

    /** h was handed out and is not released yet. */
    ghost predicate Holds(h: ZipHandle)
      reads this
    {
      h.id < |handles| && handles[h.id] == h && Spec.Held(state, h.id)
    }

    constructor (capacity: int)
      ensures Valid() && state == Spec.New(capacity)
      ensures entries == [] && handles == []
    {
      cap := capacity;
      items, order := map[], [];
      entries, handles, state := [], [], Spec.New(capacity);
    }

    /** Takes an entry out of map and list. */
    method Drop(entry: CacheEntry)
      requires Valid() && entry in order
      modifies this, entry, entry.rc
      ensures Valid() && entry.id in old(state.order) && entry.id < |old(state.entries)|
      ensures state == Spec.Drop(old(state), entry.id)
      ensures entries == old(entries) && handles == old(handles)
    {
      hide Spec.Inv, Spec.Without, Spec.CloseOrMarkEvicted, SameList, SameMap;
      SameIn(entries, order, state.order, entry);
      Spec.InvParts(state);
      Spec.DropInv(state, entry.id);
      RemoveSame(entries, order, state.order, entry);
      RemoveSameMap(entries, items, state.items, entry.path);
      entry.CloseOrMarkEvicted();
      items := items - {entry.path};
      order := Spec.Without(order, entry);
      state := Spec.Drop(state, entry.id);
    }

    /** A hit: moves the entry to the front, counts the new reader and hands it out. */
    method Touch(entry: CacheEntry) returns (handle: ZipHandle)
      requires Valid() && entry in order
      modifies this, entry
      ensures Valid() && entry.id in old(state.order) && entry.id < |old(state.entries)|
      ensures state == Spec.Hit(old(state), entry.id)
      ensures fresh(handle) && handle.entry == entry && Holds(handle)
      ensures entries == old(entries) && handles == old(handles) + [handle]
    {
      hide Spec.Inv, Spec.Without, SameList, SameMap;
      SameIn(entries, order, state.order, entry);
      Spec.HitInv(state, entry.id);
      RemoveSame(entries, order, state.order, entry);
      FrontSame(entries, Spec.Without(order, entry), Spec.Without<nat>(state.order, entry.id), entry);
      order := [entry] + Spec.Without(order, entry);
      entry.refs := entry.refs + 1;
      handle := new ZipHandle(|handles|, this, entry);
      handles := handles + [handle];
      state := Spec.Hit(state, entry.id);
    }

    /** A new entry at the front, already read by the handle returned. */
    method Insert(path: string, hash: string, rc: Reader) returns (handle: ZipHandle)
      requires Valid() && path !in state.items && |state.order| < Spec.Room(cap)
      requires rc !in Readers() && rc.closes == 0
      modifies this
      ensures Valid()
      ensures state == Spec.Insert(old(state), path, hash)
      ensures fresh(handle) && fresh(handle.entry) && handle.entry.rc == rc && Holds(handle)
      ensures handle.entry.path == path && handle.entry.hash == hash
      ensures entries == old(entries) + [handle.entry] && handles == old(handles) + [handle]
    {
      hide Spec.Inv, SameList, SameMap;
      Spec.InsertInv(state, path, hash);
      var entry := new CacheEntry(|entries|, path, hash, rc);
      AddSame(entries, order, state.order, entry);
      AddSameMap(entries, items, state.items, path, entry);
      order := [entry] + order;
      items := items[path := entry];
      handle := new ZipHandle(|handles|, this, entry);
      entries := entries + [entry];
      handles := handles + [handle];
      state := Spec.Insert(state, path, hash);
    }

    /** Drops the entry of a path whose file changed on disk, if there is one. */
    method DropStale(path: string)
      requires Valid()
      modifies this, entries, Readers()
      ensures Valid() && state == Spec.DropStale(old(state), path)
      ensures entries == old(entries) && handles == old(handles)
    {
      hide Spec.Inv;
      Spec.InvParts(state);
      if path in items {
        ListedInOrder(path);
        Drop(items[path]);
      }
    }

    /** Makes room: drops the entry used longest ago when the cache is full. */
    method EvictBack()
      requires Valid()
      modifies this, entries, Readers()
      ensures Valid() && state == Spec.EvictBack(old(state))
      ensures entries == old(entries) && handles == old(handles)
    {
      hide Spec.Inv, Spec.Drop;
      Spec.InvParts(state);
      if |order| >= cap {
        if |order| > 0 {
          var back := order[|order| - 1];
          assert back.id == state.order[|order| - 1];
          Drop(back);
        }
      }
    }

    /** opens says whether zip.OpenReader succeeds; a null result stands for its error. */
    method Get(path: string, hash: string, opens: bool) returns (handle: ZipHandle?)
      requires Valid()
      modifies this, entries, Readers()
      ensures Valid()
      ensures state == Spec.GetSpec(old(state), path, hash, opens).0
      ensures handle == null <==> Spec.GetSpec(old(state), path, hash, opens).1.None?
      ensures handle != null ==> fresh(handle) && Holds(handle) && handles == old(handles) + [handle]
      ensures handle != null ==> handle.entry.path == path && handle.entry.hash == hash && handle.entry.rc.closes == 0
      ensures handle == null ==> handles == old(handles)
    {
      hide Spec.Inv, Spec.Drop, Spec.DropStale, Spec.EvictBack, SameList, EntriesAgree, HandlesAgree;
      Spec.InvParts(state);
      Spec.MissFacts(state, path);
      if path in items {
        ListedInOrder(path);
      }
      if path in items && items[path].hash == hash {
        handle := Touch(items[path]);
        return;
      }
      DropStale(path);
      if !opens {
        return null;
      }
      var rc := new Reader();
      assert rc !in Readers();
      EvictBack();
      handle := Insert(path, hash, rc);
    }

    lemma ListedInOrder(path: string)
      requires Valid() && path in items
      ensures items[path] in order && items[path].id == state.items[path] && items[path].id < |state.entries|
      ensures items[path].path == path && items[path].hash == state.entries[state.items[path]].hash
      ensures items[path].rc.closes == 0
    {
      assert state.items[path] in state.order;
      var k :| 0 <= k < |state.order| && state.order[k] == state.items[path];
      assert order[k] == items[path];
    }
  }
}
