/**
 internal/archive/archive.go: stripping the directories that merely wrap an unpacked archive.
 */
module Collapse {
  import opened Wrappers
  import opened FileNames

  datatype Node = File(content: string) | Dir(entries: map<string, Node>)

  type Listing = map<string, Node>

  /* ---- which wrappers go ---- */

  predicate IsPdf(name: string) {
    HasExt(name, ".pdf")
  }

  /** A directory of several volumes: it has a subdirectory or at least two PDFs. */
  ghost predicate HoldsVolumes(t: Listing) {
    (exists n :: n in t && t[n].Dir?) || |set n | n in t && IsPdf(n)| >= 2
  }

  ghost predicate WrappedBy(t: Listing, w: string) {
    t.Keys == {w} && t[w].Dir? && HoldsVolumes(t[w].entries)
  }

  ghost predicate Collapsible(d: Node) {
    d.Dir? && exists w :: WrappedBy(d.entries, w)
  }

  ghost function Wrapper(d: Node): (w: string)
    requires Collapsible(d)
    ensures WrappedBy(d.entries, w)
  {
    var w :| WrappedBy(d.entries, w);
    w
  }

  ghost function Inner(d: Node): (inner: Node)
    requires Collapsible(d)
    ensures inner == d.entries[Wrapper(d)] && inner.Dir? && d.entries == map[Wrapper(d) := inner]
    ensures inner < d
  {
    d.entries[Wrapper(d)]
  }

  predicate NamesPdf(name: string) {
    |name| >= 4 && Lower(name[|name| - 4..]) == ".pdf"
  }

  lemma PdfName(name: string)
    ensures IsPdf(name) <==> NamesPdf(name)
  {
    hide HasExt, Lower;
    ExtIsSuffix(name, ".pdf");
  }

  lemma TwoOf(t: Listing)
    ensures |set n | n in t && IsPdf(n)| >= 2 <==>
              exists m, n :: m in t && n in t && m != n && IsPdf(m) && IsPdf(n)
  {
    hide IsPdf;
    var pdfs := set n | n in t && IsPdf(n);
    if |pdfs| >= 2 {
      var m :| m in pdfs;
      var rest := pdfs - {m};
      assert |rest| >= 1;
      var n :| n in rest;
      assert m in t && n in t && m != n && IsPdf(m) && IsPdf(n);
    }
    if m, n :| m in t && n in t && m != n && IsPdf(m) && IsPdf(n) {
      assert {m, n} <= pdfs;
      Bigger({m, n}, pdfs);
    }
  }

  lemma Bigger(a: set<string>, b: set<string>)
    requires a <= b
    ensures |a| <= |b|
  {
    assert b == a + (b - a);
  }

  /** The one entry is a directory with a subdirectory or two PDFs in it. */
  ghost predicate WrapsVolumes(t: Listing, w: string) {
    && t.Keys == {w} && t[w].Dir?
    && var inner := t[w].entries;
       || (exists n :: n in inner && inner[n].Dir?)
       || (exists m, n :: m in inner && n in inner && m != n && NamesPdf(m) && NamesPdf(n))
  }

  lemma WrappedMeans(t: Listing, w: string)
    ensures WrappedBy(t, w) <==> WrapsVolumes(t, w)
  {
    hide IsPdf, NamesPdf;
    if t.Keys == {w} && t[w].Dir? {
      TwoOf(t[w].entries);
      forall n ensures IsPdf(n) <==> NamesPdf(n) { PdfName(n); }
    }
  }

  /** What is collapsed: a directory with a single entry, that a directory, that with a subdirectory or two PDFs. */
  lemma CollapsibleMeans(d: Node)
    ensures Collapsible(d) <==> d.Dir? && exists w :: WrapsVolumes(d.entries, w)
  {
    hide WrappedBy, WrapsVolumes;
    if d.Dir? {
      forall w ensures WrappedBy(d.entries, w) <==> WrapsVolumes(d.entries, w) {
        WrappedMeans(d.entries, w);
      }
    }
  }

  /** The wrappers, outermost first. */
  ghost function Chain(d: Node): seq<string>
    decreases d
  {
    if Collapsible(d) then [Wrapper(d)] + Chain(Inner(d)) else []
  }

  /** What the wrappers hold. */
  ghost function Core(d: Node): Node
    decreases d
  {
    if Collapsible(d) then Core(Inner(d)) else d
  }

  /** Some wrapper has an entry of its own name, onto which that entry cannot be moved. */
  ghost predicate Clashes(d: Node)
    decreases d
  {
    Collapsible(d) && (Wrapper(d) in Inner(d).entries || Clashes(Inner(d)))
  }

  /** The tree wrapped again. */
  function Nest(chain: seq<string>, d: Node): Node {
    if chain == [] then d else Dir(map[chain[0] := Nest(chain[1..], d)])
  }

  /** The node at a path of names. */
  function At(d: Node, path: seq<string>): Option<Node>
    decreases |path|
  {
    if path == [] then Some(d)
    else if d.Dir? && path[0] in d.entries then At(d.entries[path[0]], path[1..])
    else None
  }

  /** The tree is its core wrapped in the chain, and the core is no wrapper. */
  lemma {:induction false} ChainAndCore(d: Node)
    ensures Nest(Chain(d), Core(d)) == d && !Collapsible(Core(d))
    ensures d.Dir? ==> Core(d).Dir?
    decreases d
  {
    if Collapsible(d) {
      ChainAndCore(Inner(d));
    }
  }

  /** There is no other way to wrap a tree that is no wrapper in collapsible layers. */
  lemma {:induction false} ChainIsUnique(d: Node, chain: seq<string>, core: Node)
    requires Nest(chain, core) == d && !Collapsible(core)
    requires forall i :: 0 <= i < |chain| ==> Collapsible(Nest(chain[i..], core))
    ensures chain == Chain(d) && core == Core(d)
    decreases |chain|
  {
    if chain == [] {
      assert Nest([], core) == core;
    } else {
      assert chain[0..] == chain;
      var rest := chain[1..];
      assert forall i :: 0 <= i < |rest| ==> rest[i..] == chain[i + 1..];
      assert Wrapper(d) == chain[0] by { assert d.entries.Keys == {chain[0]}; }
      ChainIsUnique(Inner(d), rest, core);
    }
  }

  /** Every file keeps its contents and loses the chain from its path; no path outside the chain has one. */
  lemma {:induction false} PathsLoseTheChain(chain: seq<string>, d: Node, path: seq<string>)
    ensures At(Nest(chain, d), chain + path) == At(d, path)
    ensures At(Nest(chain, d), path).Some? && At(Nest(chain, d), path).value.File? ==> chain <= path
    decreases |chain|
  {
    if chain == [] {
      assert chain + path == path;
    } else {
      var rest := chain[1..];
      assert (chain + path)[1..] == rest + path;
      PathsLoseTheChain(rest, d, path);
      if path != [] {
        PathsLoseTheChain(rest, d, path[1..]);
      }
    }
  }

  lemma CollapseKeepsFiles(d: Node, path: seq<string>)
    ensures At(d, Chain(d) + path) == At(Core(d), path)
    ensures At(d, path).Some? && At(d, path).value.File? ==> Chain(d) <= path
  {
    ChainAndCore(d);
    PathsLoseTheChain(Chain(d), Core(d), path);
  }

  /* ---- the loop ---- */

  /** os.ReadDir */
  method ReadDir(t: Listing) returns (names: seq<string>)
    ensures forall n :: n in names <==> n in t
    ensures forall i, j :: 0 <= i < j < |names| ==> names[i] != names[j]
    ensures |names| == |t|
  {
    names := [];
    var rest := t.Keys;
    while rest != {}
      invariant forall n :: n in names || n in rest <==> n in t
      invariant forall n :: n in names ==> n !in rest
      invariant forall i, j :: 0 <= i < j < |names| ==> names[i] != names[j]
      invariant |names| + |rest| == |t|
    {
      var n :| n in rest;
      names := names + [n];
      rest := rest - {n};
    }
  }

  function Pdfs(names: seq<string>): set<string> {
    set n | n in names && IsPdf(n)
  }

  lemma PdfsStep(names: seq<string>, i: nat)
    requires i < |names| && names[i] !in names[..i]
    ensures Pdfs(names[..i + 1]) == Pdfs(names[..i]) + if IsPdf(names[i]) then {names[i]} else {}
    ensures names[i] !in Pdfs(names[..i])
  {
    hide IsPdf;
    assert names[..i + 1] == names[..i] + [names[i]];
  }

  lemma VolumesBy(t: Listing, names: seq<string>)
    requires forall n :: n in names <==> n in t
    ensures HoldsVolumes(t) <==> (exists n :: n in t && t[n].Dir?) || |Pdfs(names)| >= 2
  {
    hide IsPdf;
    assert Pdfs(names) == set n | n in t && IsPdf(n);
  }

  /** Whether a wrapper's directory holds volumes rather than the pages of one. */
  method IsWrapperOfVolumes(t: Listing) returns (yes: bool)
    ensures yes == HoldsVolumes(t)
  {
    hide IsPdf, HoldsVolumes, Pdfs;
    var names := ReadDir(t);
    VolumesBy(t, names);
    var pdfCount := 0;
    assert names[..0] == [];
    NoPdfs();
    for i := 0 to |names|
      invariant forall k :: 0 <= k < i ==> !t[names[k]].Dir?
      invariant pdfCount == |Pdfs(names[..i])|
    {
      PdfsStep(names, i);
      if t[names[i]].Dir? { return true; }
      if IsPdf(names[i]) { pdfCount := pdfCount + 1; }
    }
    assert names[..|names|] == names;
    return pdfCount >= 2;
  }

  lemma NoPdfs()
    ensures Pdfs([]) == {}
  {
  }

  /** The listing after some of the wrapper's entries have been moved out of it. */
  function Moved(inner: Listing, w: string, out: set<string>): Listing {
    (map n | n in inner && n in out :: inner[n])[w := Dir(inner - out)]
  }

  class Archive {
    /** The unpacked directory. */
    var entries: Listing

    constructor (entries: Listing)
      ensures this.entries == entries
    {
      this.entries := entries;
    }

    /** os.Rename of an entry of w into the root: it replaces a file by a file or an empty directory by
        a directory, and nothing else. */
    method Rename(w: string, e: string) returns (ok: bool)
      requires w in entries && entries[w].Dir? && e in entries[w].entries
      modifies this
      ensures var n := old(entries)[w].entries[e];
              && ok == (e in old(entries) ==>
                   var target := old(entries)[e];
                   if n.File? then target.File? else target == Dir(map[]))
              && entries == if ok then old(entries)[w := Dir(old(entries)[w].entries - {e})][e := n] else old(entries)
    {
      var n := entries[w].entries[e];
      ok := e !in entries || (if n.File? then entries[e].File? else entries[e] == Dir(map[]));
      if ok {
        entries := entries[w := Dir(entries[w].entries - {e})][e := n];
      }
    }

    /** os.Remove */
    method Remove(w: string) returns (ok: bool)
      requires w in entries
      modifies this
      ensures ok == (old(entries)[w].File? || old(entries)[w].entries == map[])
      ensures entries == if ok then old(entries) - {w} else old(entries)
    {
      ok := entries[w].File? || entries[w].entries == map[];
      if ok { entries := entries - {w}; }
    }

    /** Moves the entries of w into the root, up to one that w itself is in the way of. */
    method MoveOut(w: string, ghost inner: Listing) returns (ok: bool, ghost out: set<string>)
      requires entries == map[w := Dir(inner)]
      modifies this
      ensures ok <==> w !in inner
      ensures entries == Moved(inner, w, out) && out <= inner.Keys && w !in out
      ensures ok ==> out == inner.Keys
    {
      hide Moved;
      var names := ReadDir(entries[w].entries);
      out := {};
      NoneMoved(inner, w);
      for i := 0 to |names|
        invariant forall n :: n in out <==> n in names[..i]
        invariant w !in out && out <= inner.Keys && entries == Moved(inner, w, out)
      {
        MoveOne(inner, w, out, names[i]);
        var renamed := Rename(w, names[i]);
        if !renamed { return false, out; }
        out := out + {names[i]};
      }
      return true, out;
    }

    /** Collapses all wrappers unless one clashes; then the outer ones are gone and some entries of the
        clashing one have been moved out of it, but nothing is lost. */
    method CollapseSingleRoot()
      returns (ok: bool, ghost done: seq<string>, ghost inner: Listing, ghost out: set<string>)
      modifies this
      ensures ok <==> !Clashes(Dir(old(entries)))
      ensures ok ==> Dir(entries) == Core(Dir(old(entries)))
      ensures !ok ==> done != [] && done <= Chain(Dir(old(entries))) && Dir(old(entries)) == Nest(done, Dir(inner))
      ensures !ok ==> var w := done[|done| - 1];
                w in inner && w !in out && out <= inner.Keys && entries == Moved(inner, w, out)
    {
      hide Nest, Chain, Core, Clashes, Collapsible, HoldsVolumes, Moved;
      ghost var start := Dir(entries);
      done, inner, out := [], map[], {};
      NestNone(start);
      while true
        invariant start == Nest(done, Dir(entries))
        invariant Core(start) == Core(Dir(entries)) && Chain(start) == done + Chain(Dir(entries))
        invariant Clashes(start) <==> Clashes(Dir(entries))
        decreases |Chain(Dir(entries))|
      {
        var names := ReadDir(entries);
        if |names| != 1 || !entries[names[0]].Dir? {
          NotOneDirectory(entries);
          return true, done, inner, out;
        }
        var w := names[0];
        inner := entries[w].entries;
        assert entries == map[w := Dir(inner)];
        WrapperStep(inner, w);
        var volumes := IsWrapperOfVolumes(entries[w].entries);
        if !volumes { return true, done, inner, out; }
        NestMore(done, w, Dir(inner));
        done := done + [w];
        var moved;
        moved, out := MoveOut(w, inner);
        if !moved { return false, done, inner, out; }
        AllMoved(inner, w);
        var removed := Remove(w);
        if !removed { return false, done, inner, out; }
      }
    }
  }

  lemma NoneMoved(inner: Listing, w: string)
    ensures Moved(inner, w, {}) == map[w := Dir(inner)]
  {
    assert inner - {} == inner;
  }

  /** Only w itself can be in the way of the next entry. */
  lemma MoveOne(inner: Listing, w: string, out: set<string>, e: string)
    requires e in inner && e !in out && w !in out
    ensures var t := Moved(inner, w, out);
            && w in t && t[w] == Dir(inner - out) && e in t[w].entries && t[w].entries[e] == inner[e]
            && (e in t <==> e == w)
            && (e != w ==> Moved(inner, w, out + {e}) == t[w := Dir(inner - out - {e})][e := inner[e]])
  {
    assert inner - out - {e} == inner - (out + {e});
  }

  lemma AllMoved(inner: Listing, w: string)
    requires w !in inner
    ensures var t := Moved(inner, w, inner.Keys); w in t && t[w] == Dir(map[]) && t - {w} == inner
  {
    assert inner - inner.Keys == map[];
  }

  /** When collapsing stops half way, every entry of the clashing wrapper is either where it was or moved out. */
  lemma HalfMovedKeepsFiles(inner: Listing, w: string, out: set<string>, path: seq<string>)
    requires w !in out && path != []
    ensures At(Dir(Moved(inner, w, out)), if path[0] in out then path else [w] + path) == At(Dir(inner), path)
  {
    assert ([w] + path)[1..] == path;
    if path[0] !in out {
      assert At(Dir(inner - out), path) == At(Dir(inner), path);
    }
  }

  lemma NestNone(d: Node)
    ensures Nest([], d) == d && [] + Chain(d) == Chain(d)
  {
  }

  lemma NotOneDirectory(t: Listing)
    requires |t| != 1 || exists n :: n in t && t[n].File?
    ensures var d := Dir(t); !Collapsible(d) && Core(d) == d && Chain(d) == [] && !Clashes(d)
  {
    forall w ensures !WrappedBy(t, w) {
      assert t.Keys == {w} ==> |t| == 1;
    }
  }

  lemma WrapperStep(inner: Listing, w: string)
    ensures var d := Dir(map[w := Dir(inner)]);
            if HoldsVolumes(inner) then
              && Chain(d) == [w] + Chain(Dir(inner)) && Core(d) == Core(Dir(inner))
              && (Clashes(d) <==> w in inner || Clashes(Dir(inner)))
            else Chain(d) == [] && Core(d) == d && !Clashes(d)
  {
    hide HoldsVolumes;
    var t := map[w := Dir(inner)];
    assert t.Keys == {w};
    if HoldsVolumes(inner) {
      assert WrappedBy(t, w);
    } else {
      forall v ensures !WrappedBy(t, v) {
        assert v == w || v !in t.Keys;
      }
    }
  }

  lemma {:induction false} NestMore(done: seq<string>, w: string, d: Node)
    ensures Nest(done + [w], d) == Nest(done, Dir(map[w := d]))
    decreases |done|
  {
    if done == [] {
      assert [w][1..] == [];
    } else {
      assert (done + [w])[1..] == done[1..] + [w];
      NestMore(done[1..], w, d);
    }
  }
}
