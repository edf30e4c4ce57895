/**
 converter/convert.go: the poll loop that builds EPUBs while mokuro runs.

 Mokuro is the list of its writes still to come; the program lets some of them happen wherever it
 could be overtaken.
 */
module MokuroBuild {
  import opened MokuroSpec

  lemma PauseInv(s: State, env: Env, leftovers: set<string>, pending: seq<Write>, n: nat)
    requires Inv(s, env, leftovers) && DistinctTimes(s.history, pending) && n <= |pending|
    ensures var h := WrittenAll(s.history, pending[..n]);
            && Inv(s.(history := h), env, leftovers) && DistinctTimes(h, pending[n..])
            && s.history.Keys <= h.Keys && DistinctTimes(s.history, pending[..n])
            && (n == 0 ==> h == s.history)
  {
    WritesSplit(s.history, pending, n);
    WritesExtend(s.history, pending[..n]);
    WritesInv(s, env, leftovers, WrittenAll(s.history, pending[..n]));
  }

  lemma InvCounts(s: State, env: Env, leftovers: set<string>)
    requires Inv(s, env, leftovers)
    ensures s.ok + s.fail == |s.attempts|
  {
  }

  lemma VisitSkips(s: State, env: Env, name: string)
    requires Versions(s.history, name) != []
    requires !IsMokuro(name, Last(s.history[name])) || !Changed(s, name)
    ensures Visit(s, env, name, []) == s
  {
  }

  lemma VisitReads(s: State, env: Env, name: string, between: seq<Write>)
    requires Versions(s.history, name) != [] && IsMokuro(name, Last(s.history[name])) && Changed(s, name)
    requires Versions(WrittenAll(s.history, between), name) != []
    ensures var t, h := Visit(s, env, name, between), WrittenAll(s.history, between);
            var content := Last(h[name]).content;
            if !env.parses(content) then t == s.(history := h)
            else
              && t.history == h && t.recorded == s.recorded[name := Last(s.history[name]).mtime]
              && var built := env.builds(content, |s.attempts|);
              && t.ok == (if built then s.ok + 1 else s.ok) && t.fail == (if built then s.fail else s.fail + 1)
  {
  }

  lemma SnapshotInv(s: State, env: Env, leftovers: set<string>, recorded: map<string, int>)
    requires Inv(s, env, {}) && s.attempts == [] && recorded.Keys == leftovers
    requires forall n :: n in leftovers ==> n in s.history && s.history[n] != [] && recorded[n] == s.history[n][0].mtime
    ensures Inv(s.(recorded := recorded), env, leftovers)
  {
  }

  class Converter {
    const env: Env
    /** The mokuro directory, with the ghost of all its past. */
    var disk: map<string, File>
    var builtMTime: map<string, int>
    var ok: nat
    var fail: nat
    /** What mokuro will still write, and how many writes happen at each pause. */
    var pending: seq<Write>
    var pace: seq<nat>
    ghost var state: State

    constructor (env: Env, disk: map<string, File>, pending: seq<Write>, pace: seq<nat>)
      requires DistinctTimes(map n | n in disk :: [disk[n]], pending)
      ensures this.env == env && this.disk == disk && this.pending == pending
      ensures builtMTime == map[] && Valid({})
      ensures state == State(map n | n in disk :: [disk[n]], map[], [], 0, 0)
    {
      this.env, this.disk, this.pending, this.pace := env, disk, pending, pace;
      builtMTime, ok, fail := map[], 0, 0;
      state := State(map n | n in disk :: [disk[n]], map[], [], 0, 0);
    }

    /** The fields show the abstract state. */
    ghost predicate Shows()
      reads this
    {
      && disk.Keys == state.history.Keys
      && (forall n :: n in disk ==> state.history[n] != [] && Last(state.history[n]) == disk[n])
      && builtMTime == state.recorded && ok == state.ok && fail == state.fail
    }

    ghost predicate Valid(leftovers: set<string>)
      reads this
    {
      Shows() && Inv(state, env, leftovers) && DistinctTimes(state.history, pending)
    }

    /** Mokuro runs for a while. */
    method Pause(ghost leftovers: set<string>) returns (ghost written: seq<Write>)
      requires Valid(leftovers)
      modifies this`disk, this`pending, this`pace, this`state
      ensures Valid(leftovers) && old(disk).Keys <= disk.Keys
      ensures old(pending) == written + pending && DistinctTimes(old(state).history, written)
      ensures state == old(state).(history := WrittenAll(old(state).history, written))
      ensures written == [] ==> state == old(state)
    {
      hide Inv, DistinctTimes, WrittenAll;
      var n := if pace == [] then 0 else pace[0];
      if pace != [] { pace := pace[1..]; }
      if n > |pending| { n := |pending|; }
      written := Proceed(n);
      PauseInv(old(state), env, leftovers, old(pending), n);
    }

    /** Mokuro makes its next n writes. */
    method Proceed(n: nat) returns (ghost written: seq<Write>)
      requires Shows() && n <= |pending|
      modifies this`disk, this`pending, this`state
      ensures Shows() && written == old(pending)[..n] && pending == old(pending)[n..]
      ensures state == old(state).(history := WrittenAll(old(state).history, written))
    {
      written := pending[..n];
      var k := 0;
      while k < n
        invariant 0 <= k <= n && pending == old(pending)[k..] && Shows()
        invariant state == old(state).(history := state.history)
        invariant WrittenAll(state.history, old(pending)[k..n]) == WrittenAll(old(state).history, written)
      {
        var w := pending[0];
        assert old(pending)[k..n][0] == w && old(pending)[k..n][1..] == old(pending)[k + 1..n];
        disk := disk[w.name := w.file];
        state := state.(history := Written(state.history, w));
        pending := pending[1..];
        k := k + 1;
      }
    }

    /** os.ReadDir: every name, once. */
    method ReadDir() returns (names: seq<string>)
      ensures forall n :: n in names <==> n in disk
      ensures forall i, j :: 0 <= i < j < |names| ==> names[i] != names[j]
    {
      names := [];
      var rest := disk.Keys;
      while rest != {}
        invariant forall n :: n in names || n in rest <==> n in disk
        invariant forall n :: n in names ==> n !in rest
        invariant forall i, j :: 0 <= i < j < |names| ==> names[i] != names[j]
      {
        var n :| n in rest;
        names := names + [n];
        rest := rest - {n};
      }
    }

    /** The timestamps of the .mokuro files already there. */
    method SnapshotMokuroMTimes() returns (m: map<string, int>)
      ensures m.Keys == set n | n in disk && IsMokuro(n, disk[n])
      ensures forall n :: n in m ==> m[n] == disk[n].mtime
    {
      hide IsMokuro;
      m := map[];
      var names := ReadDir();
      for i := 0 to |names|
        invariant forall n :: n in m <==> n in names[..i] && IsMokuro(n, disk[n])
        invariant forall n :: n in m ==> m[n] == disk[n].mtime
      {
        assert names[..i + 1] == names[..i] + [names[i]];
        var n := names[i];
        if IsMokuro(n, disk[n]) { m := m[n := disk[n].mtime]; }
      }
    }

    /** One pass over the directory. */
    method BuildEPUBsForNewMokuroFiles(ghost leftovers: set<string>)
      requires Valid(leftovers)
      modifies this`disk, this`builtMTime, this`ok, this`fail, this`pending, this`pace, this`state
      ensures Valid(leftovers)
      ensures old(pending) == [] ==> pending == [] && state.history == old(state).history
                                     && forall n :: n in disk ==> Settled(state, env, n)
    {
      hide Inv, DistinctTimes, Settled;
      var names := ReadDir();
      for i := 0 to |names|
        invariant Valid(leftovers)
        invariant forall n :: n in names ==> n in disk
        invariant old(pending) == [] ==> pending == [] && state.history == old(state).history
                                         && forall n :: n in names[..i] ==> Settled(state, env, n)
      {
        ghost var seen, between := BuildOne(leftovers, names[i]);
        if old(pending) == [] {
          forall n | n in names[..i + 1] ensures Settled(state, env, n) {
            VisitSettles(seen, env, names[i], n);
          }
        }
      }
    }

    /** One round: stat, compare, parse, record, build. */
    method BuildOne(ghost leftovers: set<string>, name: string) returns (ghost seen: State, ghost between: seq<Write>)
      requires Valid(leftovers) && name in disk
      modifies this`disk, this`builtMTime, this`ok, this`fail, this`pending, this`pace, this`state
      ensures Valid(leftovers) && old(disk).Keys <= disk.Keys
      ensures state == Visit(seen, env, name, between) && seen == old(state).(history := seen.history)
      ensures old(pending) == [] ==> seen == old(state) && between == [] == pending
    {
      hide Inv, DistinctTimes, IsMokuro, Visit, WrittenAll;
      between := Pause(leftovers);
      seen, between := state, [];
      var info := disk[name];
      if !IsMokuro(name, info) || (name in builtMTime && builtMTime[name] == info.mtime) {
        VisitSkips(seen, env, name);
        return;
      }
      between := ParseAndBuild(leftovers, name, info.mtime);
    }

    /** Parses a changed file, which mokuro may have rewritten since its stat, records the stat and builds. */
    method ParseAndBuild(ghost leftovers: set<string>, name: string, mtime: int) returns (ghost between: seq<Write>)
      requires Valid(leftovers) && name in disk
      requires IsMokuro(name, disk[name]) && Changed(state, name) && mtime == disk[name].mtime
      modifies this`disk, this`builtMTime, this`ok, this`fail, this`pending, this`pace, this`state
      ensures Valid(leftovers) && old(disk).Keys <= disk.Keys
      ensures state == Visit(old(state), env, name, between) && old(pending) == between + pending
    {
      hide Inv, DistinctTimes, IsMokuro, Visit, WrittenAll;
      ghost var seen := state;
      between := Pause(leftovers);
      VisitReads(seen, env, name, between);
      var read := disk[name];
      if !env.parses(read.content) { return; }
      InvCounts(state, env, leftovers);
      VisitInv(seen, env, leftovers, name, between);
      builtMTime := builtMTime[name := mtime];
      var built := env.builds(read.content, ok + fail);
      if built { ok := ok + 1; } else { fail := fail + 1; }
      state := Visit(seen, env, name, between);
    }

    /** Builds what is new at every tick, and once more after mokuro has exited. */
    method Convert(ticks: nat) returns (ghost leftovers: set<string>)
      requires Valid({}) && builtMTime == map[] && state.attempts == []
      requires forall n :: n in disk ==> |state.history[n]| == 1
      modifies this
      ensures leftovers == set n | n in old(disk) && IsMokuro(n, old(disk)[n])
      ensures Valid(leftovers) && pending == []
      ensures forall n :: n in disk && IsMokuro(n, disk[n]) && env.parses(disk[n].content) ==>
                WellBuilt(state, leftovers, n)
    {
      hide Inv, DistinctTimes, IsMokuro, WellBuilt, Settled;
      builtMTime := SnapshotMokuroMTimes();
      leftovers := builtMTime.Keys;
      SnapshotInv(state, env, leftovers, builtMTime);
      state := state.(recorded := builtMTime);
      for t := 0 to ticks
        invariant Valid(leftovers)
      {
        ghost var written := Pause(leftovers);
        BuildEPUBsForNewMokuroFiles(leftovers);
      }
      Exit(leftovers);
      BuildEPUBsForNewMokuroFiles(leftovers);
      forall n | n in disk && IsMokuro(n, disk[n]) && env.parses(disk[n].content)
        ensures WellBuilt(state, leftovers, n)
      {
        SettledIsWellBuilt(state, env, leftovers, n);
      }
    }

    /** Mokuro makes its remaining writes and exits. */
    method Exit(ghost leftovers: set<string>)
      requires Valid(leftovers)
      modifies this`disk, this`pending, this`state
      ensures Valid(leftovers) && pending == []
    {
      hide Inv, DistinctTimes, WrittenAll;
      PauseInv(state, env, leftovers, pending, |pending|);
      ghost var written := Proceed(|pending|);
    }
  }
}
