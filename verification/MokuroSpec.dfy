/**
 converter/convert.go: building an EPUB from each finished .mokuro file while mokuro still writes
 them, as a machine on values.

 Writes may fall anywhere, also between the moment a file's timestamp is read and the moment the
 file itself is. Every write gives its file a timestamp the file never had before.
 */
module MokuroSpec {

  datatype File = File(isDir: bool, mtime: int, content: string)

  datatype Write = Write(name: string, file: File)

  /** A build: the version whose timestamp was recorded and the version that was parsed. */
  datatype Attempt = Attempt(name: string, stamp: nat, read: nat, built: bool)

  /** parseMokuroFile succeeds; buildEPUB succeeds, at its nth call. */
  datatype Env = Env(parses: string -> bool, builds: (string, nat) -> bool)

  /** history holds all versions a file ever had, the current one last. */
  datatype State = State(history: map<string, seq<File>>, recorded: map<string, int>, attempts: seq<Attempt>,
                         ok: nat, fail: nat)

  predicate IsMokuro(name: string, f: File) {
    !f.isDir && |name| >= 7 && name[|name| - 7..] == ".mokuro"
  }

  /** The files looked at are those, not directories, whose names end in .mokuro. */
  lemma MokuroName(stem: string, f: File)
    ensures IsMokuro(stem + ".mokuro", f) <==> !f.isDir
    ensures forall name :: IsMokuro(name, f) ==> !f.isDir && exists s: string :: name == s + ".mokuro"
  {
    forall name | IsMokuro(name, f) ensures exists s: string :: name == s + ".mokuro" {
      assert name == name[..|name| - 7] + ".mokuro";
    }
  }

  function Last<T>(s: seq<T>): T
    requires s != []
  {
    s[|s| - 1]
  }

  function Versions(h: map<string, seq<File>>, name: string): seq<File> {
    if name in h then h[name] else []
  }

  function Written(h: map<string, seq<File>>, w: Write): map<string, seq<File>> {
    h[w.name := Versions(h, w.name) + [w.file]]
  }

  function WrittenAll(h: map<string, seq<File>>, ws: seq<Write>): map<string, seq<File>>
    decreases |ws|
  {
    if ws == [] then h else WrittenAll(Written(h, ws[0]), ws[1..])
  }

  /** No write reuses a timestamp of its file. */
  predicate DistinctTimes(h: map<string, seq<File>>, ws: seq<Write>)
    decreases |ws|
  {
    ws == [] ||
    (&& (forall i :: 0 <= i < |Versions(h, ws[0].name)| ==> Versions(h, ws[0].name)[i].mtime != ws[0].file.mtime)
     && DistinctTimes(Written(h, ws[0]), ws[1..]))
  }

  /** The timestamp differs from the recorded one. */
  predicate Changed(s: State, name: string)
    requires name in s.history && s.history[name] != []
  {
    name in s.recorded ==> s.recorded[name] != Last(s.history[name]).mtime
  }

  /** One round of the loop over the directory, with the writes between stat and parse. */
  function Visit(s: State, env: Env, name: string, between: seq<Write>): State {
    if Versions(s.history, name) == [] || !IsMokuro(name, Last(s.history[name])) || !Changed(s, name) then s
    else
      var stamp := |s.history[name]| - 1;
      var h := WrittenAll(s.history, between);
      if Versions(h, name) == [] || !env.parses(Last(h[name]).content) then s.(history := h)
      else
        var built := env.builds(Last(h[name]).content, |s.attempts|);
        State(h, s.recorded[name := s.history[name][stamp].mtime],
              s.attempts + [Attempt(name, stamp, |h[name]| - 1, built)],
              if built then s.ok + 1 else s.ok, if built then s.fail else s.fail + 1)
  }

  /** The place of the latest attempt at a file, or -1. */
  function LastIndex(attempts: seq<Attempt>, name: string): (k: int)
    ensures -1 <= k < |attempts|
    ensures k >= 0 ==> attempts[k].name == name
    ensures forall i :: k < i < |attempts| ==> attempts[i].name != name
  {
    if attempts == [] then -1
    else if Last(attempts).name == name then |attempts| - 1
    else LastIndex(attempts[..|attempts| - 1], name)
  }

  function Built(attempts: seq<Attempt>): nat {
    if attempts == [] then 0 else Built(attempts[..|attempts| - 1]) + if Last(attempts).built then 1 else 0
  }

  /* ---- what every run keeps ---- */

  ghost predicate Times(h: map<string, seq<File>>) {
    forall n :: n in h ==> h[n] != [] && forall i, j :: 0 <= i < j < |h[n]| ==> h[n][i].mtime != h[n][j].mtime
  }

  /** Attempts are at versions that exist, and those at one file move forward. */
  ghost predicate Forward(s: State, env: Env) {
    && (forall i :: 0 <= i < |s.attempts| ==>
          var a := s.attempts[i];
          && a.name in s.history && a.stamp <= a.read < |s.history[a.name]|
          && env.parses(s.history[a.name][a.read].content)
          && a.built == env.builds(s.history[a.name][a.read].content, i))
    && (forall i, j :: 0 <= i < j < |s.attempts| && s.attempts[i].name == s.attempts[j].name ==>
          s.attempts[i].read <= s.attempts[j].stamp && s.attempts[i].stamp < s.attempts[j].stamp)
  }

  /** A file's record is that of its latest attempt, or else of the snapshot. */
  ghost predicate Recorded(s: State, leftovers: set<string>) {
    forall n :: n in s.recorded || LastIndex(s.attempts, n) >= 0 ==> RecordOf(s, leftovers, n)
  }

  ghost predicate RecordOf(s: State, leftovers: set<string>, n: string) {
    && n in s.recorded && n in s.history
    && var k := LastIndex(s.attempts, n);
    && (k < 0 ==> n in leftovers)
    && var i := if k < 0 then 0 else s.attempts[k].stamp;
    && i < |s.history[n]| && s.recorded[n] == s.history[n][i].mtime
  }

  /** A file that lay there before the run is attempted only after a rewrite. */
  ghost predicate LeftoversSpared(s: State, leftovers: set<string>) {
    && (forall n :: n in leftovers ==> n in s.recorded)
    && (forall i :: 0 <= i < |s.attempts| && s.attempts[i].name in leftovers ==> s.attempts[i].stamp > 0)
  }

  ghost predicate Inv(s: State, env: Env, leftovers: set<string>) {
    && Times(s.history) && Forward(s, env) && Recorded(s, leftovers) && LeftoversSpared(s, leftovers)
    && s.ok == Built(s.attempts) && s.ok + s.fail == |s.attempts|
  }

  /** h2 has every version of h, and perhaps later ones. */
  ghost predicate Extends(h: map<string, seq<File>>, h2: map<string, seq<File>>) {
    forall n :: n in h ==> n in h2 && h[n] <= h2[n]
  }

  lemma {:induction false} WritesExtend(h: map<string, seq<File>>, ws: seq<Write>)
    requires Times(h) && DistinctTimes(h, ws)
    ensures Times(WrittenAll(h, ws)) && Extends(h, WrittenAll(h, ws))
    decreases |ws|
  {
    if ws != [] {
      WriteExtends(h, ws[0]);
      WritesExtend(Written(h, ws[0]), ws[1..]);
    }
  }

  lemma WriteExtends(h: map<string, seq<File>>, w: Write)
    requires Times(h)
    requires forall i :: 0 <= i < |Versions(h, w.name)| ==> Versions(h, w.name)[i].mtime != w.file.mtime
    ensures Times(Written(h, w)) && Extends(h, Written(h, w))
  {
  }

  lemma {:induction false} WritesSplit(h: map<string, seq<File>>, ws: seq<Write>, k: nat)
    requires k <= |ws|
    ensures WrittenAll(h, ws) == WrittenAll(WrittenAll(h, ws[..k]), ws[k..])
    ensures DistinctTimes(h, ws) <==> DistinctTimes(h, ws[..k]) && DistinctTimes(WrittenAll(h, ws[..k]), ws[k..])
    decreases |ws|
  {
    if k > 0 {
      assert ws[..k][0] == ws[0] && ws[..k][1..] == ws[1..][..k - 1] && ws[1..][k - 1..] == ws[k..];
      WritesSplit(Written(h, ws[0]), ws[1..], k - 1);
    } else {
      assert ws[..0] == [] && ws[0..] == ws;
    }
  }

  lemma WritesInv(s: State, env: Env, leftovers: set<string>, h: map<string, seq<File>>)
    requires Inv(s, env, leftovers) && Times(h) && Extends(s.history, h)
    ensures Inv(s.(history := h), env, leftovers)
  {
    hide LastIndex, Built, Times;
    var t := s.(history := h);
    forall i | 0 <= i < |t.attempts|
      ensures var a := t.attempts[i];
              && a.name in h && a.stamp <= a.read < |h[a.name]| && env.parses(h[a.name][a.read].content)
              && a.built == env.builds(h[a.name][a.read].content, i)
    {
      assert h[s.attempts[i].name][s.attempts[i].read] == s.history[s.attempts[i].name][s.attempts[i].read];
    }
    forall n | RecordOf(s, leftovers, n) ensures RecordOf(t, leftovers, n) {
      assert s.history[n] <= h[n];
    }
  }

  lemma LastAfter(attempts: seq<Attempt>, a: Attempt, n: string)
    ensures LastIndex(attempts + [a], n) == if n == a.name then |attempts| else LastIndex(attempts, n)
  {
  }

  /** A version the record does not name is later than every attempted stamp. */
  lemma StampsBelow(s: State, env: Env, leftovers: set<string>, name: string, stamp: nat)
    requires Forward(s, env) && Recorded(s, leftovers) && LeftoversSpared(s, leftovers)
    requires name in s.history && stamp < |s.history[name]|
    requires forall i :: 0 <= i < |s.attempts| && s.attempts[i].name == name ==> s.attempts[i].read <= stamp
    requires name in s.recorded ==> s.recorded[name] != s.history[name][stamp].mtime
    ensures forall i :: 0 <= i < |s.attempts| && s.attempts[i].name == name ==> s.attempts[i].stamp < stamp
    ensures name in leftovers ==> stamp > 0
  {
    hide LastIndex;
    var k := LastIndex(s.attempts, name);
    if k >= 0 || name in s.recorded {
      assert RecordOf(s, leftovers, name);
    }
    if k >= 0 {
      assert s.attempts[k].stamp < stamp;
    }
  }

  function Attempted(s: State, a: Attempt): State
    requires a.name in s.history && a.stamp < |s.history[a.name]|
  {
    State(s.history, s.recorded[a.name := s.history[a.name][a.stamp].mtime], s.attempts + [a],
          if a.built then s.ok + 1 else s.ok, if a.built then s.fail else s.fail + 1)
  }

  lemma AttemptForward(s: State, env: Env, a: Attempt)
    requires Forward(s, env)
    requires a.name in s.history && a.stamp <= a.read < |s.history[a.name]|
    requires env.parses(s.history[a.name][a.read].content)
    requires a.built == env.builds(s.history[a.name][a.read].content, |s.attempts|)
    requires forall i :: 0 <= i < |s.attempts| && s.attempts[i].name == a.name ==>
               s.attempts[i].read <= a.stamp && s.attempts[i].stamp < a.stamp
    ensures Forward(Attempted(s, a), env)
  {
  }

  lemma AttemptRecorded(s: State, leftovers: set<string>, a: Attempt)
    requires Recorded(s, leftovers) && a.name in s.history && a.stamp < |s.history[a.name]|
    ensures Recorded(Attempted(s, a), leftovers)
  {
    hide LastIndex;
    var t := Attempted(s, a);
    forall n | n in t.recorded || LastIndex(t.attempts, n) >= 0 ensures RecordOf(t, leftovers, n) {
      LastAfter(s.attempts, a, n);
      assert n == a.name || RecordOf(s, leftovers, n);
    }
  }

  /** The round of the loop that builds: the stat saw a version the record does not name. */
  lemma AttemptInv(s: State, env: Env, leftovers: set<string>, a: Attempt)
    requires Inv(s, env, leftovers) && a.name in s.history && a.stamp <= a.read == |s.history[a.name]| - 1
    requires forall i :: 0 <= i < |s.attempts| && s.attempts[i].name == a.name ==> s.attempts[i].read <= a.stamp
    requires a.name in s.recorded ==> s.recorded[a.name] != s.history[a.name][a.stamp].mtime
    requires env.parses(Last(s.history[a.name]).content)
    requires a.built == env.builds(Last(s.history[a.name]).content, |s.attempts|)
    ensures Inv(Attempted(s, a), env, leftovers)
  {
    hide LastIndex, Times, Forward, Recorded;
    StampsBelow(s, env, leftovers, a.name, a.stamp);
    AttemptForward(s, env, a);
    AttemptRecorded(s, leftovers, a);
    assert (s.attempts + [a])[..|s.attempts|] == s.attempts;
  }

  /** Every round keeps the invariant, whatever is written meanwhile. */
  lemma VisitInv(s: State, env: Env, leftovers: set<string>, name: string, between: seq<Write>)
    requires Inv(s, env, leftovers) && DistinctTimes(s.history, between)
    ensures Inv(Visit(s, env, name, between), env, leftovers)
  {
    hide Forward, Recorded, LeftoversSpared, Built;
    var h := WrittenAll(s.history, between);
    WritesExtend(s.history, between);
    WritesInv(s, env, leftovers, h);
    var t := s.(history := h);
    if Versions(s.history, name) != [] && Changed(s, name) && env.parses(Last(h[name]).content) {
      var stamp := |s.history[name]| - 1;
      ReadsSoFar(s, env);
      assert h[name][stamp] == s.history[name][stamp];
      var built := env.builds(Last(h[name]).content, |s.attempts|);
      AttemptInv(t, env, leftovers, Attempt(name, stamp, |h[name]| - 1, built));
    }
  }

  lemma ReadsSoFar(s: State, env: Env)
    requires Forward(s, env)
    ensures forall i :: 0 <= i < |s.attempts| ==>
              s.attempts[i].name in s.history && s.attempts[i].read <= |s.history[s.attempts[i].name]| - 1
  {
  }

  /* ---- what the invariant says ---- */

  /** Two builds of one version of a file: a write fell between the first one's stat and its parse,
      and the second one's stat saw that very version. */
  lemma RepeatMeansRace(s: State, env: Env, leftovers: set<string>, i: nat, j: nat)
    requires Inv(s, env, leftovers) && i < j < |s.attempts|
    requires s.attempts[i].name == s.attempts[j].name && s.attempts[i].read == s.attempts[j].read
    ensures s.attempts[i].stamp < s.attempts[i].read == s.attempts[j].stamp
  {
  }

  ghost predicate BuiltTwice(attempts: seq<Attempt>, n: string, v: nat) {
    exists i, j :: 0 <= i < j < |attempts| && attempts[i].name == n == attempts[j].name
                   && attempts[i].read == v == attempts[j].read
  }

  /** An attempt whose stat saw an earlier version than the one it parsed. */
  ghost predicate Overtaken(attempts: seq<Attempt>, n: string, v: nat) {
    exists i :: 0 <= i < |attempts| && attempts[i].name == n && attempts[i].stamp < attempts[i].read == v
  }

  ghost predicate Undisturbed(attempts: seq<Attempt>, n: string, v: nat) {
    exists i :: 0 <= i < |attempts| && attempts[i].name == n && attempts[i].stamp == attempts[i].read == v
  }

  /** Any version of any file, at any time: it was built twice exactly when one attempt was overtaken by
      its write and another one was not disturbed. */
  lemma TwiceIffOvertakenAndNot(s: State, env: Env, leftovers: set<string>, n: string, v: nat)
    requires Inv(s, env, leftovers)
    ensures BuiltTwice(s.attempts, n, v) <==> Overtaken(s.attempts, n, v) && Undisturbed(s.attempts, n, v)
  {
    if BuiltTwice(s.attempts, n, v) {
      var i, j :| 0 <= i < j < |s.attempts| && s.attempts[i].name == n == s.attempts[j].name
                  && s.attempts[i].read == v == s.attempts[j].read;
      RepeatMeansRace(s, env, leftovers, i, j);
    }
    if Overtaken(s.attempts, n, v) && Undisturbed(s.attempts, n, v) {
      var i :| 0 <= i < |s.attempts| && s.attempts[i].name == n && s.attempts[i].stamp < s.attempts[i].read == v;
      var j :| 0 <= j < |s.attempts| && s.attempts[j].name == n && s.attempts[j].stamp == s.attempts[j].read == v;
      assert i < j || j < i;
    }
  }

  /** No version is built three times. */
  lemma AtMostTwice(s: State, env: Env, leftovers: set<string>, i: nat, j: nat, k: nat)
    requires Inv(s, env, leftovers) && i < j < k < |s.attempts|
    requires s.attempts[i].name == s.attempts[j].name == s.attempts[k].name
    ensures s.attempts[i].read < s.attempts[k].read
  {
  }

  /** If no write ever fell between a stat and its parse, no version is built twice. */
  lemma OnceWithoutRaces(s: State, env: Env, leftovers: set<string>, i: nat, j: nat)
    requires Inv(s, env, leftovers) && i < j < |s.attempts|
    requires forall a :: a in s.attempts ==> a.stamp == a.read
    requires s.attempts[i].name == s.attempts[j].name
    ensures s.attempts[i].read < s.attempts[j].read
  {
    assert s.attempts[i] in s.attempts && s.attempts[j] in s.attempts;
  }

  /** A file that was there before and was not rewritten is never built. */
  lemma UntouchedNotBuilt(s: State, env: Env, leftovers: set<string>, n: string)
    requires Inv(s, env, leftovers) && n in leftovers && n in s.history && |s.history[n]| == 1
    ensures forall a :: a in s.attempts ==> a.name != n
  {
  }

  /** Whether the record names the current version, for a file that could be built. */
  predicate Settled(s: State, env: Env, n: string) {
    Versions(s.history, n) != [] && IsMokuro(n, Last(s.history[n])) && env.parses(Last(s.history[n]).content) ==>
      n in s.recorded && s.recorded[n] == Last(s.history[n]).mtime
  }

  /** A round without writes settles its file and leaves settled files settled. */
  lemma VisitSettles(s: State, env: Env, name: string, n: string)
    requires n == name || Settled(s, env, n)
    ensures Settled(Visit(s, env, name, []), env, n)
    ensures Visit(s, env, name, []).history == s.history
  {
  }

  /** A settled file is an untouched leftover, or was last attempted from its final contents. */
  lemma SettledIsBuilt(s: State, env: Env, leftovers: set<string>, n: string)
    requires Inv(s, env, leftovers) && Settled(s, env, n)
    requires n in s.history && s.history[n] != [] && IsMokuro(n, Last(s.history[n]))
    requires env.parses(Last(s.history[n]).content)
    ensures var k := LastIndex(s.attempts, n);
            if k < 0 then n in leftovers && |s.history[n]| == 1
            else s.attempts[k].read == |s.history[n]| - 1
  {
    hide LastIndex;
    assert RecordOf(s, leftovers, n);
  }

  /** The final contents of a settled file were built twice exactly when their write overtook an attempt. */
  lemma FinalTwiceIffOvertaken(s: State, env: Env, leftovers: set<string>, n: string)
    requires Inv(s, env, leftovers) && Settled(s, env, n)
    requires n in s.history && s.history[n] != [] && IsMokuro(n, Last(s.history[n]))
    requires env.parses(Last(s.history[n]).content)
    ensures var v := |s.history[n]| - 1; BuiltTwice(s.attempts, n, v) <==> Overtaken(s.attempts, n, v)
  {
    hide LastIndex, BuiltTwice;
    var v := |s.history[n]| - 1;
    TwiceIffOvertakenAndNot(s, env, leftovers, n, v);
    if Overtaken(s.attempts, n, v) {
      assert RecordOf(s, leftovers, n);
      var k := LastIndex(s.attempts, n);
      assert s.attempts[k].name == n && s.attempts[k].stamp == s.attempts[k].read == v;
    }
  }

  /** What is promised of a file that parses when all is over: it is a leftover nobody wrote, or its last
      attempt was from its final contents; and these were built twice exactly if their write overtook one. */
  ghost predicate WellBuilt(s: State, leftovers: set<string>, n: string)
    requires n in s.history && s.history[n] != []
  {
    var k, v := LastIndex(s.attempts, n), |s.history[n]| - 1;
    && (if k < 0 then n in leftovers && v == 0 else s.attempts[k].read == v)
    && (BuiltTwice(s.attempts, n, v) <==> Overtaken(s.attempts, n, v))
  }

  lemma SettledIsWellBuilt(s: State, env: Env, leftovers: set<string>, n: string)
    requires Inv(s, env, leftovers) && Settled(s, env, n)
    requires n in s.history && s.history[n] != [] && IsMokuro(n, Last(s.history[n]))
    requires env.parses(Last(s.history[n]).content)
    ensures WellBuilt(s, leftovers, n)
  {
    SettledIsBuilt(s, env, leftovers, n);
    FinalTwiceIffOvertaken(s, env, leftovers, n);
  }

  lemma OneWrite(h: map<string, seq<File>>, w: Write)
    ensures WrittenAll(h, [w]) == Written(h, w)
    ensures DistinctTimes(h, [w]) <==>
              forall i :: 0 <= i < |Versions(h, w.name)| ==> Versions(h, w.name)[i].mtime != w.file.mtime
  {
    assert WrittenAll(Written(h, w), []) == Written(h, w);
  }

  /** The double build does occur: whenever a finished file is rewritten between the two, the next pass
      builds the same contents again. */
  lemma OvertakenBuildsRepeat(s: State, env: Env, name: string, w: Write)
    requires Times(s.history) && DistinctTimes(s.history, [w]) && w.name == name
    requires name in s.history && IsMokuro(name, Last(s.history[name])) && Changed(s, name)
    requires IsMokuro(name, w.file) && env.parses(w.file.content)
    ensures var n := |s.attempts|;
            var t := Visit(Visit(s, env, name, [w]), env, name, []);
            |t.attempts| == n + 2 && t.attempts[n].name == name == t.attempts[n + 1].name
            && t.attempts[n].read == t.attempts[n + 1].read
  {
    hide IsMokuro;
    OneWrite(s.history, w);
    var h := Written(s.history, w);
    var s1 := Visit(s, env, name, [w]);
    assert Last(h[name]) == w.file && |h[name]| == |s.history[name]| + 1;
    assert s1.history == h && |s1.attempts| == |s.attempts| + 1;
    assert Changed(s1, name);
  }
}
