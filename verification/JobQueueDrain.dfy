/**
 Claiming and draining: the queue always has an oldest claimable row to offer, every claim or
 finished conversion uses up one unit of a measure, and a queue left alone runs dry.
 */
module JobQueueDrain {
  import opened Wrappers
  import opened JobQueueSpec
  import opened JobQueueProofs

  function WithStatus(rows: Rows, st: Status): set<nat> {
    set id | id in rows && rows[id].status == st
  }

  /** Twice the waiting rows plus the running ones. */
  function Measure(rows: Rows): nat {
    2 * |WithStatus(rows, Pending)| + |WithStatus(rows, Running)|
  }

  /* ---- claiming ---- */

  /** Whenever some row is claimable there is an oldest one. */
  lemma OldestExists(rows: Rows)
    requires exists id :: id in rows && Claimable(rows, id)
    ensures exists id :: id in rows && Oldest(rows, id)
  {
    var ids := set id | id in rows && Claimable(rows, id);
    var some :| some in rows && Claimable(rows, some);
    assert some in ids;
    var id := Earliest(rows, ids);
    assert Oldest(rows, id);
  }

  lemma {:induction false} Earliest(rows: Rows, ids: set<nat>) returns (id: nat)
    requires ids != {} && ids <= rows.Keys
    ensures id in ids && forall j :: j in ids ==> rows[id].createdAt <= rows[j].createdAt
  {
    var first :| first in ids;
    var rest := ids - {first};
    id := first;
    assert forall j :: j in ids ==> j == first || j in rest;
    if rest != {} {
      var k := Earliest(rows, rest);
      if rows[k].createdAt < rows[first].createdAt {
        id := k;
      }
    }
  }

  /** The row claimed is an oldest waiting row of its book, which had no row running. */
  lemma ClaimTakesOldestOfBook(rows: Rows, id: nat)
    requires Oldest(rows, id)
    ensures forall j :: j in rows && SameBook(rows[j], rows[id]) ==> rows[j].status != Running
    ensures forall j :: j in rows && rows[j].status == Pending && SameBook(rows[j], rows[id]) ==>
              rows[id].createdAt <= rows[j].createdAt
  {
    forall j | j in rows && rows[j].status == Pending && SameBook(rows[j], rows[id])
      ensures rows[id].createdAt <= rows[j].createdAt
    {
      assert !Blocked(rows, j);
      assert Claimable(rows, j);
    }
  }

  /** What draining makes of a table: one oldest row of each book with none running now runs. */
  ghost predicate Drained(rows: Rows, rows': Rows) {
    && rows'.Keys == rows.Keys
    && (forall id :: id in rows ==> rows'[id] == rows[id] || IsClaim(rows, rows', id))
    && (forall id :: id in rows && IsClaim(rows, rows', id) ==> FirstOfBook(rows, id))
    && (forall i, j :: i in rows && j in rows && i != j && IsClaim(rows, rows', i) && IsClaim(rows, rows', j) ==>
          !SameBook(rows[i], rows[j]))
  }

  predicate IsClaim(rows: Rows, rows': Rows, id: nat)
    requires id in rows && id in rows'
  {
    rows[id].status == Pending && rows'[id] == ClaimRow(rows[id])
  }

  predicate FirstOfBook(rows: Rows, id: nat)
    requires id in rows
  {
    !Blocked(rows, id) && forall j :: j in rows && rows[j].status == Pending && SameBook(rows[j], rows[id]) ==>
      rows[id].createdAt <= rows[j].createdAt
  }

  lemma DrainedSelf(rows: Rows)
    ensures Drained(rows, rows)
  {
  }

  lemma DrainStep(rows: Rows, mid: Rows, id: nat)
    requires Drained(rows, mid) && Oldest(mid, id)
    ensures Drained(rows, mid[id := ClaimRow(mid[id])])
  {
    var rows' := mid[id := ClaimRow(mid[id])];
    forall j | j in rows && j != id && IsClaim(rows, mid, j) ensures !SameBook(rows[j], rows[id]) {
      assert mid[j].status == Running;
      assert SameBook(mid[j], rows[j]) && SameBook(mid[id], rows[id]);
    }
    BookUntouched(rows, mid, id);
    assert forall j :: j in rows && j != id ==> (IsClaim(rows, rows', j) <==> IsClaim(rows, mid, j));
  }

  /** No row of a claimable row's book was claimed before, so the book is still as it was. */
  lemma BookUntouched(rows: Rows, mid: Rows, id: nat)
    requires Drained(rows, mid) && Oldest(mid, id)
    ensures FirstOfBook(rows, id) && mid[id] == rows[id]
  {
    ClaimTakesOldestOfBook(mid, id);
    assert mid[id] == rows[id];
    forall j | j in rows && SameBook(rows[j], rows[id]) ensures mid[j] == rows[j] {
      if IsClaim(rows, mid, j) {
        assert mid[j].status == Running && SameBook(mid[j], mid[id]);
      }
    }
  }

  /* ---- the measure ---- */

  lemma ClaimMeasure(s: State, id: nat)
    requires Claimable(s.rows, id)
    ensures Measure(Claim(s, id).rows) == Measure(s.rows) - 1
  {
    var rows' := Claim(s, id).rows;
    assert WithStatus(s.rows, Pending) == WithStatus(rows', Pending) + {id};
    assert WithStatus(rows', Running) == WithStatus(s.rows, Running) + {id};
  }

  lemma FinishMeasure(s: State, id: nat, ok: nat, fail: nat, err: Option<string>)
    requires id in s.live && id in s.rows && s.rows[id].status == Running
    ensures Measure(Finish(s, id, ok, fail, err).rows) == Measure(s.rows) - 1
  {
    hide Finish;
    FinishRows(s, id, ok, fail, err);
    var rows' := Finish(s, id, ok, fail, err).rows;
    assert WithStatus(rows', Pending) == WithStatus(s.rows, Pending);
    assert WithStatus(s.rows, Running) == WithStatus(rows', Running) + {id};
  }

  /** Claims and ends of conversions: what the worker does when nobody interferes. */
  predicate Quiet(e: Event) {
    e.Claimed? || e.Finished?
  }

  ghost predicate CanGoOn(s: State) {
    exists e :: Quiet(e) && Enabled(s, e)
  }

  /** No row is paused and no conversion was told to pause. */
  ghost predicate NoPauses(s: State) {
    && (forall id :: id in s.rows ==> s.rows[id].status != Paused)
    && (forall id :: id in s.live ==> !s.live[id].pauseTriggered)
  }

  lemma QuietStep(s: State, e: Event)
    requires Inv(s) && Quiet(e) && Enabled(s, e)
    ensures Measure(Step(s, e).rows) == Measure(s.rows) - 1
    ensures Step(s, e).up == s.up && Step(s, e).rows.Keys == s.rows.Keys
    ensures NoPauses(s) ==> NoPauses(Step(s, e))
  {
    match e
    case Claimed(id) => ClaimMeasure(s, id);
    case Finished(id, ok, fail, err) =>
      LiveFacts(s, id);
      FinishMeasure(s, id, ok, fail, err);
      QuietFinish(s, id, ok, fail, err);
  }

  lemma QuietFinish(s: State, id: nat, ok: nat, fail: nat, err: Option<string>)
    requires id in s.live && id in s.rows
    ensures Finish(s, id, ok, fail, err).up == s.up && Finish(s, id, ok, fail, err).rows.Keys == s.rows.Keys
    ensures NoPauses(s) ==> NoPauses(Finish(s, id, ok, fail, err))
  {
    hide Finish, FailureText;
    FinishParts(s, id, ok, fail, err);
  }

  /** As long as a row waits or runs, the worker has something to do. */
  lemma WorkRemains(s: State)
    requires Inv(s) && s.up
    requires exists id :: id in s.rows && (s.rows[id].status == Pending || s.rows[id].status == Running)
    ensures CanGoOn(s)
  {
    if id :| id in s.rows && s.rows[id].status == Running {
      assert Enabled(s, Finished(id, 0, 0, None)) && Quiet(Finished(id, 0, 0, None));
    } else {
      var id :| id in s.rows && s.rows[id].status == Pending;
      assert Claimable(s.rows, id);
      OldestExists(s.rows);
      var k :| k in s.rows && Oldest(s.rows, k);
      assert Enabled(s, Claimed(k)) && Quiet(Claimed(k));
    }
  }

  lemma {:induction false} QuietRun(ss: seq<State>, es: seq<Event>, k: nat)
    requires IsRun(ss, es) && Inv(ss[0]) && k < |ss|
    requires forall i :: 0 <= i < |es| ==> Quiet(es[i])
    ensures Inv(ss[k]) && Measure(ss[k].rows) == Measure(ss[0].rows) - k
    ensures ss[k].up == ss[0].up && ss[k].rows.Keys == ss[0].rows.Keys
    ensures NoPauses(ss[0]) ==> NoPauses(ss[k])
  {
    hide Inv, Step, Enabled, Measure, NoPauses;
    if k > 0 {
      QuietRun(ss, es, k - 1);
      QuietStep(ss[k - 1], es[k - 1]);
      StepInv(ss[k - 1], es[k - 1]);
    }
  }

  /** A queue left to the worker runs dry: no sequence of claims and finished conversions is longer
      than the measure, and one that cannot go on leaves no row waiting or running; without pauses
      it leaves every row done, failed or stopped. */
  lemma QueueRunsDry(ss: seq<State>, es: seq<Event>)
    requires IsRun(ss, es) && Inv(ss[0]) && ss[0].up
    requires forall i :: 0 <= i < |es| ==> Quiet(es[i])
    ensures |es| <= Measure(ss[0].rows)
    ensures var last := ss[|es|];
            !CanGoOn(last) ==>
              && |es| == Measure(ss[0].rows)
              && last.rows.Keys == ss[0].rows.Keys
              && (forall id :: id in last.rows ==> last.rows[id].status != Pending && last.rows[id].status != Running)
              && (NoPauses(ss[0]) ==> forall id :: id in last.rows ==> Terminal(last.rows[id]))
  {
    hide Inv, Step, Enabled, CanGoOn;
    QuietRun(ss, es, |es|);
    var last := ss[|es|];
    if !CanGoOn(last) {
      forall id | id in last.rows ensures last.rows[id].status != Pending && last.rows[id].status != Running {
        if last.rows[id].status == Pending || last.rows[id].status == Running {
          WorkRemains(last);
        }
      }
      assert WithStatus(last.rows, Pending) == {} && WithStatus(last.rows, Running) == {};
    }
  }

  /** Without agreement on folders the scan can run beside a claimed row: a volume added to a
      book is converting while the scan starts the book's own folder. */
  lemma ScanMayDoubleABook() returns (ss: seq<State>, es: seq<Event>)
    ensures IsRun(ss, es) && ss[0] == Init
    ensures var s := ss[|es|];
            && 0 in s.rows && 1 in s.rows && s.rows[0].status == Running && s.rows[1].status == Running
            && SameBook(s.rows[0], s.rows[1]) && s.rows[0].input != s.rows[1].input
  {
    es := [Restarted, Uploaded(true, "lib", "book", "book-add-1-in", "book", 0), Claimed(0),
           Scanned("lib", "book", "book-in", "book", true, true, 1)];
    var s1 := Step(Init, es[0]);
    var s2 := Step(s1, es[1]);
    assert s2.rows.Keys == {0};
    assert Oldest(s2.rows, 0);
    var s3 := Step(s2, es[2]);
    assert s3.rows.Keys == {0};
    assert !PathTracked(s3.rows, "book-in") by {
      assert "book-add-1-in" != "book-in" by { assert |"book-add-1-in"| != |"book-in"|; }
    }
    var s4 := Step(s3, es[3]);
    ss := [Init, s1, s2, s3, s4];
  }
}
