/** A start that dies while it releases the open holds, and the starts after it: each open row's
    give-backs are written before the row is deleted. */
module TornStart {
  import opened Names
  import opened Ledger
  import opened LedgerSafety
  import opened Holds

  function Release(t: Tables): seq<Change> {
    ReleaseWrites(t.holds, Ascending(t.holds.Keys))
  }

  /** Every part of an open hold took something, as parts of a hold do. */
  predicate Filled(t: Tables) {
    forall id :: id in t.holds ==> forall i :: 0 <= i < |t.holds[id].parts| ==> t.holds[id].parts[i].took > 0
  }

  /** A hold is filled. */
  lemma HoldIsFilled(t: Tables, id: nat, acct: Acct, amount: nat, now: nat, b: Acct)
    requires Good(t) && Filled(t) && id !in t.holds && HoldWritesAs(t, id, acct, amount, now).Ok?
    ensures Filled(ApplyAll(t, HoldWritesAs(t, id, acct, amount, now).value))
  {
    hide Good, ApplyAll, HoldWritesAs, HoldParts, Total;
    HoldKeeps(t, id, acct, amount, now, b);
    HoldPartsStand(t, acct, amount, now);
  }

  predicate Rows(holds: map<nat, HoldRow>, ids: seq<nat>) {
    forall id :: id in ids ==> id in holds
  }

  /** The first `j` records of a release: how many rows they end, and how many parts of the next row
      they give back on top. */
  function Cut(holds: map<nat, HoldRow>, ids: seq<nat>, j: nat): (r: (nat, nat))
    requires Rows(holds, ids) && j <= |ReleaseWrites(holds, ids)|
    ensures r.0 <= |ids| && (r.1 > 0 ==> r.0 < |ids| && r.1 <= |holds[ids[r.0]].parts|)
  {
    if ids == [] then (0, 0)
    else
      var n := |ids| - 1;
      var before := |ReleaseWrites(holds, ids[..n])|;
      if j == |ReleaseWrites(holds, ids)| then (|ids|, 0)
      else if j > before then (n, j - before)
      else Cut(holds, ids[..n], j)
  }

  /** What those records of the next row give back. */
  function Spilled(holds: map<nat, HoldRow>, ids: seq<nat>, j: nat): seq<Part>
    requires Rows(holds, ids) && j <= |ReleaseWrites(holds, ids)|
  {
    var c := Cut(holds, ids, j);
    if c.1 == 0 then [] else holds[ids[c.0]].parts[..c.1]
  }

  function SpilledTo(holds: map<nat, HoldRow>, ids: seq<nat>, j: nat): Acct
    requires Rows(holds, ids) && j <= |ReleaseWrites(holds, ids)|
  {
    var c := Cut(holds, ids, j);
    if c.1 == 0 then "" else holds[ids[c.0]].acct
  }

  lemma {:induction false} CutIs(holds: map<nat, HoldRow>, ids: seq<nat>, j: nat)
    requires Rows(holds, ids) && j <= |ReleaseWrites(holds, ids)|
    ensures ReleaseWrites(holds, ids)[..j]
            == ReleaseWrites(holds, ids[..Cut(holds, ids, j).0]) + GiveBackAll(SpilledTo(holds, ids, j), Spilled(holds, ids, j))
    decreases |ids|
  {
    hide GiveBackAll;
    if ids == [] {
      NoParts("");
    } else {
      var n := |ids| - 1;
      var before := ReleaseWrites(holds, ids[..n]);
      if j == |ReleaseWrites(holds, ids)| {
        NoParts("");
        assert ids[..|ids|] == ids;
      } else if j > |before| {
        CutInTheLast(holds, ids, j);
      } else {
        CutIs(holds, ids[..n], j);
        assert ids[..n][..Cut(holds, ids[..n], j).0] == ids[..Cut(holds, ids[..n], j).0];
      }
    }
  }

  /** A tear inside the last row. */
  lemma CutInTheLast(holds: map<nat, HoldRow>, ids: seq<nat>, j: nat)
    requires Rows(holds, ids) && ids != [] && |ReleaseWrites(holds, ids[..|ids| - 1])| < j < |ReleaseWrites(holds, ids)|
    ensures var n := |ids| - 1;
            var before := ReleaseWrites(holds, ids[..n]);
            && Cut(holds, ids, j) == (n, j - |before|)
            && ReleaseWrites(holds, ids)[..j] == before + GiveBackAll(holds[ids[n]].acct, holds[ids[n]].parts[..j - |before|])
  {
    hide GiveBackAll;
    var n := |ids| - 1;
    var row := holds[ids[n]];
    var before, gives := ReleaseWrites(holds, ids[..n]), GiveBackAll(row.acct, row.parts);
    OneWriteAPart(row.acct, row.parts);
    FirstParts(row.acct, row.parts, j - |before|);
    assert (before + (gives + [HoldDelete(ids[n])]))[..j] == before + gives[..j - |before|];
  }

  lemma NoParts(acct: Acct)
    ensures GiveBackAll(acct, []) == []
  {
  }

  lemma OneWriteAPart(acct: Acct, parts: seq<Part>)
    ensures |GiveBackAll(acct, parts)| == |parts|
  {
  }

  lemma FirstParts(acct: Acct, parts: seq<Part>, i: nat)
    requires i <= |parts|
    ensures GiveBackAll(acct, parts)[..i] == GiveBackAll(acct, parts[..i])
  {
  }

  /** The first `j` records of a release: every account keeps its total but the one whose row the tear
      falls into, and that one gains what its parts up to the tear took, while the row stays open. */
  lemma TornRelease(t: Tables, j: nat, a: Acct)
    requires Good(t) && Filled(t) && j <= |Release(t)|
    ensures var ids := Ascending(t.holds.Keys);
            var u := ApplyAll(t, Release(t)[..j]);
            && Good(u) && Filled(u)
            && u.holds == t.holds - (set id | id in ids[..Cut(t.holds, ids, j).0])
            && Total(u, a) == Total(t, a) + Mine(SpilledTo(t.holds, ids, j), a, Took(Spilled(t.holds, ids, j)))
  {
    hide Total, Ascending, ReleaseWrites, Good, Filled, GiveBackAll, Took, ApplyAll, Cut;
    var ids := Ascending(t.holds.Keys);
    var m := Cut(t.holds, ids, j).0;
    CutIs(t.holds, ids, j);
    RowsReleased(t, ids[..m], a);
    var w := ReleaseWrites(t.holds, ids[..m]);
    var mid := ApplyAll(t, w);
    var acct, parts := SpilledTo(t.holds, ids, j), Spilled(t.holds, ids, j);
    ApplyInTwo(t, w, GiveBackAll(acct, parts));
    SpillStands(t, mid, ids, j);
    PartsGivenBack(mid, acct, parts, a);
    FewerFilled(t, ApplyAll(mid, GiveBackAll(acct, parts)), set id | id in ids[..m]);
  }

  lemma FewerFilled(t: Tables, u: Tables, gone: set<nat>)
    requires Filled(t) && u.holds == t.holds - gone
    ensures Filled(u)
  {
  }

  lemma SpillStands(t: Tables, mid: Tables, ids: seq<nat>, j: nat)
    requires Rows(t.holds, ids) && j <= |ReleaseWrites(t.holds, ids)| && Good(mid)
    requires forall x, y :: 0 <= x < y < |ids| ==> ids[x] < ids[y]
    requires mid.holds == t.holds - (set id | id in ids[..Cut(t.holds, ids, j).0])
    ensures HasAll(mid, SpilledTo(t.holds, ids, j), Spilled(t.holds, ids, j))
  {
    hide ReleaseWrites, Cut;
    var c := Cut(t.holds, ids, j);
    if c.1 > 0 {
      assert ids[c.0] !in ids[..c.0];
      assert ids[c.0] in mid.holds && mid.holds[ids[c.0]] == t.holds[ids[c.0]];
      HasSome(mid, t.holds[ids[c.0]].acct, t.holds[ids[c.0]].parts, c.1);
    }
  }

  /** The tear falls between two rows. */
  predicate BetweenRows(t: Tables, j: nat)
    requires j <= |Release(t)|
  {
    Cut(t.holds, Ascending(t.holds.Keys), j).1 == 0
  }

  lemma SpillCounts(t: Tables, j: nat)
    requires Filled(t) && j <= |Release(t)|
    ensures var ids := Ascending(t.holds.Keys);
            Took(Spilled(t.holds, ids, j)) > 0 <==> !BetweenRows(t, j)
  {
    hide Ascending, Took, ReleaseWrites, Cut;
    SomethingTaken(Spilled(t.holds, Ascending(t.holds.Keys), j));
  }

  // ---- one torn start after another ---------------------------------------------------------------------

  /** What is left after starts that each died behind so many records of their release. */
  function AfterTears(t: Tables, js: seq<nat>): Tables {
    if js == [] then t
    else
      var u := AfterTears(t, js[..|js| - 1]);
      var j := js[|js| - 1];
      if j <= |Release(u)| then ApplyAll(u, Release(u)[..j]) else u
  }

  predicate Tears(t: Tables, js: seq<nat>) {
    js != [] ==> Tears(t, js[..|js| - 1]) && js[|js| - 1] <= |Release(AfterTears(t, js[..|js| - 1]))|
  }

  predicate AllBetweenRows(t: Tables, js: seq<nat>)
    requires Tears(t, js)
  {
    js != [] ==>
      AllBetweenRows(t, js[..|js| - 1]) && BetweenRows(AfterTears(t, js[..|js| - 1]), js[|js| - 1])
  }

  lemma {:induction false} TearsKeepGood(t: Tables, js: seq<nat>, a: Acct)
    requires Good(t) && Filled(t) && Tears(t, js)
    ensures Good(AfterTears(t, js)) && Filled(AfterTears(t, js)) && Total(AfterTears(t, js), a) >= Total(t, a)
    ensures AllBetweenRows(t, js) ==> Total(AfterTears(t, js), a) == Total(t, a)
  {
    hide Total, Good, Filled, Release, Cut, Took, Spilled, SpilledTo;
    if js != [] {
      var u, j := AfterTears(t, js[..|js| - 1]), js[|js| - 1];
      TearsKeepGood(t, js[..|js| - 1], a);
      OneTear(u, j, a);
    }
  }

  /** One more tear. */
  lemma OneTear(t: Tables, j: nat, a: Acct)
    requires Good(t) && Filled(t) && j <= |Release(t)|
    ensures var u := ApplyAll(t, Release(t)[..j]);
            && Good(u) && Filled(u) && Total(u, a) >= Total(t, a)
            && (BetweenRows(t, j) ==> Total(u, a) == Total(t, a))
            && (!BetweenRows(t, j) && a == SpilledTo(t.holds, Ascending(t.holds.Keys), j) ==> Total(u, a) > Total(t, a))
  {
    hide Total, Good, Filled, ReleaseWrites, Cut, Took, Ascending, ApplyAll, BetweenRows;
    TornRelease(t, j, a);
    SpillCounts(t, j);
  }

  lemma {:induction false} SomebodyGains(t: Tables, js: seq<nat>) returns (a: Acct)
    requires Good(t) && Filled(t) && Tears(t, js) && !AllBetweenRows(t, js)
    ensures Total(AfterTears(t, js), a) > Total(t, a)
  {
    hide Total, Good, Filled, BetweenRows, SpilledTo, Ascending, ReleaseWrites;
    var u, j := AfterTears(t, js[..|js| - 1]), js[|js| - 1];
    if BetweenRows(u, j) {
      a := SomebodyGains(t, js[..|js| - 1]);
    } else {
      a := SpilledTo(u.holds, Ascending(u.holds.Keys), j);
    }
    TearsKeepGood(t, js[..|js| - 1], a);
    OneTear(u, j, a);
  }

  /** However many starts in a row die in their release, once one of them gets through every account
      has what it had exactly when every tear fell between two rows; a tear inside a row is paid out,
      again at every start that tears there. */
  lemma TornStartsAddUpExactlyBetweenRows(t: Tables, js: seq<nat>)
    requires Good(t) && Filled(t) && Tears(t, js)
    ensures var u := AfterTears(t, js);
            (forall a :: Total(ApplyAll(u, Release(u)), a) == Total(t, a)) <==> AllBetweenRows(t, js)
  {
    hide Total, Good, Filled, AfterTears, AllBetweenRows, Tears, ReleaseWrites, Ascending;
    var u := AfterTears(t, js);
    TearsKeepGood(t, js, "");
    forall a ensures Total(ApplyAll(u, Release(u)), a) == Total(u, a) {
      ReleaseKeeps(u, a);
    }
    if AllBetweenRows(t, js) {
      forall a ensures Total(u, a) == Total(t, a) {
        TearsKeepGood(t, js, a);
      }
    } else {
      var a := SomebodyGains(t, js);
      assert Total(ApplyAll(u, Release(u)), a) != Total(t, a);
    }
  }
}
