/** The ledger kept in the sealed book: what a start recovers still adds up. */
module Recovery {
  import opened Names
  import opened Ledger
  import opened LedgerSafety
  import opened LedgerRuns
  import opened Crashes
  import Book
  import BookSafety

  function WritesAll(r: Run, ops: seq<Op>): seq<Change> {
    if ops == [] then []
    else WritesAll(r, ops[..|ops| - 1]) + Writes(AfterAll(r, ops[..|ops| - 1]), ops[|ops| - 1])
  }

  lemma {:induction false} WritesMakeTheRun(r: Run, ops: seq<Op>)
    ensures ApplyAll(r.t, WritesAll(r, ops)) == AfterAll(r, ops).t
  {
    hide Writes, Hands;
    if ops == [] {
      ApplyNone(r.t);
    } else {
      var n := |ops| - 1;
      WritesMakeTheRun(r, ops[..n]);
      ApplyInTwo(r.t, WritesAll(r, ops[..n]), Writes(AfterAll(r, ops[..n]), ops[n]));
    }
  }

  /** A book whose changes are the ledger's. */
  ghost predicate KeepsTheLedger(w: Book.World<Tables, Change>) {
    w.init == NoTables && forall t, c :: w.apply(t, c) == Apply(t, c)
  }

  lemma {:induction false} ReplayIsApplyAll(w: Book.World<Tables, Change>, t: Tables, cs: seq<Change>)
    requires KeepsTheLedger(w)
    ensures Book.Replay(w, t, cs) == ApplyAll(t, cs)
    decreases |cs|
  {
    hide Apply;
    if cs == [] {
      ApplyNone(t);
    } else {
      ReplayIsApplyAll(w, w.apply(t, cs[0]), cs[1..]);
      assert cs == [cs[0]] + cs[1..];
      ApplyInTwo(t, [cs[0]], cs[1..]);
      ApplyOne(t, cs[0]);
    }
  }

  /** The changes that a start finds. */
  ghost function Found(w: Book.World<Tables, Change>, s: Book.System<Tables, Change>): seq<Change>
    requires Book.OpenSealed(w, s.host).Ok?
  {
    var o := Book.OpenSealed(w, s.host).value;
    var m := (o.generation, o.replayed);
    if s.hist.Valid() && s.hist.OnLine(m) && s.hist.Abs(m) <= |s.hist.line| then s.hist.line[..s.hist.Abs(m)] else []
  }

  /** Whatever the host and the enclave went through, if the changes a start finds end with a
      whole operation, then after the release of open holds every account has what was put in
      less what its answered requests cost, and no hold is left. */
  lemma RecoveredLedgerBalances(w: Book.World<Tables, Change>, s: Book.System<Tables, Change>, ops: seq<Op>, a: Acct)
    requires Book.Ideal(w) && KeepsTheLedger(w) && BookSafety.Reachable(w, s)
    requires Book.OpenSealed(w, s.host).Ok?
    requires Found(w, s) == WritesAll(Fresh, ops)
    ensures var rows := Book.OpenSealed(w, s.host).value.rows;
            var u := ApplyAll(rows, ReleaseWrites(rows.holds, Ascending(rows.holds.Keys)));
            && Total(u, a) == PutInAll(Fresh, ops, a) - ChargedAll(Fresh, ops, a)
            && InTheBlack(u) && u.holds == map[]
  {
    hide Total, ApplyAll, AfterAll, WritesAll, ReleaseWrites, Ascending, Book.OpenSealed;
    var o := Book.OpenSealed(w, s.host).value;
    var line := Found(w, s);
    BookSafety.StartIsRight(w, s);
    ReplayIsApplyAll(w, NoTables, line);
    WritesMakeTheRun(Fresh, ops);
    NothingYet(a);
    BooksBalance(Fresh, ops, a);
    ReleaseKeeps(o.rows, a);
  }

  /** And wherever the line was cut off: if what a start finds is any part, from its beginning, of what
      a run writes that may itself have been torn any number of times, then after the release every
      account has what was put in, less what its answers cost, and to the unit what the tears took from
      it or paid out to it. */
  lemma RecoveredAfterAnyCrash(w: Book.World<Tables, Change>, s: Book.System<Tables, Change>, steps: seq<Step>, a: Acct)
    requires Book.Ideal(w) && KeepsTheLedger(w) && BookSafety.Reachable(w, s)
    requires Book.OpenSealed(w, s.host).Ok?
    requires Found(w, s) <= RecordsAll(Fresh, steps)
    ensures var rows := Book.OpenSealed(w, s.host).value.rows;
            var u := ApplyAll(rows, ReleaseWrites(rows.holds, Ascending(rows.holds.Keys)));
            && Total(u, a) == MovedAll(Fresh, CutTo(Fresh, steps, |Found(w, s)|), a)
            && InTheBlack(u) && u.holds == map[]
  {
    hide Total, ApplyAll, SteppedAll, RecordsAll, MovedAll, CutTo, ReleaseWrites, Ascending, Book.OpenSealed;
    var o := Book.OpenSealed(w, s.host).value;
    var line := Found(w, s);
    var cut := CutTo(Fresh, steps, |line|);
    CutIsPrefix(Fresh, steps, |line|);
    BookSafety.StartIsRight(w, s);
    ReplayIsApplyAll(w, NoTables, line);
    RecordsMakeTheRun(Fresh, cut);
    assert RecordsAll(Fresh, cut) == line;
    assert o.rows == SteppedAll(Fresh, cut).t;
    FreshIsSound(a);
    CrashesBalance(Fresh, cut, a);
    ReleaseKeeps(o.rows, a);
  }
}
