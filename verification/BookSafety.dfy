/** What every run of the sealed book keeps: the host's journal is the line record by record,
    a restart rebuilds the book after a prefix of it, and nothing confirmed is ever lost. */
module BookSafety {
  import opened Wrappers
  import opened Journal
  import opened Host
  import opened Witness
  import opened Book

  // ---- histories that agree up to a place -------------------------------------------------------

  /** Two histories that are the same up to `m`. */
  ghost predicate Agree<C>(h: History<C>, h': History<C>, m: Mark) {
    && h.Valid() && h'.Valid() && h.OnLine(m) && h'.OnLine(m)
    && h.folds[..m.0] == h'.folds[..m.0]
    && h.line[..h.Abs(m)] == h'.line[..h.Abs(m)]
  }

  lemma AbsWithin<C>(h: History<C>, m: Mark)
    requires h.Valid() && h.OnLine(m)
    ensures h.Abs(m) <= h.End(m.0) <= |h.line|
  {
  }

  lemma SealedAtAgrees<B, C>(w: World<B, C>, h: History<C>, h': History<C>, m: Mark, k: nat, b: bytes)
    requires Agree(h, h', m) && k <= m.1 && SealedAt(w, h, (m.0, k), b)
    ensures SealedAt(w, h', (m.0, k), b)
  {
    AbsWithin(h, m);
    AbsWithin(h', m);
    var g := m.0 - 1;
    assert h.folds[..m.0][g] == h'.folds[..m.0][g];
    var a := h.Abs((m.0, k));
    assert h.line[..h.Abs(m)][a - 1] == h'.line[..h.Abs(m)][a - 1];
  }

  lemma SnapshotAgrees<B, C>(w: World<B, C>, h: History<C>, h': History<C>, m: Mark, b: bytes)
    requires Agree(h, h', m) && SnapshotOf(w, h, m.0, b)
    ensures SnapshotOf(w, h', m.0, b)
  {
    AbsWithin(h, m);
    AbsWithin(h', m);
    var g := m.0 - 1;
    assert h.folds[..m.0][g] == h'.folds[..m.0][g];
    assert h.line[..h.folds[g]] == h.line[..h.Abs(m)][..h.folds[g]];
    assert h'.line[..h.folds[g]] == h'.line[..h.Abs(m)][..h.folds[g]];
  }

  lemma HostStandsAgrees<B, C>(w: World<B, C>, h: History<C>, h': History<C>, m: Mark, host: HostState)
    requires Agree(h, h', m) && HostStands(w, h, m, host)
    ensures HostStands(w, h', m, host)
  {
    hide Split, Keeps;
    if m.0 != 1 { SnapshotAgrees(w, h, h', m, host.snapshot); }
    forall i | 0 <= i < m.1 ensures SealedAt(w, h', (m.0, i + 1), KeptRecords(host)[i]) {
      SealedAtAgrees(w, h, h', m, i + 1, KeptRecords(host)[i]);
    }
  }

  /** A history written on: more changes, and one more generation if the journal was full. */
  lemma WrittenOn<C>(h: History<C>, changes: seq<C>, full: bool, m: Mark)
    requires h.Valid() && h.OnLine(m)
    requires h.Top().1 + |changes| + 2 < U64 && (full ==> |h.folds| + 1 < U64)
    requires |h.folds| == 1 ==> changes == []
    ensures var h' := NextHistory(h, changes, full);
            Agree(h, h', m) && h'.Abs(m) == h.Abs(m)
  {
    var h' := NextHistory(h, changes, full);
    assert h.End(|h.folds|) == |h.line|;
    forall g | 1 <= g <= |h'.folds| ensures h'.folds[g - 1] <= h'.End(g) <= |h'.line| && h'.End(g) - h'.folds[g - 1] + 2 < U64 {
      if g <= |h.folds| { assert h.folds[g - 1] <= h.End(g); }
    }
    AbsWithin(h, m);
    assert h'.OnLine(m) by { if m.0 < |h.folds| { assert h'.End(m.0) == h.End(m.0); } }
  }

  // ---- the queue -----------------------------------------------------------------------------------

  lemma {:induction false} QueueExtends<B, C>(w: World<B, C>, h: History<C>, h': History<C>, m: Mark, queue: seq<Job>, more: seq<Job>)
    requires h.Valid() && h'.Valid() && QueueOk(w, h, m, queue)
    requires Agree(h, h', h.Top()) && |h.line| <= |h'.line| && QueueOk(w, h', h.Top(), more)
    ensures QueueOk(w, h', m, queue + more)
    decreases |queue|
  {
    hide SealedAt, SnapshotOf;
    if queue == [] {
      assert [] + more == more;
    } else {
      var next := JobMark(queue[0]);
      assert (queue + more)[0] == queue[0] && (queue + more)[1..] == queue[1..] + more;
      QueueExtends(w, h, h', next, queue[1..], more);
      NarrowAgreement(h, h', h.Top(), next);
      NarrowAgreement(h, h', h.Top(), m);
      match queue[0] {
        case Record(g, n, sealed) => SealedAtAgrees(w, h, h', next, n, sealed);
        case Fold(g, sealed) =>
          SnapshotAgrees(w, h, h', next, sealed);
          assert h'.End(m.0) == h.End(m.0) by { assert h.folds[..next.0][m.0] == h'.folds[..next.0][m.0]; }
      }
    }
  }

  lemma NarrowAgreement<C>(h: History<C>, h': History<C>, top: Mark, m: Mark)
    requires Agree(h, h', top) && h.OnLine(m) && Leq(m, top) && top == h.Top()
    ensures Agree(h, h', m) && h'.Abs(m) == h.Abs(m)
  {
    LeqIsFewer(h, m, top);
    assert h.folds[..m.0] == h.folds[..top.0][..m.0] && h'.folds[..m.0] == h'.folds[..top.0][..m.0];
    assert h.folds[..top.0][m.0 - 1] == h'.folds[..top.0][m.0 - 1];
    if m.0 < top.0 {
      assert h.folds[..top.0][m.0] == h'.folds[..top.0][m.0];
    } else {
      assert h'.OnLine(top);
    }
    var a := h.Abs(m);
    assert h.line[..a] == h.line[..h.Abs(top)][..a] && h'.line[..a] == h'.line[..h.Abs(top)][..a];
  }

  lemma BelowTop<C>(h: History<C>, m: Mark)
    requires h.Valid() && h.OnLine(m)
    ensures Leq(m, h.Top())
  {
  }

  lemma FirstRecord(g: nat, n: nat, sealed: seq<bytes>, more: seq<Job>)
    ensures Records(g, n, sealed) + more
            == if sealed == [] then more else [Record(g, n, sealed[0])] + (Records(g, n + 1, sealed[1..]) + more)
  {
  }

  lemma OnTheWay<C>(h: History<C>, m: Mark, k: nat, n: nat)
    requires h.OnLine((m.0, m.1 + n)) && k <= n
    ensures h.OnLine((m.0, m.1 + k))
  {
  }

  lemma {:induction false} RecordsOk<B, C>(w: World<B, C>, h: History<C>, m: Mark, sealed: seq<bytes>, more: seq<Job>)
    requires h.Valid() && h.OnLine(m) && h.OnLine((m.0, m.1 + |sealed|))
    requires forall i :: 0 <= i < |sealed| ==> SealedAt(w, h, (m.0, m.1 + 1 + i), sealed[i])
    requires QueueOk(w, h, (m.0, m.1 + |sealed|), more)
    ensures QueueOk(w, h, m, Records(m.0, m.1 + 1, sealed) + more)
    decreases |sealed|
  {
    hide SealedAt, QueueOk, Records, History.Valid, History.OnLine;
    FirstRecord(m.0, m.1 + 1, sealed, more);
    if sealed != [] {
      var next := (m.0, m.1 + 1);
      OnTheWay(h, m, 1, |sealed|);
      assert SealedAt(w, h, (m.0, m.1 + 1 + 0), sealed[0]);
      forall i | 0 <= i < |sealed| - 1 ensures SealedAt(w, h, (m.0, next.1 + 1 + i), sealed[1..][i]) {
        assert SealedAt(w, h, (m.0, m.1 + 1 + (i + 1)), sealed[i + 1]);
      }
      RecordsOk(w, h, next, sealed[1..], more);
      OneMoreOk(w, h, m, sealed[0], Records(m.0, m.1 + 2, sealed[1..]) + more);
    }
  }

  lemma OneMoreOk<B, C>(w: World<B, C>, h: History<C>, m: Mark, sealed: bytes, rest: seq<Job>)
    requires h.Valid() && h.OnLine(m) && h.OnLine((m.0, m.1 + 1)) && SealedAt(w, h, (m.0, m.1 + 1), sealed)
    requires QueueOk(w, h, (m.0, m.1 + 1), rest)
    ensures QueueOk(w, h, m, [Record(m.0, m.1 + 1, sealed)] + rest)
  {
    hide SealedAt, SnapshotOf;
    assert ([Record(m.0, m.1 + 1, sealed)] + rest)[1..] == rest;
  }

  // ---- writing -----------------------------------------------------------------------------------------

  lemma NewRecordsFit<B, C>(w: World<B, C>, h: History<C>, changes: seq<C>, sealed: seq<bytes>, full: bool)
    requires h.Valid() && |changes| == |sealed|
    requires var h' := NextHistory(h, changes, full); h'.Valid() && h'.OnLine(h.Top())
    requires forall i :: 0 <= i < |sealed| ==>
               Framable(sealed[i]) && w.open(h.Top().0, h.Top().1 + 1 + i, sealed[i]) == Some(Change(changes[i]))
    ensures var (h', top) := (NextHistory(h, changes, full), h.Top());
            && h'.OnLine((top.0, top.1 + |sealed|)) && h'.Abs((top.0, top.1 + |sealed|)) == |h'.line| == h'.End(top.0)
            && forall i :: 0 <= i < |sealed| ==> SealedAt(w, h', (top.0, top.1 + 1 + i), sealed[i])
  {
    var h', top := NextHistory(h, changes, full), h.Top();
    NewEnd(h, changes, full);
    forall i | 0 <= i < |sealed| ensures SealedAt(w, h', (top.0, top.1 + 1 + i), sealed[i]) {
      assert h'.line[|h.line| + i] == changes[i];
    }
  }

  lemma NewEnd<C>(h: History<C>, changes: seq<C>, full: bool)
    requires h.Valid()
    ensures var h', top := NextHistory(h, changes, full), h.Top();
            && |h'.folds| >= top.0 >= 1 && h'.folds[top.0 - 1] == h.folds[top.0 - 1]
            && h'.End(top.0) == |h'.line| == |h.line| + |changes| && h'.folds[top.0 - 1] + top.1 == |h.line|
  {
    assert h.End(|h.folds|) == |h.line|;
  }

  /** What one writing queues carries the line from its old end to its new one. */
  lemma WrittenOk<B, C>(w: World<B, C>, s: System<B, C>, changes: seq<C>, sealed: seq<bytes>, folded: bytes)
    requires Inv(w, s) && Enabled(w, s, Write(changes, sealed, folded)) && |s.hist.folds| > 1
    ensures var h' := NextHistory(s.hist, changes, Full(s.next, |sealed|));
            Agree(s.hist, h', s.hist.Top()) && QueueOk(w, h', s.hist.Top(), Written(s.generation, s.next, sealed, folded))
  {
    hide QueueOk, SealedAt, HostStands, HostBetween, Records, Replay, Agree;
    var h, top := s.hist, s.hist.Top();
    var full := Full(s.next, |sealed|);
    var h' := NextHistory(h, changes, full);
    WrittenOn(h, changes, full, top);
    AgreementIsValid(h, h', top);
    NewRecordsFit(w, h, changes, sealed, full);
    var end := (top.0, top.1 + |sealed|);
    var tail := if full then [Fold(top.0 + 1, folded)] else [];
    if full {
      ReplayInTwo(w, w.init, h.line, changes);
      assert h'.line[..|h'.line|] == h'.line;
      FoldOk(w, h', end, folded);
    } else {
      EndOk(w, h', end);
    }
    RecordsOk(w, h', top, sealed, tail);
  }

  lemma AgreementIsValid<C>(h: History<C>, h': History<C>, m: Mark)
    requires Agree(h, h', m)
    ensures h'.Valid() && h'.OnLine(m)
  {
  }

  lemma FoldOk<B, C>(w: World<B, C>, h: History<C>, m: Mark, folded: bytes)
    requires h.Valid() && h.OnLine(m) && m.0 + 1 == |h.folds| && h.Abs(m) == h.End(m.0) == |h.line|
    requires SnapshotOf(w, h, m.0 + 1, folded)
    ensures QueueOk(w, h, m, [Fold(m.0 + 1, folded)])
  {
    assert h.End(m.0 + 1) == |h.line|;
    assert QueueOk(w, h, (m.0 + 1, 0), []);
  }

  lemma EndOk<B, C>(w: World<B, C>, h: History<C>, m: Mark)
    requires h.Valid() && h.OnLine(m) && m.0 == |h.folds| && h.Abs(m) == |h.line|
    ensures QueueOk(w, h, m, [])
  {
  }

  lemma PlaceSurvives<B, C>(w: World<B, C>, h: History<C>, h': History<C>, p: HostPlace, host: HostState)
    requires h.Valid() && Agree(h, h', h.Top())
    requires match p case Stands(m) => HostStands(w, h, m, host) case Between(g) => HostBetween(w, h, g, host)
    ensures match p case Stands(m) => HostStands(w, h', m, host) case Between(g) => HostBetween(w, h', g, host)
  {
    hide Keeps, KeptRecords, SealedAt, SnapshotOf;
    match p {
      case Stands(m) =>
        BelowTop(h, m);
        NarrowAgreement(h, h', h.Top(), m);
        HostStandsAgrees(w, h, h', m, host);
      case Between(g) =>
        var prev := (g - 1, h.End(g - 1) - h.folds[g - 2]);
        BelowTop(h, prev);
        NarrowAgreement(h, h', h.Top(), prev);
        BelowTop(h, (g, 0));
        NarrowAgreement(h, h', h.Top(), (g, 0));
        SnapshotAgrees(w, h, h', (g, 0), host.snapshot);
        assert h'.End(g - 1) == h.End(g - 1) by { assert h.folds[..g][g - 1] == h'.folds[..g][g - 1]; }
        JournalAgrees(w, h, h', prev, host);
    }
  }

  lemma JournalAgrees<B, C>(w: World<B, C>, h: History<C>, h': History<C>, m: Mark, host: HostState)
    requires Agree(h, h', m) && JournalOf(w, h, m, host)
    ensures JournalOf(w, h', m, host)
  {
    hide Keeps, KeptRecords;
    forall i | 0 <= i < m.1 ensures SealedAt(w, h', (m.0, i + 1), KeptRecords(host)[i]) {
      SealedAtAgrees(w, h, h', m, i + 1, KeptRecords(host)[i]);
    }
  }

  lemma WriteKeeps<B, C>(w: World<B, C>, s: System<B, C>, e: Event<C>)
    requires Inv(w, s) && Enabled(w, s, e) && e.Write?
    ensures Inv(w, Next(w, s, e))
  {
    hide HostStands, HostBetween, QueueOk, SealedAt, SnapshotOf, Replay;
    var s' := Next(w, s, e);
    var h, h' := s.hist, s'.hist;
    WrittenOk(w, s, e.changes, e.sealed, e.folded);
    QueueExtends(w, h, h', s.confirmed, s.queue, Written(s.generation, s.next, e.sealed, e.folded));
    PlaceSurvives(w, h, h', s.place, s.host);
    BelowTop(h, s.confirmed);
    NarrowAgreement(h, h', h.Top(), s.confirmed);
    ReplayInTwo(w, w.init, h.line, e.changes);
    WrittenGrows(s.queue, s.generation, s.next, e.sealed, e.folded);
  }

  lemma WrittenGrows(queue: seq<Job>, g: nat, next: nat, sealed: seq<bytes>, folded: bytes)
    requires next > 0
    ensures queue != [] ==>
              queue + Written(g, next, sealed, folded) != [] && (queue + Written(g, next, sealed, folded))[0] == queue[0]
  {
  }

  // ---- delivering ----------------------------------------------------------------------------------------

  lemma KeptAre(h: HostState, snapshot: bytes, records: seq<bytes>)
    requires Keeps(h, snapshot, records)
    ensures KeptRecords(h) == records && Keeps(h, h.snapshot, KeptRecords(h))
  {
    hide Split;
    KeptReadsBack(h, snapshot, records);
  }

  /** The job is the next one in the line behind `m`. */
  ghost predicate NextJob<B, C>(w: World<B, C>, h: History<C>, m: Mark, job: Job)
    requires h.Valid()
  {
    && h.OnLine(m)
    && match job
       case Record(g, n, sealed) => (g, n) == (m.0, m.1 + 1) && SealedAt(w, h, (g, n), sealed)
       case Fold(g, sealed) => g == m.0 + 1 && g <= |h.folds| && h.Abs(m) == h.End(m.0) && SnapshotOf(w, h, g, sealed)
  }

  lemma RecordTaken<B, C>(w: World<B, C>, h: History<C>, m: Mark, job: Job, host: HostState)
    requires h.Valid() && NextJob(w, h, m, job) && job.Record? && HostStands(w, h, m, host)
    ensures Offer(host, job).0 && HostStands(w, h, JobMark(job), Offer(host, job).1)
  {
    hide Append, Given, Split, SnapshotOf, KeptRecords, Keeps;
    var records := KeptRecords(host);
    var sealed := job.sealed;
    assert Framable(sealed) && h.End(m.0) - h.folds[m.0 - 1] + 2 < U64;
    AppendIsExact(host, host.snapshot, records, m.0, m.1 + 1, sealed);
    var host' := Offer(host, job).1;
    KeptAre(host', host.snapshot, records + [sealed]);
    KeepsSnapshot(host', host.snapshot, records + [sealed]);
    forall i | 0 <= i < m.1 + 1 ensures SealedAt(w, h, (m.0, i + 1), (records + [sealed])[i]) {
      if i < m.1 { assert SealedAt(w, h, (m.0, i + 1), records[i]); }
    }
  }

  lemma KeepsSnapshot(h: HostState, snapshot: bytes, records: seq<bytes>)
    requires Keeps(h, snapshot, records)
    ensures h.snapshot == snapshot
  {
  }

  /** A record the host already has is answered again and changes nothing. */
  lemma RecordTakenAgain<B, C>(w: World<B, C>, h: History<C>, job: Job, host: HostState)
    requires h.Valid() && job.Record? && job.number > 0 && Framable(job.sealed)
    requires HostStands(w, h, JobMark(job), host)
    ensures Offer(host, job).0 && HostStands(w, h, JobMark(job), Offer(host, job).1)
  {
    hide Append, Given, Split, SnapshotOf, KeptRecords, Keeps, SealedAt;
    var records := KeptRecords(host);
    var g := job.generation;
    assert h.End(g) - h.folds[g - 1] + 2 < U64;
    AppendIsExact(host, host.snapshot, records, g, job.number, job.sealed);
    KeptAre(Offer(host, job).1, host.snapshot, records);
    KeepsSnapshot(Offer(host, job).1, host.snapshot, records);
  }

  lemma NothingKept(h: HostState)
    requires h.journal == [] && h.last.None?
    ensures KeptRecords(h) == [] && Keeps(h, h.snapshot, [])
  {
    KeptAre(h, h.snapshot, []);
  }

  /** A snapshot in place with the journal gone stands at the beginning of its generation. */
  lemma SnapshotTaken<B, C>(w: World<B, C>, h: History<C>, g: nat, sealed: bytes, last: Option<nat>)
    requires h.Valid() && g > 1 && SnapshotOf(w, h, g, sealed)
    ensures HostStands(w, h, (g, 0), HostState(sealed, [], None))
  {
    hide SnapshotOf, KeptRecords, Keeps;
    NothingKept(HostState(sealed, [], None));
    assert h.OnLine((g, 0)) by { SnapshotIsOnLine(w, h, g, sealed); assert h.folds[g - 1] <= h.End(g); }
  }

  lemma SnapshotIsOnLine<B, C>(w: World<B, C>, h: History<C>, g: nat, sealed: bytes)
    requires SnapshotOf(w, h, g, sealed)
    ensures 1 <= g <= |h.folds|
  {
  }

  /** Whatever has become of the job before, offered again it is taken, and the host then
      stands just behind it. */
  lemma HeadIsTaken<B, C>(w: World<B, C>, s: System<B, C>)
    requires Inv(w, s) && s.up && s.queue != []
    ensures Offer(s.host, s.queue[0]).0
    ensures HostStands(w, s.hist, JobMark(s.queue[0]), Offer(s.host, s.queue[0]).1)
    ensures NextJob(w, s.hist, s.confirmed, s.queue[0])
  {
    hide HostStands, HostBetween, Append, SnapshotOf;
    var job := s.queue[0];
    match job {
      case Fold(g, sealed) => SnapshotTaken(w, s.hist, g, sealed, None);
      case Record(g, n, sealed) =>
        if s.place == Stands(s.confirmed) {
          RecordTaken(w, s.hist, s.confirmed, job, s.host);
        } else {
          RecordTakenAgain(w, s.hist, job, s.host);
        }
    }
  }

  lemma AfterHead<B, C>(w: World<B, C>, h: History<C>, m: Mark, queue: seq<Job>)
    requires h.Valid() && queue != [] && QueueOk(w, h, m, queue)
    ensures QueueOk(w, h, JobMark(queue[0]), queue[1..]) && h.OnLine(JobMark(queue[0]))
    ensures Leq(m, JobMark(queue[0])) && m != JobMark(queue[0])
  {
    hide SealedAt, SnapshotOf;
  }

  lemma DeliverKeeps<B, C>(w: World<B, C>, s: System<B, C>, e: Event<C>)
    requires Inv(w, s) && Enabled(w, s, e) && (e.Deliver? || e.DeliverButAnswerLost?)
    ensures Inv(w, Next(w, s, e))
    ensures e.Deliver? ==> Next(w, s, e).confirmed == JobMark(s.queue[0]) && Next(w, s, e).queue == s.queue[1..]
  {
    HeadIsTaken(w, s);
    AfterHead(w, s.hist, s.confirmed, s.queue);
    hide HostStands, HostBetween, QueueOk, Append, NextJob;
    forall i | 0 <= i < |s.marks| ensures e.Deliver? ==> Leq(s.marks[i].0, JobMark(s.queue[0])) {
      assert Leq(s.marks[i].0, s.confirmed);
    }
  }

  // ---- stopping ----------------------------------------------------------------------------------------------

  lemma ReopenedKeeps(h: HostState, snapshot: bytes, records: seq<bytes>, snapshot': bytes)
    requires Keeps(h, snapshot, records)
    ensures Keeps(HostState(snapshot', h.journal, None), snapshot', records)
    ensures KeptRecords(HostState(snapshot', h.journal, None)) == records
  {
    KeptAre(HostState(snapshot', h.journal, None), snapshot', records);
  }

  lemma ReopenStands<B, C>(w: World<B, C>, s: System<B, C>)
    requires Inv(w, s)
    ensures Inv(w, Next(w, s, HostReopens))
  {
    hide QueueOk, SnapshotOf, SealedAt, Keeps, KeptRecords;
    ReopenedKeeps(s.host, s.host.snapshot, KeptRecords(s.host), s.host.snapshot);
  }

  lemma StopBetweenKeeps<B, C>(w: World<B, C>, s: System<B, C>)
    requires Inv(w, s) && Enabled(w, s, StopBetweenFiles)
    ensures Inv(w, Next(w, s, StopBetweenFiles))
  {
    hide HostStands, HostBetween, QueueOk, SnapshotOf, Replay;
    var job := s.queue[0];
    FoldIsNext(w, s.hist, s.confirmed, s.queue);
    TornPlace(w, s.hist, s.confirmed, s.place, s.host, job.sealed);
  }

  /** A fold broken off between its two files leaves the new snapshot beside the old journal,
      or, when it had been carried out before, all as it was. */
  lemma TornPlace<B, C>(w: World<B, C>, h: History<C>, m: Mark, p: HostPlace, host: HostState, sealed: bytes)
    requires h.Valid() && m.0 + 1 <= |h.folds| && h.OnLine(m) && m.1 == h.End(m.0) - h.folds[m.0 - 1]
    requires SnapshotOf(w, h, m.0 + 1, sealed)
    requires match p
             case Stands(at) => (at == m || at == (m.0 + 1, 0)) && HostStands(w, h, at, host)
             case Between(g) => g == m.0 + 1 && HostBetween(w, h, g, host)
    ensures if p == Stands((m.0 + 1, 0)) then HostStands(w, h, (m.0 + 1, 0), TornSnapshot(host, sealed))
            else HostBetween(w, h, m.0 + 1, TornSnapshot(host, sealed))
  {
    hide SnapshotOf, JournalOf;
    match p {
      case Stands(at) => TornJournal(w, h, at, host, sealed);
      case Between(g) => TornJournal(w, h, m, host, sealed);
    }
  }

  lemma TornJournal<B, C>(w: World<B, C>, h: History<C>, m: Mark, host: HostState, sealed: bytes)
    requires JournalOf(w, h, m, host)
    ensures JournalOf(w, h, m, TornSnapshot(host, sealed))
  {
    hide SealedAt, Keeps, KeptRecords;
    ReopenedKeeps(host, host.snapshot, KeptRecords(host), sealed);
  }

  lemma FoldIsNext<B, C>(w: World<B, C>, h: History<C>, m: Mark, queue: seq<Job>)
    requires h.Valid() && queue != [] && QueueOk(w, h, m, queue) && queue[0].Fold?
    ensures var g := queue[0].generation;
            && g == m.0 + 1 && 2 <= g <= |h.folds| && h.Abs(m) == h.End(m.0)
            && SnapshotOf(w, h, g, queue[0].sealed)
            && m == (g - 1, h.End(g - 1) - h.folds[g - 2])
  {
    hide SnapshotOf;
  }

  // ---- starting again ------------------------------------------------------------------------------------------

  lemma OpensAt<B, C>(w: World<B, C>, h: History<C>, m: Mark, b: bytes)
    requires SealedAt(w, h, m, b)
    ensures h.OnLine(m) && 0 < h.Abs(m) <= |h.line| && w.open(m.0, m.1, b) == Some(Change(h.line[h.Abs(m) - 1]))
  {
  }

  /** One record opened is one change applied. */
  lemma OneRecord<B, C>(w: World<B, C>, g: nat, n: nat, records: seq<bytes>, b: B, changes: seq<C>)
    requires records != [] && changes != []
    requires w.open(g, n + 1, records[0]) == Some(Change(changes[0]))
    ensures OpenRecords(w, g, n, records, b) == OpenRecords(w, g, n + 1, records[1..], w.apply(b, changes[0]))
    ensures Replay(w, b, changes) == Replay(w, w.apply(b, changes[0]), changes[1..])
  {
  }

  lemma NoRecords<B, C>(w: World<B, C>, g: nat, n: nat, b: B)
    ensures OpenRecords(w, g, n, [], b) == Ok(b) && Replay(w, b, []) == b
  {
  }

  lemma {:induction false} RecordsReplay<B, C>(w: World<B, C>, h: History<C>, g: nat, n: nat, records: seq<bytes>, b: B)
    requires h.Valid() && h.OnLine((g, n + |records|))
    requires forall i :: 0 <= i < |records| ==> SealedAt(w, h, (g, n + 1 + i), records[i])
    ensures h.folds[g - 1] + n + |records| <= |h.line|
    ensures OpenRecords(w, g, n, records, b) == Ok(Replay(w, b, h.line[h.folds[g - 1] + n..h.folds[g - 1] + n + |records|]))
    decreases |records|
  {
    hide OpenRecords, Replay, SealedAt;
    AbsWithin(h, (g, n + |records|));
    if records == [] {
      NoRecords(w, g, n, b);
      assert h.line[h.folds[g - 1] + n..h.folds[g - 1] + n + |records|] == [];
    } else {
      var a := h.folds[g - 1] + n;
      var changes := h.line[a..a + |records|];
      assert SealedAt(w, h, (g, n + 1 + 0), records[0]);
      forall i | 0 <= i < |records| - 1 ensures SealedAt(w, h, (g, n + 1 + 1 + i), records[1..][i]) {
        assert SealedAt(w, h, (g, n + 1 + (i + 1)), records[i + 1]);
      }
      OpensAt(w, h, (g, n + 1), records[0]);
      OneRecord(w, g, n, records, b, changes);
      RecordsReplay(w, h, g, n + 1, records[1..], w.apply(b, changes[0]));
      assert changes[1..] == h.line[a + 1..a + |records|];
    }
  }

  lemma OpensTo<B, C>(w: World<B, C>, host: HostState, g: nat, rows: B, records: seq<bytes>, out: B)
    requires if host.snapshot == [] then g == 1 && rows == w.init else w.open(0, 0, host.snapshot) == Some(Snapshot(g, rows))
    requires Keeps(host, host.snapshot, records) && OpenRecords(w, g, 0, records, rows) == Ok(out)
    ensures OpenSealed(w, host) == Ok(Opened(out, g, |records|, host.snapshot == [] || records == []))
  {
    hide Split, Keeps, OpenRecords;
    KeptReadsBack(host, host.snapshot, records);
  }

  /** A start from files that stand at `m` rebuilds the book after exactly the changes up to `m`. */
  lemma StartFrom<B, C>(w: World<B, C>, h: History<C>, m: Mark, host: HostState)
    requires h.Valid() && HostStands(w, h, m, host)
    ensures h.Abs(m) <= |h.line|
    ensures OpenSealed(w, host) == Ok(Opened(Replay(w, w.init, h.line[..h.Abs(m)]), m.0, m.1, m.0 == 1 || m.1 == 0))
  {
    hide Replay, SealedAt, Keeps, OpenSealed, OpenRecords, SnapshotOf;
    AbsWithin(h, m);
    var records := KeptRecords(host);
    var f := h.folds[m.0 - 1];
    var start := Replay(w, w.init, h.line[..f]);
    FirstRows(w, h, m, host);
    hide KeptRecords;
    RecordsReplay(w, h, m.0, 0, records, start);
    ReplayInTwo(w, w.init, h.line[..f], h.line[f..f + m.1]);
    assert h.line[..f] + h.line[f..f + m.1] == h.line[..h.Abs(m)];
    OpensTo(w, host, m.0, start, records, Replay(w, start, h.line[f..f + m.1]));
  }

  lemma FirstRows<B, C>(w: World<B, C>, h: History<C>, m: Mark, host: HostState)
    requires h.Valid() && HostStands(w, h, m, host) && h.folds[m.0 - 1] <= |h.line|
    ensures var rows := Replay(w, w.init, h.line[..h.folds[m.0 - 1]]);
            if host.snapshot == [] then m.0 == 1 && rows == w.init && m.1 == 0
            else m.0 > 1 && w.open(0, 0, host.snapshot) == Some(Snapshot(m.0, rows))
  {
    hide JournalOf;
    if m.0 == 1 {
      assert h.line[..0] == [];
      EmptyReplay(w);
    }
  }

  lemma EmptyReplay<B, C>(w: World<B, C>)
    ensures Replay(w, w.init, []) == w.init
  {
  }

  /** Between two generations a start is refused, unless the old journal had no records. */
  lemma StartBetween<B, C>(w: World<B, C>, h: History<C>, g: nat, host: HostState)
    requires h.Valid() && Ideal(w) && HostBetween(w, h, g, host)
    ensures KeptRecords(host) != [] ==> OpenSealed(w, host).Err?
    ensures KeptRecords(host) == [] ==> HostStands(w, h, (g, 0), host)
  {
    var records := KeptRecords(host);
    if records != [] {
      assert SealedAt(w, h, (g - 1, 0 + 1), records[0]);
      hide Split, Keeps;
      KeptReadsBack(host, host.snapshot, records);
      assert w.open(g - 1, 1, records[0]).Some?;
      assert w.open(g, 1, records[0]).None?;
    } else {
      hide Split, Keeps, SnapshotOf;
      assert h.folds[g - 1] <= h.End(g);
    }
  }

  lemma LeqTransitive(a: Mark, b: Mark, c: Mark)
    requires Leq(a, b) && Leq(b, c)
    ensures Leq(a, c)
  {
  }

  /** The place a start reaches, when it reaches one. */
  lemma StartReaches<B, C>(w: World<B, C>, s: System<B, C>) returns (m: Mark)
    requires Ideal(w) && Inv(w, s)
    requires s.place.Between? ==> KeptRecords(s.host) == []
    ensures m == PlaceMark(s.place) && HostStands(w, s.hist, m, s.host) && Leq(s.confirmed, m)
    ensures s.hist.Abs(m) <= |s.hist.line|
    ensures OpenSealed(w, s.host) == Ok(Opened(Replay(w, w.init, s.hist.line[..s.hist.Abs(m)]), m.0, m.1, m.0 == 1 || m.1 == 0))
  {
    m := PlaceMark(s.place);
    hide HostStands, HostBetween, Replay, QueueOk, OpenSealed;
    if s.place.Between? {
      StartBetween(w, s.hist, s.place.generation, s.host);
    }
    StartFrom(w, s.hist, m, s.host);
  }

  /** An honest start is never behind the witness. */
  lemma WitnessLetsThrough(marks: seq<(Mark, nat)>, accepts: seq<(Mark, nat)>, confirmed: Mark, m: Mark)
    requires forall i :: 0 <= i < |marks| ==> Leq(marks[i].0, confirmed)
    requires Leq(confirmed, m)
    ensures MayStart(m, Witnessed(Newest(marks), accepts)) == Ok(false)
  {
    NewestIsGreatest(marks);
    if marks != [] {
      var i :| 0 <= i < |marks| && marks[i] == Newest(marks).value;
      LeqTransitive(marks[i].0, confirmed, m);
    }
  }

  lemma CutAgrees<C>(h: History<C>, m: Mark, fold: bool)
    requires h.Valid() && h.OnLine(m) && (fold ==> m.0 + 1 < U64)
    ensures var h' := NextHistory(h.Cut(m), [], fold);
            && Agree(h, h', m) && h'.Abs(m) == h.Abs(m) == |h'.line| && h'.line == h.line[..h.Abs(m)]
            && |h'.folds| == (if fold then m.0 + 1 else m.0)
            && (fold ==> h'.folds[m.0] == |h'.line| == h'.End(m.0))
  {
    CutIsValid(h, m);
    var c := h.Cut(m);
    assert c.End(m.0) - c.folds[m.0 - 1] + 2 < U64;
    WrittenOn(c, [], fold, m);
    assert c.line + [] == c.line;
  }

  /** What a start queues carries the line from `m` to its end. */
  lemma RestartQueue<B, C>(w: World<B, C>, h: History<C>, m: Mark, fold: bool, folded: bytes)
    requires h.Valid() && h.OnLine(m) && h.Abs(m) == |h.line| && |h.folds| == (if fold then m.0 + 1 else m.0)
    requires fold ==> h.folds[m.0] == |h.line| == h.End(m.0) && folded != []
    requires fold ==> w.open(0, 0, folded) == Some(Snapshot(m.0 + 1, Replay(w, w.init, h.line)))
    ensures QueueOk(w, h, m, if fold then [Fold(m.0 + 1, folded)] else [])
    ensures h.Top() == if fold then (m.0 + 1, 0) else m
  {
    hide QueueOk, SnapshotOf, Replay;
    if fold {
      FoldedSnapshot(w, h, m.0 + 1, folded);
      FoldOk(w, h, m, folded);
      assert h.End(m.0 + 1) == |h.line|;
    } else {
      EndOk(w, h, m);
    }
  }

  lemma RestartKeeps<B, C>(w: World<B, C>, s: System<B, C>, e: Event<C>)
    requires Ideal(w) && Inv(w, s) && Enabled(w, s, e) && e.Restart?
    ensures Inv(w, Next(w, s, e))
    ensures Next(w, s, e).up <==> !(s.place.Between? && KeptRecords(s.host) != [])
    ensures Next(w, s, e).up ==>
              var (m, h, h') := (PlaceMark(s.place), s.hist, Next(w, s, e).hist);
              && Next(w, s, e).confirmed == m && h.OnLine(m) && h'.OnLine(m)
              && h'.Abs(m) == h.Abs(m) <= |h.line| && h'.line == h.line[..h.Abs(m)]
    ensures !Next(w, s, e).up ==> Next(w, s, e) == s
  {
    hide HostStands, HostBetween, OpenSealed, QueueOk, Replay, SnapshotOf, KeptRecords;
    if s.place.Between? && KeptRecords(s.host) != [] {
      StartBetween(w, s.hist, s.place.generation, s.host);
    } else {
      var m := StartReaches(w, s);
      WitnessLetsThrough(s.marks, e.accepts, s.confirmed, m);
      StandsOnLine(w, s.hist, m, s.host);
      var fold := m.0 == 1 || m.1 == 0;
      RestartedKeeps(w, s, m, fold, e.folded);
      assert Next(w, s, e) == Restarted(w, s, m, fold, e.folded);
    }
  }

  /** The state after a start from files that stand at `m`. */
  ghost function Restarted<B, C>(w: World<B, C>, s: System<B, C>, m: Mark, fold: bool, folded: bytes): System<B, C>
    requires s.hist.Valid() && s.hist.OnLine(m) && s.hist.Abs(m) <= |s.hist.line|
  {
    s.(up := true, book := Replay(w, w.init, s.hist.line[..s.hist.Abs(m)]), confirmed := m, place := Stands(m),
       generation := if fold then m.0 + 1 else m.0, next := if fold then 1 else m.1 + 1,
       queue := if fold then [Fold(m.0 + 1, folded)] else [],
       hist := NextHistory(s.hist.Cut(m), [], fold))
  }

  lemma RestartedKeeps<B, C>(w: World<B, C>, s: System<B, C>, m: Mark, fold: bool, folded: bytes)
    requires Inv(w, s) && HostStands(w, s.hist, m, s.host) && Leq(s.confirmed, m) && s.hist.OnLine(m)
    requires fold == (m.0 == 1 || m.1 == 0) && s.hist.Abs(m) <= |s.hist.line|
    requires fold ==> m.0 + 1 < U64 && folded != [] &&
                      w.open(0, 0, folded) == Some(Snapshot(m.0 + 1, Replay(w, w.init, s.hist.line[..s.hist.Abs(m)])))
    ensures var s' := Restarted(w, s, m, fold, folded);
            && Inv(w, s') && s'.hist.OnLine(m)
            && s'.hist.Abs(m) == s.hist.Abs(m) && s'.hist.line == s.hist.line[..s.hist.Abs(m)]
  {
    hide HostStands, HostBetween, QueueOk, Replay, Agree;
    var h' := NextHistory(s.hist.Cut(m), [], fold);
    CutAgrees(s.hist, m, fold);
    AgreementIsValid(s.hist, h', m);
    HostStandsAgrees(w, s.hist, h', m, s.host);
    RestartQueue(w, h', m, fold, folded);
    forall i | 0 <= i < |s.marks| ensures Leq(s.marks[i].0, m) {
      LeqTransitive(s.marks[i].0, s.confirmed, m);
    }
  }

  lemma StandsOnLine<B, C>(w: World<B, C>, h: History<C>, m: Mark, host: HostState)
    requires HostStands(w, h, m, host)
    ensures h.OnLine(m)
  {
  }

  lemma FoldedSnapshot<B, C>(w: World<B, C>, h: History<C>, g: nat, b: bytes)
    requires 1 <= g <= |h.folds| && h.folds[g - 1] == |h.line| && b != []
    requires w.open(0, 0, b) == Some(Snapshot(g, Replay(w, w.init, h.line)))
    ensures SnapshotOf(w, h, g, b)
  {
    assert h.line[..|h.line|] == h.line;
  }

  // ---- every run -------------------------------------------------------------------------------------------------

  /** The changes the host has confirmed. */
  ghost function Confirmed<B, C>(s: System<B, C>): seq<C>
    requires s.hist.Valid() && s.hist.OnLine(s.confirmed)
  {
    AbsWithin(s.hist, s.confirmed);
    s.hist.line[..s.hist.Abs(s.confirmed)]
  }

  lemma StepKeepsInvariant<B, C>(w: World<B, C>, s: System<B, C>, e: Event<C>)
    requires Ideal(w) && Inv(w, s) && Enabled(w, s, e)
    ensures Inv(w, Next(w, s, e))
  {
    match e {
      case Write(_, _, _) => WriteKeeps(w, s, e);
      case Deliver => DeliverKeeps(w, s, e);
      case DeliverButAnswerLost => DeliverKeeps(w, s, e);
      case Refuse =>
      case StopBetweenFiles => StopBetweenKeeps(w, s);
      case HostReopens => ReopenStands(w, s);
      case Crash => hide QueueOk, HostStands, HostBetween;
      case Restart(_, _) => RestartKeeps(w, s, e);
      case WriteMark(_) => hide QueueOk, HostStands, HostBetween;
    }
  }

  /** What `s` had confirmed is still there in `s'`, in the same places, and still confirmed. */
  ghost predicate KeepsConfirmed<B, C>(s: System<B, C>, s': System<B, C>) {
    && s.hist.Valid() && s.hist.OnLine(s.confirmed) && s'.hist.Valid() && s'.hist.OnLine(s'.confirmed)
    && Confirmed(s) <= Confirmed(s') && Leq(s.confirmed, s'.confirmed)
  }

  lemma KeepsConfirmedTwice<B, C>(s: System<B, C>, s': System<B, C>, s'': System<B, C>)
    requires KeepsConfirmed(s, s') && KeepsConfirmed(s', s'')
    ensures KeepsConfirmed(s, s'')
  {
    hide Confirmed;
    assert Confirmed(s'')[..|Confirmed(s)|] == Confirmed(s')[..|Confirmed(s)|];
  }

  lemma WriteKeepsConfirmed<B, C>(w: World<B, C>, s: System<B, C>, e: Event<C>)
    requires Inv(w, s) && Enabled(w, s, e) && e.Write? && Inv(w, Next(w, s, e))
    ensures KeepsConfirmed(s, Next(w, s, e))
  {
    hide QueueOk, HostStands, HostBetween, Written, Replay;
    BelowTop(s.hist, s.confirmed);
    WrittenOn(s.hist, e.changes, Full(s.next, |e.sealed|), s.confirmed);
  }

  lemma DeliverKeepsConfirmed<B, C>(w: World<B, C>, s: System<B, C>)
    requires Inv(w, s) && Enabled(w, s, Deliver) && Inv(w, Next(w, s, Deliver))
    ensures KeepsConfirmed(s, Next(w, s, Deliver))
  {
    hide QueueOk, HostStands, HostBetween, Offer, Inv;
    DeliverKeeps(w, s, Deliver);
    HeadIsNext(w, s);
    LeqIsFewer(s.hist, s.confirmed, JobMark(s.queue[0]));
  }

  lemma HeadIsNext<B, C>(w: World<B, C>, s: System<B, C>)
    requires Inv(w, s) && s.up && s.queue != []
    ensures s.hist.Valid() && s.hist.OnLine(s.confirmed) && s.hist.OnLine(JobMark(s.queue[0]))
    ensures Leq(s.confirmed, JobMark(s.queue[0]))
  {
    hide HostStands, HostBetween, SealedAt, SnapshotOf, Replay;
    AfterHead(w, s.hist, s.confirmed, s.queue);
  }

  lemma RestartKeepsConfirmed<B, C>(w: World<B, C>, s: System<B, C>, e: Event<C>)
    requires Ideal(w) && Inv(w, s) && Enabled(w, s, e) && e.Restart? && Inv(w, Next(w, s, e))
    ensures KeepsConfirmed(s, Next(w, s, e))
  {
    hide QueueOk, HostStands, HostBetween, OpenSealed, Next, Offer, Ideal, Enabled, KeepsConfirmed, KeptRecords, Replay;
    RestartKeeps(w, s, e);
    if Next(w, s, e).up {
      CutKeepsConfirmed(s, Next(w, s, e));
    } else {
      SameKeepsConfirmed(s);
    }
  }

  lemma CutKeepsConfirmed<B, C>(s: System<B, C>, s': System<B, C>)
    requires s.hist.Valid() && s.hist.OnLine(s.confirmed) && s'.hist.Valid() && s'.hist.OnLine(s'.confirmed)
    requires s.hist.OnLine(s'.confirmed) && Leq(s.confirmed, s'.confirmed)
    requires s'.hist.Abs(s'.confirmed) == s.hist.Abs(s'.confirmed) <= |s.hist.line|
    requires s'.hist.line == s.hist.line[..s.hist.Abs(s'.confirmed)]
    ensures KeepsConfirmed(s, s')
  {
    LeqIsFewer(s.hist, s.confirmed, s'.confirmed);
  }

  lemma SameKeepsConfirmed<B, C>(s: System<B, C>)
    requires s.hist.Valid() && s.hist.OnLine(s.confirmed)
    ensures KeepsConfirmed(s, s)
  {
  }

  /** No step loses a confirmed change or moves the confirmed mark back. */
  lemma StepKeepsConfirmed<B, C>(w: World<B, C>, s: System<B, C>, e: Event<C>)
    requires Ideal(w) && Inv(w, s) && Enabled(w, s, e)
    ensures Inv(w, Next(w, s, e)) && KeepsConfirmed(s, Next(w, s, e))
  {
    hide Inv, Enabled, Next, KeepsConfirmed, Ideal;
    StepKeepsInvariant(w, s, e);
    match e {
      case Write(_, _, _) => WriteKeepsConfirmed(w, s, e);
      case Deliver => DeliverKeepsConfirmed(w, s);
      case Restart(_, _) => RestartKeepsConfirmed(w, s, e);
      case _ => OtherKeepsConfirmed(w, s, e);
    }
  }

  lemma OtherKeepsConfirmed<B, C>(w: World<B, C>, s: System<B, C>, e: Event<C>)
    requires Inv(w, s) && Enabled(w, s, e) && !e.Write? && !e.Deliver? && !e.Restart?
    ensures KeepsConfirmed(s, Next(w, s, e))
  {
    hide QueueOk, HostStands, HostBetween, Offer;
  }

  ghost predicate Runs<B, C>(w: World<B, C>, s: System<B, C>, es: seq<Event<C>>)
    decreases |es|
  {
    es == [] || (Enabled(w, s, es[0]) && Runs(w, Next(w, s, es[0]), es[1..]))
  }

  ghost function After<B, C>(w: World<B, C>, s: System<B, C>, es: seq<Event<C>>): System<B, C>
    requires Runs(w, s, es)
    decreases |es|
  {
    if es == [] then s else After(w, Next(w, s, es[0]), es[1..])
  }

  lemma {:induction false} RunKeeps<B, C>(w: World<B, C>, s: System<B, C>, es: seq<Event<C>>)
    requires Ideal(w) && Inv(w, s) && Runs(w, s, es)
    ensures Inv(w, After(w, s, es))
    ensures KeepsConfirmed(s, After(w, s, es))
    decreases |es|
  {
    if es == [] {
      NothingIsLost(w, s);
    } else {
      hide Inv, Next, Enabled, KeepsConfirmed;
      StepKeepsConfirmed(w, s, es[0]);
      RunKeeps(w, Next(w, s, es[0]), es[1..]);
      KeepsConfirmedTwice(s, Next(w, s, es[0]), After(w, s, es));
    }
  }

  lemma NothingIsLost<B, C>(w: World<B, C>, s: System<B, C>)
    requires Inv(w, s)
    ensures KeepsConfirmed(s, s)
  {
  }

  lemma StartsWell<B, C>(w: World<B, C>)
    ensures Inv(w, Initial(w))
  {
    NothingKept(HostState([], [], None));
  }

  /** A state some run of the system reaches from an empty host. */
  ghost predicate Reachable<B, C(!new)>(w: World<B, C>, s: System<B, C>) {
    exists es :: Runs(w, Initial(w), es) && s == After(w, Initial(w), es)
  }

  lemma ReachableInvariant<B, C(!new)>(w: World<B, C>, s: System<B, C>)
    requires Ideal(w) && Reachable(w, s)
    ensures Inv(w, s)
  {
    hide Inv;
    var es :| Runs(w, Initial(w), es) && s == After(w, Initial(w), es);
    StartsWell(w);
    RunKeeps(w, Initial(w), es);
  }

  // ---- the promises ------------------------------------------------------------------------------------------------

  /** The host's journal file holds exactly the records 1..k of a generation, each once and in
      order, sealed over the changes of the line at those places; the snapshot beside it is
      that generation's, or, only after a fold broken off between its two files, the next one's. */
  lemma HostKeepsTheLine<B, C(!new)>(w: World<B, C>, s: System<B, C>) returns (m: Mark)
    requires Ideal(w) && Reachable(w, s)
    ensures s.hist.OnLine(m) && |KeptRecords(s.host)| == m.1
    ensures s.host.journal == JournalBytes(KeptRecords(s.host))
    ensures forall i :: 0 <= i < m.1 ==> SealedAt(w, s.hist, (m.0, i + 1), KeptRecords(s.host)[i])
    ensures if m.0 == 1 then s.host.snapshot == [] || SnapshotOf(w, s.hist, 2, s.host.snapshot)
            else SnapshotOf(w, s.hist, m.0, s.host.snapshot) || SnapshotOf(w, s.hist, m.0 + 1, s.host.snapshot)
  {
    ReachableInvariant(w, s);
    hide QueueOk, SealedAt, SnapshotOf, KeptRecords;
    match s.place {
      case Stands(at) => m := at;
      case Between(g) => m := (g - 1, s.hist.End(g - 1) - s.hist.folds[g - 2]);
    }
  }

  /** Never a wrong book: whenever a start succeeds, in any state of any run, it rebuilds the
      book after a prefix of the line that contains everything confirmed; and it fails only
      when a fold was broken off between its two files over a journal with records in it. */
  lemma StartIsRight<B, C(!new)>(w: World<B, C>, s: System<B, C>)
    requires Ideal(w) && Reachable(w, s)
    ensures s.hist.Valid() && s.hist.OnLine(s.confirmed)
    ensures OpenSealed(w, s.host).Err? <==> s.place.Between? && KeptRecords(s.host) != []
    ensures OpenSealed(w, s.host).Ok? ==>
              var o := OpenSealed(w, s.host).value;
              var m := (o.generation, o.replayed);
              && s.hist.OnLine(m) && Leq(s.confirmed, m) && s.hist.Abs(m) <= |s.hist.line|
              && o.rows == Replay(w, w.init, s.hist.line[..s.hist.Abs(m)])
              && Confirmed(s) <= s.hist.line[..s.hist.Abs(m)]
  {
    ReachableInvariant(w, s);
    hide QueueOk, OpenSealed, HostStands, HostBetween, Replay;
    if s.place.Between? && KeptRecords(s.host) != [] {
      StartBetween(w, s.hist, s.place.generation, s.host);
    } else {
      var m := StartReaches(w, s);
      StandsOnLine(w, s.hist, m, s.host);
      LeqIsFewer(s.hist, s.confirmed, m);
    }
  }

  /** What has been confirmed survives everything that follows: every later state of the run
      still has those changes, in those places, and in its book. */
  lemma ConfirmedIsNeverLost<B, C(!new)>(w: World<B, C>, s: System<B, C>, es: seq<Event<C>>)
    requires Ideal(w) && Reachable(w, s) && Runs(w, s, es)
    ensures var s' := After(w, s, es);
            KeepsConfirmed(s, s') && Confirmed(s) <= s'.hist.line && s'.book == Replay(w, w.init, s'.hist.line)
  {
    hide QueueOk, HostStands, HostBetween, Reachable, Runs, After, Replay, Ideal;
    ReachableInvariant(w, s);
    RunKeeps(w, s, es);
    var s' := After(w, s, es);
    assert s'.hist.line[..|Confirmed(s)|] == Confirmed(s')[..|Confirmed(s)|];
  }

  /** The host takes whatever the writer offers next, however often it was offered before. */
  lemma NeverRefusedByTheHost<B, C(!new)>(w: World<B, C>, s: System<B, C>)
    requires Ideal(w) && Reachable(w, s) && s.up && s.queue != []
    ensures Offer(s.host, s.queue[0]).0
    ensures Next(w, s, Deliver).confirmed == JobMark(s.queue[0]) && Next(w, s, Deliver).queue == s.queue[1..]
  {
    ReachableInvariant(w, s);
    HeadIsTaken(w, s);
    DeliverKeeps(w, s, Deliver);
  }

  lemma StandsAtTheEnd<B, C(!new)>(w: World<B, C>, s: System<B, C>)
    requires Inv(w, s) && s.up && s.queue == []
    ensures s.hist.Valid() && HostStands(w, s.hist, s.confirmed, s.host)
    ensures s.hist.Abs(s.confirmed) == |s.hist.line| && s.book == Replay(w, w.init, s.hist.line)
  {
    hide OpenSealed, HostStands, HostBetween, Replay;
  }

  /** With nothing left in the queue, a start from the host's files is the book in memory. */
  lemma DrainedIsTheBook<B, C(!new)>(w: World<B, C>, s: System<B, C>)
    requires Ideal(w) && Reachable(w, s) && s.up && s.queue == []
    ensures OpenSealed(w, s.host).Ok? && OpenSealed(w, s.host).value.rows == s.book
  {
    ReachableInvariant(w, s);
    hide OpenSealed, HostStands, HostBetween, Replay, Reachable, Ideal;
    StandsAtTheEnd(w, s);
    StartFrom(w, s.hist, s.confirmed, s.host);
    assert s.hist.line[..|s.hist.line|] == s.hist.line;
  }

  /** No mark ever written lies beyond where a later start stands, so the witness never refuses
      an honest start, whatever has been acknowledged, and uses up no acknowledgement. */
  lemma WitnessNeverRefusesHonestStart<B, C(!new)>(w: World<B, C>, s: System<B, C>, accepts: seq<(Mark, nat)>)
    requires Ideal(w) && Reachable(w, s) && OpenSealed(w, s.host).Ok?
    ensures var o := OpenSealed(w, s.host).value;
            && (forall i :: 0 <= i < |s.marks| ==> Leq(s.marks[i].0, (o.generation, o.replayed)))
            && MayStart((o.generation, o.replayed), Witnessed(Newest(s.marks), accepts)) == Ok(false)
  {
    StartIsRight(w, s);
    ReachableInvariant(w, s);
    hide OpenSealed, HostStands, HostBetween, QueueOk, Replay;
    var o := OpenSealed(w, s.host).value;
    var m := (o.generation, o.replayed);
    WitnessLetsThrough(s.marks, accepts, s.confirmed, m);
    forall i | 0 <= i < |s.marks| ensures Leq(s.marks[i].0, m) {
      LeqTransitive(s.marks[i].0, s.confirmed, m);
    }
  }

  /** A fold read back: once the host has taken a sealed book, a start finds exactly its rows, at the
      beginning of its generation, whatever lay there before; and it folds again at once. */
  lemma FoldReadsBack<B, C>(w: World<B, C>, h: HostState, g: nat, rows: B, sealed: bytes)
    requires sealed != [] && w.open(0, 0, sealed) == Some(Snapshot(g, rows))
    ensures OpenSealed(w, PutSnapshot(h, sealed)) == Ok(Opened(rows, g, 0, true))
    ensures LastNumber(PutSnapshot(h, sealed).journal) == Ok(None)
  {
    assert Split([]) == Ok(Reading([], true));
  }
}
