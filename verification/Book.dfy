/** The sealed book: changes made in memory, written behind to a host that may answer, lose its
    answer, or stop, folded into snapshots, and read back after a crash. */
module Book {
  import opened Wrappers
  import opened Journal
  import opened Host
  import opened Witness

  /** What travels under the seal: the whole book at the start of a generation, or one change. */
  datatype Plain<B, C> = Snapshot(generation: nat, rows: B) | Change(change: C)

  /** An empty book, what a change does to it, and what sealed bytes open to at a place:
      (0, 0) for a snapshot, (generation, number) for a record. */
  datatype World<!B, !C> = World(init: B, apply: (B, C) -> B, open: (nat, nat, bytes) -> Option<Plain<B, C>>)

  /** The seal is ideal: no bytes open at two places. */
  ghost predicate Ideal<B, C>(w: World<B, C>) {
    forall g, n, g', n', b :: w.open(g, n, b).Some? && w.open(g', n', b).Some? ==> g == g' && n == n'
  }

  const CHANGES_PER_SNAPSHOT := 2_000

  function Replay<B, C>(w: World<B, C>, b: B, changes: seq<C>): B {
    if changes == [] then b else Replay(w, w.apply(b, changes[0]), changes[1..])
  }

  lemma {:induction false} ReplayInTwo<B, C>(w: World<B, C>, b: B, x: seq<C>, y: seq<C>)
    ensures Replay(w, b, x + y) == Replay(w, Replay(w, b, x), y)
  {
    if x == [] {
      assert x + y == y;
    } else {
      ReplayInTwo(w, w.apply(b, x[0]), x[1..], y);
      assert (x + y)[1..] == x[1..] + y;
    }
  }

  // ---- a start ---------------------------------------------------------------------------------

  datatype Opened<B> = Opened(rows: B, generation: nat, replayed: nat, fold: bool)

  /** The journal's records, each opened at its place and applied. */
  function OpenRecords<B, C>(w: World<B, C>, g: nat, n: nat, records: seq<bytes>, b: B): Result<B, string>
    decreases |records|
  {
    if records == [] then Ok(b)
    else
      match w.open(g, n + 1, records[0])
      case Some(Change(c)) => OpenRecords(w, g, n + 1, records[1..], w.apply(b, c))
      case _ => Err("a record of the book does not open")
  }

  function OpenSealed<B, C>(w: World<B, C>, h: HostState): Result<Opened<B>, string> {
    var start: Result<(nat, B), string> :=
      if h.snapshot == [] then Ok((1, w.init))
      else
        match w.open(0, 0, h.snapshot)
        case Some(Snapshot(g, rows)) => Ok((g, rows))
        case _ => Err("the book's snapshot does not open");
    if start.Err? then Err(start.error)
    else
      match Split(h.journal)
      case Err(e) => Err(e)
      case Ok(reading) =>
        match OpenRecords(w, start.value.0, 0, reading.records, start.value.1)
        case Err(e) => Err(e)
        case Ok(rows) => Ok(Opened(rows, start.value.0, |reading.records|, h.snapshot == [] || reading.legacy))
  }

  // ---- what is queued for the host -----------------------------------------------------------------

  datatype Job = Record(generation: nat, number: nat, sealed: bytes) | Fold(generation: nat, sealed: bytes)

  function JobMark(job: Job): Mark {
    match job
    case Record(g, n, _) => (g, n)
    case Fold(g, _) => (g, 0)
  }

  function Records(g: nat, n: nat, sealed: seq<bytes>): seq<Job>
    decreases |sealed|
  {
    if sealed == [] then [] else [Record(g, n, sealed[0])] + Records(g, n + 1, sealed[1..])
  }

  /** Whether writing `count` more records fills the journal. */
  predicate Full(next: nat, count: nat)
    requires next > 0
  {
    next - 1 + count >= CHANGES_PER_SNAPSHOT
  }

  /** The jobs of one writing: its records in order, and the fold behind them when it is due. */
  function Written(g: nat, next: nat, sealed: seq<bytes>, folded: bytes): seq<Job>
    requires next > 0
  {
    Records(g, next, sealed) + if Full(next, |sealed|) then [Fold(g + 1, folded)] else []
  }

  /** Where the enclave is in the line, as it keeps it. */
  class Kept {
    var generation: nat
    var next: nat
    var since: nat
    var queue: seq<Job>

    constructor (o: Opened<()>)
      ensures generation == o.generation && next == o.replayed + 1 && since == o.replayed && queue == []
    {
      generation, next, since, queue := o.generation, o.replayed + 1, o.replayed, [];
    }

    /** Records sealed to their places and queued; the book folded when the journal is full. */
    method WriteDown(sealed: seq<bytes>, folded: bytes)
      requires next > 0 && since == next - 1
      modifies this
      ensures queue == old(queue) + Written(old(generation), old(next), sealed, folded)
      ensures if Full(old(next), |sealed|) then generation == old(generation) + 1 && next == 1
              else generation == old(generation) && next == old(next) + |sealed|
      ensures since == next - 1
    {
      var i := 0;
      while i < |sealed|
        invariant i <= |sealed| && generation == old(generation)
        invariant next == old(next) + i && since == next - 1
        invariant queue + Records(generation, next, sealed[i..]) == old(queue) + Records(generation, old(next), sealed)
      {
        ghost var rest := Records(generation, next + 1, sealed[i..][1..]);
        assert sealed[i..][1..] == sealed[i + 1..];
        assert queue + ([Record(generation, next, sealed[i])] + rest) == (queue + [Record(generation, next, sealed[i])]) + rest;
        queue := queue + [Record(generation, next, sealed[i])];
        next := next + 1;
        since := since + 1;
        i := i + 1;
      }
      assert queue + [] == queue;
      if since >= CHANGES_PER_SNAPSHOT {
        WriteOut(folded);
      }
    }

    method WriteOut(folded: bytes)
      modifies this
      ensures queue == old(queue) + [Fold(old(generation) + 1, folded)]
      ensures generation == old(generation) + 1 && next == 1 && since == 0
    {
      queue := queue + [Fold(generation + 1, folded)];
      generation := generation + 1;
      next := 1;
      since := 0;
    }
  }

  /** One job handed to the host: whether it was taken, and what the host keeps then. */
  function Offer(h: HostState, job: Job): (bool, HostState) {
    match job
    case Record(g, n, sealed) =>
      var (res, h') := Append(h, Given(g, n, sealed));
      (res.Ok?, h')
    case Fold(_, sealed) => (true, PutSnapshot(h, sealed))
  }

  // ---- the history -----------------------------------------------------------------------------------

  /** Every change of the surviving line, and how many there were when each generation began. */
  datatype History<C> = History(line: seq<C>, folds: seq<nat>) {
    /** Where generation `g` ends in the line. */
    function End(g: nat): nat
      requires 1 <= g <= |folds|
    {
      if g < |folds| then folds[g] else |line|
    }

    predicate Valid() {
      && 1 <= |folds| < U64 && folds[0] == 0
      && (forall g :: 1 <= g <= |folds| ==> folds[g - 1] <= End(g) <= |line| && End(g) - folds[g - 1] + 2 < U64)
      && End(1) == 0
    }

    predicate OnLine(m: Mark) {
      1 <= m.0 <= |folds| && folds[m.0 - 1] + m.1 <= End(m.0)
    }

    /** How many changes there are up to a place. */
    function Abs(m: Mark): nat
      requires OnLine(m)
    {
      folds[m.0 - 1] + m.1
    }

    /** The place of the last change. */
    function Top(): Mark
      requires Valid()
    {
      (|folds|, End(|folds|) - folds[|folds| - 1])
    }

    /** The history up to a place on its line. */
    function Cut(m: Mark): History<C> {
      if Valid() && OnLine(m) then History(line[..Abs(m)], folds[..m.0]) else this
    }
  }

  lemma {:induction false} LaterGenerations<C>(h: History<C>, g: nat, g': nat)
    requires h.Valid() && 1 <= g < g' <= |h.folds|
    ensures h.End(g) <= h.folds[g' - 1]
    decreases g'
  {
    assert h.End(g' - 1) == h.folds[g' - 1];
    if g + 1 < g' {
      LaterGenerations(h, g, g' - 1);
    }
  }

  /** Places compare like the numbers of changes up to them. */
  lemma LeqIsFewer<C>(h: History<C>, a: Mark, b: Mark)
    requires h.Valid() && h.OnLine(a) && h.OnLine(b) && Leq(a, b)
    ensures h.Abs(a) <= h.Abs(b) <= |h.line|
  {
    if a.0 < b.0 { LaterGenerations(h, a.0, b.0); }
  }

  lemma CutIsValid<C>(h: History<C>, m: Mark)
    requires h.Valid() && h.OnLine(m)
    ensures h.Cut(m).Valid() && h.Cut(m).OnLine(m) && h.Cut(m).Top() == m && h.Cut(m).Abs(m) == h.Abs(m) == |h.Cut(m).line|
  {
    var c := h.Cut(m);
    forall g | 1 <= g <= m.0 ensures c.folds[g - 1] <= c.End(g) <= |c.line| && c.End(g) - c.folds[g - 1] + 2 < U64 {
      if g < m.0 { LaterGenerations(h, g, m.0); }
    }
    if m.0 > 1 { LaterGenerations(h, 1, m.0); }
  }

  // ---- the whole system ----------------------------------------------------------------------------------

  /** Where the host's files stand: after a place in the line, or between two generations, with
      the new snapshot beside the old journal. */
  datatype HostPlace = Stands(mark: Mark) | Between(generation: nat)

  /** The enclave's memory and writer, the host, the witness's marks; and, for the statements
      only, the history and where the host stands in it. */
  datatype System<B, C> = System(
    up: bool, book: B, generation: nat, next: nat, queue: seq<Job>, confirmed: Mark,
    host: HostState, marks: seq<(Mark, nat)>,
    hist: History<C>, place: HostPlace)

  datatype Event<C> =
    | Write(changes: seq<C>, sealed: seq<bytes>, folded: bytes)
    | Deliver
    | DeliverButAnswerLost
    | Refuse
    | StopBetweenFiles
    | HostReopens
    | Crash
    | Restart(folded: bytes, accepts: seq<(Mark, nat)>)
    | WriteMark(at: nat)

  function Initial<B, C>(w: World<B, C>): System<B, C> {
    System(false, w.init, 1, 1, [], (1, 0), HostState([], [], None), [], History([], [0]), Stands((1, 0)))
  }

  ghost predicate Enabled<B, C>(w: World<B, C>, s: System<B, C>, e: Event<C>) {
    match e
    case Write(changes, sealed, folded) =>
      && s.up && s.next > 0 && |sealed| == |changes|
      && s.next + |changes| + 1 < U64 && s.generation + 1 < U64
      && (forall i :: 0 <= i < |sealed| ==>
            Framable(sealed[i]) && w.open(s.generation, s.next + i, sealed[i]) == Some(Change(changes[i])))
      && (Full(s.next, |changes|) ==>
            folded != [] && w.open(0, 0, folded) == Some(Snapshot(s.generation + 1, Replay(w, s.book, changes))))
    case Deliver => s.up && s.queue != []
    case DeliverButAnswerLost => s.up && s.queue != []
    case Refuse => true
    case StopBetweenFiles => s.up && s.queue != [] && s.queue[0].Fold?
    case HostReopens => true
    case Crash => s.up
    case Restart(folded, _) =>
      && !s.up
      && (match OpenSealed(w, s.host)
          case Ok(o) => o.fold ==>
            o.generation + 1 < U64 && folded != [] && w.open(0, 0, folded) == Some(Snapshot(o.generation + 1, o.rows))
          case Err(_) => true)
    case WriteMark(_) => s.up
  }

  function NextHistory<C>(h: History<C>, changes: seq<C>, full: bool): History<C> {
    var line := h.line + changes;
    History(line, if full then h.folds + [|line|] else h.folds)
  }

  ghost function Next<B, C>(w: World<B, C>, s: System<B, C>, e: Event<C>): System<B, C>
    requires Enabled(w, s, e)
  {
    match e
    case Write(changes, sealed, folded) =>
      var full := Full(s.next, |sealed|);
      s.(book := Replay(w, s.book, changes),
         queue := s.queue + Written(s.generation, s.next, sealed, folded),
         generation := if full then s.generation + 1 else s.generation,
         next := if full then 1 else s.next + |sealed|,
         hist := NextHistory(s.hist, changes, full))
    case Deliver =>
      var job := s.queue[0];
      var (taken, host') := Offer(s.host, job);
      if taken then
        s.(host := host', place := Stands(JobMark(job)), queue := s.queue[1..],
           confirmed := if Leq(JobMark(job), s.confirmed) then s.confirmed else JobMark(job))
      else s.(host := host')
    case DeliverButAnswerLost =>
      var (taken, host') := Offer(s.host, s.queue[0]);
      if taken then s.(host := host', place := Stands(JobMark(s.queue[0]))) else s.(host := host')
    case Refuse => s
    case StopBetweenFiles =>
      var job := s.queue[0];
      s.(host := TornSnapshot(s.host, job.sealed),
         place := if s.place == Stands(JobMark(job)) then s.place else Between(job.generation))
    case HostReopens => s.(host := Reopened(s.host))
    case Crash => s.(up := false, queue := [])
    case Restart(folded, accepts) =>
      var start := OpenSealed(w, s.host);
      if start.Err? then s
      else
        var o := start.value;
        var m := (o.generation, o.replayed);
        if MayStart(m, Witnessed(Newest(s.marks), accepts)).Err? then s
        else
          s.(up := true, book := o.rows, confirmed := m, place := Stands(m),
             generation := if o.fold then o.generation + 1 else o.generation,
             next := if o.fold then 1 else o.replayed + 1,
             queue := if o.fold then [Fold(o.generation + 1, folded)] else [],
             hist := NextHistory(s.hist.Cut(m), [], o.fold))
    case WriteMark(at) => s.(marks := s.marks + [(s.confirmed, at)])
  }

  // ---- the invariant ------------------------------------------------------------------------------------------

  ghost predicate SealedAt<B, C>(w: World<B, C>, h: History<C>, m: Mark, b: bytes) {
    h.OnLine(m) && m.1 > 0 && h.Abs(m) <= |h.line| && Framable(b) && w.open(m.0, m.1, b) == Some(Change(h.line[h.Abs(m) - 1]))
  }

  ghost predicate SnapshotOf<B, C>(w: World<B, C>, h: History<C>, g: nat, b: bytes) {
    && 1 <= g <= |h.folds| && h.folds[g - 1] <= |h.line|
    && b != [] && w.open(0, 0, b) == Some(Snapshot(g, Replay(w, w.init, h.line[..h.folds[g - 1]])))
  }

  /** The queue carries the line on from `m`, change by change and fold by fold, to its end. */
  ghost predicate QueueOk<B, C>(w: World<B, C>, h: History<C>, m: Mark, queue: seq<Job>)
    requires h.Valid()
    decreases |queue|
  {
    && h.OnLine(m)
    && if queue == [] then m == h.Top()
       else
         match queue[0]
         case Record(g, n, sealed) =>
           (g, n) == (m.0, m.1 + 1) && SealedAt(w, h, (g, n), sealed) && QueueOk(w, h, (g, n), queue[1..])
         case Fold(g, sealed) =>
           g == m.0 + 1 && g <= |h.folds| && h.Abs(m) == h.End(m.0) && SnapshotOf(w, h, g, sealed)
           && QueueOk(w, h, (g, 0), queue[1..])
  }

  function KeptRecords(h: HostState): seq<bytes> {
    match Split(h.journal)
    case Ok(reading) => reading.records
    case Err(_) => []
  }

  /** The journal file is exactly the first `m.1` records of generation `m.0`, each once and in order. */
  ghost predicate JournalOf<B, C>(w: World<B, C>, h: History<C>, m: Mark, host: HostState) {
    && Keeps(host, host.snapshot, KeptRecords(host))
    && |KeptRecords(host)| == m.1
    && forall i :: 0 <= i < m.1 ==> SealedAt(w, h, (m.0, i + 1), KeptRecords(host)[i])
  }

  ghost predicate HostStands<B, C>(w: World<B, C>, h: History<C>, m: Mark, host: HostState) {
    && h.OnLine(m)
    && (if m.0 == 1 then host.snapshot == [] else SnapshotOf(w, h, m.0, host.snapshot))
    && JournalOf(w, h, m, host)
  }

  ghost predicate HostBetween<B, C>(w: World<B, C>, h: History<C>, g: nat, host: HostState) {
    && 2 <= g <= |h.folds| && h.folds[g - 2] <= h.End(g - 1)
    && SnapshotOf(w, h, g, host.snapshot)
    && JournalOf(w, h, (g - 1, h.End(g - 1) - h.folds[g - 2]), host)
  }

  function PlaceMark(p: HostPlace): Mark {
    match p
    case Stands(m) => m
    case Between(g) => (g, 0)
  }

  ghost predicate Inv<B, C>(w: World<B, C>, s: System<B, C>) {
    && s.hist.Valid()
    && s.generation == s.hist.Top().0 && s.next == s.hist.Top().1 + 1
    && s.book == Replay(w, w.init, s.hist.line)
    && s.hist.OnLine(s.confirmed)
    && (forall i :: 0 <= i < |s.marks| ==> Leq(s.marks[i].0, s.confirmed))
    && (match s.place
        case Stands(m) => HostStands(w, s.hist, m, s.host)
        case Between(g) => HostBetween(w, s.hist, g, s.host))
    && Leq(s.confirmed, PlaceMark(s.place))
    && (if s.up then
          && |s.hist.folds| > 1
          && QueueOk(w, s.hist, s.confirmed, s.queue)
          && (s.place == Stands(s.confirmed) || (s.queue != [] && PlaceMark(s.place) == JobMark(s.queue[0])))
          && (s.place.Between? ==> s.queue != [] && s.queue[0].Fold?)
        else s.queue == [])
  }
}
