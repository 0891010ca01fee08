/** The host's side of the book: two files it cannot read and one number it remembers. */
module Host {
  import opened Wrappers
  import opened NumberTheory
  import opened Bytes
  import opened Journal

  /** The snapshot file, the journal file (empty when absent) and the last record taken, as
      far as this process of the host knows it. */
  datatype HostState = HostState(snapshot: bytes, journal: bytes, last: Option<nat>)

  /** What the enclave hands over for a record: generation, number, then the sealed bytes. */
  function Given(generation: nat, number: nat, sealed: bytes): bytes {
    ToFixed(generation, 8) + ToFixed(number, 8) + sealed
  }

  /** One record onto the journal. Ok(true): it was there already and nothing was written. */
  function Append(h: HostState, given: bytes): (Result<bool, string>, HostState) {
    if |given| < 17 then (Err("a record needs its place in front of it"), h)
    else
      var number := FromBe(given[8..16]);
      var known := if h.last.Some? then Ok(h.last) else LastNumber(h.journal);
      if known.Err? then (Err(known.error), h)
      else
        var h' := h.(last := known.value);
        match known.value
        case None =>
          if number == 1 then
            (Ok(false), h'.(journal := h.journal + MAGIC + Framed(number, given[16..]), last := Some(number)))
          else (Err("a record offered to an empty journal"), h')
        case Some(have) =>
          if number <= have then (Ok(true), h')
          else if number == have + 1 then
            (Ok(false), h'.(journal := h.journal + Framed(number, given[16..]), last := Some(number)))
          else (Err("a gap"), h')
  }

  /** A new snapshot takes the place of the old one and the journal goes with it. */
  function PutSnapshot(h: HostState, sealed: bytes): HostState {
    HostState(sealed, [], None)
  }

  /** The same, when the machine stops between the rename and the removal. */
  function TornSnapshot(h: HostState, sealed: bytes): HostState {
    HostState(sealed, h.journal, None)
  }

  /** A new process of the host finds the files and remembers nothing. */
  function Reopened(h: HostState): HostState {
    h.(last := None)
  }

  /** The host as it runs: files and the remembered number changed in place. */
  class Keeper {
    var snapshot: bytes
    var journal: bytes
    var last: Option<nat>

    constructor (h: HostState)
      ensures State() == h
    {
      snapshot, journal, last := h.snapshot, h.journal, h.last;
    }

    function State(): HostState
      reads this
    {
      HostState(snapshot, journal, last)
    }

    method AddRecord(given: bytes) returns (res: Result<bool, string>)
      modifies this
      ensures (res, State()) == Append(old(State()), given)
    {
      hide FromBe, Framed, LastNumber;
      if |given| < 17 {
        return Err("a record needs its place in front of it");
      }
      var number := FromBe(given[8..16]);
      var record := given[16..];
      if last.None? {
        var known := ComputeLastNumber(journal);
        if known.Err? {
          return Err(known.error);
        }
        last := known.value;
      }
      if last.None? {
        if number != 1 {
          return Err("a record offered to an empty journal");
        }
      } else if number <= last.value {
        return Ok(true);
      } else if number != last.value + 1 {
        return Err("a gap");
      }
      var first := last.None?;
      if first {
        journal := journal + MAGIC;
      }
      journal := journal + Framed(number, record);
      last := Some(number);
      return Ok(false);
    }

    method TakeSnapshot(sealed: bytes)
      modifies this
      ensures State() == PutSnapshot(old(State()), sealed)
    {
      snapshot := sealed;
      journal := [];
      last := None;
    }
  }

  // ---- what the two files hold --------------------------------------------------------------

  /** The journal file of these records: no file before the first one. */
  function JournalBytes(records: seq<bytes>): bytes {
    if records == [] then [] else MAGIC + Frames(records, 0)
  }

  /** The host keeps this snapshot and exactly these records, and what it remembers is right. */
  predicate Keeps(h: HostState, snapshot: bytes, records: seq<bytes>) {
    && h.snapshot == snapshot
    && AllFramable(records) && |records| + 1 < U64
    && h.journal == JournalBytes(records)
    && (h.last.Some? ==> records != [] && h.last.value == |records|)
  }

  lemma {:induction false} FramesAppend(records: seq<bytes>, n: nat, r: bytes)
    ensures Frames(records + [r], n) == Frames(records, n) + Framed(n + |records| + 1, r)
  {
    hide Framed;
    if records == [] {
      assert [] + [r] == [r];
      assert Frames([r], n) == Framed(n + 1, r) + [];
    } else {
      FramesAppend(records[1..], n + 1, r);
      assert (records + [r])[1..] == records[1..] + [r];
      assert (records + [r])[0] == records[0];
      Associate(Framed(n + 1, records[0]), Frames(records[1..], n + 1), Framed(n + |records| + 1, r));
    }
  }

  lemma Associate(a: bytes, b: bytes, c: bytes)
    ensures a + (b + c) == (a + b) + c
  {
  }

  lemma EmptyIsTorn(number: nat)
    requires number < U64
    ensures Torn([], number)
  {
    FrameParts(number, [0], []);
    assert StrictPrefix([], Framed(number, [0]));
  }

  /** Both sides read the kept records back out of the file. */
  lemma KeptReadsBack(h: HostState, snapshot: bytes, records: seq<bytes>)
    requires Keeps(h, snapshot, records)
    ensures Split(h.journal) == Ok(Reading(records, records == []))
    ensures LastNumber(h.journal) == Ok(if records == [] then None else Some(|records|))
  {
    hide Frames, ReadFrames, LastOf, Torn, AllFramable;
    if records != [] {
      EmptyIsTorn(|records| + 1);
      JournalReadsBack(records, []);
      assert MAGIC + Frames(records, 0) + [] == MAGIC + Frames(records, 0);
    }
  }

  lemma GivenParts(generation: nat, number: nat, sealed: bytes)
    requires generation < U64 && number < U64 && sealed != []
    ensures var g := Given(generation, number, sealed);
            |g| >= 17 && FromBe(g[8..16]) == number && g[16..] == sealed
  {
    Widths();
    ToFixedRoundTrip(generation, 8);
    ToFixedRoundTrip(number, 8);
    hide FromBe, ToFixed, Pow;
    var g := Given(generation, number, sealed);
    assert g[8..16] == ToFixed(number, 8) && g[16..] == sealed;
  }

  /** The whole behaviour of an append on a well-kept journal: the next number is added, one
      it has is answered without a write, any other is refused without one. */
  lemma AppendIsExact(h: HostState, snapshot: bytes, records: seq<bytes>, generation: nat, number: nat, sealed: bytes)
    requires Keeps(h, snapshot, records) && Framable(sealed)
    requires generation < U64 && 0 < number < U64 && |records| + 2 < U64
    ensures var (res, h') := Append(h, Given(generation, number, sealed));
            && (number == |records| + 1 ==> res == Ok(false) && Keeps(h', snapshot, records + [sealed]))
            && (number <= |records| ==> res == Ok(true) && Keeps(h', snapshot, records))
            && (number > |records| + 1 ==> res.Err? && Keeps(h', snapshot, records))
  {
    hide Frames, Split, LastNumber, FromBe, Given, Framed, MAGIC;
    KeptReadsBack(h, snapshot, records);
    GivenParts(generation, number, sealed);
    FramesAppend(records, 0, sealed);
    if records == [] {
      Associate(MAGIC, [], Framed(1, sealed));
      NoFrames();
      FirstRecord(sealed);
    } else {
      Associate(MAGIC, Frames(records, 0), Framed(|records| + 1, sealed));
    }
  }

  lemma NoFrames()
    ensures Frames([], 0) == []
  {
  }

  lemma FirstRecord(r: bytes)
    ensures [] + MAGIC + Framed(1, r) == MAGIC + ([] + Framed(1, r))
  {
  }

  /** What has no place in front of it and a byte behind is refused before anything is looked up; and
      nothing is appended to a journal of which the last number cannot be told. */
  lemma WhatCannotBePlaced(h: HostState, given: bytes)
    ensures |given| <= 16 ==> Append(h, given).0.Err? && Append(h, given).1 == h
    ensures |given| > 16 && h.last.None? && LastNumber(h.journal).Err? ==>
              Append(h, given).0.Err? && Append(h, given).1 == h
    ensures Append(h, given).0.Err? ==> Append(h, given).1.journal == h.journal && Append(h, given).1.snapshot == h.snapshot
  {
    hide FromBe, LastNumber, Framed;
  }
}
