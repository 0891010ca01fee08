/** The journal as bytes: how records are framed one after another, and what both sides read
    out of the file. */
module Journal {
  import opened Wrappers
  import opened NumberTheory
  import opened Bytes

  type bytes = seq<byte>

  /** "tokumai-journal/2" and a line feed. */
  const MAGIC: bytes := [116, 111, 107, 117, 109, 97, 105, 45, 106, 111, 117, 114, 110, 97, 108, 47, 50, 10]
  const U32: nat := 0x1_0000_0000
  const U64: nat := 0x1_0000_0000_0000_0000

  lemma Widths()
    ensures Pow(256, 4) == U32 && Pow(256, 8) == U64
  {
    assert Pow(256, 2) == 65536;
    PowAdd(256, 2, 2);
    PowAdd(256, 4, 4);
  }

  /** One record as it lies in the journal: its length in four bytes (cut to 32 bits), its
      number in eight, then its bytes. */
  function Framed(number: nat, record: bytes): bytes {
    ToFixed(|record| % U32, 4) + ToFixed(number, 8) + record
  }

  /** Records numbered on from `n`. */
  function Frames(records: seq<bytes>, n: nat): bytes {
    if records == [] then [] else Framed(n + 1, records[0]) + Frames(records[1..], n + 1)
  }

  /** A record whose length the frame can say and whose frame is not taken for the end. */
  predicate Framable(record: bytes) {
    0 < |record| < U32
  }

  predicate AllFramable(records: seq<bytes>) {
    forall i :: 0 <= i < |records| ==> Framable(records[i])
  }

  // ---- the reader ---------------------------------------------------------------------------

  /** The whole records in front of `b`, numbered on from `n`; a number out of its place is refused. */
  function ReadFrames(b: bytes, n: nat): Result<seq<bytes>, string> {
    if |b| < 4 then Ok([])
    else
      var len := FromBe(b[..4]);
      if len == 0 || 12 + len > |b| then Ok([])
      else if FromBe(b[4..12]) != n + 1 then Err("a record out of its place")
      else
        match ReadFrames(b[12 + len..], n + 1)
        case Ok(rest) => Ok([b[12..12 + len]] + rest)
        case Err(e) => Err(e)
  }

  /** The records of a journal in the first form: framed by length alone. */
  function ReadBare(b: bytes): seq<bytes> {
    if |b| < 4 then []
    else
      var len := FromBe(b[..4]);
      if len == 0 || 4 + len > |b| then [] else [b[4..4 + len]] + ReadBare(b[4 + len..])
  }

  predicate StartsWith(b: bytes, prefix: bytes) {
    |prefix| <= |b| && b[..|prefix|] == prefix
  }

  datatype Reading = Reading(records: seq<bytes>, legacy: bool)

  function Split(b: bytes): Result<Reading, string> {
    if !StartsWith(b, MAGIC) then Ok(Reading(ReadBare(b), true))
    else
      match ReadFrames(b[|MAGIC|..], 0)
      case Ok(records) => Ok(Reading(records, false))
      case Err(e) => Err(e)
  }

  lemma BareStep(b: bytes, at: nat)
    requires at + 4 <= |b| && FromBe(b[at..at + 4]) > 0 && at + 4 + FromBe(b[at..at + 4]) <= |b|
    ensures var len := FromBe(b[at..at + 4]);
            ReadBare(b[at..]) == [b[at + 4..at + 4 + len]] + ReadBare(b[at + 4 + len..])
  {
    hide FromBe;
    var tail, len := b[at..], FromBe(b[at..at + 4]);
    assert tail[..4] == b[at..at + 4];
    assert tail[4..4 + len] == b[at + 4..at + 4 + len] && tail[4 + len..] == b[at + 4 + len..];
  }

  lemma FrameStep(b: bytes, at: nat, n: nat)
    requires at + 12 <= |b| && FromBe(b[at..at + 4]) > 0 && at + 12 + FromBe(b[at..at + 4]) <= |b|
    ensures var len := FromBe(b[at..at + 4]);
            ReadFrames(b[at..], n) ==
            if FromBe(b[at + 4..at + 12]) != n + 1 then Err("a record out of its place")
            else Prepended([b[at + 12..at + 12 + len]], ReadFrames(b[at + 12 + len..], n + 1))
  {
    hide FromBe;
    var tail, len := b[at..], FromBe(b[at..at + 4]);
    assert tail[..4] == b[at..at + 4] && tail[4..12] == b[at + 4..at + 12];
    assert tail[12..12 + len] == b[at + 12..at + 12 + len] && tail[12 + len..] == b[at + 12 + len..];
  }

  function Prepended(front: seq<bytes>, rest: Result<seq<bytes>, string>): Result<seq<bytes>, string> {
    match rest
    case Ok(more) => Ok(front + more)
    case Err(e) => Err(e)
  }

  lemma PrependedTwice(a: seq<bytes>, b: seq<bytes>, rest: Result<seq<bytes>, string>)
    ensures Prepended(a, Prepended(b, rest)) == Prepended(a + b, rest)
    ensures Prepended([], rest) == rest
  {
    if rest.Ok? {
      assert a + (b + rest.value) == (a + b) + rest.value;
      assert [] + rest.value == rest.value;
    }
  }

  /** The reader with its cursor. */
  method ComputeSplit(b: bytes) returns (res: Result<Reading, string>)
    ensures res == Split(b)
  {
    hide FromBe, ReadBare, ReadFrames, Prepended;
    var legacy := !StartsWith(b, MAGIC);
    var at := if legacy then 0 else |MAGIC|;
    var records: seq<bytes> := [];
    ghost var whole := if legacy then Ok(ReadBare(b)) else ReadFrames(b[at..], 0);
    assert b[0..] == b;
    PrependedTwice([], [], whole);
    while at + 4 <= |b|
      invariant at <= |b|
      invariant legacy ==> whole == Prepended(records, Ok(ReadBare(b[at..])))
      invariant !legacy ==> whole == Prepended(records, ReadFrames(b[at..], |records|))
    {
      var len := FromBe(b[at..at + 4]);
      if legacy {
        if len == 0 || at + 4 + len > |b| {
          break;
        }
        BareStep(b, at);
        BareIsPrepended(b[at + 4..at + 4 + len], ReadBare(b[at + 4 + len..]));
        PrependedTwice(records, [b[at + 4..at + 4 + len]], Ok(ReadBare(b[at + 4 + len..])));
        records := records + [b[at + 4..at + 4 + len]];
        at := at + 4 + len;
      } else {
        if len == 0 || at + 12 + len > |b| {
          break;
        }
        FrameStep(b, at, |records|);
        if FromBe(b[at + 4..at + 12]) != |records| + 1 {
          NothingInFrontOfAnError(records);
          return Err("a record out of its place");
        }
        PrependedTwice(records, [b[at + 12..at + 12 + len]], ReadFrames(b[at + 12 + len..], |records| + 1));
        records := records + [b[at + 12..at + 12 + len]];
        at := at + 12 + len;
      }
    }
    NothingMore(b, at, |records|, legacy, records);
    return Ok(Reading(records, legacy));
  }

  lemma BareIsPrepended(front: bytes, rest: seq<bytes>)
    ensures Prepended([front], Ok(rest)) == Ok([front] + rest)
  {
  }

  lemma NothingInFrontOfAnError(records: seq<bytes>)
    ensures Prepended(records, Err("a record out of its place")) == Err("a record out of its place")
  {
  }

  lemma NothingMore(b: bytes, at: nat, n: nat, legacy: bool, records: seq<bytes>)
    requires at <= |b|
    requires var k := if legacy then 4 else 12;
             at + 4 > |b| || FromBe(b[at..at + 4]) == 0 || at + k + FromBe(b[at..at + 4]) > |b|
    ensures Prepended(records, if legacy then Ok(ReadBare(b[at..])) else ReadFrames(b[at..], n)) == Ok(records)
  {
    hide FromBe;
    if at + 4 <= |b| {
      assert b[at..][..4] == b[at..at + 4];
    }
    assert records + [] == records;
  }

  /** The number of the last whole frame in front of `b`, whatever numbers there are. */
  function LastOf(b: bytes, last: Option<nat>): Option<nat> {
    if |b| < 12 then last
    else
      var len := FromBe(b[..4]);
      if len == 0 || 12 + len > |b| then last else LastOf(b[12 + len..], Some(FromBe(b[4..12])))
  }

  function LastNumber(b: bytes): Result<Option<nat>, string> {
    if b == [] then Ok(None)
    else if !StartsWith(b, MAGIC) then Err("the journal is in the old form")
    else Ok(LastOf(b[|MAGIC|..], None))
  }

  /** The same count as the host and the enclave each run it. */
  method ComputeLastNumber(b: bytes) returns (res: Result<Option<nat>, string>)
    ensures res == LastNumber(b)
  {
    hide FromBe;
    if b == [] {
      return Ok(None);
    }
    if !StartsWith(b, MAGIC) {
      return Err("the journal is in the old form");
    }
    var at, last := |MAGIC|, None;
    while at + 12 <= |b|
      invariant at <= |b|
      invariant LastOf(b[at..], last) == LastOf(b[|MAGIC|..], None)
    {
      ghost var tail := b[at..];
      var len := FromBe(b[at..at + 4]);
      assert tail[..4] == b[at..at + 4];
      if len == 0 || at + 12 + len > |b| {
        break;
      }
      assert tail[4..12] == b[at + 4..at + 12] && tail[12 + len..] == b[at + 12 + len..];
      last := Some(FromBe(b[at + 4..at + 12]));
      at := at + 12 + len;
    }
    return Ok(last);
  }

  // ---- what is read is what was written ---------------------------------------------------------

  lemma FrameParts(number: nat, record: bytes, rest: bytes)
    requires Framable(record) && number < U64
    ensures var b := Framed(number, record) + rest;
            && |Framed(number, record)| == 12 + |record|
            && |b| >= 12 + |record|
            && FromBe(b[..4]) == |record| && FromBe(b[4..12]) == number
            && b[12..12 + |record|] == record && b[12 + |record|..] == rest
  {
    Widths();
    ToFixedRoundTrip(|record|, 4);
    ToFixedRoundTrip(number, 8);
    assert |record| % U32 == |record|;
    hide FromBe, ToFixed, Pow;
    var b := Framed(number, record) + rest;
    assert b[..4] == ToFixed(|record|, 4) && b[4..12] == ToFixed(number, 8);
    assert b[12..12 + |record|] == record && b[12 + |record|..] == rest;
  }

  /** Bytes that hold no whole record: a strict prefix of one more frame. */
  ghost predicate Torn(t: bytes, number: nat) {
    number < U64 && exists record :: Framable(record) && StrictPrefix(t, Framed(number, record))
  }

  ghost predicate StrictPrefix(t: bytes, whole: bytes) {
    |t| < |whole| && t == whole[..|t|]
  }

  lemma TornHoldsNothing(t: bytes, number: nat, n: nat, last: Option<nat>)
    requires Torn(t, number)
    ensures ReadFrames(t, n) == Ok([]) && LastOf(t, last) == last
  {
    hide Framed;
    var record :| Framable(record) && StrictPrefix(t, Framed(number, record));
    FrameParts(number, record, []);
    assert Framed(number, record) + [] == Framed(number, record);
    if |t| >= 4 {
      assert t[..4] == Framed(number, record)[..4];
    }
  }

  lemma {:induction false} FramesReadBack(records: seq<bytes>, n: nat, torn: bytes, last: Option<nat>)
    requires AllFramable(records) && n + |records| + 1 < U64
    requires Torn(torn, n + |records| + 1)
    ensures ReadFrames(Frames(records, n) + torn, n) == Ok(records)
    ensures LastOf(Frames(records, n) + torn, last) == if records == [] then last else Some(n + |records|)
  {
    hide Framed, FromBe, Frames, AllFramable, Framable, Torn;
    if records == [] {
      NoFramesStart(torn, n);
      assert Frames(records, n) == [] by { NoFramesAreNoBytes(n); }
      assert [] + torn == torn;
      TornHoldsNothing(torn, n + 1, n, last);
    } else {
      var r, rest := records[0], records[1..];
      assert records == [r] + rest;
      var tail := Frames(rest, n + 1) + torn;
      OneMoreFrame(r, rest, n);
      EachFramable(records);
      assert Frames(records, n) + torn == Framed(n + 1, r) + tail;
      FrameParts(n + 1, r, tail);
      FramesReadBack(rest, n + 1, torn, Some(n + 1));
      assert Framable(r) ==> |r| > 0 by { FramableIsSome(r); }
    }
  }

  lemma NoFramesAreNoBytes(n: nat)
    ensures Frames([], n) == []
  {
  }

  lemma FramableIsSome(r: bytes)
    ensures Framable(r) ==> |r| > 0
  {
  }

  lemma EachFramable(records: seq<bytes>)
    requires records != [] && AllFramable(records)
    ensures Framable(records[0]) && AllFramable(records[1..])
  {
  }

  /** The reader's theorem: whole records followed by any part of one more read back as exactly
      the whole ones, and both sides count exactly that many. */
  lemma JournalReadsBack(records: seq<bytes>, torn: bytes)
    requires AllFramable(records) && |records| + 1 < U64
    requires Torn(torn, |records| + 1)
    ensures var b := MAGIC + Frames(records, 0) + torn;
            && Split(b) == Ok(Reading(records, false))
            && LastNumber(b) == Ok(if records == [] then None else Some(|records|))
  {
    hide Frames, ReadFrames, LastOf, Torn, AllFramable;
    FramesReadBack(records, 0, torn, None);
    Behind(MAGIC, Frames(records, 0), torn);
  }

  lemma Behind(a: bytes, b: bytes, c: bytes)
    ensures StartsWith(a + b + c, a) && (a + b + c)[|a|..] == b + c
  {
  }

  /** What starts the rest starts the whole, behind what is in front. */
  lemma StartsOn(b: bytes, front: bytes, tail: bytes, more: bytes)
    requires b == front + tail && StartsWith(tail, more)
    ensures StartsWith(b, front + more)
  {
  }

  lemma {:induction false} ReadFramesSound(b: bytes, n: nat, last: Option<nat>)
    requires n + |b| < U64 && ReadFrames(b, n).Ok?
    ensures var records := ReadFrames(b, n).value;
            && AllFramable(records)
            && StartsWith(b, Frames(records, n))
            && LastOf(b, last) == if records == [] then last else Some(n + |records|)
  {
    hide Framed, Framable, FromBe, StartsWith, Frames, AllFramable;
    var records := ReadFrames(b, n).value;
    if records == [] {
      NoFramesStart(b, n);
    } else {
      var len := FromBe(b[..4]);
      var tail := b[12 + len..];
      var rest := ReadFrames(tail, n + 1).value;
      ReadFramesSound(tail, n + 1, Some(n + 1));
      FrameRebuilt(b, n + 1);
      StartsOn(b, Framed(n + 1, records[0]), tail, Frames(rest, n + 1));
      OneMoreFrame(records[0], rest, n);
      assert records == [records[0]] + rest;
    }
  }

  lemma NoFramesStart(b: bytes, n: nat)
    ensures AllFramable([]) && StartsWith(b, Frames([], n))
  {
  }

  lemma OneMoreFrame(r: bytes, rest: seq<bytes>, n: nat)
    ensures Frames([r] + rest, n) == Framed(n + 1, r) + Frames(rest, n + 1)
    ensures Framable(r) && AllFramable(rest) ==> AllFramable([r] + rest)
  {
    hide Framed;
    assert ([r] + rest)[1..] == rest;
  }

  lemma FrameRebuilt(b: bytes, number: nat)
    requires |b| >= 12 && FromBe(b[4..12]) == number
    requires 0 < FromBe(b[..4]) && 12 + FromBe(b[..4]) <= |b|
    ensures var len := FromBe(b[..4]);
            Framable(b[12..12 + len]) && b == Framed(number, b[12..12 + len]) + b[12 + len..]
  {
    Widths();
    FromBeLess(b[..4]);
    FromBeRoundTrip(b[..4]);
    FromBeRoundTrip(b[4..12]);
    hide FromBe, ToFixed, Pow;
    var len := FromBe(b[..4]);
    assert len % U32 == len;
    assert b == b[..4] + b[4..12] + b[12..12 + len] + b[12 + len..];
  }

  /** Whatever bytes the reader accepts begin with exactly the frames of the records it gives,
      and the host and the enclave both count exactly those. */
  lemma AcceptedJournalIsFrames(b: bytes)
    requires |b| < U64 && Split(b).Ok? && !Split(b).value.legacy
    ensures var records := Split(b).value.records;
            && AllFramable(records)
            && StartsWith(b, MAGIC + Frames(records, 0))
            && LastNumber(b) == Ok(if records == [] then None else Some(|records|))
  {
    hide Frames, ReadFrames, LastOf;
    ReadFramesSound(b[|MAGIC|..], 0, None);
    assert b == MAGIC + b[|MAGIC|..];
    StartsOn(b, MAGIC, b[|MAGIC|..], Frames(Split(b).value.records, 0));
  }
}
