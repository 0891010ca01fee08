/** What else the journal's readers promise: the old form is read whole, a record out of its place is
    refused, and nothing is appended to what is not in the current form. */
module OldJournal {
  import opened Wrappers
  import opened NumberTheory
  import opened Bytes
  import opened Journal

  /** The first bytes of the current form spell its name and a line feed. */
  lemma MagicIsItsName()
    ensures |MAGIC| == 18 && MAGIC[17] == 10 && forall i :: 0 <= i < 17 ==> MAGIC[i] == "tokumai-journal/2"[i] as int
  {
  }

  /** A record of the first form: its length in four bytes, then its bytes. */
  function Bare(record: bytes): bytes {
    [|record| / 0x100_0000 % 256, |record| / 0x1_0000 % 256, |record| / 256 % 256, |record| % 256] + record
  }

  function Bares(records: seq<bytes>): bytes {
    if records == [] then [] else Bare(records[0]) + Bares(records[1..])
  }

  lemma BigEndian(n: nat)
    requires n < U32
    ensures FromBe([n / 0x100_0000 % 256, n / 0x1_0000 % 256, n / 256 % 256, n % 256]) == n
  {
    var s := [n / 0x100_0000 % 256, n / 0x1_0000 % 256, n / 256 % 256, n % 256];
    assert s[..3][..2][..1][..0] == [];
    assert FromBe(s[..3][..2][..1]) == s[0];
    assert s[..3][..2] == s[..2] && s[..2][1] == s[1] && s[..3][2] == s[2];
    assert FromBe(s[..3][..2]) == s[0] * 256 + s[1];
    assert FromBe(s[..3]) == (s[0] * 256 + s[1]) * 256 + s[2];
    Digits(n);
  }

  lemma Digits(n: nat)
    requires n < U32
    ensures (((n / 0x100_0000 % 256) * 256 + n / 0x1_0000 % 256) * 256 + n / 256 % 256) * 256 + n % 256 == n
  {
  }

  lemma BareParts(record: bytes, rest: bytes)
    requires Framable(record)
    ensures var b := Bare(record) + rest;
            |b| >= 4 + |record| && FromBe(b[..4]) == |record| && b[4..4 + |record|] == record && b[4 + |record|..] == rest
  {
    hide FromBe;
    BigEndian(|record|);
    var b := Bare(record) + rest;
    assert b[..4] == Bare(record)[..4];
  }

  /** Records of the first form read back as those records, with whatever part of one more is behind
      them dropped; numbers they have none. */
  lemma {:induction false} BareReadsBack(records: seq<bytes>, last: bytes, torn: bytes)
    requires AllFramable(records) && Framable(last) && StrictPrefix(torn, Bare(last))
    ensures ReadBare(Bares(records) + torn) == records
  {
    hide FromBe, Bare;
    if records == [] {
      assert Bares(records) + torn == torn;
      TornBareHoldsNothing(last, torn);
    } else {
      var tail := Bares(records[1..]) + torn;
      assert Bares(records) + torn == Bare(records[0]) + tail;
      EachFramable(records);
      BareParts(records[0], tail);
      BareReadsBack(records[1..], last, torn);
    }
  }

  lemma TornBareHoldsNothing(last: bytes, torn: bytes)
    requires Framable(last) && StrictPrefix(torn, Bare(last))
    ensures ReadBare(torn) == []
  {
    hide FromBe;
    BareParts(last, []);
    assert Bare(last) + [] == Bare(last);
    if |torn| >= 4 { assert torn[..4] == Bare(last)[..4]; }
  }

  /** So a journal of the first form gives its records, and is marked to be folded. */
  lemma OldFormReadsBack(records: seq<bytes>, last: bytes, torn: bytes)
    requires AllFramable(records) && Framable(last) && StrictPrefix(torn, Bare(last))
    requires !StartsWith(Bares(records) + torn, MAGIC)
    ensures Split(Bares(records) + torn) == Ok(Reading(records, true))
  {
    hide ReadBare, Bares;
    BareReadsBack(records, last, torn);
  }

  /** Nothing is appended to it. */
  lemma OldFormIsNotAppendedTo(b: bytes)
    ensures LastNumber(b).Err? <==> b != [] && !StartsWith(b, MAGIC)
  {
  }

  // ---- a record out of its place -------------------------------------------------------------------------

  lemma {:induction false} MisplacedFrame(records: seq<bytes>, n: nat, number: nat, record: bytes, rest: bytes)
    requires AllFramable(records) && n + |records| + 1 < U64 && Framable(record) && number < U64
    requires number != n + |records| + 1
    ensures ReadFrames(Frames(records, n) + (Framed(number, record) + rest), n).Err?
  {
    hide Framed, FromBe;
    if records == [] {
      assert Frames(records, n) + (Framed(number, record) + rest) == Framed(number, record) + rest;
      FrameParts(number, record, rest);
    } else {
      var tail := Frames(records[1..], n + 1) + (Framed(number, record) + rest);
      assert Frames(records, n) + (Framed(number, record) + rest) == Framed(n + 1, records[0]) + tail;
      EachFramable(records);
      FrameParts(n + 1, records[0], tail);
      MisplacedFrame(records[1..], n + 1, number, record, rest);
    }
  }

  /** A whole record behind the others, under any number but the next, has the journal refused. */
  lemma MisplacedIsRefused(records: seq<bytes>, number: nat, record: bytes, rest: bytes)
    requires AllFramable(records) && |records| + 1 < U64 && Framable(record) && number < U64
    requires number != |records| + 1
    ensures Split(MAGIC + Frames(records, 0) + (Framed(number, record) + rest)).Err?
  {
    hide Framed, Frames, ReadFrames;
    MisplacedFrame(records, 0, number, record, rest);
    Behind(MAGIC, Frames(records, 0), Framed(number, record) + rest);
  }
}
