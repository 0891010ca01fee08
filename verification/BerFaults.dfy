/** How reading fails: a message that is cut off anywhere ends early, and a length of more than four
    bytes is refused. */
module BerFaults {
  import opened Wrappers
  import opened Bytes
  import opened Ber

  /** What is there from a place on is the beginning of `s`, and not all of it. */
  predicate CutOff(b: seq<byte>, at: nat, s: seq<byte>) {
    at <= |b| && |b| - at < |s| && b[at..] == s[..|b| - at]
  }

  lemma CutByte(b: seq<byte>, at: nat, s: seq<byte>, i: nat)
    requires CutOff(b, at, s) && at + i < |b|
    ensures b[at + i] == s[i]
  {
    assert b[at + i] == b[at..][i];
  }

  /** A value of which any part is missing ends early, whatever forms its lengths have, at any depth. */
  lemma {:induction false} CutOffEndsEarly(b: seq<byte>, at: nat, e: Enc)
    requires Valid(e) && CutOff(b, at, Write(e))
    ensures BerAt(b, at) == Err(EndsEarly)
    decreases e, 1
  {
    hide BerAt, Content, Valid;
    if at + 1 >= |b| {
      TooShort(b, at);
    } else {
      match e.form
      case Short => CutShort(b, at, e);
      case Long(_) => CutLong(b, at, e);
      case Open =>
        OpenIsCons(e);
        ContentOf(e);
        var c := WriteAll(e.kids) + [0, 0];
        assert Write(e) == [e.tag, 0x80] + c;
        Behind(b, at, [e.tag, 0x80], c);
        KidsCutOff(b, at + 2, e.kids);
        CutOpen(b, at, e);
    }
  }

  lemma TooShort(b: seq<byte>, at: nat)
    requires at + 1 >= |b|
    ensures BerAt(b, at) == Err(EndsEarly)
  {
  }

  lemma OpenIsCons(e: Enc)
    requires Valid(e) && e.form.Open?
    ensures e.Cons?
  {
  }

  lemma Behind(b: seq<byte>, at: nat, x: seq<byte>, y: seq<byte>)
    requires CutOff(b, at, x + y) && at + |x| <= |b|
    ensures CutOff(b, at + |x|, y) && Holds(b, at, x)
  {
    assert b[at + |x|..] == b[at..][|x|..];
    assert b[at..at + |x|] == b[at..][..|x|];
  }

  lemma CutShort(b: seq<byte>, at: nat, e: Enc)
    requires Valid(e) && e.form.Short? && CutOff(b, at, Write(e)) && at + 1 < |b|
    ensures BerAt(b, at) == Err(EndsEarly)
  {
    hide Content, OpenEnd;
    CutByte(b, at, Write(e), 1);
  }

  lemma CutLong(b: seq<byte>, at: nat, e: Enc)
    requires Valid(e) && e.form.Long? && CutOff(b, at, Write(e)) && at + 1 < |b|
    ensures BerAt(b, at) == Err(EndsEarly)
  {
    hide Content, OpenEnd, FromBe;
    var length := e.form.length;
    CutByte(b, at, Write(e), 1);
    if at + 2 + |length| <= |b| {
      var front := [e.tag, 0x80 + |length|] + length;
      Behind(b, at, front, Content(e));
      HoldsParts(b, at, [e.tag, 0x80 + |length|], length);
    }
  }

  lemma CutOpen(b: seq<byte>, at: nat, e: Enc)
    requires e.form.Open? && CutOff(b, at, Write(e)) && at + 1 < |b| && OpenEnd(b, at + 2) == Err(EndsEarly)
    ensures BerAt(b, at) == Err(EndsEarly)
  {
    hide Content, OpenEnd;
    CutByte(b, at, Write(e), 1);
  }

  lemma {:induction false} KidsCutOff(b: seq<byte>, at: nat, kids: seq<Enc>)
    requires AllValid(kids) && CutOff(b, at, WriteAll(kids) + [0, 0])
    ensures OpenEnd(b, at) == Err(EndsEarly)
    decreases kids, 0
  {
    hide BerAt, Valid, Write;
    if kids == [] {
      assert WriteAll(kids) + [0, 0] == [0, 0];
      TooShort(b, at);
    } else {
      var w, rest := Write(kids[0]), WriteAll(kids[1..]) + [0, 0];
      assert WriteAll(kids) + [0, 0] == w + rest;
      WriteBegins(kids[0]);
      ValidTag(kids[0]);
      if at < |b| { CutByte(b, at, w + rest, 0); }
      if |b| - at < |w| {
        assert b[at..] == w[..|b| - at];
        CutOffEndsEarly(b, at, kids[0]);
      } else {
        Behind(b, at, w, rest);
        ReadsBack(b, at, kids[0]);
        KidsCutOff(b, at + |w|, kids[1..]);
      }
    }
  }

  lemma ValidTag(e: Enc)
    requires Valid(e)
    ensures e.tag != 0
  {
  }

  /** So is a whole message. */
  lemma CutMessageEndsEarly(e: Enc, m: nat)
    requires Valid(e) && m < |Write(e)|
    ensures CmsParts(Write(e)[..m]) == Err(EndsEarly)
  {
    hide BerAt, Valid, Write, PartsOf;
    var b := Write(e)[..m];
    assert b[0..] == Write(e)[..m];
    CutOffEndsEarly(b, 0, e);
  }

  /** A length said in more than four bytes is refused; and reading one value fails in no other way. */
  lemma {:induction false} OnlyTwoFaults(b: seq<byte>, at: nat)
    ensures at + 1 < |b| && b[at + 1] > 0x84 ==> BerAt(b, at) == Err(BadLength)
    ensures BerAt(b, at).Err? ==> BerAt(b, at).error in {EndsEarly, BadLength}
    ensures OpenEnd(b, at).Err? ==> OpenEnd(b, at).error in {EndsEarly, BadLength}
    decreases Left(b, at)
  {
    hide FromBe;
    if at + 1 < |b| {
      if b[at + 1] == 0x80 { OnlyTwoFaults(b, at + 2); }
      if BerAt(b, at).Ok? { OnlyTwoFaults(b, BerAt(b, at).value.next); }
    }
  }

  lemma {:induction false} NoneFound<T>(v: View<T>, xs: seq<T>, tags: set<byte>)
    requires forall x :: x in xs ==> v.tag(x) !in tags
    ensures FirstOf(v, xs, tags) == None && LastOf(v, xs, tags) == None
    decreases |xs|
  {
    if xs != [] {
      NoneFound(v, xs[1..], tags);
      NoneFound(v, xs[..|xs| - 1], tags);
    }
  }

  /** What is missing of the envelope is named. */
  lemma MissingIsNamed<T>(v: View<T>, xs: seq<T>)
    ensures (forall x :: x in xs ==> v.tag(x) != 0x31) ==> EncryptedKey(v, xs) == Err(Missing("recipients"))
    ensures (forall x :: x in xs ==> v.tag(x) != 0x30) ==>
              ContentInfo(v, xs) == Err(Missing("content")) && Iv(v, xs) == Err(Missing("algorithm"))
    ensures (forall x :: x in xs ==> v.tag(x) != 0x80 && v.tag(x) != 0xa0) ==> EncryptedContent(v, xs) == Err(Missing("content"))
  {
    if forall x :: x in xs ==> v.tag(x) != 0x31 { NoneFound(v, xs, {0x31}); }
    if forall x :: x in xs ==> v.tag(x) != 0x30 { NoneFound(v, xs, {0x30}); }
    if forall x :: x in xs ==> v.tag(x) != 0x80 && v.tag(x) != 0xa0 { NoneFound(v, xs, {0x80, 0xa0}); }
  }
}
