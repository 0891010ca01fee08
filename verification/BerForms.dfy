/** Where the forms chosen for lengths show: which values have only one way to be written, and which
    pieces of content are read with their lengths. */
module BerForms {
  import opened Wrappers
  import opened NumberTheory
  import opened Bytes
  import opened Ber

  // ---- another way to write a value ------------------------------------------------------------------

  lemma OpenLength(tag: byte, kids: seq<Enc>)
    ensures |Write(Cons(tag, kids, Open))| == |WriteAll(kids)| + 4
  {
  }

  lemma LongLength(e: Enc, length: seq<byte>)
    ensures |Write(e.(form := Long(length)))| == |Content(e)| + 2 + |length|
    ensures Content(e.(form := Long(length))) == Content(e) && Strip(e.(form := Long(length))) == Strip(e)
  {
  }

  lemma OpenIsValid(tag: byte, kids: seq<Enc>)
    requires tag != 0 && Constructed(tag) && AllValid(kids)
    ensures Valid(Cons(tag, kids, Open)) && Content(Cons(tag, kids, Open)) == WriteAll(kids)
    ensures Strip(Cons(tag, kids, Open)) == Node(tag, Stripped(kids))
  {
  }

  lemma {:induction false} TopByteCounts(s: seq<byte>)
    requires s != []
    ensures FromBe(s) == s[0] * Pow(256, |s| - 1) + FromBe(s[1..])
  {
    var n := |s| - 1;
    if n == 0 {
      assert s[..0] == [] && s[1..] == [];
    } else {
      TopByteCounts(s[..n]);
      assert s[..n][1..] == s[1..][..n - 1];
      assert Pow(256, n) == 256 * Pow(256, n - 1);
    }
  }

  lemma LeadingZero(length: seq<byte>)
    ensures FromBe([0] + length) == FromBe(length)
  {
    TopByteCounts([0] + length);
    assert ([0] + length)[1..] == length;
  }

  /** A short leaf can be written with one length byte more, or fewer. */
  lemma AnotherLeaf(e: Enc) returns (x: Enc)
    requires Valid(e) && e.Prim? && |e.bytes| < FOUR_BYTES
    ensures Valid(x) && Strip(x) == Strip(e) && |Write(x)| != |Write(e)|
  {
    hide FromBe;
    match e.form
    case Short =>
      x := Prim(e.tag, e.bytes, Long([|e.bytes|]));
      OneByte(|e.bytes|);
    case Long(length) =>
      if |length| < 4 {
        LeadingZero(length);
        x := Prim(e.tag, e.bytes, Long([0] + length));
      } else {
        ShortenLength(length);
        x := Prim(e.tag, e.bytes, Long(length[1..]));
      }
  }

  lemma OneByte(n: nat)
    requires n < 256
    ensures FromBe([n]) == n
  {
    assert [n][..0] == [];
    assert FromBe([]) == 0;
  }

  /** Four length bytes for so little begin with a zero. */
  lemma ShortenLength(length: seq<byte>)
    requires |length| == 4 && FromBe(length) < FOUR_BYTES
    ensures FromBe(length[1..]) == FromBe(length)
  {
    TopByteCounts(length);
    assert Pow(256, 3) == FOUR_BYTES;
  }

  lemma {:induction false} OneReplaced(kids: seq<Enc>, i: nat, x: Enc)
    requires i < |kids|
    ensures |WriteAll(kids[i := x])| == |WriteAll(kids)| - |Write(kids[i])| + |Write(x)|
    decreases |kids|
  {
    hide Write;
    if i == 0 {
      assert kids[0 := x][1..] == kids[1..];
    } else {
      OneReplaced(kids[1..], i - 1, x);
      assert kids[i := x][1..] == kids[1..][i - 1 := x];
    }
  }

  lemma StrippedReplaced(kids: seq<Enc>, i: nat, x: Enc)
    requires i < |kids| && Strip(x) == Strip(kids[i])
    ensures Stripped(kids[i := x]) == Stripped(kids)
  {
    hide Strip;
  }

  /** A node with another way to write one of its values has another of its own. */
  lemma AnotherAround(e: Enc, i: nat, kid: Enc) returns (x: Enc)
    requires Valid(e) && e.Cons? && i < |e.kids|
    requires Valid(kid) && Strip(kid) == Strip(e.kids[i]) && |Write(kid)| != |Write(e.kids[i])|
    ensures Valid(x) && Strip(x) == Strip(e) && |Write(x)| != |Write(e)|
  {
    hide Write, Valid, Strip;
    ConsParts(e);
    OneReplaced(e.kids, i, kid);
    StrippedReplaced(e.kids, i, kid);
    OpenIsValid(e.tag, e.kids);
    OpenIsValid(e.tag, e.kids[i := kid]);
    OpenLength(e.tag, e.kids);
    OpenLength(e.tag, e.kids[i := kid]);
    x := Cons(e.tag, e.kids[i := kid], Open);
    if |Write(x)| == |Write(e)| {
      x := Cons(e.tag, e.kids, Open);
    }
  }

  lemma ConsParts(e: Enc)
    requires Valid(e) && e.Cons?
    ensures e.tag != 0 && Constructed(e.tag) && AllValid(e.kids) && Content(e) == WriteAll(e.kids)
    ensures Strip(e) == Node(e.tag, Stripped(e.kids))
  {
    ContentOf(e);
  }

  /** A node short enough for a length up front can be written with one, or open. */
  lemma AnotherForm(e: Enc) returns (x: Enc)
    requires Valid(e) && e.Cons? && |Content(e)| < 256 * FOUR_BYTES
    ensures Valid(x) && Strip(x) == Strip(e) && |Write(x)| != |Write(e)|
  {
    hide Write, Content, Strip, ToFixed, FromBe;
    ConsParts(e);
    OpenIsValid(e.tag, e.kids);
    OpenLength(e.tag, e.kids);
    x := Cons(e.tag, e.kids, Open);
    if |Write(x)| == |Write(e)| {
      var length := ToFixed(|Content(e)|, 4);
      assert Pow(256, 4) == 256 * FOUR_BYTES;
      ToFixedRoundTrip(|Content(e)|, 4);
      LongLength(e, length);
      x := Cons(e.tag, e.kids, Long(length));
    }
  }

  /** Every value but those with a single way to be written has one of another length. */
  lemma {:induction false} Another(e: Enc) returns (x: Enc)
    requires Valid(e) && !Rigid(Strip(e))
    ensures Valid(x) && Strip(x) == Strip(e) && |Write(x)| != |Write(e)|
    decreases e
  {
    hide Write, Valid, OnlyContent;
    if e.Prim? {
      x := AnotherLeaf(e);
    } else {
      ConsParts(e);
      if AllRigid(Stripped(e.kids)) {
        RigidContent(e.kids);
        x := AnotherForm(e);
      } else {
        var i :| 0 <= i < |e.kids| && !Rigid(Stripped(e.kids)[i]);
        var kid := Another(e.kids[i]);
        x := AnotherAround(e, i, kid);
      }
    }
  }

  /** A value can be written at one length only exactly when it is rigid: a leaf too long for fewer than
      four length bytes, or a node of rigid values too long for a length up front. */
  lemma OneFormExactlyWhenRigid(e: Enc)
    requires Valid(e)
    ensures Rigid(Strip(e)) <==> forall x: Enc :: Valid(x) && Strip(x) == Strip(e) ==> Write(x) == Write(e)
  {
    hide Write, Valid, Rigid, OnlyWrite;
    if Rigid(Strip(e)) {
      forall x: Enc | Valid(x) && Strip(x) == Strip(e) ensures Write(x) == Write(e) {
        RigidIsWritten(x);
        RigidIsWritten(e);
      }
    } else {
      var x := Another(e);
    }
  }

  // ---- content in pieces --------------------------------------------------------------------------------

  lemma PiecesAreJoined(x: Enc)
    requires Valid(x) && x.Cons? && x.tag == 0xa0
    ensures EncryptedContent(RAW, [ItemOf(x)]) == Ok(Joined(RAW, Items(x.kids)))
  {
    hide Valid, Content, Children, Joined;
    KidsReadBack(x);
    assert FirstOf(RAW, [ItemOf(x)], {0x80, 0xa0}) == Some(0);
    assert RAW.kids(ItemOf(x)) == Ok(Items(x.kids));
  }

  lemma {:induction false} OnePieceReplaced(ps: seq<Enc>, i: nat, x: Enc)
    requires i < |ps|
    ensures |Joined(RAW, Items(ps[i := x]))| == |Joined(RAW, Items(ps))| - |Content(ps[i])| + |Content(x)|
    decreases |ps|
  {
    hide Content;
    assert Items(ps)[1..] == Items(ps[1..]) && Items(ps[i := x])[1..] == Items(ps[i := x][1..]);
    if i == 0 {
      assert ps[0 := x][1..] == ps[1..];
    } else {
      OnePieceReplaced(ps[1..], i - 1, x);
      assert ps[i := x][1..] == ps[1..][i - 1 := x];
    }
  }

  /** With a piece that is not plain, the same tree has another encoding whose content is read at another
      length. */
  lemma AnotherContent(e: Enc, i: nat) returns (x: Enc)
    requires Valid(e) && e.Cons? && e.tag == 0xa0 && i < |e.kids| && !PlainPiece(Strip(e.kids[i]))
    ensures Valid(x) && Strip(x) == Strip(e)
    ensures EncryptedContent(RAW, [ItemOf(x)]) != EncryptedContent(RAW, [ItemOf(e)])
  {
    hide Write, Valid, Strip, Rigid, EncryptedContent, Joined, Content;
    ConsParts(e);
    var piece := e.kids[i];
    NodeIsCons(piece);
    ConsParts(piece);
    var k :| 0 <= k < |piece.kids| && !Rigid(Stripped(piece.kids)[k]);
    var kid := Another(piece.kids[k]);
    OneReplaced(piece.kids, k, kid);
    StrippedReplaced(piece.kids, k, kid);
    OpenIsValid(piece.tag, piece.kids[k := kid]);
    var piece' := Cons(piece.tag, piece.kids[k := kid], Open);
    OnePieceReplaced(e.kids, i, piece');
    StrippedReplaced(e.kids, i, piece');
    OpenIsValid(e.tag, e.kids[i := piece']);
    x := Cons(e.tag, e.kids[i := piece'], Open);
    ConsParts(x);
    PiecesAreJoined(x);
    PiecesAreJoined(e);
  }

  /** The content read from pieces is the same in every form exactly when every piece is plain: a leaf,
      or made of nothing, or of values with one form only. */
  lemma FormsShowExactlyInNestedPieces(e: Enc)
    requires Valid(e) && e.Cons? && e.tag == 0xa0
    ensures (forall x: Enc :: Valid(x) && Strip(x) == Strip(e) ==>
               EncryptedContent(RAW, [ItemOf(x)]) == EncryptedContent(RAW, [ItemOf(e)]))
            <==> forall p :: p in e.kids ==> PlainPiece(Strip(p))
  {
    hide Write, Valid, PlainPiece, EncryptedContent;
    if forall p :: p in e.kids ==> PlainPiece(Strip(p)) {
      forall x: Enc | Valid(x) && Strip(x) == Strip(e)
        ensures EncryptedContent(RAW, [ItemOf(x)]) == EncryptedContent(RAW, [ItemOf(e)])
      {
        PlainContent(e, e);
        PlainContent(x, e);
      }
    } else {
      var i :| 0 <= i < |e.kids| && !PlainPiece(Strip(e.kids[i]));
      var x := AnotherContent(e, i);
    }
  }

  lemma PlainContent(x: Enc, e: Enc)
    requires Valid(x) && Strip(x) == Strip(e) && e.Cons? && e.tag == 0xa0
    requires forall p :: p in e.kids ==> PlainPiece(Strip(p))
    ensures EncryptedContent(RAW, [ItemOf(x)]) == EncryptedContent(TREES, [Strip(e)])
  {
    hide Write, Valid, PlainPiece, EncryptedContent, StandsFor;
    EncStands(x);
    assert Strip(e) == Node(e.tag, Stripped(e.kids));
    forall t | t in Stripped(e.kids) ensures PlainPiece(t) {
      var k :| 0 <= k < |e.kids| && Stripped(e.kids)[k] == t;
      assert e.kids[k] in e.kids;
    }
    ContentStands([ItemOf(x)], [Strip(e)]);
  }

  lemma OneKid(p: Enc, tag: byte)
    requires Valid(p) && Constructed(tag) && tag != 0 && |Write(p)| < 0x80
    ensures Valid(Cons(tag, [p], Short)) && Content(Cons(tag, [p], Short)) == Write(p)
    ensures |Write(Cons(tag, [p], Short))| == |Write(p)| + 2
  {
    hide Write;
    var e := Cons(tag, [p], Short);
    assert WriteAll([p]) == Write(p) + WriteAll([p][1..]) == Write(p);
    ShortLength(e);
  }

  lemma ShortLength(e: Enc)
    requires e.form.Short?
    ensures |Write(e)| == |Content(e)| + 2
  {
  }

  /** The content that a value in a value is read as: everything inside, lengths and all. */
  lemma Nested(p: Enc)
    requires Valid(p) && |Write(p)| < 100
    ensures var x := Cons(0xa0, [Cons(0x24, [p], Short)], Short);
            Valid(x) && EncryptedContent(RAW, [ItemOf(x)]) == Ok(Write(p))
  {
    hide Write, Content, Valid, Children;
    var inner := Cons(0x24, [p], Short);
    var x := Cons(0xa0, [inner], Short);
    OneKid(p, 0x24);
    OneKid(inner, 0xa0);
    KidsReadBack(x);
    assert Items([inner]) == [ItemOf(inner)];
    assert Joined(RAW, [ItemOf(inner)]) == Write(p) + Joined(RAW, [ItemOf(inner)][1..]) == Write(p);
    assert FirstOf(RAW, [ItemOf(x)], {0x80, 0xa0}) == Some(0);
    assert Children(Content(x)) == Ok([ItemOf(inner)]);
    assert RAW.kids(ItemOf(x)) == Ok([ItemOf(inner)]);
  }

  lemma SameStrip(p: Enc, q: Enc)
    requires Strip(p) == Strip(q)
    ensures Strip(Cons(0xa0, [Cons(0x24, [p], Short)], Short)) == Strip(Cons(0xa0, [Cons(0x24, [q], Short)], Short))
  {
    assert Strip(Cons(0x24, [p], Short)) == Strip(Cons(0x24, [q], Short));
  }

  /** A piece that is itself made of values is taken with the lengths inside it: there the forms
      show. */
  lemma NestedPiecesShowTheirForms()
    ensures exists x: Enc, y: Enc :: Valid(x) && Valid(y) && x.Cons? && y.Cons? && Strip(x) == Strip(y)
              && EncryptedContent(RAW, [ItemOf(x)]) != EncryptedContent(RAW, [ItemOf(y)])
  {
    var p, q := Prim(0x04, [1], Short), Prim(0x04, [1], Long([1]));
    var x, y := Cons(0xa0, [Cons(0x24, [p], Short)], Short), Cons(0xa0, [Cons(0x24, [q], Short)], Short);
    assert FromBe([1]) == 1 by { assert FromBe([1][..0]) == 0; }
    assert Write(p) == [0x04, 1, 1] && Write(q) == [0x04, 0x81, 1, 1];
    Nested(p);
    Nested(q);
    SameStrip(p, q);
  }
}
