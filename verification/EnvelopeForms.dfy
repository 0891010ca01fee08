/** Which envelopes are read the same in every form: the whole reader, from the bytes to the pieces. */
module EnvelopeForms {
  import opened Wrappers
  import opened Bytes
  import opened Ber
  import opened BerForms

  /** Where the content lies in a message: which of its values is the enveloped data, which of that is
      about the content, and which of that is the content itself. */
  datatype Path = Path(explicit: nat, info: nat, content: nat)

  /** A value of a value, written in its place. */
  function Replaced(e: Enc, i: nat, kid: Enc): Enc
    requires e.Cons? && i < |e.kids|
  {
    Cons(e.tag, e.kids[i := kid], Open)
  }

  lemma ReplacedIsValid(e: Enc, i: nat, kid: Enc)
    requires Valid(e) && e.Cons? && i < |e.kids| && Valid(kid) && Strip(kid) == Strip(e.kids[i])
    ensures Valid(Replaced(e, i, kid)) && Strip(Replaced(e, i, kid)) == Strip(e)
  {
    hide Valid, Strip, Content;
    ConsParts(e);
    StrippedReplaced(e.kids, i, kid);
    OpenIsValid(e.tag, e.kids[i := kid]);
  }

  /** The first, or last, of the values inside that has one of the tags. */
  predicate First(e: Enc, i: nat, tags: set<byte>) {
    e.Cons? && i < |e.kids| && FirstOf(TREES, Stripped(e.kids), tags) == Some(i)
  }

  predicate Last(e: Enc, i: nat, tags: set<byte>) {
    e.Cons? && i < |e.kids| && LastOf(TREES, Stripped(e.kids), tags) == Some(i)
  }

  /** The enveloped data, in a message along a path. */
  predicate HasData(e: Enc, p: Path) {
    First(e, p.explicit, {0xa0}) && e.kids[p.explicit].Cons? && e.kids[p.explicit].kids != [] && e.kids[p.explicit].kids[0].Cons?
  }

  function Data(e: Enc, p: Path): Enc
    requires HasData(e, p)
  {
    e.kids[p.explicit].kids[0]
  }

  predicate HasContent(e: Enc, p: Path) {
    HasData(e, p) && Last(Data(e, p), p.info, {0x30})
    && First(Data(e, p).kids[p.info], p.content, {0x80, 0xa0})
    && var c := Data(e, p).kids[p.info].kids[p.content]; c.Cons? && c.tag == 0xa0
  }

  function ContentIn(e: Enc, p: Path): Enc
    requires HasContent(e, p)
  {
    Data(e, p).kids[p.info].kids[p.content]
  }

  /** A message with its content written in another form. */
  function WithContent(e: Enc, p: Path, c: Enc): Enc
    requires HasContent(e, p)
  {
    var (explicit, data) := (e.kids[p.explicit], Data(e, p));
    Replaced(e, p.explicit, Replaced(explicit, 0, Replaced(data, p.info, Replaced(data.kids[p.info], p.content, c))))
  }

  // ---- reading along the path ----------------------------------------------------------------------------

  lemma ItemsStand(kids: seq<Enc>)
    requires AllValid(kids)
    ensures AllStand(Items(kids), Stripped(kids))
  {
    hide Valid, Strip, StandsFor;
    forall k | 0 <= k < |kids| ensures StandsFor(Items(kids)[k], Stripped(kids)[k]) {
      EncStands(kids[k]);
    }
  }

  lemma FirstRead(e: Enc, i: nat, tags: set<byte>)
    requires Valid(e) && First(e, i, tags)
    ensures Children(Content(e)) == Ok(Items(e.kids)) && FirstOf(RAW, Items(e.kids), tags) == Some(i) && Valid(e.kids[i])
  {
    hide Content, Children;
    KidsReadBack(e);
    ContentOf(e);
    ItemsStand(e.kids);
    SameFirst(Items(e.kids), Stripped(e.kids), tags);
  }

  lemma LastRead(e: Enc, i: nat, tags: set<byte>)
    requires Valid(e) && Last(e, i, tags)
    ensures Children(Content(e)) == Ok(Items(e.kids)) && LastOf(RAW, Items(e.kids), tags) == Some(i) && Valid(e.kids[i])
  {
    hide Content, Children;
    KidsReadBack(e);
    ContentOf(e);
    ItemsStand(e.kids);
    SameLast(Items(e.kids), Stripped(e.kids), tags);
  }

  /** The enveloped data is read as its values. */
  lemma DataRead(e: Enc, p: Path)
    requires Valid(e) && HasData(e, p)
    ensures Valid(Data(e, p)) && Enveloped(RAW, ItemOf(e)) == Ok(Items(Data(e, p).kids))
  {
    hide Valid, Content, Children, FirstOf;
    FirstRead(e, p.explicit, {0xa0});
    var explicit := e.kids[p.explicit];
    KidsReadBack(explicit);
    ContentOf(explicit);
    KidsReadBack(Data(e, p));
  }

  lemma ContentRead(e: Enc, p: Path)
    requires Valid(e) && HasContent(e, p)
    ensures Valid(ContentIn(e, p)) && Valid(Data(e, p)) && Enveloped(RAW, ItemOf(e)) == Ok(Items(Data(e, p).kids))
    ensures var info := Data(e, p).kids[p.info];
            && ContentInfo(RAW, Items(Data(e, p).kids)) == Ok(Items(info.kids))
            && EncryptedContent(RAW, Items(info.kids)) == EncryptedContent(RAW, [ItemOf(ContentIn(e, p))])
  {
    hide Valid, Content, Children, First, FirstOf, Last, LastOf, Enveloped, Joined;
    DataRead(e, p);
    LastRead(Data(e, p), p.info, {0x30});
    var info := Data(e, p).kids[p.info];
    FirstIsCons(info, p.content, {0x80, 0xa0});
    KidsReadBack(info);
    FirstRead(info, p.content, {0x80, 0xa0});
    OnlyOne(ItemOf(ContentIn(e, p)), {0x80, 0xa0});
  }

  lemma FirstIsCons(e: Enc, i: nat, tags: set<byte>)
    requires First(e, i, tags)
    ensures e.Cons?
  {
  }

  lemma OnlyOne(x: Item, tags: set<byte>)
    requires x.tag in tags
    ensures FirstOf(RAW, [x], tags) == Some(0)
  {
  }

  /** What is read of a message whose content lies along a path. */
  lemma PartsRead(e: Enc, p: Path)
    requires Valid(e) && HasContent(e, p)
    ensures var r := PartsOf(RAW, ItemOf(e));
            r.Ok? ==> EncryptedContent(RAW, [ItemOf(ContentIn(e, p))]) == Ok(r.value.content)
  {
    hide Valid, Content, HasContent, Enveloped, ContentInfo, EncryptedContent, EncryptedKey, Iv;
    ContentRead(e, p);
  }

  // ---- another form of the whole message -----------------------------------------------------------------

  lemma PathStays(e: Enc, p: Path, c: Enc)
    requires Valid(e) && HasContent(e, p) && Valid(c) && c.Cons? && Strip(c) == Strip(ContentIn(e, p))
    ensures var x := WithContent(e, p, c);
            && Valid(x) && Strip(x) == Strip(e) && HasContent(x, p) && ContentIn(x, p) == c
  {
    hide Valid, Strip, FirstOf, LastOf;
    var explicit, data := e.kids[p.explicit], Data(e, p);
    var info := data.kids[p.info];
    KidValid(e, p.explicit);
    KidValid(explicit, 0);
    KidValid(data, p.info);
    KidValid(info, p.content);
    SameTag(c, info.kids[p.content]);
    var info' := Replaced(info, p.content, c);
    ReplacedIsValid(info, p.content, c);
    StrippedReplaced(info.kids, p.content, c);
    var data' := Replaced(data, p.info, info');
    ReplacedIsValid(data, p.info, info');
    StrippedReplaced(data.kids, p.info, info');
    var explicit' := Replaced(explicit, 0, data');
    ReplacedIsValid(explicit, 0, data');
    ReplacedIsValid(e, p.explicit, explicit');
    StrippedReplaced(e.kids, p.explicit, explicit');
  }

  lemma KidValid(e: Enc, i: nat)
    requires Valid(e) && e.Cons? && i < |e.kids|
    ensures Valid(e.kids[i])
  {
  }

  lemma SameTag(x: Enc, y: Enc)
    requires Strip(x) == Strip(y)
    ensures x.tag == y.tag
  {
  }

  /** The same path, in the tree. */
  predicate DataOnPath(t: Tree, p: Path) {
    && t.Node? && p.explicit < |t.kids| && FirstOf(TREES, t.kids, {0xa0}) == Some(p.explicit)
    && t.kids[p.explicit].Node? && t.kids[p.explicit].kids != [] && t.kids[p.explicit].kids[0].Node?
  }

  predicate OnPath(t: Tree, p: Path) {
    DataOnPath(t, p)
    && var data := t.kids[p.explicit].kids[0];
    && p.info < |data.kids| && LastOf(TREES, data.kids, {0x30}) == Some(p.info) && data.kids[p.info].Node?
    && var info := data.kids[p.info];
    && p.content < |info.kids| && FirstOf(TREES, info.kids, {0x80, 0xa0}) == Some(p.content)
    && info.kids[p.content].Node? && info.kids[p.content].tag == 0xa0
  }

  lemma DataPath(t: Tree, k: nat)
    requires Enveloped(TREES, t).Ok?
    requires k < |Enveloped(TREES, t).value| && Enveloped(TREES, t).value[k].Node?
    ensures t.Node? && FirstOf(TREES, t.kids, {0xa0}).Some?
    ensures var i := FirstOf(TREES, t.kids, {0xa0}).value;
            DataOnPath(t, Path(i, 0, 0)) && Enveloped(TREES, t).value == t.kids[i].kids[0].kids
  {
    hide FirstOf, Children;
    var i := FirstOf(TREES, KidsOf(t).value, {0xa0}).value;
    var explicit := KidsOf(t).value[i];
    InNode(KidsOf(explicit).value[0], k);
    InNode(explicit, 0);
    InNode(t, i);
  }

  /** A tree with a piece that is not plain has its content along a path. */
  lemma TreePath(t: Tree) returns (p: Path, piece: Tree)
    requires PartsOf(TREES, t).Ok? && !PlainEnvelope(t)
    ensures OnPath(t, p) && !PlainPiece(piece)
    ensures piece in t.kids[p.explicit].kids[0].kids[p.info].kids[p.content].kids
  {
    hide FirstOf, LastOf, PlainPiece, Children, EncryptedKey, Iv, Enveloped, DataOnPath;
    var data := Enveloped(TREES, t).value;
    var k := LastOf(TREES, data, {0x30}).value;
    var info := ContentInfo(TREES, data).value;
    var c := FirstOf(TREES, info, {0x80, 0xa0}).value;
    piece :| piece in KidsOf(info[c]).value && !PlainPiece(piece);
    PieceInNode(info[c], piece);
    InNode(data[k], c);
    DataPath(t, k);
    p := Path(FirstOf(TREES, t.kids, {0xa0}).value, k, c);
    SamePath(t, Path(p.explicit, 0, 0), p);
  }

  lemma SamePath(t: Tree, p: Path, q: Path)
    requires DataOnPath(t, p) && p.explicit == q.explicit
    ensures DataOnPath(t, q)
  {
  }

  lemma PathFound(e: Enc) returns (p: Path, j: nat)
    requires Valid(e) && PartsOf(TREES, Strip(e)).Ok? && !PlainEnvelope(Strip(e))
    ensures HasContent(e, p) && j < |ContentIn(e, p).kids| && !PlainPiece(Strip(ContentIn(e, p).kids[j]))
  {
    hide Valid, Strip, FirstOf, LastOf, PlainPiece, PartsOf, PlainEnvelope;
    var piece;
    p, piece := TreePath(Strip(e));
    NodeIsCons(e);
    KidIs(e, p.explicit);
    var explicit := e.kids[p.explicit];
    KidIs(explicit, 0);
    var data := explicit.kids[0];
    KidIs(data, p.info);
    var info := data.kids[p.info];
    KidIs(info, p.content);
    var content := info.kids[p.content];
    ConsParts(content);
    SameKidTag(content);
    j :| 0 <= j < |content.kids| && Stripped(content.kids)[j] == piece;
  }

  lemma SameKidTag(e: Enc)
    ensures Strip(e).tag == e.tag
  {
  }

  /** What holds a node is a node. */
  lemma InNode(t: Tree, i: nat)
    requires KidsOf(t).Ok? && i < |KidsOf(t).value| && KidsOf(t).value[i].Node?
    ensures t.Node?
  {
  }

  lemma PieceInNode(t: Tree, piece: Tree)
    requires KidsOf(t).Ok? && piece in KidsOf(t).value && !PlainPiece(piece)
    ensures t.Node?
  {
    hide Rigid;
  }

  lemma KidIs(e: Enc, i: nat)
    requires Valid(e) && e.Cons? && Strip(e).Node? && i < |Strip(e).kids| && Strip(e).kids[i].Node?
    ensures i < |e.kids| && Valid(e.kids[i]) && e.kids[i].Cons? && Strip(e.kids[i]) == Strip(e).kids[i]
    ensures Strip(e).kids == Stripped(e.kids)
  {
    ConsParts(e);
  }

  /** Then the same tree has another encoding, of which other content is read. */
  lemma AnotherMessage(e: Enc) returns (x: Enc)
    requires Valid(e) && PartsOf(TREES, Strip(e)).Ok? && !PlainEnvelope(Strip(e))
    ensures Valid(x) && x.Cons? && Strip(x) == Strip(e) && PartsOf(RAW, ItemOf(x)) != PartsOf(RAW, ItemOf(e))
  {
    hide Valid, Strip, PartsOf, PlainEnvelope, EncryptedContent, HasContent, Content, StandsFor;
    var p, j := PathFound(e);
    ContentRead(e, p);
    ContentIsNode(e, p);
    var c := AnotherContent(ContentIn(e, p), j);
    ConsAgain(c, ContentIn(e, p));
    PathStays(e, p, c);
    x := WithContent(e, p, c);
    EncStands(e);
    FaultStands(ItemOf(e), Strip(e));
    PartsRead(e, p);
    PartsRead(x, p);
  }

  lemma ContentIsNode(e: Enc, p: Path)
    requires HasContent(e, p)
    ensures ContentIn(e, p).Cons? && ContentIn(e, p).tag == 0xa0
  {
  }

  lemma ConsAgain(x: Enc, e: Enc)
    requires Strip(x) == Strip(e) && e.Cons?
    ensures x.Cons?
  {
  }

  /** A message is read the same in every form, whatever follows it, exactly when it is refused, or its
      content comes in plain pieces if it comes in pieces. */
  lemma FormsShowExactly(e: Enc, rest: seq<byte>)
    requires Valid(e)
    ensures (forall x: Enc :: Valid(x) && Strip(x) == Strip(e) ==> CmsParts(Write(x) + rest) == CmsParts(Write(e) + rest))
            <==> PartsOf(TREES, Strip(e)).Err? || PlainEnvelope(Strip(e))
  {
    hide Valid, Strip, Write, CmsParts, PartsOf, PlainEnvelope, Content;
    if PartsOf(TREES, Strip(e)).Err? || PlainEnvelope(Strip(e)) {
      forall x: Enc | Valid(x) && Strip(x) == Strip(e) ensures CmsParts(Write(x) + rest) == CmsParts(Write(e) + rest) {
        CmsIgnoresForms(x, rest);
        CmsIgnoresForms(e, rest);
      }
    } else {
      var x := AnotherMessage(e);
      Whole(x, rest);
      Whole(e, rest);
    }
  }

  lemma Whole(e: Enc, rest: seq<byte>)
    requires Valid(e)
    ensures CmsParts(Write(e) + rest) == PartsOf(RAW, ItemOf(e))
  {
    hide Valid, Write, PartsOf, Content;
    var b := Write(e) + rest;
    assert b[..|Write(e)|] == Write(e);
    ReadsBack(b, 0, e);
  }
}
