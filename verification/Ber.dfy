/** The envelope a key service answers with, read by hand: values with a length given up front or
    left open, and the pieces picked out of them. */
module Ber {
  import opened Wrappers
  import opened NumberTheory
  import opened Bytes

  datatype Fault = EndsEarly | NotAdvancing | BadLength | Missing(what: string)

  datatype Item = Item(tag: byte, content: seq<byte>)
  datatype Value = Value(item: Item, next: nat)

  // ---- one value, and the values inside one ---------------------------------------------------------

  function Left(b: seq<byte>, at: nat): nat {
    if at <= |b| then |b| - at else 0
  }

  /** The value at `at`: its tag, its contents, and where the next one starts. */
  function BerAt(b: seq<byte>, at: nat): (r: Result<Value, Fault>)
    ensures r.Ok? ==> at + 2 <= r.value.next <= |b| && |r.value.item.content| + 2 <= r.value.next - at
    decreases Left(b, at), 0
  {
    if at + 1 >= |b| then Err(EndsEarly)
    else
      var tag, first := b[at], b[at + 1];
      if first < 0x80 then Definite(b, tag, at + 2, first)
      else if first == 0x80 then
        match OpenEnd(b, at + 2)
        case Err(e) => Err(e)
        case Ok(end) => Ok(Value(Item(tag, b[at + 2..end]), end + 2))
      else
        var n := first - 0x80;
        if n > 4 then Err(BadLength)
        else if at + 2 + n > |b| then Err(EndsEarly)
        else Definite(b, tag, at + 2 + n, FromBe(b[at + 2..at + 2 + n]))
  }

  function Definite(b: seq<byte>, tag: byte, body: nat, len: nat): Result<Value, Fault> {
    if body + len > |b| then Err(EndsEarly) else Ok(Value(Item(tag, b[body..body + len]), body + len))
  }

  /** Where an open-ended value's contents stop: at two zero bytes, between values. */
  function OpenEnd(b: seq<byte>, end: nat): (r: Result<nat, Fault>)
    ensures r.Ok? ==> end <= r.value && r.value + 2 <= |b|
    decreases Left(b, end), 1
  {
    if end + 2 <= |b| && b[end] == 0 && b[end + 1] == 0 then Ok(end)
    else
      match BerAt(b, end)
      case Err(e) => Err(e)
      case Ok(v) => if v.next <= end then Err(NotAdvancing) else OpenEnd(b, v.next)
  }

  method ReadBer(b: seq<byte>, at: nat) returns (r: Result<Value, Fault>)
    ensures r == BerAt(b, at)
    decreases Left(b, at)
  {
    hide FromBe;
    if at + 1 >= |b| {
      return Err(EndsEarly);
    }
    var tag, first := b[at], b[at + 1];
    var len, body := first, at + 2;
    if first == 0x80 {
      var end := at + 2;
      while true
        invariant at + 2 <= end <= |b|
        invariant OpenEnd(b, end) == OpenEnd(b, at + 2)
        decreases Left(b, end)
      {
        if end + 2 <= |b| && b[end] == 0 && b[end + 1] == 0 {
          return Ok(Value(Item(tag, b[at + 2..end]), end + 2));
        }
        var inner := ReadBer(b, end);
        if inner.Err? {
          return Err(inner.error);
        }
        if inner.value.next <= end {
          return Err(NotAdvancing);
        }
        end := inner.value.next;
      }
    } else if first > 0x80 {
      var n := first - 0x80;
      if n > 4 {
        return Err(BadLength);
      }
      if at + 2 + n > |b| {
        return Err(EndsEarly);
      }
      len, body := FromBe(b[at + 2..at + 2 + n]), at + 2 + n;
    }
    var end := body + len;
    if end > |b| {
      return Err(EndsEarly);
    }
    return Ok(Value(Item(tag, b[body..end]), end));
  }

  function ChildrenFrom(b: seq<byte>, at: nat): (r: Result<seq<Item>, Fault>)
    ensures r.Ok? ==> forall x :: x in r.value ==> |x.content| < |b|
    decreases Left(b, at)
  {
    if at >= |b| || b[at] == 0 then Ok([])
    else
      var v :- BerAt(b, at);
      var rest :- ChildrenFrom(b, v.next);
      Ok([v.item] + rest)
  }

  /** Every value inside one. */
  function Children(b: seq<byte>): (r: Result<seq<Item>, Fault>)
    ensures r.Ok? ==> forall x :: x in r.value ==> |x.content| < |b|
  {
    ChildrenFrom(b, 0)
  }

  method ReadChildren(b: seq<byte>) returns (r: Result<seq<Item>, Fault>)
    ensures r == Children(b)
  {
    hide BerAt;
    var out: seq<Item>, at: nat := [], 0;
    assert Children(b).Ok? ==> [] + Children(b).value == Children(b).value;
    while at < |b|
      invariant at <= |b|
      invariant match ChildrenFrom(b, at)
                case Ok(rest) => Children(b) == Ok(out + rest)
                case Err(e) => Children(b) == Err(e)
      decreases |b| - at
    {
      if b[at] == 0 {
        break;
      }
      var v := ReadBer(b, at);
      if v.Err? {
        return Err(v.error);
      }
      OneMoreChild(b, at, out);
      out := out + [v.value.item];
      at := v.value.next;
    }
    assert out + [] == out;
    r := Ok(out);
  }

  lemma OneMoreChild(b: seq<byte>, at: nat, out: seq<Item>)
    requires at < |b| && b[at] != 0 && BerAt(b, at).Ok?
    ensures var v, rest := BerAt(b, at).value, ChildrenFrom(b, BerAt(b, at).value.next);
            match ChildrenFrom(b, at)
            case Ok(all) => rest.Ok? && out + all == out + [v.item] + rest.value
            case Err(e) => rest == Err(e)
  {
    hide BerAt;
  }

  /** On bytes of any kind the reader advances: that error is never met. */
  lemma {:induction false} AlwaysAdvances(b: seq<byte>, at: nat)
    ensures BerAt(b, at) != Err(NotAdvancing)
    ensures OpenEnd(b, at) != Err(NotAdvancing)
    decreases Left(b, at)
  {
    hide FromBe;
    if at + 1 < |b| {
      if b[at + 1] == 0x80 { AlwaysAdvances(b, at + 2); }
      if BerAt(b, at).Ok? { AlwaysAdvances(b, BerAt(b, at).value.next); }
    }
  }

  // ---- values as they are written --------------------------------------------------------------------

  datatype Form = Short | Long(length: seq<byte>) | Open

  /** A value and the forms chosen for the lengths in it. */
  datatype Enc = Prim(tag: byte, bytes: seq<byte>, form: Form) | Cons(tag: byte, kids: seq<Enc>, form: Form)

  function Content(e: Enc): seq<byte>
    decreases e, 0
  {
    match e
    case Prim(_, bytes, _) => bytes
    case Cons(_, kids, _) => WriteAll(kids)
  }

  function Write(e: Enc): seq<byte>
    decreases e, 1
  {
    var c := Content(e);
    match e.form
    case Short => [e.tag, if |c| < 0x80 then |c| else 0] + c
    case Long(length) => [e.tag, if |length| <= 4 then 0x80 + |length| else 0] + length + c
    case Open => [e.tag, 0x80] + c + [0, 0]
  }

  function WriteAll(kids: seq<Enc>): seq<byte>
    decreases kids
  {
    if kids == [] then [] else Write(kids[0]) + WriteAll(kids[1..])
  }

  /** The sixth bit of a tag says that the value is made of values. */
  predicate Constructed(tag: byte) {
    tag / 32 % 2 == 1
  }

  /** A tag that is not zero, a length that fits its form, and an open length only on a value made
      of values. */
  predicate Valid(e: Enc)
    decreases e
  {
    && e.tag != 0
    && (match e.form
        case Short => |Content(e)| < 0x80
        case Long(length) => 1 <= |length| <= 4 && FromBe(length) == |Content(e)|
        case Open => e.Cons?)
    && (e.Cons? <==> Constructed(e.tag))
    && (e.Cons? ==> forall i :: 0 <= i < |e.kids| ==> Valid(e.kids[i]))
  }

  predicate AllValid(kids: seq<Enc>) {
    forall i :: 0 <= i < |kids| ==> Valid(kids[i])
  }

  function ItemOf(e: Enc): Item {
    Item(e.tag, Content(e))
  }

  predicate Holds(b: seq<byte>, at: nat, s: seq<byte>) {
    at + |s| <= |b| && b[at..at + |s|] == s
  }

  lemma HoldsParts(b: seq<byte>, at: nat, x: seq<byte>, y: seq<byte>)
    requires Holds(b, at, x + y)
    ensures Holds(b, at, x) && Holds(b, at + |x|, y)
  {
    assert b[at..at + |x + y|][..|x|] == x && b[at..at + |x + y|][|x|..] == y;
  }

  lemma ShortReadsBack(b: seq<byte>, at: nat, e: Enc)
    requires Valid(e) && e.form.Short? && Holds(b, at, Write(e))
    ensures BerAt(b, at) == Ok(Value(ItemOf(e), at + |Write(e)|))
  {
    hide Content, OpenEnd;
    var c := Content(e);
    HoldsParts(b, at, [e.tag, |c|], c);
    HeaderIs(b, at, e.tag, |c|);
  }

  lemma LongReadsBack(b: seq<byte>, at: nat, e: Enc)
    requires Valid(e) && e.form.Long? && Holds(b, at, Write(e))
    ensures BerAt(b, at) == Ok(Value(ItemOf(e), at + |Write(e)|))
  {
    hide FromBe, Content, OpenEnd;
    var c, length := Content(e), e.form.length;
    HoldsParts(b, at, [e.tag, 0x80 + |length|] + length, c);
    HoldsParts(b, at, [e.tag, 0x80 + |length|], length);
    HeaderIs(b, at, e.tag, 0x80 + |length|);
  }

  lemma OpenReadsBack(b: seq<byte>, at: nat, e: Enc)
    requires Valid(e) && e.form.Open? && Holds(b, at, Write(e))
    requires OpenEnd(b, at + 2) == Ok(at + 2 + |Content(e)|)
    ensures BerAt(b, at) == Ok(Value(ItemOf(e), at + |Write(e)|))
  {
    hide Content, OpenEnd;
    OpenLayout(b, at, e);
  }

  lemma OpenLayout(b: seq<byte>, at: nat, e: Enc)
    requires e.form.Open? && Holds(b, at, Write(e))
    ensures at + 2 <= |b| && b[at] == e.tag && b[at + 1] == 0x80
    ensures Holds(b, at + 2, Content(e) + [0, 0]) && Holds(b, at + 2, Content(e))
  {
    hide Content;
    var c := Content(e);
    assert [e.tag, 0x80] + c + [0, 0] == [e.tag, 0x80] + (c + [0, 0]);
    HoldsParts(b, at, [e.tag, 0x80], c + [0, 0]);
    HeaderIs(b, at, e.tag, 0x80);
    HoldsParts(b, at + 2, c, [0, 0]);
  }

  /** Wherever a value is written, whatever forms were chosen for its lengths, it is read back: the
      tag, the contents, and the place right behind it. */
  lemma {:induction false} ReadsBack(b: seq<byte>, at: nat, e: Enc)
    requires Valid(e) && Holds(b, at, Write(e))
    ensures BerAt(b, at) == Ok(Value(ItemOf(e), at + |Write(e)|))
    decreases e, 1
  {
    hide BerAt, OpenEnd, Content, Write, Holds;
    match e.form
    case Short => ShortReadsBack(b, at, e);
    case Long(_) => LongReadsBack(b, at, e);
    case Open =>
      OpenLayout(b, at, e);
      ContentOf(e);
      OpenStopsBehind(b, at + 2, e.kids);
      OpenReadsBack(b, at, e);
  }

  lemma HeaderIs(b: seq<byte>, at: nat, tag: byte, first: byte)
    requires Holds(b, at, [tag, first])
    ensures at + 2 <= |b| && b[at] == tag && b[at + 1] == first
  {
    assert b[at..at + 2][0] == tag && b[at..at + 2][1] == first;
  }

  lemma ContentOf(e: Enc)
    requires e.Cons? && Valid(e)
    ensures Content(e) == WriteAll(e.kids) && AllValid(e.kids)
  {
  }

  lemma WriteBegins(e: Enc)
    ensures |Write(e)| >= 2 && Write(e)[0] == e.tag
  {
    hide Content;
  }

  /** The two zero bytes that end an open length are not mistaken for a value, nor a value for them. */
  lemma {:induction false} OpenStopsBehind(b: seq<byte>, at: nat, kids: seq<Enc>)
    requires AllValid(kids) && Holds(b, at, WriteAll(kids) + [0, 0])
    ensures OpenEnd(b, at) == Ok(at + |WriteAll(kids)|)
    decreases kids, 0
  {
    hide BerAt, Valid, Write;
    if kids == [] {
      assert WriteAll(kids) + [0, 0] == [0, 0];
      HeaderIs(b, at, 0, 0);
    } else {
      var w, rest := Write(kids[0]), WriteAll(kids[1..]);
      assert WriteAll(kids) + [0, 0] == w + (rest + [0, 0]);
      HoldsParts(b, at, w, rest + [0, 0]);
      ReadsBack(b, at, kids[0]);
      WriteBegins(kids[0]);
      TagThere(b, at, kids[0]);
      OpenStopsBehind(b, at + |w|, kids[1..]);
    }
  }

  lemma TagThere(b: seq<byte>, at: nat, e: Enc)
    requires Valid(e) && Holds(b, at, Write(e))
    ensures at < |b| && b[at] == e.tag != 0
  {
    hide Content, Write;
    WriteBegins(e);
    assert b[at..at + |Write(e)|][0] == e.tag;
  }

  function Items(kids: seq<Enc>): seq<Item> {
    seq(|kids|, i requires 0 <= i < |kids| => ItemOf(kids[i]))
  }

  lemma {:induction false} ChildrenBack(b: seq<byte>, at: nat, kids: seq<Enc>)
    requires AllValid(kids) && at <= |b| && b[at..] == WriteAll(kids)
    ensures ChildrenFrom(b, at) == Ok(Items(kids))
    decreases |kids|
  {
    hide BerAt, Valid, Write, Content;
    if kids == [] {
      assert |b[at..]| == 0 && Items(kids) == [];
    } else {
      var w, rest := Write(kids[0]), WriteAll(kids[1..]);
      assert b[at..] == w + rest;
      assert b[at..at + |w|] == b[at..][..|w|] == w && b[at + |w|..] == b[at..][|w|..] == rest;
      ReadsBack(b, at, kids[0]);
      TagThere(b, at, kids[0]);
      ChildrenBack(b, at + |w|, kids[1..]);
      assert Items(kids) == [ItemOf(kids[0])] + Items(kids[1..]);
    }
  }

  /** The contents of a value made of values read back as those values, each with its tag and its
      contents, in order. */
  lemma KidsReadBack(e: Enc)
    requires e.Cons? && Valid(e)
    ensures Children(Content(e)) == Ok(Items(e.kids))
  {
    hide Content, Items;
    ContentOf(e);
    ChildrenBack(Content(e), 0, e.kids);
  }

  // ---- the pieces of the envelope --------------------------------------------------------------------

  /** Things with a tag: raw items, or values of a tree. */
  datatype View<!T> = View(tag: T -> byte, content: T -> seq<byte>, kids: T -> Result<seq<T>, Fault>)

  function FirstOf<T>(v: View<T>, xs: seq<T>, tags: set<byte>): (r: Option<nat>)
    ensures r.Some? ==> r.value < |xs|
  {
    if xs == [] then None
    else if v.tag(xs[0]) in tags then Some(0)
    else
      var r := FirstOf(v, xs[1..], tags);
      if r.Some? then Some(r.value + 1) else None
  }

  function LastOf<T>(v: View<T>, xs: seq<T>, tags: set<byte>): (r: Option<nat>)
    ensures r.Some? ==> r.value < |xs|
  {
    if xs == [] then None
    else if v.tag(xs[|xs| - 1]) in tags then Some(|xs| - 1)
    else LastOf(v, xs[..|xs| - 1], tags)
  }

  function Pick<T>(xs: seq<T>, i: Option<nat>, what: string): Result<T, Fault>
    requires i.Some? ==> i.value < |xs|
  {
    if i.Some? then Ok(xs[i.value]) else Err(Missing(what))
  }

  function Head<T>(xs: seq<T>, what: string): Result<T, Fault> {
    if xs == [] then Err(Missing(what)) else Ok(xs[0])
  }

  function Joined<T>(v: View<T>, xs: seq<T>): seq<byte> {
    if xs == [] then [] else v.content(xs[0]) + Joined(v, xs[1..])
  }

  datatype Parts = Parts(key: seq<byte>, iv: seq<byte>, content: seq<byte>)

  /** What the enveloped data is made of. */
  function Enveloped<T>(v: View<T>, root: T): Result<seq<T>, Fault> {
    var info :- v.kids(root);
    var explicit :- Pick(info, FirstOf(v, info, {0xa0}), "enveloped data");
    var inside :- v.kids(explicit);
    var enveloped :- Head(inside, "enveloped data");
    v.kids(enveloped)
  }

  /** The content key as it was encrypted to us: the last octet string of the first recipient. */
  function EncryptedKey<T>(v: View<T>, parts: seq<T>): Result<T, Fault> {
    var recipients :- Pick(parts, FirstOf(v, parts, {0x31}), "recipients");
    var all :- v.kids(recipients);
    var recipient :- Head(all, "recipient");
    var fields :- v.kids(recipient);
    Pick(fields, LastOf(v, fields, {0x04}), "key")
  }

  /** The content's algorithm and the content itself. */
  function ContentInfo<T>(v: View<T>, parts: seq<T>): Result<seq<T>, Fault> {
    var info :- Pick(parts, LastOf(v, parts, {0x30}), "content");
    v.kids(info)
  }

  function Iv<T>(v: View<T>, info: seq<T>): Result<T, Fault> {
    var algorithm :- Pick(info, FirstOf(v, info, {0x30}), "algorithm");
    var fields :- v.kids(algorithm);
    Pick(fields, FirstOf(v, fields, {0x04}), "IV")
  }

  function EncryptedContent<T>(v: View<T>, info: seq<T>): Result<seq<byte>, Fault> {
    var content :- Pick(info, FirstOf(v, info, {0x80, 0xa0}), "content");
    if v.tag(content) == 0xa0 then
      var pieces :- v.kids(content);
      Ok(Joined(v, pieces))
    else Ok(v.content(content))
  }

  function PartsOf<T>(v: View<T>, root: T): Result<Parts, Fault> {
    var parts :- Enveloped(v, root);
    var key :- EncryptedKey(v, parts);
    var info :- ContentInfo(v, parts);
    var iv :- Iv(v, info);
    var content :- EncryptedContent(v, info);
    Ok(Parts(v.content(key), v.content(iv), content))
  }

  /** The bytes as the reader sees them. */
  const RAW: View<Item> := View((i: Item) => i.tag, (i: Item) => i.content, (i: Item) => Children(i.content))

  /** The three pieces of an envelope. */
  function CmsParts(b: seq<byte>): Result<Parts, Fault> {
    var root :- BerAt(b, 0);
    PartsOf(RAW, root.item)
  }

  // ---- the same pieces, whatever the forms -----------------------------------------------------------

  /** A value without the forms chosen for its lengths. */
  datatype Tree = Leaf(tag: byte, bytes: seq<byte>) | Node(tag: byte, kids: seq<Tree>)

  function Strip(e: Enc): Tree
    decreases e
  {
    match e
    case Prim(tag, bytes, _) => Leaf(tag, bytes)
    case Cons(tag, kids, _) => Node(tag, seq(|kids|, i requires 0 <= i < |kids| => Strip(kids[i])))
  }

  function Stripped(kids: seq<Enc>): seq<Tree> {
    seq(|kids|, i requires 0 <= i < |kids| => Strip(kids[i]))
  }

  /** All the way down: a tag that says so is read as values, any other as a leaf. */
  function TreeOf(i: Item): Result<Tree, Fault>
    decreases |i.content|, 1, 0
  {
    if !Constructed(i.tag) then Ok(Leaf(i.tag, i.content))
    else
      var items :- Children(i.content);
      var kids :- TreesOf(items, |i.content|);
      Ok(Node(i.tag, kids))
  }

  function TreesOf(items: seq<Item>, bound: nat): Result<seq<Tree>, Fault>
    requires forall x :: x in items ==> |x.content| < bound
    decreases bound, 0, |items|
  {
    if items == [] then Ok([])
    else
      var first :- TreeOf(items[0]);
      var rest :- TreesOf(items[1..], bound);
      Ok([first] + rest)
  }

  /** Every choice of forms, at every level, reads back as the same tree. */
  lemma {:induction false} TreeReadsBack(e: Enc)
    requires Valid(e)
    ensures TreeOf(ItemOf(e)) == Ok(Strip(e))
    decreases e, 1
  {
    hide Children, Content;
    if e.Cons? {
      KidsReadBack(e);
      ContentOf(e);
      assert Items(e.kids) == Children(Content(e)).value;
      TreesReadBack(e.kids, |Content(e)|);
      assert Strip(e) == Node(e.tag, Stripped(e.kids));
    } else {
      LeafContent(e);
    }
  }

  lemma LeafContent(e: Enc)
    requires e.Prim?
    ensures Content(e) == e.bytes
  {
  }

  lemma {:induction false} TreesReadBack(kids: seq<Enc>, bound: nat)
    requires AllValid(kids) && forall x :: x in Items(kids) ==> |x.content| < bound
    ensures TreesOf(Items(kids), bound) == Ok(Stripped(kids))
    decreases kids, 0
  {
    hide Children, Content, Valid;
    if kids != [] {
      assert Items(kids)[0] == ItemOf(kids[0]) && Items(kids)[1..] == Items(kids[1..]);
      TreeReadsBack(kids[0]);
      TreesReadBack(kids[1..], bound);
      assert Stripped(kids) == [Strip(kids[0])] + Stripped(kids[1..]);
    }
  }

  function LeafOf(i: Item): Tree {
    Leaf(i.tag, i.content)
  }

  function Leaves(items: seq<Item>): seq<Tree> {
    seq(|items|, i requires 0 <= i < |items| => LeafOf(items[i]))
  }

  function KidsOf(t: Tree): Result<seq<Tree>, Fault> {
    match t
    case Node(_, kids) => Ok(kids)
    case Leaf(_, bytes) =>
      var items :- Children(bytes);
      Ok(Leaves(items))
  }

  /** A leaf of so many bytes has one length form, of four bytes; fewer can be written in more. */
  const FOUR_BYTES := 0x100_0000

  /** The one way to write a tree that has one: its leaves too long for a shorter form, its nodes too
      long for any but an open one. */
  function OnlyWrite(t: Tree): seq<byte>
    decreases t, 1
  {
    match t
    case Leaf(tag, bytes) => [tag, 0x84] + ToFixed(|bytes|, 4) + bytes
    case Node(tag, kids) => [tag, 0x80] + OnlyContent(kids) + [0, 0]
  }

  function OnlyContent(kids: seq<Tree>): seq<byte>
    decreases kids, 0
  {
    if kids == [] then [] else OnlyWrite(kids[0]) + OnlyContent(kids[1..])
  }

  predicate Rigid(t: Tree)
    decreases t
  {
    match t
    case Leaf(_, bytes) => |bytes| >= FOUR_BYTES
    case Node(_, kids) => (forall i :: 0 <= i < |kids| ==> Rigid(kids[i])) && |OnlyContent(kids)| >= 256 * FOUR_BYTES
  }

  predicate AllRigid(kids: seq<Tree>) {
    forall i :: 0 <= i < |kids| ==> Rigid(kids[i])
  }

  /** A piece of content whose bytes do not depend on forms: a leaf, or made of nothing, or of values
      that have one form only. */
  predicate PlainPiece(t: Tree) {
    t.Node? ==> AllRigid(t.kids)
  }

  lemma FourBytesHold(length: seq<byte>)
    ensures |length| <= 4 ==> FromBe(length) < 256 * FOUR_BYTES
    ensures |length| <= 3 ==> FromBe(length) < FOUR_BYTES
  {
    FromBeLess(length);
    assert Pow(256, 1) == 256 && Pow(256, 2) == 65_536 && Pow(256, 3) == FOUR_BYTES && Pow(256, 4) == 256 * FOUR_BYTES;
  }

  lemma RigidLeaf(e: Enc)
    requires Valid(e) && e.Prim? && |e.bytes| >= FOUR_BYTES
    ensures Write(e) == OnlyWrite(Strip(e))
  {
    match e.form
    case Short =>
    case Open =>
    case Long(length) =>
      FourBytesHold(length);
      FromBeRoundTrip(length);
  }

  /** A tree that has one form is written so. */
  lemma {:induction false} RigidIsWritten(e: Enc)
    requires Valid(e) && Rigid(Strip(e))
    ensures Write(e) == OnlyWrite(Strip(e))
    decreases e, 1
  {
    hide FromBe, ToFixed;
    if e.Prim? {
      RigidLeaf(e);
    } else {
      ContentOf(e);
      assert Strip(e) == Node(e.tag, Stripped(e.kids));
      RigidContent(e.kids);
      if e.form.Long? { FourBytesHold(e.form.length); }
    }
  }

  lemma {:induction false} RigidContent(kids: seq<Enc>)
    requires AllValid(kids) && AllRigid(Stripped(kids))
    ensures WriteAll(kids) == OnlyContent(Stripped(kids))
    decreases kids, 0
  {
    hide Valid, Write, Rigid, OnlyWrite;
    if kids == [] {
      assert Stripped(kids) == [];
    } else {
      assert Stripped(kids)[0] == Strip(kids[0]);
      RigidIsWritten(kids[0]);
      assert Stripped(kids)[1..] == Stripped(kids[1..]);
      RigidContent(kids[1..]);
    }
  }

  /** Trees: a leaf has bytes of its own, a node only where they can be no others. */
  const TREES: View<Tree> :=
    View((t: Tree) => t.tag, (t: Tree) => if t.Leaf? then t.bytes else OnlyContent(t.kids), (t: Tree) => KidsOf(t))

  /** An item of the raw bytes stands for a tree: the same leaf, or a node written in some form. */
  ghost predicate StandsFor(i: Item, t: Tree) {
    i.tag == t.tag
    && if t.Leaf? then i.content == t.bytes else exists e: Enc :: Valid(e) && e.Cons? && ItemOf(e) == i && Strip(e) == t
  }

  ghost predicate AllStand(xs: seq<Item>, ts: seq<Tree>) {
    |xs| == |ts| && forall i :: 0 <= i < |xs| ==> StandsFor(xs[i], ts[i])
  }

  lemma EncStands(e: Enc)
    requires Valid(e)
    ensures StandsFor(ItemOf(e), Strip(e))
  {
  }

  lemma LeavesStand(items: seq<Item>)
    ensures AllStand(items, Leaves(items))
  {
  }

  /** What stands for a tree is made of what stands for its values. */
  lemma KidsStand(i: Item, t: Tree)
    requires StandsFor(i, t)
    ensures match Children(i.content)
            case Ok(xs) => KidsOf(t).Ok? && AllStand(xs, KidsOf(t).value)
            case Err(e) => KidsOf(t) == Err(e)
  {
    hide Children, Valid, Content;
    if t.Leaf? {
      if Children(i.content).Ok? { LeavesStand(Children(i.content).value); }
    } else {
      var e: Enc :| Valid(e) && e.Cons? && ItemOf(e) == i && Strip(e) == t;
      KidsReadBack(e);
      ContentOf(e);
      forall k | 0 <= k < |e.kids| ensures StandsFor(Items(e.kids)[k], t.kids[k]) {
        EncStands(e.kids[k]);
      }
    }
  }

  lemma {:induction false} SameFirst(xs: seq<Item>, ts: seq<Tree>, tags: set<byte>)
    requires AllStand(xs, ts)
    ensures FirstOf(RAW, xs, tags) == FirstOf(TREES, ts, tags)
    decreases |xs|
  {
    if xs != [] { SameFirst(xs[1..], ts[1..], tags); }
  }

  lemma {:induction false} SameLast(xs: seq<Item>, ts: seq<Tree>, tags: set<byte>)
    requires AllStand(xs, ts)
    ensures LastOf(RAW, xs, tags) == LastOf(TREES, ts, tags)
    decreases |xs|
  {
    if xs != [] { SameLast(xs[..|xs| - 1], ts[..|xs| - 1], tags); }
  }

  ghost predicate SameList(rx: Result<seq<Item>, Fault>, rt: Result<seq<Tree>, Fault>) {
    match rx
    case Ok(xs) => rt.Ok? && AllStand(xs, rt.value)
    case Err(e) => rt == Err(e)
  }

  ghost predicate SameOne(rx: Result<Item, Fault>, rt: Result<Tree, Fault>) {
    match rx
    case Ok(x) => rt.Ok? && StandsFor(x, rt.value)
    case Err(e) => rt == Err(e)
  }

  lemma EnvelopedStands(i: Item, t: Tree)
    requires StandsFor(i, t)
    ensures SameList(Enveloped(RAW, i), Enveloped(TREES, t))
  {
    hide Children, StandsFor, KidsOf, FirstOf;
    KidsStand(i, t);
    if Children(i.content).Ok? {
      var info, tInfo := Children(i.content).value, KidsOf(t).value;
      SameFirst(info, tInfo, {0xa0});
      var k := FirstOf(RAW, info, {0xa0});
      if k.Some? {
        KidsStand(info[k.value], tInfo[k.value]);
        var inside := Children(info[k.value].content);
        if inside.Ok? && inside.value != [] {
          KidsStand(inside.value[0], KidsOf(tInfo[k.value]).value[0]);
        }
      }
    }
  }

  lemma KeyStands(parts: seq<Item>, tParts: seq<Tree>)
    requires AllStand(parts, tParts)
    ensures SameOne(EncryptedKey(RAW, parts), EncryptedKey(TREES, tParts))
    ensures EncryptedKey(TREES, tParts).Ok? ==> EncryptedKey(TREES, tParts).value.tag == 0x04
  {
    hide Children, StandsFor, KidsOf, FirstOf, LastOf;
    SameFirst(parts, tParts, {0x31});
    var k := FirstOf(RAW, parts, {0x31});
    if k.Some? {
      KidsStand(parts[k.value], tParts[k.value]);
      var all := Children(parts[k.value].content);
      if all.Ok? && all.value != [] {
        var tAll := KidsOf(tParts[k.value]).value;
        KidsStand(all.value[0], tAll[0]);
        var fields := Children(all.value[0].content);
        if fields.Ok? {
          SameLast(fields.value, KidsOf(tAll[0]).value, {0x04});
          LastHasTag(TREES, KidsOf(tAll[0]).value, {0x04});
        }
      }
    }
  }

  lemma {:induction false} FirstHasTag<T>(v: View<T>, xs: seq<T>, tags: set<byte>)
    ensures var r := FirstOf(v, xs, tags); r.Some? ==> v.tag(xs[r.value]) in tags
  {
    if xs != [] { FirstHasTag(v, xs[1..], tags); }
  }

  lemma {:induction false} LastHasTag<T>(v: View<T>, xs: seq<T>, tags: set<byte>)
    ensures var r := LastOf(v, xs, tags); r.Some? ==> v.tag(xs[r.value]) in tags
  {
    if xs != [] { LastHasTag(v, xs[..|xs| - 1], tags); }
  }

  lemma InfoStands(parts: seq<Item>, tParts: seq<Tree>)
    requires AllStand(parts, tParts)
    ensures SameList(ContentInfo(RAW, parts), ContentInfo(TREES, tParts))
  {
    hide Children, StandsFor, KidsOf, LastOf;
    SameLast(parts, tParts, {0x30});
    var k := LastOf(RAW, parts, {0x30});
    if k.Some? { KidsStand(parts[k.value], tParts[k.value]); }
  }

  lemma IvStands(info: seq<Item>, tInfo: seq<Tree>)
    requires AllStand(info, tInfo)
    ensures SameOne(Iv(RAW, info), Iv(TREES, tInfo))
    ensures Iv(TREES, tInfo).Ok? ==> Iv(TREES, tInfo).value.tag == 0x04
  {
    hide Children, StandsFor, KidsOf, FirstOf;
    SameFirst(info, tInfo, {0x30});
    var k := FirstOf(RAW, info, {0x30});
    if k.Some? {
      KidsStand(info[k.value], tInfo[k.value]);
      var fields := Children(info[k.value].content);
      if fields.Ok? {
        SameFirst(fields.value, KidsOf(tInfo[k.value]).value, {0x04});
        FirstHasTag(TREES, KidsOf(tInfo[k.value]).value, {0x04});
      }
    }
  }

  /** A value with the tag of an octet string is a leaf, and its bytes are the same. */
  lemma OctetsStand(i: Item, t: Tree)
    requires StandsFor(i, t) && !Constructed(t.tag)
    ensures i.content == TREES.content(t)
  {
  }

  /** The content, when it comes in pieces, comes in plain ones. */
  predicate PiecesPlain(info: seq<Tree>) {
    var k := FirstOf(TREES, info, {0x80, 0xa0});
    k.Some? && info[k.value].tag == 0xa0 && KidsOf(info[k.value]).Ok? ==>
      forall t :: t in KidsOf(info[k.value]).value ==> PlainPiece(t)
  }

  lemma PlainStands(i: Item, t: Tree)
    requires StandsFor(i, t) && PlainPiece(t)
    ensures i.content == TREES.content(t)
  {
    hide Rigid, Valid, OnlyContent;
    if t.Node? {
      var e: Enc :| Valid(e) && e.Cons? && ItemOf(e) == i && Strip(e) == t;
      ContentOf(e);
      assert t.kids == Stripped(e.kids);
      RigidContent(e.kids);
    }
  }

  lemma {:induction false} JoinedSame(xs: seq<Item>, ts: seq<Tree>)
    requires AllStand(xs, ts) && forall t :: t in ts ==> PlainPiece(t)
    ensures Joined(RAW, xs) == Joined(TREES, ts)
    decreases |xs|
  {
    hide StandsFor, PlainPiece, OnlyContent;
    if xs != [] {
      assert ts[0] in ts;
      PlainStands(xs[0], ts[0]);
      JoinedSame(xs[1..], ts[1..]);
    }
  }

  lemma ContentStands(info: seq<Item>, tInfo: seq<Tree>)
    requires AllStand(info, tInfo) && PiecesPlain(tInfo)
    ensures EncryptedContent(RAW, info) == EncryptedContent(TREES, tInfo)
  {
    hide Children, KidsOf, FirstOf, Joined, Valid, Content, PlainPiece, OnlyContent;
    SameFirst(info, tInfo, {0x80, 0xa0});
    FirstHasTag(TREES, tInfo, {0x80, 0xa0});
    var k := FirstOf(RAW, info, {0x80, 0xa0});
    if k.Some? {
      var x, t := info[k.value], tInfo[k.value];
      assert StandsFor(x, t);
      if t.tag == 0xa0 {
        KidsStand(x, t);
        if Children(x.content).Ok? { JoinedSame(Children(x.content).value, KidsOf(t).value); }
      } else {
        OctetsStand(x, t);
      }
    }
  }

  /** The fault met with the content, if any, is always that of the tree. */
  lemma ContentFaults(info: seq<Item>, tInfo: seq<Tree>)
    requires AllStand(info, tInfo)
    ensures var (rx, rt) := (EncryptedContent(RAW, info), EncryptedContent(TREES, tInfo));
            (rx.Ok? <==> rt.Ok?) && (rx.Err? ==> rx == rt)
  {
    hide Children, KidsOf, FirstOf, Joined, Valid, Content, OnlyContent;
    SameFirst(info, tInfo, {0x80, 0xa0});
    var k := FirstOf(RAW, info, {0x80, 0xa0});
    if k.Some? {
      assert StandsFor(info[k.value], tInfo[k.value]);
      KidsStand(info[k.value], tInfo[k.value]);
    }
  }

  /** The whole envelope's content in plain pieces. */
  predicate PlainEnvelope(t: Tree) {
    Enveloped(TREES, t).Ok? ==>
      var info := ContentInfo(TREES, Enveloped(TREES, t).value);
      info.Ok? ==> PiecesPlain(info.value)
  }

  lemma PartsStand(i: Item, t: Tree)
    requires StandsFor(i, t) && PlainEnvelope(t)
    ensures PartsOf(RAW, i) == PartsOf(TREES, t)
  {
    hide StandsFor, AllStand, Enveloped, EncryptedKey, ContentInfo, Iv, EncryptedContent, PiecesPlain;
    EnvelopedStands(i, t);
    if Enveloped(RAW, i).Ok? {
      var parts, tParts := Enveloped(RAW, i).value, Enveloped(TREES, t).value;
      KeyStands(parts, tParts);
      InfoStands(parts, tParts);
      if EncryptedKey(RAW, parts).Ok? {
        OctetsStand(EncryptedKey(RAW, parts).value, EncryptedKey(TREES, tParts).value);
        if ContentInfo(RAW, parts).Ok? {
          var info, tInfo := ContentInfo(RAW, parts).value, ContentInfo(TREES, tParts).value;
          IvStands(info, tInfo);
          ContentStands(info, tInfo);
          if Iv(RAW, info).Ok? { OctetsStand(Iv(RAW, info).value, Iv(TREES, tInfo).value); }
        }
      }
    }
  }

  /** An envelope is read or refused as its tree is, whatever its pieces. */
  lemma FaultStands(i: Item, t: Tree)
    requires StandsFor(i, t)
    ensures var (rx, rt) := (PartsOf(RAW, i), PartsOf(TREES, t)); (rx.Ok? <==> rt.Ok?) && (rx.Err? ==> rx == rt)
  {
    hide StandsFor, AllStand, Enveloped, EncryptedKey, ContentInfo, Iv, EncryptedContent;
    EnvelopedStands(i, t);
    if Enveloped(RAW, i).Ok? {
      var parts, tParts := Enveloped(RAW, i).value, Enveloped(TREES, t).value;
      KeyStands(parts, tParts);
      InfoStands(parts, tParts);
      if EncryptedKey(RAW, parts).Ok? && ContentInfo(RAW, parts).Ok? {
        IvStands(ContentInfo(RAW, parts).value, ContentInfo(TREES, tParts).value);
        ContentFaults(ContentInfo(RAW, parts).value, ContentInfo(TREES, tParts).value);
      }
    }
  }

  /** Whatever forms the sender chose for the lengths, at every level: the pieces read out of the
      envelope, or the fault found, are those of the tree. */
  lemma CmsIgnoresForms(e: Enc, rest: seq<byte>)
    requires Valid(e) && (PartsOf(TREES, Strip(e)).Err? || PlainEnvelope(Strip(e)))
    ensures CmsParts(Write(e) + rest) == PartsOf(TREES, Strip(e))
  {
    hide Valid, Write, Content, PartsOf, PlainEnvelope, StandsFor;
    var b := Write(e) + rest;
    assert b[..|Write(e)|] == Write(e);
    ReadsBack(b, 0, e);
    EncStands(e);
    FaultStands(ItemOf(e), Strip(e));
    if PlainEnvelope(Strip(e)) { PartsStand(ItemOf(e), Strip(e)); }
  }

  // ---- an envelope as the standard lays it out -----------------------------------------------------------

  lemma {:induction false} FirstBehind(before: seq<Tree>, x: Tree, rest: seq<Tree>, tags: set<byte>)
    requires x.tag in tags && forall t :: t in before ==> t.tag !in tags
    ensures FirstOf(TREES, before + [x] + rest, tags) == Some(|before|)
    decreases |before|
  {
    var all := before + [x] + rest;
    if before == [] {
      assert all[0] == x;
    } else {
      assert all[0] == before[0] && all[1..] == before[1..] + [x] + rest;
      FirstBehind(before[1..], x, rest, tags);
    }
  }

  lemma {:induction false} LastBefore(before: seq<Tree>, x: Tree, rest: seq<Tree>, tags: set<byte>)
    requires x.tag in tags && forall t :: t in rest ==> t.tag !in tags
    ensures LastOf(TREES, before + [x] + rest, tags) == Some(|before|)
    decreases |rest|
  {
    var all := before + [x] + rest;
    var n := |all| - 1;
    if rest == [] {
      assert all[n] == x && all == before + [x];
    } else {
      assert all[n] == rest[|rest| - 1] && all[..n] == before + [x] + rest[..|rest| - 1];
      LastBefore(before, x, rest[..|rest| - 1], tags);
    }
  }

  /** An enveloped message for a key's holder: what stands in front of the recipients and behind the
      content, the recipient's fields in front of the key, and the content whole or in pieces. */
  datatype Envelope = Envelope(
    contentType: seq<byte>, front: seq<Tree>, fields: seq<Tree>, key: seq<byte>, others: seq<Tree>,
    dataType: seq<byte>, algorithm: seq<byte>, iv: seq<byte>, content: Tree, behind: seq<Tree>)
  {
    predicate Valid() {
      && (forall t :: t in front ==> t.tag != 0x31)
      && (forall t :: t in behind ==> t.tag != 0x30)
      && if content.Leaf? then content.tag == 0x80
         else content.tag == 0xa0 && forall t :: t in content.kids ==> PlainPiece(t)
    }

    function Recipients(): Tree {
      Node(0x31, [Node(0x30, fields + [Leaf(0x04, key)])] + others)
    }

    function Info(): Tree {
      Node(0x30, [Leaf(0x06, dataType), Node(0x30, [Leaf(0x06, algorithm), Leaf(0x04, iv)]), content])
    }

    function Data(): seq<Tree> {
      front + [Recipients()] + ([Info()] + behind)
    }

    function Message(): Tree {
      Node(0x30, [Leaf(0x06, contentType), Node(0xa0, [Node(0x30, Data())])])
    }

    function Bytes(): seq<byte> {
      if content.Leaf? then content.bytes else Joined(TREES, content.kids)
    }
  }

  lemma EnvelopeOpens(v: Envelope)
    requires v.Valid()
    ensures Enveloped(TREES, v.Message()) == Ok(v.Data())
  {
    FirstBehind([Leaf(0x06, v.contentType)], Node(0xa0, [Node(0x30, v.Data())]), [], {0xa0});
    assert v.Message().kids == [Leaf(0x06, v.contentType)] + [Node(0xa0, [Node(0x30, v.Data())])] + [];
  }

  lemma EnvelopeKey(v: Envelope)
    requires v.Valid()
    ensures EncryptedKey(TREES, v.Data()) == Ok(Leaf(0x04, v.key))
  {
    FirstBehind(v.front, v.Recipients(), [v.Info()] + v.behind, {0x31});
    LastBefore(v.fields, Leaf(0x04, v.key), [], {0x04});
    assert v.fields + [Leaf(0x04, v.key)] + [] == v.fields + [Leaf(0x04, v.key)];
  }

  lemma EnvelopeInfo(v: Envelope)
    requires v.Valid()
    ensures ContentInfo(TREES, v.Data()) == Ok(v.Info().kids)
  {
    LastBefore(v.front + [v.Recipients()], v.Info(), v.behind, {0x30});
    assert v.Data() == v.front + [v.Recipients()] + [v.Info()] + v.behind;
  }

  lemma EnvelopeContent(v: Envelope)
    requires v.Valid()
    ensures Iv(TREES, v.Info().kids) == Ok(Leaf(0x04, v.iv))
    ensures EncryptedContent(TREES, v.Info().kids) == Ok(v.Bytes()) && PiecesPlain(v.Info().kids)
  {
    var kids := v.Info().kids;
    var algorithm := Node(0x30, [Leaf(0x06, v.algorithm), Leaf(0x04, v.iv)]);
    FirstBehind([Leaf(0x06, v.dataType)], algorithm, [v.content], {0x30});
    assert kids == [Leaf(0x06, v.dataType)] + [algorithm] + [v.content];
    FirstBehind([Leaf(0x06, v.algorithm)], Leaf(0x04, v.iv), [], {0x04});
    assert algorithm.kids == [Leaf(0x06, v.algorithm)] + [Leaf(0x04, v.iv)] + [];
    FirstBehind([Leaf(0x06, v.dataType), algorithm], v.content, [], {0x80, 0xa0});
    assert kids == [Leaf(0x06, v.dataType), algorithm] + [v.content] + [];
  }

  /** Every message laid out as an envelope, in every form, gives its own key, IV and content. */
  lemma EnvelopeReads(v: Envelope, e: Enc, rest: seq<byte>)
    requires v.Valid() && Valid(e) && Strip(e) == v.Message()
    ensures CmsParts(Write(e) + rest) == Ok(Parts(v.key, v.iv, v.Bytes()))
  {
    hide Valid, Write, Strip, Enveloped, EncryptedKey, ContentInfo, Iv, EncryptedContent, CmsParts;
    EnvelopeOpens(v);
    EnvelopeKey(v);
    EnvelopeInfo(v);
    EnvelopeContent(v);
    NodeIsCons(e);
    CmsIgnoresForms(e, rest);
  }

  lemma NodeIsCons(e: Enc)
    requires Strip(e).Node?
    ensures e.Cons?
  {
  }
}
