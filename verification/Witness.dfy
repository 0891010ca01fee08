/** The witness outside the machine: marks of how far the book has got, and the rule at start. */
module Witness {
  import opened Wrappers

  /** A place in the line: generation and number. */
  type Mark = (nat, nat)

  predicate Leq(a: Mark, b: Mark) {
    a.0 < b.0 || (a.0 == b.0 && a.1 <= b.1)
  }

  /** The newest mark with the time it was written, and every acknowledgement. */
  datatype Witnessed = Witnessed(mark: Option<(Mark, nat)>, accepts: seq<(Mark, nat)>)

  /** May a book standing at `book` start? Ok says whether an acknowledgement was used. */
  function MayStart(book: Mark, seen: Witnessed): Result<bool, string> {
    match seen.mark
    case None => Ok(false)
    case Some((mark, markAt)) =>
      if Leq(mark, book) then Ok(false)
      else if exists i :: 0 <= i < |seen.accepts| && seen.accepts[i].0 == book && seen.accepts[i].1 > markAt then Ok(true)
      else Err("this is an older book than the last one that ran")
  }

  /** The newest of the marks by position; of equal ones the first listed. */
  function Newest(marks: seq<(Mark, nat)>): Option<(Mark, nat)> {
    if marks == [] then None
    else
      var best := Newest(marks[..|marks| - 1]);
      var last := marks[|marks| - 1];
      if best.None? || !Leq(last.0, best.value.0) then Some(last) else best
  }

  method ReadMarks(marks: seq<(Mark, nat)>) returns (best: Option<(Mark, nat)>)
    ensures best == Newest(marks)
  {
    best := None;
    for i := 0 to |marks|
      invariant best == Newest(marks[..i])
    {
      assert marks[..i + 1][..i] == marks[..i];
      if best.None? || !Leq(marks[i].0, best.value.0) {
        best := Some(marks[i]);
      }
    }
    assert marks[..|marks|] == marks;
  }

  /** The mark read is one of those written, and none written lies beyond it. */
  lemma {:induction false} NewestIsGreatest(marks: seq<(Mark, nat)>)
    ensures Newest(marks).None? <==> marks == []
    ensures Newest(marks).Some? ==>
              && Newest(marks).value in marks
              && forall i :: 0 <= i < |marks| ==> Leq(marks[i].0, Newest(marks).value.0)
  {
    if marks != [] {
      NewestIsGreatest(marks[..|marks| - 1]);
    }
  }

  /** A start is refused exactly when some mark lies beyond the book and no acknowledgement of
      this very place is newer than the newest mark. */
  lemma RefusedExactlyWhenCutBack(book: Mark, marks: seq<(Mark, nat)>, accepts: seq<(Mark, nat)>)
    ensures MayStart(book, Witnessed(Newest(marks), accepts)).Err? <==>
              && (exists i :: 0 <= i < |marks| && !Leq(marks[i].0, book))
              && !(exists i :: 0 <= i < |accepts| && accepts[i].0 == book && accepts[i].1 > Newest(marks).value.1)
  {
    NewestIsGreatest(marks);
    if marks != [] {
      var best := Newest(marks).value;
      var k :| 0 <= k < |marks| && marks[k] == best;
      if !Leq(best.0, book) {
        assert !Leq(marks[k].0, book);
      }
    }
  }

  /** Of marks as far as each other the first listed counts. */
  lemma {:induction false} NewestIsFirstListed(marks: seq<(Mark, nat)>) returns (k: nat)
    requires marks != []
    ensures k < |marks| && Newest(marks) == Some(marks[k]) && forall i :: 0 <= i < k ==> !Leq(marks[k].0, marks[i].0)
  {
    var n := |marks| - 1;
    if n == 0 {
      k := 0;
    } else {
      k := NewestIsFirstListed(marks[..n]);
      NewestIsGreatest(marks[..n]);
      if !Leq(marks[n].0, marks[k].0) {
        forall i | 0 <= i < n ensures !Leq(marks[n].0, marks[i].0) {
          assert Leq(marks[..n][i].0, marks[k].0);
        }
        k := n;
      }
    }
  }

  /** A start that goes ahead used an acknowledgement exactly when some mark lies beyond the book. */
  lemma AcknowledgementUsedExactly(book: Mark, marks: seq<(Mark, nat)>, accepts: seq<(Mark, nat)>)
    ensures var r := MayStart(book, Witnessed(Newest(marks), accepts));
            r.Ok? ==> (r.value <==> exists i :: 0 <= i < |marks| && !Leq(marks[i].0, book))
  {
    NewestIsGreatest(marks);
    if marks != [] {
      var k :| 0 <= k < |marks| && marks[k] == Newest(marks).value;
      if !Leq(Newest(marks).value.0, book) { assert !Leq(marks[k].0, book); }
    }
  }
}
