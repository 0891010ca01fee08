/** What a mark written outside the machine holds back, and how long a journal gets. */
module Rollback {
  import opened Wrappers
  import opened Journal
  import opened Host
  import opened Witness
  import opened Book
  import opened BookSafety

  /** Marks are only ever added. */
  lemma {:induction false} MarksStay<B, C(!new)>(w: World<B, C>, s: System<B, C>, es: seq<Event<C>>)
    requires Runs(w, s, es)
    ensures s.marks <= After(w, s, es).marks
    decreases |es|
  {
    hide Next, Enabled;
    if es != [] {
      MarkStays(w, s, es[0]);
      MarksStay(w, Next(w, s, es[0]), es[1..]);
    }
  }

  lemma MarkStays<B, C(!new)>(w: World<B, C>, s: System<B, C>, e: Event<C>)
    requires Enabled(w, s, e)
    ensures s.marks <= Next(w, s, e).marks
  {
    hide Offer, OpenSealed, MayStart, Replay;
  }

  /** A mark says how far the book had been confirmed. Whatever happens afterwards, a start from any
      place before that is refused, unless an acknowledgement of that very place is newer than the newest
      mark. */
  lemma MarkHoldsBackOlderBooks<B, C(!new)>(w: World<B, C>, s: System<B, C>, at: nat, es: seq<Event<C>>, m: Mark,
                                            accepts: seq<(Mark, nat)>)
    requires Enabled(w, s, WriteMark(at)) && Runs(w, Next(w, s, WriteMark(at)), es) && !Leq(s.confirmed, m)
    ensures var later := After(w, Next(w, s, WriteMark(at)), es);
            && Newest(later.marks).Some?
            && (MayStart(m, Witnessed(Newest(later.marks), accepts)).Err? <==>
                  !(exists i :: 0 <= i < |accepts| && accepts[i].0 == m && accepts[i].1 > Newest(later.marks).value.1))
  {
    hide Runs, After, Offer, OpenSealed, MayStart, Newest;
    var marked := Next(w, s, WriteMark(at));
    MarksStay(w, marked, es);
    var marks := After(w, marked, es).marks;
    assert marks[|s.marks|] == (s.confirmed, at);
    NewestIsGreatest(marks);
    RefusedExactlyWhenCutBack(m, marks, accepts);
  }

  /** And the restart that would have begun there does not happen. */
  lemma RefusedStartStaysDown<B, C(!new)>(w: World<B, C>, s: System<B, C>, folded: bytes, accepts: seq<(Mark, nat)>)
    requires Enabled(w, s, Restart(folded, accepts)) && OpenSealed(w, s.host).Ok?
    requires var o := OpenSealed(w, s.host).value;
             MayStart((o.generation, o.replayed), Witnessed(Newest(s.marks), accepts)).Err?
    ensures Next(w, s, Restart(folded, accepts)) == s
  {
    hide OpenSealed, MayStart, Newest;
  }

  /** A writing that brings the journal to 2,000 records or more is followed by a fold, any other is not:
      so after any writing the generation has fewer than 2,000. */
  lemma FoldedAtTwoThousand<B, C(!new)>(w: World<B, C>, s: System<B, C>, changes: seq<C>, sealed: seq<bytes>, folded: bytes)
    requires Enabled(w, s, Write(changes, sealed, folded))
    ensures var (n, due) := (Next(w, s, Write(changes, sealed, folded)), s.next - 1 + |changes| >= 2_000);
            && n.generation == s.generation + (if due then 1 else 0)
            && n.next == (if due then 1 else s.next + |changes|) && n.next <= 2_000
            && |n.queue| == |s.queue| + |changes| + (if due then 1 else 0)
            && (due ==> n.queue[|n.queue| - 1] == Fold(s.generation + 1, folded))
  {
    hide Replay;
    OneJobEach(s.generation, s.next, sealed);
  }

  lemma {:induction false} OneJobEach(g: nat, n: nat, sealed: seq<bytes>)
    ensures |Records(g, n, sealed)| == |sealed|
    decreases |sealed|
  {
    if sealed != [] { OneJobEach(g, n + 1, sealed[1..]); }
  }
}
