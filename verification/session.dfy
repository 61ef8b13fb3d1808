/** A scene session as a sequence of events: gem selections, temporary
    messages, and pending hides firing. Each event is one run of the
    corresponding handler to completion on the page's single thread. */
module Session {
  import opened Optional
  import MessageBoard
  import TemporaryMessage
  import Score

  datatype Step =
    | Select(gem: Score.Gem)                                  // `pointerdown` on a gem entity
    | ShowTemp(message: string, duration: Option<int>)        // a call of `showTemporaryMessage`
    | Fire(index: nat)                                        // the pending hide at `index` fires

  /** One event. A `Fire` naming no pending hide is not an event at all. */
  function Apply(h: Score.Hunt, s: Step): (r: Score.Hunt)
    ensures s.Select? ==> r.collected == h.collected + 1 && r.destroyed == h.destroyed + {s.gem}
    ensures !s.Select? ==> r.collected == h.collected && r.destroyed == h.destroyed
    ensures r.display.surface.allocations <= h.display.surface.allocations + 1
    ensures h.display.surface.slot.Some? ==> r.display.surface.slot.Some?
    ensures TemporaryMessage.Valid(h.display) ==> TemporaryMessage.Valid(r.display)
  {
    match s
    case Select(g) => Score.CollectGem(h, g)
    case ShowTemp(m, d) => h.(display := TemporaryMessage.ShowTemporary(h.display, m, d))
    case Fire(i) =>
      if i < |h.display.pending| then h.(display := TemporaryMessage.FireHide(h.display, i)) else h
  }

  /** The state after the events in order */
  function Run(h: Score.Hunt, steps: seq<Step>): Score.Hunt
    decreases |steps|
  {
    if steps == [] then h else Run(Apply(h, steps[0]), steps[1..])
  }

  /** Number of gem selections among the events */
  function Selections(steps: seq<Step>): nat
    decreases |steps|
  {
    if steps == [] then 0 else (if steps[0].Select? then 1 else 0) + Selections(steps[1..])
  }

  /** Number of events that request the win message: selections made while
      the counter stands one below the total */
  function Wins(h: Score.Hunt, steps: seq<Step>): nat
    decreases |steps|
  {
    if steps == [] then 0
    else (if steps[0].Select? && Score.Completes(h) then 1 else 0) + Wins(Apply(h, steps[0]), steps[1..])
  }

  /** The selections `Wins` counts are exactly those whose visible effect is
      the win message: the board shows the win text and one 7000 ms hide is
      appended to the queue */
  lemma SelectionWinsIffCompletes(h: Score.Hunt, g: Score.Gem)
    ensures var r := Apply(h, Select(g));
      Score.Completes(h) <==> r.display.pending == h.display.pending + [TemporaryMessage.PendingHide(Score.WinDuration)]
    ensures Score.Completes(h) ==> MessageBoard.Showing(Apply(h, Select(g)).display.surface, Score.WinMessage)
    ensures !Score.Completes(h) ==> Apply(h, Select(g)).display == h.display
  {
    var r := Apply(h, Select(g));
    if !Score.Completes(h) {
      assert |r.display.pending| != |h.display.pending + [TemporaryMessage.PendingHide(Score.WinDuration)]|;
    }
  }

  /** Every selection targets a gem whose entity still exists */
  predicate LiveSelections(h: Score.Hunt, steps: seq<Step>)
    decreases |steps|
  {
    steps == [] ||
    ((steps[0].Select? ==> steps[0].gem !in h.destroyed) && LiveSelections(Apply(h, steps[0]), steps[1..]))
  }

  /** The counter moves only by selections, one per selection: it never decreases */
  lemma {:induction false} CounterCountsSelections(h: Score.Hunt, steps: seq<Step>)
    ensures Run(h, steps).collected == h.collected + Selections(steps)
    ensures Run(h, steps).collected >= h.collected
    decreases |steps|
  {
    if steps != [] {
      CounterCountsSelections(Apply(h, steps[0]), steps[1..]);
    }
  }

  /** The win message is requested exactly once when the selections carry the
      counter from below the total up to it, and never otherwise */
  lemma {:induction false} WinIffTotalReached(h: Score.Hunt, steps: seq<Step>)
    ensures Wins(h, steps) == 1 <==> h.collected < Score.TotalGems <= h.collected + Selections(steps)
    ensures Wins(h, steps) == 0 <==> !(h.collected < Score.TotalGems <= h.collected + Selections(steps))
    decreases |steps|
  {
    if steps != [] {
      WinIffTotalReached(Apply(h, steps[0]), steps[1..]);
    }
  }

  /** Whatever the events, the win message is requested at most once */
  lemma WinAtMostOnce(h: Score.Hunt, steps: seq<Step>)
    ensures Wins(h, steps) <= 1
  {
    WinIffTotalReached(h, steps);
  }

  /** The board and queue invariant holds along every run: at most one board
      is ever allocated, and a visible board always has a hide pending */
  lemma {:induction false} RunKeepsDisplayValid(h: Score.Hunt, steps: seq<Step>)
    requires TemporaryMessage.Valid(h.display)
    ensures TemporaryMessage.Valid(Run(h, steps).display)
    ensures Run(h, steps).display.surface.allocations <= 1
    decreases |steps|
  {
    if steps != [] {
      RunKeepsDisplayValid(Apply(h, steps[0]), steps[1..]);
    }
  }

  /** When every selection hits a live gem, the counter equals the number of
      destroyed gems, so it never passes the total */
  lemma {:induction false} LiveRunCountsDestroyed(h: Score.Hunt, steps: seq<Step>)
    requires h.collected == |h.destroyed|
    requires LiveSelections(h, steps)
    ensures Run(h, steps).collected == |Run(h, steps).destroyed|
    ensures Run(h, steps).collected <= Score.TotalGems
    decreases |steps|
  {
    if steps != [] {
      LiveRunCountsDestroyed(Apply(h, steps[0]), steps[1..]);
    }
    Score.GemSetBounded(Run(h, steps).destroyed);
  }

  /** From scene start, with live selections only, the win is requested
      exactly when all three gems have been collected */
  lemma WinExactlyWhenAllCollected(steps: seq<Step>)
    requires LiveSelections(Score.Start, steps)
    ensures Wins(Score.Start, steps) == 1 <==> Run(Score.Start, steps).destroyed == Score.AllGems
  {
    LiveRunCountsDestroyed(Score.Start, steps);
    CounterCountsSelections(Score.Start, steps);
    WinIffTotalReached(Score.Start, steps);
    Score.GemSetBounded(Run(Score.Start, steps).destroyed);
  }

  /** The three selections in any order, then the win message's timer: the
      board ends hidden and blank, no hide is left, and only one board was
      ever allocated */
  lemma WinMessageHiddenByItsTimer(a: Score.Gem, b: Score.Gem, c: Score.Gem)
    requires a != b && b != c && a != c
    ensures var f := Run(Score.Start, [Select(a), Select(b), Select(c), Fire(0)]);
      && f.collected == Score.TotalGems
      && f.display.surface == MessageBoard.Surface(Some(MessageBoard.Board(false, true, MessageBoard.Cleared)), 1)
      && f.display.pending == []
  {
    Score.AllThreeInAnyOrder(a, b, c);
    var steps := [Select(a), Select(b), Select(c), Fire(0)];
    var h1 := Score.CollectGem(Score.Start, a);
    var h2 := Score.CollectGem(h1, b);
    var h3 := Score.CollectGem(h2, c);
    assert steps[1..] == [Select(b), Select(c), Fire(0)];
    assert steps[2..] == [Select(c), Fire(0)];
    assert steps[3..] == [Fire(0)];
    assert Run(Score.Start, steps) == Run(h1, steps[1..]);
    assert Run(h1, steps[1..]) == Run(h2, steps[2..]);
    assert Run(h2, steps[2..]) == Run(h3, steps[3..]);
  }
}
