/** The gem score system of the treasure-hunt scene (`totalGems`,
    `collectedGems`, `showWinMessage`, `collectGem` in iwsdk-app/src/index.js).

    Three gem entities are placed in the scene, each wired so that a
    `pointerdown` on it calls `collectGem` with that entity. Entities are
    abstracted to the gem they carry. */
module Score {
  import opened Optional
  import MessageBoard
  import TemporaryMessage

  /** The three gems: in the left tree, in the right tree, on the ground */
  datatype Gem = LeftTreeGem | RightTreeGem | GroundGem

  const AllGems: set<Gem> := {LeftTreeGem, RightTreeGem, GroundGem}

  /** The scene has exactly as many gems as the fixed total, so no set of
      destroyed gems can exceed it */
  lemma GemSetBounded(s: set<Gem>)
    ensures s <= AllGems
    ensures |s| <= |AllGems| == TotalGems
    ensures |s| == TotalGems ==> s == AllGems
  {
    forall x | x in s
      ensures x in AllGems
    {
      match x
      case LeftTreeGem =>
      case RightTreeGem =>
      case GroundGem =>
    }
    assert |AllGems| == 3;
    if |s| == TotalGems {
      assert |AllGems - s| == 0;
    }
  }

  /** `totalGems`: fixed, not derived from the scene */
  const TotalGems: nat := 3

  const WinMessage: string := "You have found all 3 treasures!!!"

  const WinDuration: int := 7000

  /** The progress state: the counter, the gem entities destroyed so far, and
      the message board with its pending hides */
  datatype Hunt = Hunt(collected: nat, destroyed: set<Gem>, display: TemporaryMessage.Display)

  /** Scene start: nothing collected, every gem live, no board */
  const Start: Hunt := Hunt(0, {}, TemporaryMessage.Initial)

  /** The collection that brings the counter to the total is the winning one */
  predicate Completes(h: Hunt)
  {
    h.collected + 1 == TotalGems
  }

  /** `showWinMessage`: the win text, shown for the fixed win duration */
  function ShowWinMessage(d: TemporaryMessage.Display): (r: TemporaryMessage.Display)
    ensures MessageBoard.Showing(r.surface, WinMessage)
    ensures r.pending == d.pending + [TemporaryMessage.PendingHide(WinDuration)]
    ensures d.surface.slot.Some? ==> r.surface.allocations == d.surface.allocations
    ensures TemporaryMessage.Valid(d) ==> TemporaryMessage.Valid(r)
  {
    TemporaryMessage.ShowTemporary(d, WinMessage, Some(WinDuration))
  }

  /** `collectGem(entity)`: destroy the entity, count it, and request the win
      message when the count reaches the total. There is no guard against a
      gem that was already collected. */
  function CollectGem(h: Hunt, g: Gem): (r: Hunt)
    ensures r.collected == h.collected + 1
    ensures r.destroyed == h.destroyed + {g}
    ensures r.collected == TotalGems <==> |r.display.pending| == |h.display.pending| + 1
    ensures r.collected != TotalGems ==> r.display == h.display
    ensures r.collected == TotalGems ==>
      && MessageBoard.Showing(r.display.surface, WinMessage)
      && r.display.pending == h.display.pending + [TemporaryMessage.PendingHide(WinDuration)]
    ensures h.display.surface.slot.Some? ==> r.display.surface.allocations == h.display.surface.allocations
    ensures TemporaryMessage.Valid(h.display) ==> TemporaryMessage.Valid(r.display)
  {
    var collected := h.collected + 1;
    var h' := Hunt(collected, h.destroyed + {g}, h.display);
    if collected == TotalGems then h'.(display := ShowWinMessage(h.display)) else h'
  }

  /** Nothing stops a second selection of the same gem: it counts again */
  lemma ReselectionCountsTwice(h: Hunt, g: Gem)
    ensures CollectGem(CollectGem(h, g), g).collected == h.collected + 2
    ensures CollectGem(CollectGem(h, g), g).destroyed == h.destroyed + {g}
  {
  }

  /** Collecting the three gems in any order: the first two leave the board
      uncreated, the third shows the win message with one 7000 ms hide pending */
  lemma AllThreeInAnyOrder(a: Gem, b: Gem, c: Gem)
    requires a != b && b != c && a != c
    ensures CollectGem(Start, a).display == TemporaryMessage.Initial
    ensures CollectGem(CollectGem(Start, a), b).display == TemporaryMessage.Initial
    ensures var h := CollectGem(CollectGem(CollectGem(Start, a), b), c);
      && h.collected == TotalGems
      && h.destroyed == AllGems
      && h.display.surface == MessageBoard.Surface(Some(MessageBoard.Board(true, true, MessageBoard.Text(WinMessage))), 1)
      && h.display.pending == [TemporaryMessage.PendingHide(WinDuration)]
  {
    var h := CollectGem(CollectGem(CollectGem(Start, a), b), c);
    assert h.destroyed == {a, b, c};
    assert LeftTreeGem in h.destroyed && RightTreeGem in h.destroyed && GroundGem in h.destroyed;
  }
}
