/** `showTemporaryMessage` (iwsdk-app/src/index.js): show a message, then
    schedule one deferred `hideMessage`.

    Timers are not modelled as time. Each call appends one pending hide to a
    queue, and a timer firing is an explicit step that removes one pending hide
    and hides the board. The model lets any pending hide fire next: that
    allows every order a deadline-driven scheduler could choose, and it loses
    nothing because every pending hide runs the same `hideMessage`. A new call never cancels the
    hides already pending. */
module TemporaryMessage {
  import opened Optional
  import MessageBoard

  /** The duration used when the caller omits it */
  const DefaultDuration: int := 2000

  /** One `setTimeout(hideMessage, delay)` that has not fired yet */
  datatype PendingHide = PendingHide(delay: int)

  /** The board together with the hides still to fire */
  datatype Display = Display(surface: MessageBoard.Surface, pending: seq<PendingHide>)

  /** At scene start: no board, no timers */
  const Initial: Display := Display(MessageBoard.Absent, [])

  /** The board is a singleton; a pending hide implies a board to hide; a
      visible board always has a hide pending, so no message stays up forever */
  predicate Valid(d: Display)
  {
    && MessageBoard.Valid(d.surface)
    && (|d.pending| > 0 ==> d.surface.slot.Some?)
    && (d.surface.slot.Some? && d.surface.slot.value.visible ==> |d.pending| > 0)
  }

  lemma InitialValid()
    ensures Valid(Initial)
    ensures Initial.surface.slot.None? && Initial.pending == []
  {
  }

  /** `showTemporaryMessage(message, duration = 2000)` */
  function ShowTemporary(d: Display, message: string, duration: Option<int>): (r: Display)
    ensures MessageBoard.Showing(r.surface, message)
    ensures |r.pending| == |d.pending| + 1
    ensures r.pending[..|d.pending|] == d.pending
    ensures duration.Some? ==> r.pending[|d.pending|] == PendingHide(duration.value)
    ensures duration.None? ==> r.pending[|d.pending|] == PendingHide(DefaultDuration)
    ensures d.surface.slot.Some? ==> r.surface.allocations == d.surface.allocations
    ensures Valid(d) ==> Valid(r)
  {
    Display(MessageBoard.Show(d.surface, message),
            d.pending + [PendingHide(if duration.Some? then duration.value else DefaultDuration)])
  }

  /** The pending hide at `i` fires: it leaves the queue and runs `hideMessage` */
  function FireHide(d: Display, i: nat): (r: Display)
    requires i < |d.pending|
    ensures |r.pending| == |d.pending| - 1
    ensures multiset(r.pending) + multiset{d.pending[i]} == multiset(d.pending)
    ensures r.surface.allocations == d.surface.allocations
    ensures d.surface.slot.None? ==> r.surface == d.surface
    ensures Valid(d) ==> Valid(r) && MessageBoard.Hidden(r.surface)
  {
    assert d.pending == d.pending[..i] + [d.pending[i]] + d.pending[i + 1..];
    Display(MessageBoard.Hide(d.surface), d.pending[..i] + d.pending[i + 1..])
  }

  /** No cancellation: a hide scheduled before a later show still fires after
      it, and blanks the later message */
  lemma StaleHideClobbersLaterShow(d: Display, i: nat, message: string, duration: Option<int>)
    requires Valid(d) && i < |d.pending|
    ensures var d' := ShowTemporary(d, message, duration);
      && MessageBoard.Showing(d'.surface, message)
      && i < |d'.pending| && d'.pending[i] == d.pending[i]
      && MessageBoard.Hidden(FireHide(d', i).surface)
  {
    var d' := ShowTemporary(d, message, duration);
    assert d'.pending[i] == d'.pending[..|d.pending|][i];
  }

  /** Two temporary messages in a row leave two pending hides, the first
      one's before the second's */
  lemma NoSupersede(d: Display, m1: string, t1: int, m2: string, t2: int)
    ensures var d' := ShowTemporary(ShowTemporary(d, m1, Some(t1)), m2, Some(t2));
      && d'.pending == d.pending + [PendingHide(t1), PendingHide(t2)]
      && MessageBoard.Showing(d'.surface, m2)
  {
  }
}
