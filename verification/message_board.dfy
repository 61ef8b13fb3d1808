/** The lazily created message board of the treasure-hunt scene
    (`initMessageBoard`, `showMessage`, `hideMessage` in iwsdk-app/src/index.js).

    The board is a canvas whose texture is shown on a plane entity. The model
    keeps of it only what the progress logic changes: whether the entity is
    visible, whether the texture is marked for re-upload (`needsUpdate`), and
    what is drawn on the canvas. */
module MessageBoard {
  import opened Optional

  /** What the canvas holds: nothing, or one centred message */
  datatype Content = Cleared | Text(message: string)

  /** The board: entity visibility, the texture's `needsUpdate` flag, canvas content */
  datatype Board = Board(visible: bool, dirty: bool, content: Content)

  /** The closure's `messageBoard` slot, together with the number of boards
      ever allocated for it */
  datatype Surface = Surface(slot: Option<Board>, allocations: nat)

  /** At scene start no board exists and none has been allocated */
  const Absent: Surface := Surface(None, 0)

  /** A newly created board: its entity is hidden and its canvas is blank */
  const FreshBoard: Board := Board(false, false, Cleared)

  /** The singleton discipline: a board has been allocated exactly when the
      slot holds one, and never more than one */
  predicate Valid(s: Surface)
  {
    s.allocations == if s.slot.Some? then 1 else 0
  }

  /** The board currently in the slot shows `message` */
  predicate Showing(s: Surface, message: string)
  {
    s.slot.Some? && s.slot.value.visible && s.slot.value.dirty
    && s.slot.value.content == Text(message)
  }

  /** The board exists, is invisible, is blank, and awaits re-upload */
  predicate Hidden(s: Surface)
  {
    s.slot.Some? && !s.slot.value.visible && s.slot.value.dirty
    && s.slot.value.content == Cleared
  }

  /** `initMessageBoard`: return the stored board, or allocate a hidden one,
      store it and return it */
  function Init(s: Surface): (r: (Surface, Board))
    ensures r.0.slot == Some(r.1)
    ensures s.slot.Some? ==> r.0 == s && r.1 == s.slot.value
    ensures s.slot.None? ==> r.0.allocations == s.allocations + 1
    ensures s.slot.None? ==> !r.1.visible && r.1.content == Cleared
    ensures Valid(s) ==> Valid(r.0)
  {
    match s.slot
    case Some(b) => (s, b)
    case None => (Surface(Some(FreshBoard), s.allocations + 1), FreshBoard)
  }

  /** `showMessage`: make sure the board exists, redraw it with `message`,
      mark the texture for upload and make the entity visible */
  function Show(s: Surface, message: string): (r: Surface)
    ensures Showing(r, message)
    ensures s.slot.Some? ==> r.allocations == s.allocations
    ensures s.slot.None? ==> r.allocations == s.allocations + 1
    ensures Valid(s) ==> Valid(r)
  {
    var (s1, b) := Init(s);
    Surface(Some(b.(visible := true, dirty := true, content := Text(message))), s1.allocations)
  }

  /** `hideMessage`: nothing when the board was never created; otherwise clear
      the canvas, mark the texture for upload and hide the entity */
  function Hide(s: Surface): (r: Surface)
    ensures s.slot.None? ==> r == s
    ensures s.slot.Some? ==> Hidden(r) && r.allocations == s.allocations
    ensures Valid(s) ==> Valid(r)
  {
    match s.slot
    case None => s
    case Some(b) => Surface(Some(b.(visible := false, dirty := true, content := Cleared)), s.allocations)
  }

  /** Hiding twice is hiding once */
  lemma HideIdempotent(s: Surface)
    ensures Hide(Hide(s)) == Hide(s)
  {
  }

  /** Once a board exists, every later show reuses it: no second allocation */
  lemma ShowReusesBoard(s: Surface, first: string, second: string)
    ensures Show(Show(s, first), second).allocations == Show(s, first).allocations
    ensures Valid(s) ==> Show(Show(s, first), second).allocations == 1
  {
  }
}
