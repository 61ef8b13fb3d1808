# Treasure-hunt progress logic

A Dafny model of the only stateful part of the treasure-hunt VR scene in
`iwsdk-app/src/index.js`. The rest of that file is scene setup.

- **Gem score system.** `totalGems` is fixed at 3 and `collectedGems` starts
  at 0. A `pointerdown` on one of the three gem entities calls
  `collectGem(entity)`. That call destroys the entity and increments the
  counter. If the counter then equals the total, it calls `showWinMessage`,
  which shows "You have found all 3 treasures!!!" for 7000 ms.
- **Message board.** `initMessageBoard` is a lazy singleton. The first call
  creates a hidden canvas-textured plane and stores it; every later call
  returns the stored one. `showMessage` draws a message, marks the texture
  for upload (`needsUpdate`) and makes the board visible. `hideMessage` does
  nothing if no board exists; otherwise it clears the canvas, marks the
  texture and hides the board. `showTemporaryMessage(message, duration = 2000)`
  shows the message and schedules one `hideMessage` with `setTimeout`.

The model is functional. The scene's closure variables become one immutable
record, `Score.Hunt`. It holds the counter, the set of destroyed gems, the
board slot (`MessageBoard.Surface`) and the queue of pending hides
(`TemporaryMessage.Display`). Each JavaScript function is a pure transition.
A timer firing is an explicit step that takes one pending hide out of the
queue and runs `hideMessage`. The model lets any pending hide fire next. That
covers every order a deadline-driven scheduler could pick, and nothing is lost
because every pending hide runs the same callback. Module
`Session` replays arbitrary sequences of selections, temporary messages and
timer firings, and proves facts about every such sequence.

Three behaviours of the code are kept as the code has them:
- **Re-selection.** A gem selected again is not ignored: it counts again
  (`Score.ReselectionCountsTwice`). The code has no live/collected flag.
- **No cancellation.** A new temporary message does not cancel earlier
  pending hides. A stale hide still blanks a later message
  (`TemporaryMessage.StaleHideClobbersLaterShow`).
- **No errors.** The code raises no error for a re-initialisation, an
  unknown gem or a non-positive duration. The model raises none either.

## Model

| member | source | states |
|---|---|---|
| MessageBoard.Init | iwsdk-app/src/index.js:185-213 | an existing board is returned unchanged with no allocation; otherwise exactly one new, invisible, blank board is allocated and stored |
| MessageBoard.Show | iwsdk-app/src/index.js:155-170 | afterwards the board exists, is visible, shows the message and is marked for upload; a board is allocated only if none existed; the singleton invariant is kept |
| MessageBoard.Hide | iwsdk-app/src/index.js:172-178 | with no board, nothing changes and no board is created; otherwise the board is invisible, blank and marked for upload, with no allocation |
| MessageBoard.HideIdempotent | iwsdk-app/src/index.js:172-178 | hiding twice gives the same state as hiding once |
| MessageBoard.ShowReusesBoard | iwsdk-app/src/index.js:185-186 | a second show reuses the board created by the first, so at most one board is ever allocated |
| TemporaryMessage.InitialValid | iwsdk-app/src/index.js:153 | at scene start there is no board and no pending hide, and the display invariant holds |
| TemporaryMessage.ShowTemporary | iwsdk-app/src/index.js:180-183 | the message is shown; exactly one hide is appended, with the given duration or 2000 by default; earlier pending hides are kept in place |
| TemporaryMessage.FireHide | iwsdk-app/src/index.js:172-182 | a firing removes exactly that one pending hide (as a multiset) and leaves the board hidden and blank, with no allocation |
| TemporaryMessage.StaleHideClobbersLaterShow | iwsdk-app/src/index.js:180-183 | a hide scheduled before a later show keeps its place in the queue; when it fires, the later message is hidden |
| TemporaryMessage.NoSupersede | iwsdk-app/src/index.js:180-183 | two temporary messages leave both hides pending, in call order, with the second message showing |
| Score.GemSetBounded | iwsdk-app/src/index.js:93-115 | the scene wires exactly three gems, as many as the fixed total; a set of destroyed gems is at most that large, and is all of them when it has three |
| Score.ShowWinMessage | iwsdk-app/src/index.js:58-61 | the win text is shown, exactly one 7000 ms hide is appended after the hides already pending, and an existing board is reused |
| Score.CollectGem | iwsdk-app/src/index.js:63-70 | the counter rises by exactly 1 and the gem is destroyed; the win message is requested exactly when the new count equals the total, showing the win text, keeping every earlier pending hide, appending one 7000 ms hide and reusing an existing board; otherwise the board and timers are untouched |
| Session.SelectionWinsIffCompletes | iwsdk-app/src/index.js:63-69 | a selection appends a 7000 ms hide and shows the win text exactly when the counter stood one below the total; any other selection leaves board and timers unchanged |
| Score.ReselectionCountsTwice | iwsdk-app/src/index.js:63-65 | selecting the same gem twice adds 2 to the counter and destroys only that gem |
| Score.AllThreeInAnyOrder | iwsdk-app/src/index.js:55-70 | from scene start, the first two distinct gems leave the board uncreated; the third gem shows the win message on one newly allocated board, with one 7000 ms hide pending |
| Session.Apply | iwsdk-app/src/index.js:55-70 | only gem selections change the counter and the destroyed set; at most one board allocation per event; a created board is never removed; the display invariant is kept |
| Session.CounterCountsSelections | iwsdk-app/src/index.js:56-65 | after any sequence of events, the counter equals its start value plus the number of selections, so it never decreases |
| Session.WinIffTotalReached | iwsdk-app/src/index.js:67-69 | along any sequence of events, the win message is requested once if the selections carry the counter from below the total to at least the total, and zero times otherwise |
| Session.WinAtMostOnce | iwsdk-app/src/index.js:67-69 | whatever the events, the win message is requested at most once |
| Session.RunKeepsDisplayValid | iwsdk-app/src/index.js:153-214 | along any sequence of events, at most one board is ever allocated; every pending hide has a board to hide; a visible board always has a hide pending |
| Session.LiveRunCountsDestroyed | iwsdk-app/src/index.js:63-65 | when each selection hits a gem that still exists, the counter equals the number of destroyed gems and never exceeds the total |
| Session.WinExactlyWhenAllCollected | iwsdk-app/src/index.js:55-69 | from scene start, with selections on existing gems only, the win message is requested exactly when all three gems have been destroyed |
| Session.WinMessageHiddenByItsTimer | iwsdk-app/src/index.js:55-183 | collecting the three gems in any order and then firing the win message's timer leaves the board hidden and blank, with no hide pending and one board allocated |

## Left out

- World creation, XR session options and locomotion (lines 42-50): these belong to the framework runtime.
- Asset loading, model cloning, floor, trees, gem positions and scales (lines 22-38, 73-115). Only the wiring "gem entity → `pointerdown` → `collectGem`" is kept, as the `Score.Gem` datatype.
- Canvas drawing details (lines 157-166, 188-206): fill and text styles, font, centring, canvas size, aspect ratio and material flags. The canvas is reduced to "cleared" or "shows this text".
- The upload flag of a freshly created texture belongs to the rendering library. The model starts it unset. This is never observable, because the only caller of `initMessageBoard` sets the flag right afterwards. The renderer's consumption of the flag is not modelled.
- `isMetaQuest1` and the PanelUI branch (lines 117-149): these are a user-agent heuristic and panel configuration, independent of the progress logic.
- Wall-clock timing of `setTimeout` (including its clamping of negative delays) is not modelled. The delay is kept only as data in the queue. `console.log` is not modelled either.
- Score.CollectGem: treats `entity.destroy()` as never failing, and lets a destroyed gem be selected again. Both are framework behaviours the scene code does not show, so this is an over-approximation: if the runtime stops delivering `pointerdown` to a destroyed entity, or a second `destroy()` throws before the increment, re-selection does not happen. `Session.LiveSelections` describes the runs in which destroyed gems cannot be hit, and `Session.LiveRunCountsDestroyed` and `Session.WinExactlyWhenAllCollected` are stated for those runs.
- Score.CollectGem: `collectedGems` is a JavaScript number, exact only up to 2^53. The model uses unbounded integers, which agree with it for any reachable count.
