# GenericViewModel item store, modelled in Dafny

The Android-Week-View sample app has a `GenericViewModel`. It holds the
calendar items a week view shows, in a live-data cell that is unset until the
first write and is read as an empty list until then. The model covers four
operations:

- **Fetch.** The repository callback appends the delivered items to the current list.
- **Update.** `updateEntity` replaces every event whose id matches the given event.
- **Drag.** `handleDrag` looks up the first event with an id and moves a copy of it to a new time range. It stores the copy and posts a snackbar.
- **Undo.** The snackbar's undo runs `updateEntity` with the original event.

Three modules, one per concern:

- `CalendarItems` (`calendar_items.dfy`) defines the item type.
  - `CalendarItem` has an `Event` case and a `NonEvent` case. The view-model never looks inside a `NonEvent`.
  - `EventItem` is the subset type that stands for Kotlin's `CalendarItem.Event`.
  - `Rescheduled` is the `copy(startTime, endTime)` of an event.
  - `Option` and `Result` are also defined here.
- `ItemStore` (`item_store.dfy`) holds the list computations as pure functions: `Append`, `FindFirstEvent`, `ReplaceById` and `Drag`. It also holds the lemmas about them.
- `ViewModel` (`generic_view_model.dfy`) defines the class `GenericViewModel`.
  - Its field `viewState: Option<GenericViewState>` stands for `_viewState.value`.
  - Its methods change that field, and each method's contract ties the new state to the `ItemStore` functions.
  - `DragAndUndo` is a client method. It proves at the class level that a drag followed by its undo restores the list.
  - `StandupScenario` and `FetchScenario` are worked examples. They have no counterpart in the source. Their assertions, proved from the class contracts, show one drag-and-undo and two fetches in sequence.

Times (`LocalDateTime`) are integers, and ids (`Long`) are unbounded
integers. The view-model compares ids and never does arithmetic on them.
It copies times and formats the new start time for the snackbar, but never
compares them. So the width of neither plays a part.
Event fields the view-model never reads (colour, location, ...) are kept
together as a `Metadata` value. The file that defines `CalendarItem` is not
part of this model. Its shape, as used here, is inferred from how
`GenericViewModel.kt` uses it.

On these points the model follows the code exactly:

- `updateEntity` replaces every event with the id, not only the first one, and it never fails.
- Nothing checks that an event's start lies before its end. The model requires no such thing.
- The drag lookup `first { }` throws when no event matches. Here, `HandleDrag` returns `Err(NotFound(id))` instead, and the state stays as it was. The throw happens before anything is written, so the original state is unchanged in that case too.

## Model

| member | source | states |
|---|---|---|
| `CalendarItems.Rescheduled` | sample/src/main/java/com/alamkanak/weekview/sample/util/GenericViewModel.kt:50-53 | the copy has the new start and end; its id, title and other fields are the original's |
| `CalendarItems.RescheduledBack` | sample/src/main/java/com/alamkanak/weekview/sample/util/GenericViewModel.kt:50-53 | moving a copy back to the original's range gives the original event |
| `ItemStore.Append` | sample/src/main/java/com/alamkanak/weekview/sample/util/GenericViewModel.kt:40-41 | the merged list has length \|old\| + \|delivered\|; the old items come first, then the delivered ones in order |
| `ItemStore.AppendKeepsDuplicates` | sample/src/main/java/com/alamkanak/weekview/sample/util/GenericViewModel.kt:38-43 | no de-duplication: for every id, the merged list's count of events with that id is the sum of the two lists' counts |
| `ItemStore.AppendTwice` | sample/src/main/java/com/alamkanak/weekview/sample/util/GenericViewModel.kt:38-43 | two deliveries in a row equal one delivery of both batches, the first batch before the second |
| `ItemStore.FindFirstEvent` | sample/src/main/java/com/alamkanak/weekview/sample/util/GenericViewModel.kt:46-48 | None exactly when no item is an event with the id; otherwise the result is the item at the first position holding an event with the id |
| `ItemStore.ReplaceById` | sample/src/main/java/com/alamkanak/weekview/sample/util/GenericViewModel.kt:73-79 | keeps length and order; every event with the new item's id becomes the new item; every other item, non-event items included, is unchanged |
| `ItemStore.ReplaceByIdNoMatch` | sample/src/main/java/com/alamkanak/weekview/sample/util/GenericViewModel.kt:72-82 | when no event has the id, the list is left exactly as it was |
| `ItemStore.ReplaceByIdIdempotent` | sample/src/main/java/com/alamkanak/weekview/sample/util/GenericViewModel.kt:72-82 | replacing twice with the same event gives the same list as replacing once |
| `ItemStore.ReplaceByIdKeepsIds` | sample/src/main/java/com/alamkanak/weekview/sample/util/GenericViewModel.kt:72-82 | each position keeps its kind and id, so unique event ids stay unique |
| `ItemStore.Drag` | sample/src/main/java/com/alamkanak/weekview/sample/util/GenericViewModel.kt:45-55 | fails with NotFound(id) exactly when no event has the id; otherwise the original is the first match, the copy is the original rescheduled, every matching position now holds an event with the id and with start s and end t, and the original's title and fields; non-matching items are unchanged; the length is kept |
| `ItemStore.UniqueIdsCountAtMostOne` | sample/src/main/java/com/alamkanak/weekview/sample/util/GenericViewModel.kt:45-82 | when no two events share an id, at most one event carries any given id, so the undo lemmas below apply to every id |
| `ItemStore.DragThenUndoRestores` | sample/src/main/java/com/alamkanak/weekview/sample/util/GenericViewModel.kt:45-82 | when at most one event carries the dragged id, replacing the dragged list by the drag's original event (the undo) restores the exact pre-drag list |
| `ItemStore.DuplicateIdsDefeatUndo` | sample/src/main/java/com/alamkanak/weekview/sample/util/GenericViewModel.kt:45-82 | with two events that share an id, drag then undo does not give back the original list, so the at-most-one hypothesis is needed |
| `ViewModel.DragNotificationUndoes` | sample/src/main/java/com/alamkanak/weekview/sample/util/GenericViewModel.kt:56-67 | the snackbar a successful drag posts names the dragged event's title (the first match's) and the new start; running its undo on the dragged list gives back the pre-drag list when at most one event carries the id |
| `ViewModel.GenericViewModel.constructor` | sample/src/main/java/com/alamkanak/weekview/sample/util/GenericViewModel.kt:17-36 | a new view-model has no state and shows no items |
| `ViewModel.GenericViewModel.OnFetched` | sample/src/main/java/com/alamkanak/weekview/sample/util/GenericViewModel.kt:38-43 | the new state's items are the old items followed by the delivered ones |
| `ViewModel.GenericViewModel.UpdateEntity` | sample/src/main/java/com/alamkanak/weekview/sample/util/GenericViewModel.kt:72-82 | the state is set to the old items with every event of that id replaced |
| `ViewModel.GenericViewModel.HandleDrag` | sample/src/main/java/com/alamkanak/weekview/sample/util/GenericViewModel.kt:45-57 | when no event has the id, the result is NotFound(id) and the state is untouched; otherwise the state holds the dragged list and the returned action is the drag notification for the original and the moved copy |
| `ViewModel.GenericViewModel.Undo` | sample/src/main/java/com/alamkanak/weekview/sample/util/GenericViewModel.kt:65-67 | the undo sets the state to the current items with the captured original event put back by id |
| `ViewModel.DragAndUndo` | sample/src/main/java/com/alamkanak/weekview/sample/util/GenericViewModel.kt:45-82 | on a view-model where at most one event carries the dragged id, a drag followed by running its snackbar's undo leaves the shown items exactly as before; the drag fails exactly when no event has the id |

## Left out

- LiveData observation, the `Event` one-shot wrapper and `postEvent`: this is lifecycle and threading machinery. `HandleDrag` returns the action it would post instead of posting it.
- `EventsRepository.fetch`: it is an asynchronous collaborator whose code is not part of this model. Only its callback's effect is modelled, as `OnFetched`, which takes the delivered list.
- The localized formatting of the snackbar's date: this is a `java.time` library call. The message keeps the title and the raw start time.
- `GenericViewModel.Factory` and the `genericViewModel()` lazy extensions: this is framework glue built on reflection.
- `CustomFontActivity.kt`: this is Activity setup, view binding and toasts. It only forwards load-more requests to `fetchEvents`.
- The 64-bit width of ids: ids are only compared, so the width plays no part.
