/**
 * The sample's `GenericViewModel`: a screen-scoped holder of the calendar
 * items the week view shows. Its state is the value of a live-data cell,
 * which is unset until the first write and is read as an empty list while
 * unset. Fetch callbacks append to it; a drag moves one event and yields a
 * snackbar action whose undo puts the original event back.
 */
module ViewModel {
  import opened CalendarItems
  import opened ItemStore

  /** `GenericViewState`: the snapshot of items the screen renders. */
  datatype GenericViewState = GenericViewState(items: seq<CalendarItem>)

  /** The snackbar text "Moved <title> to <start>"; how the start time is
      formatted for the user's locale is not modelled. */
  datatype Message = Moved(title: string, newStart: DateTime)

  /** `GenericAction.ShowSnackbar`. Its undo closure is
      `{ updateEntity(existingItem) }`, so it is fully described by the event
      it captured, kept here as `undoTarget`. */
  datatype GenericAction = ShowSnackbar(message: Message, undoTarget: EventItem)

  /** The snackbar a drag posts: it names the moved copy's title and start,
      and undoes to the event as it was. */
  function DragNotification(original: EventItem, updated: EventItem): (a: GenericAction)
    ensures a.message.title == updated.title && a.message.newStart == updated.startTime
    ensures a.undoTarget == original
  {
    ShowSnackbar(Moved(updated.title, updated.startTime), original)
  }

  /** The snackbar a successful drag posts names the dragged event's title
      and its new start, and running its undo on the dragged list gives back
      the list as it was before the drag, provided at most one event carried
      the dragged id. */
  lemma DragNotificationUndoes(items: seq<CalendarItem>, id: int, s: DateTime, t: DateTime)
    requires CountEventsWithId(items, id) <= 1
    requires Drag(items, id, s, t).Ok?
    ensures var d := Drag(items, id, s, t).value;
            var a := DragNotification(d.original, d.updated);
            && a.message == Moved(d.original.title, s)
            && (exists k :: IsFirstMatch(items, id, k) && items[k].title == a.message.title)
            && ReplaceById(d.items, a.undoTarget) == items
  {
    DragThenUndoRestores(items, id, s, t);
  }

  class GenericViewModel {
    /** `_viewState.value`: `None` until the first write. */
    var viewState: Option<GenericViewState>

    /** `currentItems`: the items of the current state, empty while the
        state is unset. */
    function CurrentItems(): (items: seq<CalendarItem>)
      reads this
      ensures viewState.None? ==> items == []
      ensures viewState.Some? ==> items == viewState.value.items
    {
      match viewState
      case None => []
      case Some(state) => state.items
    }

    /** A new view-model has no state yet, so it shows no items. */
    constructor ()
      ensures viewState.None? && CurrentItems() == []
    {
      viewState := None;
    }

    /** The body of the callback `fetchEvents` hands to the repository: the
        delivered entities are appended to the current items. */
    method OnFetched(entities: seq<CalendarItem>)
      modifies this
      ensures viewState == Some(GenericViewState(Append(old(CurrentItems()), entities)))
      ensures CurrentItems() == old(CurrentItems()) + entities
    {
      var existing := CurrentItems();
      viewState := Some(GenericViewState(Append(existing, entities)));
    }

    /** `updateEntity`: every event with `newItem`'s id becomes `newItem`. */
    method UpdateEntity(newItem: EventItem)
      modifies this
      ensures viewState == Some(GenericViewState(ReplaceById(old(CurrentItems()), newItem)))
    {
      var updated := ReplaceById(CurrentItems(), newItem);
      viewState := Some(GenericViewState(updated));
    }

    /** `handleDrag`: moves the first event with `id` to the range from
        `newStart` to `newEnd`, stores the moved copy in place of every event
        with `id`, and returns the snackbar action to post. Where the source's
        lookup would throw, the result is `Err(NotFound(id))` and the state is
        left as it was. */
    method HandleDrag(id: int, newStart: DateTime, newEnd: DateTime) returns (r: Result<GenericAction>)
      modifies this
      ensures r.Err? <==> Drag(old(CurrentItems()), id, newStart, newEnd).Err?
      ensures r.Err? ==> r.error == NotFound(id) && viewState == old(viewState)
      ensures r.Ok? ==>
        var d := Drag(old(CurrentItems()), id, newStart, newEnd).value;
        && viewState == Some(GenericViewState(d.items))
        && r.value == DragNotification(d.original, d.updated)
    {
      var existing := FindFirstEvent(CurrentItems(), id);
      if existing.None? {
        return Err(NotFound(id));
      }
      var original := existing.value;
      var updated := Rescheduled(original, newStart, newEnd);
      UpdateEntity(updated);
      r := Ok(DragNotification(original, updated));
    }

    /** Running the snackbar's undo: `updateEntity` with the captured event. */
    method Undo(action: GenericAction)
      modifies this
      ensures viewState == Some(GenericViewState(ReplaceById(old(CurrentItems()), action.undoTarget)))
    {
      UpdateEntity(action.undoTarget);
    }
  }

  /** A drag followed by its undo leaves the view-model showing the items it
      showed before, as long as at most one event carries the dragged id; a
      drag that finds no event changes nothing. */
  method DragAndUndo(vm: GenericViewModel, id: int, newStart: DateTime, newEnd: DateTime)
    returns (r: Result<GenericAction>)
    requires CountEventsWithId(vm.CurrentItems(), id) <= 1
    modifies vm
    ensures vm.CurrentItems() == old(vm.CurrentItems())
    ensures r.Err? <==> forall i :: 0 <= i < |old(vm.CurrentItems())| ==> !IsEventWithId(old(vm.CurrentItems())[i], id)
  {
    ghost var before := vm.CurrentItems();
    r := vm.HandleDrag(id, newStart, newEnd);
    if r.Ok? {
      vm.Undo(r.value);
      DragNotificationUndoes(before, id, newStart, newEnd);
    }
  }

  /** The drag-and-undo scenario: one "Standup" event from 540 to 570 is
      moved to 600..630, the snackbar names "Standup" and 600, and the undo
      brings the event back to 540..570. */
  method StandupScenario()
  {
    var standup := Event(1, "Standup", 540, 570, Metadata([]));
    var vm := new GenericViewModel();
    vm.OnFetched([standup]);
    var r := vm.HandleDrag(1, 600, 630);
    assert IsEventWithId(standup, 1);
    assert r.Ok?;
    assert vm.CurrentItems() == [Event(1, "Standup", 600, 630, Metadata([]))];
    assert r.value.message == Moved("Standup", 600);
    vm.Undo(r.value);
    assert vm.CurrentItems() == [standup];
  }

  /** Two fetches of two items each (say January, then February) leave four
      items, January's before February's. */
  method FetchScenario(jan: seq<CalendarItem>, feb: seq<CalendarItem>)
    requires |jan| == 2 && |feb| == 2
  {
    var vm := new GenericViewModel();
    vm.OnFetched(jan);
    vm.OnFetched(feb);
    assert |vm.CurrentItems()| == 4;
    assert vm.CurrentItems()[..2] == jan && vm.CurrentItems()[2..] == feb;
  }
}
