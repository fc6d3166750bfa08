/**
 * The list computations behind the view-model's state changes, as pure
 * functions on the item list: the merge of fetched items (a concatenation),
 * the lookup of the first event with an id (`filterIsInstance` + `first`),
 * the replacement of every event with an id (`map`), and the drag that
 * combines the last two.
 */
module ItemStore {
  import opened CalendarItems

  /** The merge done when the repository delivers `entities`:
      the old items, then the delivered ones, in the order given. */
  function Append(items: seq<CalendarItem>, entities: seq<CalendarItem>): (r: seq<CalendarItem>)
    ensures |r| == |items| + |entities|
    ensures forall i :: 0 <= i < |items| ==> r[i] == items[i]
    ensures forall j :: 0 <= j < |entities| ==> r[|items| + j] == entities[j]
  {
    items + entities
  }

  /** The number of events in `items` whose id is `id`. */
  function CountEventsWithId(items: seq<CalendarItem>, id: int): nat
  {
    if items == [] then 0
    else (if IsEventWithId(items[0], id) then 1 else 0) + CountEventsWithId(items[1..], id)
  }

  /** The merge removes no duplicates: every event of either list is still
      there, so the counts per id add up. */
  lemma {:induction false} AppendKeepsDuplicates(items: seq<CalendarItem>, entities: seq<CalendarItem>, id: int)
    ensures CountEventsWithId(Append(items, entities), id)
            == CountEventsWithId(items, id) + CountEventsWithId(entities, id)
  {
    if items == [] {
      assert Append(items, entities) == entities;
    } else {
      assert Append(items, entities)[0] == items[0];
      assert Append(items, entities)[1..] == Append(items[1..], entities);
      AppendKeepsDuplicates(items[1..], entities, id);
    }
  }

  /** Two deliveries in a row give the same list as one delivery of both
      batches, the first batch before the second. */
  lemma AppendTwice(items: seq<CalendarItem>, first: seq<CalendarItem>, second: seq<CalendarItem>)
    ensures Append(Append(items, first), second) == Append(items, first + second)
  {
  }

  /** No two events of `items` share an id (non-event items are not
      counted). The store relies on this without enforcing it. */
  predicate UniqueEventIds(items: seq<CalendarItem>)
  {
    forall i, j :: 0 <= i < j < |items| && items[i].Event? && items[j].Event? ==> items[i].id != items[j].id
  }

  /** Helper: an event with `id` at position `p` makes the count positive. */
  lemma {:induction false} MatchCounts(items: seq<CalendarItem>, id: int, p: int)
    requires 0 <= p < |items| && IsEventWithId(items[p], id)
    ensures CountEventsWithId(items, id) >= 1
  {
    if p > 0 {
      assert items[1..][p - 1] == items[p];
      MatchCounts(items[1..], id, p - 1);
    }
  }

  /** Helper: events with `id` at two positions `i < k` make the count at
      least two. */
  lemma {:induction false} TwoMatchesCountTwo(items: seq<CalendarItem>, id: int, i: int, k: int)
    requires 0 <= i < |items| && IsEventWithId(items[i], id)
    requires 0 <= k < |items| && IsEventWithId(items[k], id)
    ensures i < k ==> CountEventsWithId(items, id) >= 2
  {
    if 0 < i < k {
      assert items[1..][i - 1] == items[i] && items[1..][k - 1] == items[k];
      TwoMatchesCountTwo(items[1..], id, i - 1, k - 1);
    } else if i == 0 < k {
      assert items[1..][k - 1] == items[k];
      MatchCounts(items[1..], id, k - 1);
    }
  }

  /** When at most one event carries `id`, two positions holding an event
      with `id` are the same position. */
  lemma OnlyOneMatch(items: seq<CalendarItem>, id: int, i: int, k: int)
    requires CountEventsWithId(items, id) <= 1
    requires 0 <= i < |items| && IsEventWithId(items[i], id)
    requires 0 <= k < |items| && IsEventWithId(items[k], id)
    ensures i == k
  {
    TwoMatchesCountTwo(items, id, i, k);
    TwoMatchesCountTwo(items, id, k, i);
  }

  /** With unique ids, at most one event carries any given id. */
  lemma {:induction false} UniqueIdsCountAtMostOne(items: seq<CalendarItem>, id: int)
    requires UniqueEventIds(items)
    ensures CountEventsWithId(items, id) <= 1
  {
    if items != [] {
      assert UniqueEventIds(items[1..]) by {
        forall i, j | 0 <= i < j < |items[1..]| && items[1..][i].Event? && items[1..][j].Event?
          ensures items[1..][i].id != items[1..][j].id
        {
          assert items[1..][i] == items[i + 1] && items[1..][j] == items[j + 1];
        }
      }
      UniqueIdsCountAtMostOne(items[1..], id);
      if IsEventWithId(items[0], id) {
        forall i | 0 <= i < |items[1..]| ensures !IsEventWithId(items[1..][i], id) {
          assert items[1..][i] == items[i + 1];
        }
        NoneCountsZero(items[1..], id);
      }
    }
  }

  /** Helper: a list with no event with `id` counts zero of them. */
  lemma {:induction false} NoneCountsZero(items: seq<CalendarItem>, id: int)
    requires forall i :: 0 <= i < |items| ==> !IsEventWithId(items[i], id)
    ensures CountEventsWithId(items, id) == 0
  {
    if items != [] {
      assert forall i :: 0 <= i < |items[1..]| ==> items[1..][i] == items[i + 1];
      NoneCountsZero(items[1..], id);
    }
  }

  /** `k` is the position of the first event in `items` whose id is `id`. */
  ghost predicate IsFirstMatch(items: seq<CalendarItem>, id: int, k: int)
  {
    0 <= k < |items| && IsEventWithId(items[k], id)
    && forall j :: 0 <= j < k ==> !IsEventWithId(items[j], id)
  }

  /** `items.filterIsInstance<CalendarItem.Event>().first { it.id == id }`,
      with `None` where `first` would throw. */
  function FindFirstEvent(items: seq<CalendarItem>, id: int): (r: Option<EventItem>)
    ensures r.None? <==> forall i :: 0 <= i < |items| ==> !IsEventWithId(items[i], id)
    ensures r.Some? ==> exists k :: IsFirstMatch(items, id, k) && items[k] == r.value
  {
    if items == [] then None
    else if IsEventWithId(items[0], id) then
      assert IsFirstMatch(items, id, 0);
      var found: EventItem := items[0];
      Some(found)
    else
      var r := FindFirstEvent(items[1..], id);
      assert forall i :: 0 <= i < |items[1..]| ==> items[1..][i] == items[i + 1];
      assert r.Some? ==> exists k :: IsFirstMatch(items, id, k) && items[k] == r.value by {
        if r.Some? {
          var k :| IsFirstMatch(items[1..], id, k) && items[1..][k] == r.value;
          assert IsFirstMatch(items, id, k + 1);
        }
      }
      r
  }

  /** `updateEntity`'s `map`: every event with `e`'s id becomes `e`; every
      other item, events with other ids and non-event items alike, stays
      where it was. */
  function ReplaceById(items: seq<CalendarItem>, e: EventItem): (r: seq<CalendarItem>)
    ensures |r| == |items|
    ensures forall i :: 0 <= i < |items| && IsEventWithId(items[i], e.id) ==> r[i] == e
    ensures forall i :: 0 <= i < |items| && !IsEventWithId(items[i], e.id) ==> r[i] == items[i]
  {
    if items == [] then []
    else [if IsEventWithId(items[0], e.id) then e else items[0]] + ReplaceById(items[1..], e)
  }

  /** When no event carries `e`'s id, the replacement changes nothing. */
  lemma ReplaceByIdNoMatch(items: seq<CalendarItem>, e: EventItem)
    requires forall i :: 0 <= i < |items| ==> !IsEventWithId(items[i], e.id)
    ensures ReplaceById(items, e) == items
  {
    var r := ReplaceById(items, e);
    assert forall i :: 0 <= i < |items| ==> r[i] == items[i];
  }

  /** Replacing twice with the same event is replacing once. */
  lemma ReplaceByIdIdempotent(items: seq<CalendarItem>, e: EventItem)
    ensures ReplaceById(ReplaceById(items, e), e) == ReplaceById(items, e)
  {
    var once := ReplaceById(items, e);
    var twice := ReplaceById(once, e);
    forall i | 0 <= i < |items| ensures twice[i] == once[i] {
      if IsEventWithId(items[i], e.id) {
        assert once[i] == e && IsEventWithId(e, e.id);
      }
    }
  }

  /** The replacement keeps the kind and the id of every item, so it keeps
      the ids unique. */
  lemma ReplaceByIdKeepsIds(items: seq<CalendarItem>, e: EventItem)
    ensures forall i :: 0 <= i < |items| ==>
      ReplaceById(items, e)[i].Event? == items[i].Event? && ReplaceById(items, e)[i].id == items[i].id
    ensures UniqueEventIds(items) ==> UniqueEventIds(ReplaceById(items, e))
  {
  }

  /** What a drag computes: the new list, the event as it was (the undo
      payload) and the moved copy. */
  datatype Dragged = Dragged(items: seq<CalendarItem>, original: EventItem, updated: EventItem)

  /** `handleDrag` on the item list: find the first event with `id`, move a
      copy of it to the range from `s` to `t`, and put the copy in place of
      every event with `id`. Fails with `NotFound(id)` exactly when no event
      has that id. */
  function Drag(items: seq<CalendarItem>, id: int, s: DateTime, t: DateTime): (r: Result<Dragged>)
    ensures r.Err? <==> forall i :: 0 <= i < |items| ==> !IsEventWithId(items[i], id)
    ensures r.Err? ==> r.error == NotFound(id)
    ensures r.Ok? ==> exists k :: IsFirstMatch(items, id, k) && items[k] == r.value.original
    ensures r.Ok? ==> r.value.updated == Rescheduled(r.value.original, s, t)
    ensures r.Ok? ==> |r.value.items| == |items|
    ensures r.Ok? ==> forall i :: 0 <= i < |items| && IsEventWithId(items[i], id) ==>
      var moved := r.value.items[i];
      moved.Event? && moved.startTime == s && moved.endTime == t
      && moved.id == id && moved.title == r.value.original.title && moved.meta == r.value.original.meta
    ensures r.Ok? ==> forall i :: 0 <= i < |items| && !IsEventWithId(items[i], id) ==>
      r.value.items[i] == items[i]
  {
    match FindFirstEvent(items, id)
    case None => Err(NotFound(id))
    case Some(original) =>
      var updated := Rescheduled(original, s, t);
      Ok(Dragged(ReplaceById(items, updated), original, updated))
  }

  /** Running the undo of a drag (replacing by the original event) restores
      the list exactly, provided at most one event carries the dragged id
      (as it does when all event ids are unique, by UniqueIdsCountAtMostOne). */
  lemma DragThenUndoRestores(items: seq<CalendarItem>, id: int, s: DateTime, t: DateTime)
    requires CountEventsWithId(items, id) <= 1
    requires Drag(items, id, s, t).Ok?
    ensures ReplaceById(Drag(items, id, s, t).value.items, Drag(items, id, s, t).value.original) == items
  {
    var d := Drag(items, id, s, t).value;
    var k :| IsFirstMatch(items, id, k) && items[k] == d.original;
    var restored := ReplaceById(d.items, d.original);
    forall i | 0 <= i < |items| ensures restored[i] == items[i] {
      if IsEventWithId(items[i], id) {
        OnlyOneMatch(items, id, i, k);
      }
    }
  }

  /** Without that hypothesis the undo does not restore the list: the drag moves
      both events with id 1 to a copy of the first, and the undo turns both
      into the first, so the second is lost. */
  lemma DuplicateIdsDefeatUndo()
    ensures var items := [Event(1, "A", 0, 1, Metadata([])), Event(1, "B", 2, 3, Metadata([]))];
            Drag(items, 1, 5, 6).Ok?
            && ReplaceById(Drag(items, 1, 5, 6).value.items, Drag(items, 1, 5, 6).value.original) != items
  {
    var items := [Event(1, "A", 0, 1, Metadata([])), Event(1, "B", 2, 3, Metadata([]))];
    var d := Drag(items, 1, 5, 6).value;
    assert IsEventWithId(items[0], 1);
    var restored := ReplaceById(d.items, d.original);
    assert restored[1] == d.original;
    assert d.original.title == "A" by {
      var k :| IsFirstMatch(items, 1, k) && items[k] == d.original;
      assert k == 0;
    }
    assert restored[1] != items[1];
  }
}
