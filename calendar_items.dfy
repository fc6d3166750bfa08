/**
 * The items a week view shows, as the sample's view-model sees them.
 *
 * The sample's `CalendarItem` is a sealed class with an `Event` case and
 * other, non-event cases. The view-model only ever distinguishes "an event"
 * from "anything else", reads an event's id and title, and copies an event
 * with new start and end times; everything else it passes through untouched.
 */
module CalendarItems {

  /** A point in time (the sample's `LocalDateTime`), as a count of some unit
      from a fixed origin. Only equality and copying matter to the store. */
  type DateTime = int

  /** The presentation fields of an event (colour, location, ...) that the
      view-model copies but never reads. */
  datatype Metadata = Metadata(fields: seq<int>)

  /** A calendar item: an event, or some other kind of item (which may carry
      an id of its own, but is never matched by the event lookups). */
  datatype CalendarItem =
    | Event(id: int, title: string, startTime: DateTime, endTime: DateTime, meta: Metadata)
    | NonEvent(id: int, meta: Metadata)

  /** The sample's `CalendarItem.Event` type: the items of the `Event` case. */
  type EventItem = c: CalendarItem | c.Event? witness Event(0, "", 0, 0, Metadata([]))

  /** `item is CalendarItem.Event && item.id == id`. */
  predicate IsEventWithId(item: CalendarItem, id: int)
  {
    item.Event? && item.id == id
  }

  /** `event.copy(startTime = s, endTime = t)`: the same event moved to
      the time range from `s` to `t`. The range is not checked: `s` may lie
      after `t`. */
  function Rescheduled(event: EventItem, s: DateTime, t: DateTime): (r: EventItem)
    ensures r.startTime == s && r.endTime == t
    ensures r.id == event.id && r.title == event.title && r.meta == event.meta
  {
    event.(startTime := s, endTime := t)
  }

  /** Moving an event back to its old range gives the original event. */
  lemma RescheduledBack(event: EventItem, s: DateTime, t: DateTime)
    ensures Rescheduled(Rescheduled(event, s, t), event.startTime, event.endTime) == event
  {
  }

  /** A value that may be missing (Kotlin's nullable types). */
  datatype Option<+T> = None | Some(value: T)

  /** Why a store operation could not be carried out. */
  datatype StoreError = NotFound(id: int)

  /** The outcome of an operation that can fail with a `StoreError`. */
  datatype Result<+T> = Ok(value: T) | Err(error: StoreError)
}
