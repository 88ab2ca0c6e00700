/** When a message or campaign is to be sent, as the services check it on arrival (`normalizeScheduledAt`). */
module Schedules {
  /** At once, at a text that is no date, or at an instant. */
  datatype Schedule = AtOnce | Unreadable | At(instant: int)

  /** A schedule is accepted when it can be read and lies after the clock reading `now`. */
  predicate InTime(s: Schedule, now: int) {
    match s
    case AtOnce => true
    case Unreadable => false
    case At(instant) => now < instant
  }
}
