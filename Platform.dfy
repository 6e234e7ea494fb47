/** Values the Swift platform hands to the app's logic: optionals, calendar
    dates already split into their components, and colour tags. */
module Platform {

  /** Swift's `Optional`. */
  datatype Option<+T> = None | Some(value: T)

  /** A `Date` as the current calendar decomposes it. Everything finer than
      seconds is dropped: no rule of the app looks at it. */
  datatype Date = Date(year: int, month: int, day: int, hour: int, minute: int, second: int)

  /** Whole calendar years elapsed from a date until now, as the calendar
      computes them against the clock; the caller supplies it. */
  type YearsSince = Date -> int

  /** The colours the logic picks from, as tags. */
  datatype Colour = Gray | Orange | Green | Blue | Red | MedicareBlue | MedicareGreen | MedicareRed
}
