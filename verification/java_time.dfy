/** The `java.time` values the search results carry. Only the fields the model
    reads are kept; calendar validity is not checked. */
module JavaTime {

  datatype LocalDate = LocalDate(year: int, month: int, day: int)

  /** `LocalDate.EPOCH`, 1970-01-01. */
  const Epoch: LocalDate := LocalDate(1970, 1, 1)

  /** An instant as a local date-time plus its offset from UTC. */
  datatype OffsetDateTime = OffsetDateTime(date: LocalDate, nanoOfDay: int, offsetSeconds: int)

  /** `OffsetDateTime.toLocalDate`: the date part, in the value's own offset. */
  function ToLocalDate(t: OffsetDateTime): LocalDate {
    t.date
  }
}
