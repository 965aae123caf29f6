/** The clock is outside the model: a creation date is an opaque value that
    the caller reads from `LocalDateTime.now()` and passes in. */
module Clock {

  datatype LocalDateTime = LocalDateTime(ticks: int)
}
