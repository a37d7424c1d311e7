/** Times are nanoseconds; a stored RFC 3339 stamp keeps only the whole seconds. */
module Clock {

  const SECOND: int := 1_000_000_000

  function Seconds(time: int): (s: int)
    ensures s * SECOND <= time < (s + 1) * SECOND
  {
    time / SECOND
  }
}
