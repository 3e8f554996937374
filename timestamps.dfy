/** The timestamps the repositories and the job pass around. */
module Timestamps {
  /** A closure or job timestamp, counted so that Go's zero `time.Time{}` is 0. */
  type Time = int

  const ZeroTime: Time := 0
}
