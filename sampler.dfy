/** The temperature sampler: one thermal-zone reading in millidegrees Celsius
    becomes whole degrees, and a failed read becomes a fixed safe default. */
module Sampler {
  import opened GoInt
  import Policy

  const DefaultSafeTemperature: int := 60

  /** Outcome of reading the thermal zone: the parsed integer value, or a
      failure (the command could not run or its output did not parse). */
  datatype Reading = ReadOk(raw: int) | ReadFailed

  /** `getCurrentTemperature` with the read passed in: millidegrees divided
      by 1000 with Go's truncation toward zero; a failed read never fails
      the caller and yields the default. */
  function CurrentTemperature(reading: Reading): (c: int)
    ensures reading.ReadFailed? ==> c == DefaultSafeTemperature
    ensures reading.ReadOk? && reading.raw >= 0 ==> c * 1000 <= reading.raw < c * 1000 + 1000
    ensures reading.ReadOk? && reading.raw < 0 ==> c * 1000 - 1000 < reading.raw <= c * 1000
  {
    match reading
    case ReadFailed => DefaultSafeTemperature
    case ReadOk(raw) => Quot(raw, 1000)
  }

  /** A warmer sensor never reads as a cooler temperature. */
  lemma CurrentTemperatureMonotone(raw1: int, raw2: int)
    requires raw1 <= raw2
    ensures CurrentTemperature(ReadOk(raw1)) <= CurrentTemperature(ReadOk(raw2))
  {
    QuotMonotone(raw1, raw2, 1000);
  }

  /** Readings of the same magnitude either side of zero convert to opposite
      temperatures (truncation, not flooring). */
  lemma CurrentTemperatureSymmetric(raw: int)
    ensures CurrentTemperature(ReadOk(-raw)) == -CurrentTemperature(ReadOk(raw))
  {
    QuotNegate(raw, 1000);
  }

  /** The fallback lies strictly inside the interpolation window, so a
      sustained read failure takes neither clamp branch of the policy. */
  lemma DefaultInsideWindow()
    ensures Policy.MinimumTemperature < CurrentTemperature(ReadFailed) < Policy.MaximumTemperature
  {
  }
}
