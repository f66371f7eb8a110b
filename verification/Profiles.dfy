/** The tunable set of one AmneziaWG interface. */
module Profiles {
  import opened Numerals

  datatype Version = V1 | V2 | V31 | Unsupported(text: string)

  /** An inclusive range; int64 bounds. */
  datatype IntRange = IntRange(min: int, max: int) {
    predicate IsZero() {
      min == 0 && max == 0
    }

    /** One number, or two joined by a dash. */
    function Text(): (s: string)
      ensures '\n' !in s
    {
      if min == max then FormatInt(min) else FormatInt(min) + "-" + FormatInt(max)
    }
  }

  datatype Profile = Profile(
    name: string,
    version: Version,
    jc: int, jmin: int, jmax: int,
    s1: int, s2: int, s3: int, s4: int,
    h1: IntRange, h2: IntRange, h3: IntRange, h4: IntRange,
    i1: string, i2: string, i3: string, i4: string, i5: string,
    headerProtectionKey: string,
    contentPaddingAddition: IntRange,
    rekeyAfterTime: IntRange,
    rekeyTimeout: IntRange,
    rejectAfterTime: IntRange,
    keepaliveTimeout: IntRange,
    maxHandshakeAttempts: IntRange,
    persistentKeepalive: IntRange,
    randomTrailers: bool,
    disableCookies: bool,
    listenPortPolicy: string)
  {
    predicate SupportsV2Fields() {
      version.V2? || version.V31?
    }

    predicate IsV31() {
      version.V31?
    }
  }
}
