/** The entities every service shares: user tags, actions and points in time. */
module Types {
  import opened GoInts

  datatype Option<+T> = None | Some(value: T)

  datatype Result<+T, +E> = Ok(value: T) | Err(error: E)

  datatype Action = View | Buy

  datatype Device = Pc | Mobile | Tv

  datatype ProductInfo = ProductInfo(productId: int, brandId: string, categoryId: string, price: uint32)

  datatype UserTag = UserTag(
    time: Time,
    cookie: string,
    country: string,
    device: Device,
    action: Action,
    origin: string,
    productInfo: ProductInfo
  )

  const SECOND: int := 1_000_000_000
  const MILLISECOND: int := 1_000_000
  const MINUTE: int := 60_000_000_000

  /** A point in time: nanoseconds since the epoch, negative before it. The bounds keep the
      seconds well inside an int64, as they are for every year that can be parsed. */
  type Time = t: int | -0x4000_0000_0000_0000 * 1_000_000_000 <= t < 0x4000_0000_0000_0000 * 1_000_000_000

  /** `Unix` and `UnixMilli` count whole seconds and milliseconds, rounding down. */
  function Unix(t: int): int { t / SECOND }

  function UnixMilli(t: int): int { t / MILLISECOND }

  /** Both count the same clock. */
  lemma MillisOfSeconds(t: int)
    ensures UnixMilli(t) / 1000 == Unix(t)
  {
    var s, rest := t / SECOND, t % SECOND;
    assert t == (1000 * s + rest / MILLISECOND) * MILLISECOND + rest % MILLISECOND;
    assert UnixMilli(t) == 1000 * s + rest / MILLISECOND;
  }

  /** The seconds field of the clock reading. */
  function Second(t: int): int { Unix(t) % 60 }
}
