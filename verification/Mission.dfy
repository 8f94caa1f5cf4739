/** The mission file's items and the points of the flight path made from them. */
module Mission {
  import opened Ints

  /** Every action other than the five below is a place to fly to, and is treated alike. */
  datatype Action = SetPoi | SetHead | Jump | Rth | Land | Place(name: string)

  datatype Item = Item(
    no: int, action: Action, lat: real, lon: real, alt: int32,
    p1: int16, p2: int16, p3: int16, flag: int)

  datatype Mark = Init | Home | Return | Updated

  datatype Point = Point(
    y: real, x: real, d: real, c: real,
    gz: int, mz: int, az: int, xz: int,
    flag: int8, wpno: int8, mark: Mark)

  /** Great-circle course and distance (nautical miles) from the first latitude and longitude to the second. */
  type CourseAndDistance = (real, real, real, real) -> (real, real)

  /** Go's `x & 1`. */
  function LowBit(x: int): int {
    x % 2
  }
}
