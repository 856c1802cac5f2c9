/** The ticket record and the failures of the statistics pipeline. */
module Tickets {

  const Int32Min: int := -0x8000_0000
  const Int32Max: int := 0x7fff_ffff

  /** Java's `int`. */
  type Int32 = x: int | -0x8000_0000 <= x <= 0x7fff_ffff

  /** Java `int` arithmetic: the two's-complement value congruent to `x` modulo 2^32. */
  function Wrap32(x: int): (r: Int32)
    ensures (r - x) % 0x1_0000_0000 == 0
    ensures Int32Min <= x <= Int32Max ==> r == x
  {
    var m := x % 0x1_0000_0000;
    if m <= Int32Max then m else m - 0x1_0000_0000
  }

  /** One flight offer. Times are the raw "H:mm" strings of the input;
      the price is a Java `int`. */
  datatype Ticket = Ticket(
    origin: string,
    destination: string,
    carrier: string,
    departureTime: string,
    arrivalTime: string,
    price: Int32)

  /** What can abort a run: a time string the "H:mm" formatter rejects
      (DateTimeParseException) or a list index out of range
      (IndexOutOfBoundsException). */
  datatype Error = TimeParseError(text: string) | IndexOutOfBounds(index: int)
}
