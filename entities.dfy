/**
 * The catalog's domain record. Identities, timestamps and prices are only
 * ever copied or compared for equality by the modelled code, so each is given
 * a plain value type here.
 */
module Entities {
  import opened Wrappers

  /** A 128-bit globally unique identifier (System.Guid). */
  newtype Guid = x: int | 0 <= x < 0x1_0000_0000_0000_0000_0000_0000_0000_0000

  /** A calendar instant with its UTC offset, as System.DateTimeOffset is constructed. */
  datatype DateTimeOffset = DateTimeOffset(
    year: int, month: int, day: int,
    hour: int, minute: int, second: int,
    offsetMinutes: int)

  /**
   * A catalog item. `description` is nullable in the source, and the seeded
   * fixtures leave it unset; `price` is a C# decimal, which is exact, so a
   * Dafny real.
   */
  datatype Item = Item(
    id: Guid,
    name: string,
    description: Option<string>,
    price: real,
    createdDate: DateTimeOffset)
}
