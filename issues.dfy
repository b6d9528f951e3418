/**
 The records the backend keeps: an issue report, its location, the (unused)
 user record, and the outcome of a lookup by identifier.
 */
module Issues {

  /** The raw IEEE 754 binary64 bit pattern of an `f64`. The store copies
      coordinates but never computes with them, so no float semantics is needed. */
  type Float64 = bv64

  /** A signed 32-bit integer, as Rust's `i32`. */
  newtype Int32 = x: int | -0x8000_0000 <= x < 0x8000_0000

  datatype Option<T> = None | Some(value: T)

  datatype Location = Location(latitude: Float64, longitude: Float64)

  /** A reported civic problem. All text fields are free text; `category`,
      `severity` and `status` are not restricted to any fixed set of values. */
  datatype Issue = Issue(
    id: string,
    title: string,
    description: string,
    location: Location,
    category: string,
    severity: string,
    status: string,
    reportedBy: string,
    createdAt: string,
    imageUrl: Option<string>)

  /** Declared by the backend but never created, read or returned. */
  datatype User = User(id: string, username: string, email: string, points: Int32)

  /** What a lookup or a status update answers: the record (HTTP 200 with the
      record as body) or not-found (HTTP 404 with an empty body). */
  datatype Reply = Found(issue: Issue) | NotFound

  predicate IsLowerHexDigit(c: char) {
    '0' <= c <= '9' || 'a' <= c <= 'f'
  }

  /** The text `uuid::Uuid::new_v4().to_string()` produces: 32 lower-case hex
      digits in groups 8-4-4-4-12 separated by hyphens, the version digit `4`
      first in the third group and a variant digit in `8`..`b` first in the
      fourth (section 4.4 of RFC 4122). */
  predicate IsUuidV4Text(s: string) {
    && |s| == 36
    && (forall i :: 0 <= i < 36 ==>
          if i == 8 || i == 13 || i == 18 || i == 23 then s[i] == '-' else IsLowerHexDigit(s[i]))
    && s[14] == '4'
    && s[19] in {'8', '9', 'a', 'b'}
  }
}
