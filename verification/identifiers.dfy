/** Identifiers. Every row id and tenant id in the system is a UUID, and the
    services only ever see it as `str(uuid)`: 36 characters, lower-case hex
    digits in groups of 8-4-4-4-12 separated by dashes. */
module Identifiers {

  predicate IsHexDigit(c: char) {
    ('0' <= c <= '9') || ('a' <= c <= 'f')
  }

  predicate IsDashPosition(i: int) {
    i == 8 || i == 13 || i == 18 || i == 23
  }

  /** The canonical text form of a UUID. */
  predicate IsUuidText(s: string) {
    && |s| == 36
    && forall i :: 0 <= i < |s| ==> (if IsDashPosition(i) then s[i] == '-' else IsHexDigit(s[i]))
  }

  type Uuid = s: string | IsUuidText(s) witness "00000000-0000-0000-0000-000000000000"

  /** Tenants, documents and audit records are all keyed by UUIDs. */
  type TenantId = Uuid
}
