/** Membership statuses, types and their ranking (src/services/memberships.ts). */
module Memberships {

  const REVOKED: int := -1
  const INVITED: int := 0
  const ACCEPTED: int := 1
  const CONFIRMED: int := 2

  const OWNER: int := 0
  const ADMIN: int := 1
  const USER: int := 2
  const MANAGER: int := 3

  /** The wire values do not sort by privilege; every comparison goes through this rank. */
  function Rank(atype: int): nat {
    if atype == OWNER then 3
    else if atype == ADMIN then 2
    else if atype == MANAGER then 1
    else 0
  }

  predicate IsAtLeast(atype: int, minimum: int) {
    Rank(atype) >= Rank(minimum)
  }

  predicate HasFullAccess(atype: int, accessAll: bool) {
    accessAll || IsAtLeast(atype, ADMIN)
  }
}
