/**
 * Booking identifiers: `GIC` followed by the booking counter written in
 * decimal and zero-padded to four digits (`GIC0001`, `GIC10000`).
 */
module BookingIds {
  import opened Wrappers
  import opened Text

  const IdPrefix: string := "GIC"
  const IdPad: nat := 4

  /** The id minted for counter value `k`: `f"GIC{str(k).zfill(4)}"`. */
  function BookingId(k: nat): (id: string)
    ensures |id| >= |IdPrefix| + IdPad
    ensures id[..|IdPrefix|] == IdPrefix
  {
    IdPrefix + ZFill(NatToString(k), IdPad)
  }

  /** The counter value an id was minted from, if it has the id's shape. */
  function IdNumber(id: string): Option<nat>
  {
    if |id| > |IdPrefix| && id[..|IdPrefix|] == IdPrefix && IsDecimal(id[|IdPrefix|..])
    then Some(DecimalValue(id[|IdPrefix|..]))
    else None
  }

  /** Reading the number back out of a minted id gives the counter value. */
  lemma BookingIdNumber(k: nat)
    ensures IdNumber(BookingId(k)) == Some(k)
  {
    var digits := NatToString(k);
    var padded := ZFill(digits, IdPad);
    var z :| 0 <= z <= |padded| && padded == Repeat('0', z) + digits;
    assert BookingId(k)[|IdPrefix|..] == padded;
    DecimalIgnoresLeadingZeros(z, digits);
    DecimalOfNatToString(k);
  }

  /** Distinct counter values give distinct ids, so minted ids never collide. */
  lemma BookingIdInjective(a: nat, b: nat)
    ensures BookingId(a) == BookingId(b) <==> a == b
  {
    BookingIdNumber(a);
    BookingIdNumber(b);
  }

  lemma FirstBookingId()
    ensures BookingId(1) == "GIC0001"
  {
  }
}
