/** The two tests of a session mask: the one for services and the one for data identifiers. */
module SessionGates {
  import opened Bytes
  import Core
  import DataById

  /** A service entry and a data identifier with the same non-zero session mask are open in the same
      sessions only in part: in the default session always, in the programming and the extended one
      exactly when the mask treats these two alike, because the tests number them differently. */
  lemma GatesAgreeIff(s: Core.Service, d: DataById.Did, session: byte)
    requires s.sessionMask == d.sessionMask != 0 && 1 <= session <= 3
    ensures (Core.SessionSupported(s, session) <==> DataById.SessionAllows(d, session)) <==>
            session == 1 || (Bit(d.sessionMask, 1) <==> Bit(d.sessionMask, 2))
  {
  }

  /** A mask for the extended session alone opens a service there, but an identifier in the
      programming session instead. */
  lemma ExtendedMaskMoves(s: Core.Service, d: DataById.Did)
    requires s.sessionMask == d.sessionMask == 2
    ensures Core.SessionSupported(s, 3) && !Core.SessionSupported(s, 2)
    ensures DataById.SessionAllows(d, 2) && !DataById.SessionAllows(d, 3)
  {
    assert Pow2(1) == 2 && Pow2(2) == 4;
  }
}
