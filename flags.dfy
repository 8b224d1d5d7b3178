/** The status word `nGetFlags` (main.cc) and `getFlags`
    (disable_lsposed.cc) hand to Java: bit 0 says the framework's
    `hookMethod` was replaced, bit 1 says ART's code segments were
    mapped afresh from the file. */
module NativeFlags {

  const FLAG_LSPOSED_DISABLED: int := 1  // 1 << 0
  const FLAG_ART_RESTORED: int := 2      // 1 << 1

  /** `flags |= 1 << 0` and `flags |= 1 << 1`, from 0; the bits are
      disjoint, so the ORs add up. */
  function FlagWord(lsposedDisabled: bool, artRestored: bool): (flags: int)
    ensures 0 <= flags < 4
    ensures flags % 2 == 1 <==> lsposedDisabled
    ensures (flags / 2) % 2 == 1 <==> artRestored
  {
    (if lsposedDisabled then FLAG_LSPOSED_DISABLED else 0) + (if artRestored then FLAG_ART_RESTORED else 0)
  }

  /** A reader of the word recovers both booleans. */
  function Decode(flags: int): (bits: (bool, bool))
  {
    (flags % 2 == 1, (flags / 2) % 2 == 1)
  }

  lemma DecodeFlagWord(lsposedDisabled: bool, artRestored: bool)
    ensures Decode(FlagWord(lsposedDisabled, artRestored)) == (lsposedDisabled, artRestored)
  {
  }

  /** Distinct states give distinct words. */
  lemma FlagWordInjective(d1: bool, r1: bool, d2: bool, r2: bool)
    requires FlagWord(d1, r1) == FlagWord(d2, r2)
    ensures d1 == d2 && r1 == r2
  {
    DecodeFlagWord(d1, r1);
    DecodeFlagWord(d2, r2);
  }
}
