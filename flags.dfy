/** `CallFlags` (include/cpplua.h:31-34): a plain enumeration used as a bit set.
    Its underlying type is modelled as 32 bits. */
module LuaFlags {

  type CallFlags = bv32

  /** No option set. */
  const None: CallFlags := 0

  /** Bit 0: a script that lacks the called function is not counted as a failure. */
  const IgnoreNotExists: CallFlags := 1 << 0

  /** Whether a flag word asks to ignore scripts that lack the function: exactly
      when its lowest bit is set, that is, when the word is odd. */
  function IgnoresMissing(flags: CallFlags): (b: bool)
    ensures b <==> flags % 2 == 1
  {
    flags & IgnoreNotExists != 0
  }

  /** The two named values: `None` is 0 and ignores nothing, `IgnoreNotExists`
      is bit 0 and is the only bit `IgnoresMissing` looks at. */
  lemma FlagValues()
    ensures None == 0 && IgnoreNotExists == 1
    ensures !IgnoresMissing(None) && IgnoresMissing(IgnoreNotExists)
  {
  }

  /** About the bit test itself: or-ing in bit 0 turns the option on and
      masking bit 0 out turns it off. */
  lemma IgnoresMissingOnlyBitZero(flags: CallFlags)
    ensures IgnoresMissing(flags | IgnoreNotExists)
    ensures !IgnoresMissing(flags & !IgnoreNotExists)
  {
  }
}
