/**
 * The allow-write word of ep.c (_ep_allow_write): bit i is set while slot i
 * holds a session that writers may reach. It is set with `|` when a session
 * is published and cleared with `& ~` when it is withdrawn. This module
 * proves, on 64-bit words, that those two operations set or clear exactly the
 * one bit named by the shift amount, and (through Bits) that they add or
 * remove exactly that slot from the set of slots whose bit is set, which is
 * how the registry tracks the word.
 */
module EpMask {

  /** ep_session_get_mask: the word with only bit b set, ((uint64_t)1 << b). */
  function Mask(b: bv6): bv64 {
    1 << b
  }

  /** Bit b of word is set: (word & mask) != 0. */
  predicate BitAt(word: bv64, b: bv6) {
    word & Mask(b) != 0
  }

  /** A session mask has exactly one bit set. */
  lemma MaskHasOneBit(b: bv6, c: bv6)
    ensures BitAt(Mask(b), c) <==> b == c
  {
  }

  lemma OrBits(word: bv64, b: bv6, c: bv6)
    ensures (word | Mask(b)) & Mask(c) != 0 <==> word & Mask(c) != 0 || b == c
  {
  }

  lemma AndNotBits(word: bv64, b: bv6, c: bv6)
    ensures (word & !Mask(b)) & Mask(c) != 0 <==> word & Mask(c) != 0 && b != c
  {
  }

  /** Publishing: or-ing in the mask of b sets bit b and leaves every other bit as it was. */
  lemma SetBit(word: bv64, b: bv6, c: bv6)
    ensures BitAt(word | Mask(b), c) <==> BitAt(word, c) || b == c
  {
    OrBits(word, b, c);
  }

  /** Withdrawing: and-ing with the complement of the mask of b clears bit b and no other. */
  lemma ClearBit(word: bv64, b: bv6, c: bv6)
    ensures BitAt(word & !Mask(b), c) <==> BitAt(word, c) && b != c
  {
    AndNotBits(word, b, c);
  }

  /** Slot c's bit is set in `word`. */
  predicate SlotBit(word: bv64, c: nat) {
    c < 64 && BitAt(word, c as bv6)
  }

  /** The slots whose bit is set in `word`: the set the engine keeps as its allow-write state. */
  ghost function Bits(word: bv64): set<nat> {
    set c: nat | c < 64 && SlotBit(word, c)
  }

  /** The word ep_init starts from has no slot published. */
  lemma NoBits()
    ensures Bits(0) == {}
  {
    forall c: nat
      ensures !SlotBit(0, c)
    {
    }
  }

  /** Publishing slot b adds exactly b to the published slots. */
  lemma PublishBits(word: bv64, b: bv6)
    ensures Bits(word | Mask(b)) == Bits(word) + {b as nat}
  {
    forall c: nat
      ensures SlotBit(word | Mask(b), c) <==> SlotBit(word, c) || c == b as nat
    {
      if c < 64 {
        SetBit(word, b, c as bv6);
        SlotNumber(c, b);
      }
    }
  }

  /** Withdrawing slot b removes exactly b from the published slots. */
  lemma WithdrawBits(word: bv64, b: bv6)
    ensures Bits(word & !Mask(b)) == Bits(word) - {b as nat}
  {
    forall c: nat
      ensures SlotBit(word & !Mask(b), c) <==> SlotBit(word, c) && c != b as nat
    {
      if c < 64 {
        ClearBit(word, b, c as bv6);
        SlotNumber(c, b);
      }
    }
  }

  /** Below 64, a slot number and its 6-bit form name the same slot. */
  lemma SlotNumber(c: nat, b: bv6)
    requires c < 64
    ensures c as bv6 == b <==> c == b as nat
  {
  }
}
