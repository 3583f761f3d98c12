/**
 The word FUTEX_WAKE_OP changes and the test it makes (kernel/futex.c, futex_wake_op).  One argument packs an
 operation, a comparison and two 12-bit signed operands; `ArgumentIsUnpacked`
 says that the unpacking undoes it, and the lemmas after it say on numbers what the call does.
 */
module FutexWakeOp {
  import opened Common
  import Bits

  const WORDS: nat := 0x1_0000_0000
  const EFAULT: int := -14
  const EINVAL: int := -22
  const ENOSYS: int := -38

  /** What the argument says: op and cmp are 4-bit codes, of which bit 3 of op asks for a shift. */
  datatype Code = Code(op: nat, shift: bool, oparg: int, cmp: nat, cmparg: int)

  /** A 12-bit field as a signed number. */
  function SignExtended(field: nat): int {
    if field >= 2048 then field - 4096 else field
  }

  const FIELD: nat := 0x1000

  function Unpacked(val3: nat): Code {
    var codes := val3 / FIELD / FIELD;
    Code(codes / 16 % 8, codes / 16 / 8 % 2 == 1, SignExtended(val3 / FIELD % FIELD), codes % 16, SignExtended(val3 % FIELD))
  }

  // ---------------------------------------------------------------- the word

  /** The operand of the operation, or the error for a shift that is out of range. */
  function Operand(c: Code): Option<nat> {
    if !c.shift then Some(c.oparg % WORDS)
    else if 0 <= c.oparg <= 31 then Some(Bits.PowerOfTwo(c.oparg))
    else None
  }

  /** The five operations; None is a code that means nothing. */
  function Changed(op: nat, word: nat, arg: nat): Option<nat> {
    match op
    case 0 => Some(arg)
    case 1 => Some((word + arg) % WORDS)
    case 2 => Some(Bits.Or(word, arg))
    case 3 => Some(Bits.AndNot(word, arg))
    case 4 => Some(Bits.Xor(word, arg))
    case _ => None
  }

  function Signed(word: nat): int {
    if word >= 0x8000_0000 then word - WORDS else word
  }

  function Holds(cmp: nat, old_: int, arg: int): Option<bool> {
    match cmp
    case 0 => Some(old_ == arg)
    case 1 => Some(old_ != arg)
    case 2 => Some(old_ < arg)
    case 3 => Some(old_ <= arg)
    case 4 => Some(old_ > arg)
    case 5 => Some(old_ >= arg)
    case _ => None
  }

  /** The word afterwards, and whether the second queue is to be woken or an error returned. */
  datatype Verdict = Failed(errno: int) | Wakes(both: bool)

  function Judged(val3: nat, word: Option<nat>): (Option<nat>, Verdict) {
    var c := Unpacked(val3);
    var arg := Operand(c);
    if arg.None? then (word, Failed(EINVAL))
    else if word.None? then (None, Failed(EFAULT))
    else
      var changed := Changed(c.op, word.value, arg.value);
      if changed.None? then (word, Failed(ENOSYS))
      else match Holds(c.cmp, Signed(word.value), c.cmparg)
        case None => (changed, Failed(ENOSYS))
        case Some(both) => (changed, Wakes(both))
  }

  // ---------------------------------------------------------------- on numbers

  /** The argument as Linux lays it out: 4 bits of operation, 4 of comparison, and two operands of 12 bits. */
  function Argument(op: nat, cmp: nat, oparg: int, cmparg: int): nat {
    op * 0x1000_0000 + cmp * 0x100_0000 + oparg % 0x1000 * 0x1000 + cmparg % 0x1000
  }

  lemma ArgumentIsUnpacked(op: nat, cmp: nat, oparg: int, cmparg: int)
    requires op < 16 && cmp < 16 && -2048 <= oparg < 2048 && -2048 <= cmparg < 2048
    ensures Unpacked(Argument(op, cmp, oparg, cmparg)) == Code(op % 8, op >= 8, oparg, cmp, cmparg)
  {
    var val3 := Argument(op, cmp, oparg, cmparg);
    var p, q := oparg % 0x1000, cmparg % 0x1000;
    var upper := (op * 16 + cmp) * FIELD + p;
    assert val3 == upper * FIELD + q;
    assert val3 / FIELD == upper && val3 % FIELD == q;
    assert upper / FIELD == op * 16 + cmp && upper % FIELD == p;
    var codes := op * 16 + cmp;
    assert codes / 16 == op && codes % 16 == cmp;
    assert SignExtended(p) == oparg && SignExtended(q) == cmparg;
  }

  /** Every 32-bit argument is laid out so. */
  lemma EveryArgument(val3: nat) returns (op: nat, cmp: nat, oparg: int, cmparg: int)
    requires val3 < 0x1_0000_0000
    ensures op < 16 && cmp < 16 && -2048 <= oparg < 2048 && -2048 <= cmparg < 2048
    ensures val3 == Argument(op, cmp, oparg, cmparg)
  {
    var upper, q := val3 / FIELD, val3 % FIELD;
    var codes, p := upper / FIELD, upper % FIELD;
    op, cmp := codes / 16, codes % 16;
    oparg, cmparg := SignExtended(p), SignExtended(q);
    assert val3 == ((op * 16 + cmp) * FIELD + p) * FIELD + q;
    assert oparg % 0x1000 == p && cmparg % 0x1000 == q;
  }

  /**
   The comparison, on numbers: the second queue is woken exactly if the old word, read as a signed number, is
   equal to the operand, not equal, less, not greater, greater or not less, by code.
   */
  lemma ComparisonMeans(op: nat, cmp: nat, oparg: int, cmparg: int, word: nat)
    requires op % 8 <= 4 && op < 16 && cmp <= 5 && -2048 <= oparg < 2048 && -2048 <= cmparg < 2048
    requires word < 0x1_0000_0000 && (op >= 8 ==> 0 <= oparg <= 31)
    ensures var old_ := if word < 0x8000_0000 then word else word - 0x1_0000_0000;
            var verdict := Judged(Argument(op, cmp, oparg, cmparg), Some(word)).1;
            && verdict.Wakes?
            && (cmp == 0 ==> (verdict.both <==> old_ == cmparg))
            && (cmp == 1 ==> (verdict.both <==> old_ != cmparg))
            && (cmp == 2 ==> (verdict.both <==> old_ < cmparg))
            && (cmp == 3 ==> (verdict.both <==> old_ <= cmparg))
            && (cmp == 4 ==> (verdict.both <==> old_ > cmparg))
            && (cmp == 5 ==> (verdict.both <==> old_ >= cmparg))
  {
    ArgumentIsUnpacked(op, cmp, oparg, cmparg);
  }

  /**
   The errors: a shift out of range before anything else, then an unreadable word, then an unknown code.  A failing
   call leaves the word unless only the comparison is unknown.
   */
  lemma ErrorsMean(op: nat, cmp: nat, oparg: int, cmparg: int, word: Option<nat>)
    requires op < 16 && cmp < 16 && -2048 <= oparg < 2048 && -2048 <= cmparg < 2048
    ensures var verdict := Judged(Argument(op, cmp, oparg, cmparg), word).1;
            && (verdict == Failed(-22) <==> op >= 8 && !(0 <= oparg <= 31))
            && (verdict == Failed(-14) <==> (op >= 8 ==> 0 <= oparg <= 31) && word.None?)
            && (verdict == Failed(-38) <==> (op >= 8 ==> 0 <= oparg <= 31) && word.Some? && (op % 8 > 4 || cmp > 5))
            && (verdict.Wakes? <==> (op >= 8 ==> 0 <= oparg <= 31) && word.Some? && op % 8 <= 4 && cmp <= 5)
            && (verdict.Failed? && !(op % 8 <= 4 && cmp > 5) ==> Judged(Argument(op, cmp, oparg, cmparg), word).0 == word)
  {
    ArgumentIsUnpacked(op, cmp, oparg, cmparg);
  }

  /**
   The new word, on numbers: the operand, the sum modulo 2^32, and the union, difference and symmetric difference
   of the bits.  The operand is the number modulo 2^32, or with a shift the number that has just this bit.
   */
  lemma NewWordMeans(op: nat, cmp: nat, oparg: int, cmparg: int, word: nat, i: nat)
    requires op % 8 <= 4 && op < 16 && cmp < 16 && -2048 <= oparg < 2048 && -2048 <= cmparg < 2048
    requires word < 0x1_0000_0000 && (op >= 8 ==> 0 <= oparg <= 31)
    ensures var arg := if op >= 8 then Bits.PowerOfTwo(oparg) else oparg % 0x1_0000_0000;
            var changed := Judged(Argument(op, cmp, oparg, cmparg), Some(word)).0;
            && (op >= 8 ==> (Bits.Bit(arg, i) <==> i == oparg))
            && changed.Some?
            && (op % 8 == 0 ==> changed.value == arg)
            && (op % 8 == 1 ==> changed.value == (word + arg) % 0x1_0000_0000)
            && (op % 8 == 2 ==> (Bits.Bit(changed.value, i) <==> Bits.Bit(word, i) || Bits.Bit(arg, i)))
            && (op % 8 == 3 ==> (Bits.Bit(changed.value, i) <==> Bits.Bit(word, i) && !Bits.Bit(arg, i)))
            && (op % 8 == 4 ==> (Bits.Bit(changed.value, i) <==> Bits.Bit(word, i) != Bits.Bit(arg, i)))
  {
    var arg := if op >= 8 then Bits.PowerOfTwo(oparg) else oparg % 0x1_0000_0000;
    JudgedChanges(op, cmp, oparg, cmparg, word, arg);
    if op >= 8 {
      Bits.PowerBit(oparg, i);
    }
    ChangedMeans(op % 8, word, arg, i);
  }

  lemma JudgedChanges(op: nat, cmp: nat, oparg: int, cmparg: int, word: nat, arg: nat)
    requires op % 8 <= 4 && op < 16 && cmp < 16 && -2048 <= oparg < 2048 && -2048 <= cmparg < 2048
    requires op >= 8 ==> 0 <= oparg <= 31
    requires arg == if op >= 8 then Bits.PowerOfTwo(oparg) else oparg % 0x1_0000_0000
    ensures Judged(Argument(op, cmp, oparg, cmparg), Some(word)).0 == Changed(op % 8, word, arg)
  {
    ArgumentIsUnpacked(op, cmp, oparg, cmparg);
  }

  lemma ChangedMeans(op: nat, word: nat, arg: nat, i: nat)
    requires op <= 4
    ensures var changed := Changed(op, word, arg);
            && changed.Some?
            && (op == 0 ==> changed.value == arg)
            && (op == 1 ==> changed.value == (word + arg) % 0x1_0000_0000)
            && (op == 2 ==> (Bits.Bit(changed.value, i) <==> Bits.Bit(word, i) || Bits.Bit(arg, i)))
            && (op == 3 ==> (Bits.Bit(changed.value, i) <==> Bits.Bit(word, i) && !Bits.Bit(arg, i)))
            && (op == 4 ==> (Bits.Bit(changed.value, i) <==> Bits.Bit(word, i) != Bits.Bit(arg, i)))
  {
    Bits.OrBit(word, arg, i);
    Bits.AndNotBit(word, arg, i);
    Bits.XorBit(word, arg, i);
  }
}
