/** The (26,16) shortened cyclic code of the RDS baseband: words, syndromes and offset words. */
module RdsCode {

  const BLOCK_LENGTH: nat := 26
  const CHECKWORD_LENGTH: nat := 10

  /** A 26-bit block, most significant bit (first received) first: index i holds bit 25 - i. */
  type Word = w: seq<bool> | |w| == BLOCK_LENGTH witness seq(BLOCK_LENGTH, i => false)

  /** The 16 information bits of a block. */
  type Data = d: seq<bool> | |d| == BLOCK_LENGTH - CHECKWORD_LENGTH witness seq(16, i => false)

  /** A 10-bit quantity: a syndrome, a checkword or an offset word. */
  datatype Bits10 = Bits10(b9: bool, b8: bool, b7: bool, b6: bool, b5: bool,
                           b4: bool, b3: bool, b2: bool, b1: bool, b0: bool)

  // Binary digits, so that the tables below read like the literals they stand for.
  const I := true
  const O := false

  const ZERO := Bits10(O, O, O, O, O, O, O, O, O, O)
  const ONE := Bits10(O, O, O, O, O, O, O, O, O, I)

  function Xor10(a: Bits10, b: Bits10): Bits10
  {
    Bits10(a.b9 != b.b9, a.b8 != b.b8, a.b7 != b.b7, a.b6 != b.b6, a.b5 != b.b5,
           a.b4 != b.b4, a.b3 != b.b3, a.b2 != b.b2, a.b1 != b.b1, a.b0 != b.b0)
  }

  function Xor(a: Word, b: Word): Word
  {
    seq(BLOCK_LENGTH, i requires 0 <= i < BLOCK_LENGTH => a[i] != b[i])
  }

  function ToSeq(c: Bits10): seq<bool>
  {
    [c.b9, c.b8, c.b7, c.b6, c.b5, c.b4, c.b3, c.b2, c.b1, c.b0]
  }

  lemma Xor10Regroup(p: Bits10, q: Bits10, r: Bits10, s: Bits10)
    ensures Xor10(Xor10(p, q), Xor10(r, s)) == Xor10(Xor10(p, r), Xor10(q, s))
  {}

  lemma Xor10Zero(p: Bits10)
    ensures Xor10(p, ZERO) == p && Xor10(ZERO, p) == p && Xor10(p, p) == ZERO
  {}

  lemma Xor10Comm(p: Bits10, q: Bits10)
    ensures Xor10(p, q) == Xor10(q, p)
  {}

  lemma Xor10Assoc(p: Bits10, q: Bits10, r: Bits10)
    ensures Xor10(Xor10(p, q), r) == Xor10(p, Xor10(q, r))
  {}

  lemma Xor10Cancels(p: Bits10, q: Bits10, r: Bits10)
    requires Xor10(p, q) == Xor10(p, r)
    ensures q == r
  {}

  lemma XorUndo(a: Word, b: Word)
    ensures Xor(Xor(a, b), b) == a
  {}

  // ---------------------------------------------------------------- syndromes

  /** Row n of the parity-check matrix. */
  function ParityCheckMatrix(n: nat): Bits10
    requires n < BLOCK_LENGTH
  {
    match n
    case 0 => Bits10(I, O, O, O, O, O, O, O, O, O)
    case 1 => Bits10(O, I, O, O, O, O, O, O, O, O)
    case 2 => Bits10(O, O, I, O, O, O, O, O, O, O)
    case 3 => Bits10(O, O, O, I, O, O, O, O, O, O)
    case 4 => Bits10(O, O, O, O, I, O, O, O, O, O)
    case 5 => Bits10(O, O, O, O, O, I, O, O, O, O)
    case 6 => Bits10(O, O, O, O, O, O, I, O, O, O)
    case 7 => Bits10(O, O, O, O, O, O, O, I, O, O)
    case 8 => Bits10(O, O, O, O, O, O, O, O, I, O)
    case 9 => Bits10(O, O, O, O, O, O, O, O, O, I)
    case 10 => Bits10(I, O, I, I, O, I, I, I, O, O)
    case 11 => Bits10(O, I, O, I, I, O, I, I, I, O)
    case 12 => Bits10(O, O, I, O, I, I, O, I, I, I)
    case 13 => Bits10(I, O, I, O, O, O, O, I, I, I)
    case 14 => Bits10(I, I, I, O, O, I, I, I, I, I)
    case 15 => Bits10(I, I, O, O, O, I, O, O, I, I)
    case 16 => Bits10(I, I, O, I, O, I, O, I, O, I)
    case 17 => Bits10(I, I, O, I, I, I, O, I, I, O)
    case 18 => Bits10(O, I, I, O, I, I, I, O, I, I)
    case 19 => Bits10(I, O, O, O, O, O, O, O, O, I)
    case 20 => Bits10(I, I, I, I, O, I, I, I, O, O)
    case 21 => Bits10(O, I, I, I, I, O, I, I, I, O)
    case 22 => Bits10(O, O, I, I, I, I, O, I, I, I)
    case 23 => Bits10(I, O, I, O, I, O, O, I, I, I)
    case 24 => Bits10(I, I, I, O, O, O, I, I, I, I)
    case _ => Bits10(I, I, O, O, O, I, I, O, I, I)
  }

  /** The row that bit k of a block selects. */
  function Row(k: nat): Bits10
    requires k < BLOCK_LENGTH
  {
    ParityCheckMatrix(25 - k)
  }

  function Term(b: bool, row: Bits10): Bits10 { if b then row else ZERO }

  /** The exclusive or of the rows selected by bits 0..k-1. */
  function PartialSyndrome(v: Word, k: nat): Bits10
    requires k <= BLOCK_LENGTH
  {
    if k == 0 then ZERO
    else Xor10(PartialSyndrome(v, k - 1), Term(v[BLOCK_LENGTH - k], Row(k - 1)))
  }

  function Syndrome(v: Word): Bits10 { PartialSyndrome(v, BLOCK_LENGTH) }

  method CalculateSyndrome(inputVector: Word) returns (result: Bits10)
    ensures result == Syndrome(inputVector)
  {
    hide ParityCheckMatrix, Term, Xor10;
    result := ZERO;
    for k := 0 to BLOCK_LENGTH
      invariant result == PartialSyndrome(inputVector, k)
    {
      result := Xor10(result, Term(inputVector[25 - k], ParityCheckMatrix(25 - k)));
    }
  }

  lemma TermXor(a: bool, b: bool, row: Bits10)
    ensures Term(a != b, row) == Xor10(Term(a, row), Term(b, row))
  {}

  lemma {:induction false} PartialSyndromeXor(a: Word, b: Word, k: nat)
    requires k <= BLOCK_LENGTH
    ensures PartialSyndrome(Xor(a, b), k) == Xor10(PartialSyndrome(a, k), PartialSyndrome(b, k))
  {
    hide Row, Term, Xor10;
    if k == 0 {
      Xor10Zero(ZERO);
    } else {
      var i := BLOCK_LENGTH - k;
      PartialSyndromeXor(a, b, k - 1);
      TermXor(a[i], b[i], Row(k - 1));
      Xor10Regroup(PartialSyndrome(a, k - 1), PartialSyndrome(b, k - 1),
                   Term(a[i], Row(k - 1)), Term(b[i], Row(k - 1)));
    }
  }

  /** The syndrome is linear: everything the decoder does rests on this. */
  lemma SyndromeXor(a: Word, b: Word)
    ensures Syndrome(Xor(a, b)) == Xor10(Syndrome(a), Syndrome(b))
  {
    PartialSyndromeXor(a, b, BLOCK_LENGTH);
  }

  // ---------------------------------------------------------------- the generator polynomial

  /** g(x) = x^10 + x^8 + x^7 + x^5 + x^4 + x^3 + 1, without its leading term. */
  const GENERATOR := Bits10(O, I, I, O, I, I, I, O, O, I)

  function Shift(s: Bits10): Bits10 { Bits10(s.b8, s.b7, s.b6, s.b5, s.b4, s.b3, s.b2, s.b1, s.b0, O) }

  /** Multiplication by x modulo g(x). */
  function MulX(s: Bits10): Bits10 { Xor10(Shift(s), Term(s.b9, GENERATOR)) }

  /** Multiplication by x^n modulo g(x). */
  function MulXPower(s: Bits10, n: nat): Bits10
  {
    if n == 0 then s else MulX(MulXPower(s, n - 1))
  }

  lemma ShiftXor(s: Bits10, t: Bits10)
    ensures Shift(Xor10(s, t)) == Xor10(Shift(s), Shift(t))
    ensures Xor10(s, t).b9 == (s.b9 != t.b9)
  {}

  lemma MulXLinear(s: Bits10, t: Bits10)
    ensures MulX(Xor10(s, t)) == Xor10(MulX(s), MulX(t))
  {
    hide Xor10, Shift, Term, GENERATOR;
    ShiftXor(s, t);
    TermXor(s.b9, t.b9, GENERATOR);
    Xor10Regroup(Shift(s), Shift(t), Term(s.b9, GENERATOR), Term(t.b9, GENERATOR));
  }

  lemma MulXLowBit(s: Bits10)
    ensures MulX(s).b0 == s.b9
    ensures MulX(ZERO) == ZERO
  {}

  lemma ShiftInjective(s: Bits10, t: Bits10)
    requires Shift(s) == Shift(t) && s.b9 == t.b9
    ensures s == t
  {}

  lemma MulXInjective(s: Bits10, t: Bits10)
    ensures MulX(s) == MulX(t) ==> s == t
  {
    hide Xor10, Shift, Term, GENERATOR;
    if MulX(s) == MulX(t) {
      MulXLowBit(s);
      MulXLowBit(t);
      Xor10Comm(Shift(s), Term(s.b9, GENERATOR));
      Xor10Comm(Shift(t), Term(s.b9, GENERATOR));
      Xor10Cancels(Term(s.b9, GENERATOR), Shift(s), Shift(t));
      ShiftInjective(s, t);
    }
  }

  lemma {:induction false} MulXPowerLaws(s: Bits10, t: Bits10, n: nat)
    ensures MulXPower(Xor10(s, t), n) == Xor10(MulXPower(s, n), MulXPower(t, n))
    ensures MulXPower(s, n) == MulXPower(t, n) ==> s == t
    ensures MulXPower(ZERO, n) == ZERO
  {
    hide MulX, Xor10;
    if n > 0 {
      MulXPowerLaws(s, t, n - 1);
      MulXLinear(MulXPower(s, n - 1), MulXPower(t, n - 1));
      MulXInjective(MulXPower(s, n - 1), MulXPower(t, n - 1));
      MulXLowBit(ZERO);
    }
  }

  lemma MulXPowerStep(s: Bits10, n: nat)
    ensures MulXPower(s, n + 1) == MulX(MulXPower(s, n))
    ensures MulXPower(s, 0) == s
  {}

  lemma {:induction false} MulXPowerAdd(s: Bits10, m: nat, n: nat)
    ensures MulXPower(MulXPower(s, m), n) == MulXPower(s, m + n)
  {
    if n > 0 { MulXPowerAdd(s, m, n - 1); }
  }

  /** Consecutive rows of the matrix are consecutive powers of x. */
  lemma RowStep(k: nat)
    requires k + 1 < BLOCK_LENGTH
    ensures Row(k + 1) == MulX(Row(k))
  {
    match k {
      case 0 =>
      case 1 =>
      case 2 =>
      case 3 =>
      case 4 =>
      case 5 =>
      case 6 =>
      case 7 =>
      case 8 =>
      case 9 =>
      case 10 =>
      case 11 =>
      case 12 =>
      case 13 =>
      case 14 =>
      case 15 =>
      case 16 =>
      case 17 =>
      case 18 =>
      case 19 =>
      case 20 =>
      case 21 =>
      case 22 =>
      case 23 =>
      case _ => assert k == 24;
    }
  }

  lemma {:induction false} RowToTop(j: nat)
    requires j < BLOCK_LENGTH
    ensures MulXPower(Row(25 - j), j) == Row(25)
  {
    hide Row, MulX;
    if j > 0 {
      RowToTop(j - 1);
      RowStep(25 - j);
      MulXPowerAdd(Row(25 - j), 1, j - 1);
      MulXPowerStep(Row(25 - j), 0);
    }
  }

  lemma XTenth()
    ensures MulXPower(ONE, 10) == MulX(Row(25))
  {
    assert MulXPower(ONE, 3) == Bits10(O, O, O, O, O, O, I, O, O, O);
    assert MulXPower(ONE, 6) == Bits10(O, O, O, I, O, O, O, O, O, O);
    assert MulXPower(ONE, 9) == Bits10(I, O, O, O, O, O, O, O, O, O);
  }

  /** v(x) mod g(x) for the polynomial whose coefficients are `bits`, highest first (Horner's rule). */
  function Remainder(bits: seq<bool>): Bits10
  {
    if bits == [] then ZERO
    else Xor10(MulX(Remainder(bits[..|bits| - 1])), Term(bits[|bits| - 1], ONE))
  }

  /** The exclusive or of the rows selected by the first j received bits. */
  function LeadingSyndrome(v: Word, j: nat): Bits10
    requires j <= BLOCK_LENGTH
  {
    if j == 0 then ZERO else Xor10(LeadingSyndrome(v, j - 1), Term(v[j - 1], Row(BLOCK_LENGTH - j)))
  }

  lemma {:induction false} SyndromeSplit(v: Word, j: nat)
    requires j <= BLOCK_LENGTH
    ensures Xor10(LeadingSyndrome(v, j), PartialSyndrome(v, BLOCK_LENGTH - j)) == Syndrome(v)
  {
    hide Row, Term, Xor10;
    Xor10Zero(Syndrome(v));
    if j > 0 {
      SyndromeSplit(v, j - 1);
      var term := Term(v[j - 1], Row(BLOCK_LENGTH - j));
      Xor10Assoc(LeadingSyndrome(v, j - 1), term, PartialSyndrome(v, BLOCK_LENGTH - j));
      Xor10Comm(term, PartialSyndrome(v, BLOCK_LENGTH - j));
    }
  }

  lemma {:induction false} HornerStep(v: Word, j: nat)
    requires j <= BLOCK_LENGTH
    ensures MulXPower(LeadingSyndrome(v, j), j) == MulXPower(Remainder(v[..j]), 10)
  {
    hide Row, Xor10, MulX, MulXPower;
    if j == 0 {
      MulXPowerLaws(ZERO, ZERO, 10);
      MulXPowerLaws(ZERO, ZERO, 0);
      assert v[..0] == [];
    } else {
      HornerStep(v, j - 1);
      MulXPowerStep(LeadingSyndrome(v, j - 1), j - 1);
      assert v[..j][..j - 1] == v[..j - 1];
      var u, r := LeadingSyndrome(v, j - 1), Remainder(v[..j - 1]);
      MulXPowerLaws(u, Term(v[j - 1], Row(BLOCK_LENGTH - j)), j);
      MulXPowerLaws(MulX(r), Term(v[j - 1], ONE), 10);
      MulXPowerAdd(r, 1, 10);
      MulXPowerStep(r, 0);
      MulXPowerStep(r, 10);
      MulXPowerStep(Row(BLOCK_LENGTH - j), j - 1);
      RowToTop(j - 1);
      XTenth();
    }
  }

  lemma MulXPowerCancel(s: Bits10, r: Bits10, m: nat, n: nat)
    requires MulXPower(s, m + n) == MulXPower(r, n)
    ensures MulXPower(s, m) == r
  {
    MulXPowerAdd(s, m, n);
    MulXPowerLaws(MulXPower(s, m), r, n);
  }

  /** The matrix computes x^-16 v(x) mod g(x): sixteen more shifts give the remainder by the generator. */
  lemma SyndromeIsRemainder(v: Word)
    ensures MulXPower(Syndrome(v), 16) == Remainder(v)
    ensures Syndrome(v) == ZERO <==> Remainder(v) == ZERO
  {
    hide MulXPower, MulX, Xor10, Row, Remainder;
    SyndromeSplit(v, BLOCK_LENGTH);
    Xor10Zero(LeadingSyndrome(v, BLOCK_LENGTH));
    HornerStep(v, BLOCK_LENGTH);
    assert v[..BLOCK_LENGTH] == v;
    MulXPowerCancel(Syndrome(v), Remainder(v), 16, 10);
    MulXPowerLaws(Syndrome(v), ZERO, 16);
  }

  // ---------------------------------------------------------------- the code

  lemma {:induction false} RemainderConcat(a: seq<bool>, b: seq<bool>)
    ensures Remainder(a + b) == Xor10(MulXPower(Remainder(a), |b|), Remainder(b))
  {
    hide Xor10, MulX;
    if b == [] {
      assert a + b == a;
      Xor10Zero(Remainder(a));
    } else {
      var init, last := b[..|b| - 1], b[|b| - 1];
      assert (a + b)[..|a + b| - 1] == a + init;
      RemainderConcat(a, init);
      MulXLinear(MulXPower(Remainder(a), |init|), Remainder(init));
      MulXPowerStep(Remainder(a), |init|);
      Xor10Assoc(MulXPower(Remainder(a), |b|), MulX(Remainder(init)), Term(last, ONE));
    }
  }

  lemma {:induction false} RemainderOfZeros(n: nat)
    ensures Remainder(seq(n, i => false)) == ZERO
  {
    if n > 0 {
      RemainderOfZeros(n - 1);
      assert seq(n, i => false)[..n - 1] == seq(n - 1, i => false);
    }
  }

  /** The low-order bits of c, down from bit j - 1. */
  function LeadingBits(c: Bits10, j: nat): Bits10
    requires j <= 10
  {
    var s := ToSeq(c);
    Bits10(j > 9 && s[j - 10], j > 8 && s[j - 9], j > 7 && s[j - 8], j > 6 && s[j - 7], j > 5 && s[j - 6],
           j > 4 && s[j - 5], j > 3 && s[j - 4], j > 2 && s[j - 3], j > 1 && s[j - 2], j > 0 && s[j - 1])
  }

  lemma LeadingBitsStep(c: Bits10, j: nat)
    requires 0 < j <= 10
    ensures LeadingBits(c, j) == Xor10(MulX(LeadingBits(c, j - 1)), Term(ToSeq(c)[j - 1], ONE))
  {
    hide MulX, Xor10;
    var shorter := LeadingBits(c, j - 1);
    MulXOfShort(shorter);
    SetLowBit(Shift(shorter), ToSeq(c)[j - 1]);
  }

  lemma MulXOfShort(s: Bits10)
    requires !s.b9
    ensures MulX(s) == Shift(s)
  {}

  lemma SetLowBit(s: Bits10, b: bool)
    requires !s.b0
    ensures Xor10(s, Term(b, ONE)) == s.(b0 := b)
  {}

  lemma LeadingBitsEnds(c: Bits10)
    ensures LeadingBits(c, 0) == ZERO && LeadingBits(c, 10) == c
  {}

  /** A polynomial of degree below ten is its own remainder. */
  lemma {:induction false} RemainderOfShort(c: Bits10, j: nat)
    requires j <= 10
    ensures Remainder(ToSeq(c)[..j]) == LeadingBits(c, j)
  {
    hide Xor10, MulX, LeadingBits;
    if j == 0 {
      LeadingBitsEnds(c);
      assert ToSeq(c)[..0] == [];
    } else {
      RemainderOfShort(c, j - 1);
      assert ToSeq(c)[..j][..j - 1] == ToSeq(c)[..j - 1];
      LeadingBitsStep(c, j);
    }
  }

  /** The checkword of EN 50067 section 2.3: the remainder of m(x) x^10 by g(x). */
  function Checkword(d: Data): Bits10 { Remainder(d + seq(CHECKWORD_LENGTH, i => false)) }

  function Block(d: Data, check: Bits10): Word { d + ToSeq(check) }

  lemma RemainderOfBlock(d: Data, check: Bits10)
    ensures Remainder(Block(d, check)) == Xor10(Checkword(d), check)
  {
    hide Xor10, MulXPower, Remainder;
    RemainderConcat(d, seq(CHECKWORD_LENGTH, i => false));
    RemainderOfZeros(CHECKWORD_LENGTH);
    Xor10Zero(MulXPower(Remainder(d), CHECKWORD_LENGTH));
    RemainderConcat(d, ToSeq(check));
    RemainderOfShort(check, 10);
    LeadingBitsEnds(check);
    assert ToSeq(check)[..10] == ToSeq(check);
  }

  /** The decoder's matrix accepts exactly the code generated by g(x). */
  lemma ZeroSyndromeIffCodeword(d: Data, check: Bits10)
    ensures Syndrome(Block(d, check)) == ZERO <==> check == Checkword(d)
  {
    hide MulXPower, Xor10, Remainder, PartialSyndrome, Checkword, Block;
    RemainderOfBlock(d, check);
    SyndromeIsRemainder(Block(d, check));
    Xor10Zero(check);
    if Syndrome(Block(d, check)) == ZERO {
      Xor10Comm(Checkword(d), check);
      Xor10Cancels(check, check, Checkword(d));
    }
  }

  // ---------------------------------------------------------------- offset words

  datatype Offset = Invalid | A | B | C | CPrime | D

  function OffsetForSyndrome(syndrome: Bits10): Offset
  {
    if syndrome == Bits10(I, I, I, I, O, I, I, O, O, O) then A
    else if syndrome == Bits10(I, I, I, I, O, I, O, I, O, O) then B
    else if syndrome == Bits10(I, O, O, I, O, I, I, I, O, O) then C
    else if syndrome == Bits10(I, I, I, I, O, O, I, I, O, O) then CPrime
    else if syndrome == Bits10(I, O, O, I, O, I, I, O, O, O) then D
    else Invalid
  }

  function OffsetWord(o: Offset): Bits10
  {
    match o
    case Invalid => ZERO
    case A => Bits10(O, O, I, I, I, I, I, I, O, O)
    case B => Bits10(O, I, I, O, O, I, I, O, O, O)
    case C => Bits10(O, I, O, I, I, O, I, O, O, O)
    case CPrime => Bits10(I, I, O, I, O, I, O, O, O, O)
    case D => Bits10(O, I, I, O, I, I, O, I, O, O)
  }

  function NoData(): Data { seq(16, i => false) }

  /** An offset word as a 26-bit block. */
  function OffsetBlock(o: Offset): Word { Block(NoData(), OffsetWord(o)) }

  function OffsetSyndrome(o: Offset): Bits10
  {
    match o
    case Invalid => ZERO
    case A => Bits10(I, I, I, I, O, I, I, O, O, O)
    case B => Bits10(I, I, I, I, O, I, O, I, O, O)
    case C => Bits10(I, O, O, I, O, I, I, I, O, O)
    case CPrime => Bits10(I, I, I, I, O, O, I, I, O, O)
    case D => Bits10(I, O, O, I, O, I, I, O, O, O)
  }

  lemma {:induction false} SyndromeOfCheckBits(check: Bits10, k: nat)
    requires k <= BLOCK_LENGTH
    ensures PartialSyndrome(Block(NoData(), check), k) == CheckSyndrome(check, if k < 10 then k else 10)
  {
    hide Row, Xor10;
    if k > 0 {
      SyndromeOfCheckBits(check, k - 1);
      Xor10Zero(CheckSyndrome(check, 10));
    }
  }

  /** The exclusive or of the rows selected by the low k bits of a checkword. */
  function CheckSyndrome(check: Bits10, k: nat): Bits10
    requires k <= CHECKWORD_LENGTH
  {
    if k == 0 then ZERO
    else Xor10(CheckSyndrome(check, k - 1), Term(ToSeq(check)[CHECKWORD_LENGTH - k], Row(k - 1)))
  }

  lemma LowRows()
    ensures Row(0) == Bits10(I, I, O, O, O, I, I, O, I, I)
    ensures Row(1) == Bits10(I, I, I, O, O, O, I, I, I, I)
    ensures Row(2) == Bits10(I, O, I, O, I, O, O, I, I, I)
    ensures Row(3) == Bits10(O, O, I, I, I, I, O, I, I, I)
    ensures Row(4) == Bits10(O, I, I, I, I, O, I, I, I, O)
    ensures Row(5) == Bits10(I, I, I, I, O, I, I, I, O, O)
    ensures Row(6) == Bits10(I, O, O, O, O, O, O, O, O, I)
    ensures Row(7) == Bits10(O, I, I, O, I, I, I, O, I, I)
    ensures Row(8) == Bits10(I, I, O, I, I, I, O, I, I, O)
    ensures Row(9) == Bits10(I, I, O, I, O, I, O, I, O, I)
  {}

  lemma CheckSyndromeOfA()
    ensures CheckSyndrome(OffsetWord(A), 10) == OffsetSyndrome(A)
  {
    hide Row, ParityCheckMatrix;
    LowRows();
  }

  lemma CheckSyndromeOfB()
    ensures CheckSyndrome(OffsetWord(B), 10) == OffsetSyndrome(B)
  {
    hide Row, ParityCheckMatrix;
    LowRows();
  }

  lemma CheckSyndromeOfC()
    ensures CheckSyndrome(OffsetWord(C), 10) == OffsetSyndrome(C)
  {
    hide Row, ParityCheckMatrix;
    LowRows();
  }

  lemma CheckSyndromeOfCPrime()
    ensures CheckSyndrome(OffsetWord(CPrime), 10) == OffsetSyndrome(CPrime)
  {
    hide Row, ParityCheckMatrix;
    LowRows();
  }

  lemma CheckSyndromeOfD()
    ensures CheckSyndrome(OffsetWord(D), 10) == OffsetSyndrome(D)
  {
    hide Row, ParityCheckMatrix;
    LowRows();
  }

  lemma {:induction false} CheckSyndromeOfZero(k: nat)
    requires k <= CHECKWORD_LENGTH
    ensures CheckSyndrome(ZERO, k) == ZERO
  {
    hide Row;
    if k > 0 { CheckSyndromeOfZero(k - 1); }
  }

  /** The switch of syndromes is the inverse of the table of offset words. */
  lemma SyndromeOfOffset(o: Offset)
    ensures Syndrome(OffsetBlock(o)) == OffsetSyndrome(o)
    ensures OffsetForSyndrome(Syndrome(OffsetBlock(o))) == o
  {
    hide CheckSyndrome, PartialSyndrome, Row;
    SyndromeOfCheckBits(OffsetWord(o), BLOCK_LENGTH);
    match o
    case Invalid => CheckSyndromeOfZero(10);
    case A => CheckSyndromeOfA();
    case B => CheckSyndromeOfB();
    case C => CheckSyndromeOfC();
    case CPrime => CheckSyndromeOfCPrime();
    case D => CheckSyndromeOfD();
  }

  /** A word with the offset word as remainder shows that offset. */
  lemma OffsetOfRemainder(v: Word, o: Offset)
    requires Remainder(v) == OffsetWord(o)
    ensures Syndrome(v) == OffsetSyndrome(o)
  {
    hide Syndrome, Remainder, Block, Xor10, MulXPower, OffsetWord, OffsetSyndrome, OffsetForSyndrome;
    SyndromeOfOffset(o);
    RemainderOfBlock(NoData(), OffsetWord(o));
    RemainderOfZeros(BLOCK_LENGTH);
    assert NoData() + seq(CHECKWORD_LENGTH, i => false) == seq(BLOCK_LENGTH, i => false);
    Xor10Zero(OffsetWord(o));
    SyndromeIsRemainder(v);
    SyndromeIsRemainder(OffsetBlock(o));
    MulXPowerLaws(Syndrome(v), OffsetSyndrome(o), 16);
  }
}
