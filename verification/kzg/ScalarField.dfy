/** The concrete scalar field of BN254 and the verifier's table of roots of unity. */
module ScalarField {
  import opened Prelude
  import opened Fields
  import opened RootsOfUnity

  const FR_MODULUS: nat :=
    21888242871839275222246405745257275088548364400416034343698204186575808495617

  function PrimitiveRoot(k: nat): nat
    requires k < 29
  {
    match k
    case 0 => 1
    case 1 => 21888242871839275222246405745257275088548364400416034343698204186575808495616
    case 2 => 21888242871839275217838484774961031246007050428528088939761107053157389710902
    case 3 => 19540430494807482326159819597004422086093766032135589407132600596362845576832
    case 4 => 14940766826517323942636479241147756311199852622225275649687664389641784935947
    case 5 => 4419234939496763621076330863786513495701855246241724391626358375488475697872
    case 6 => 9088801421649573101014283686030284801466796108869023335878462724291607593530
    case 7 => 10359452186428527605436343203440067497552205259388878191021578220384701716497
    case 8 => 3478517300119284901893091970156912948790432420133812234316178878452092729974
    case 9 => 6837567842312086091520287814181175430087169027974246751610506942214842701774
    case 10 => 3161067157621608152362653341354432744960400845131437947728257924963983317266
    case 11 => 1120550406532664055539694724667294622065367841900378087843176726913374367458
    case 12 => 4158865282786404163413953114870269622875596290766033564087307867933865333818
    case 13 => 197302210312744933010843010704445784068657690384188106020011018676818793232
    case 14 => 20619701001583904760601357484951574588621083236087856586626117568842480512645
    case 15 => 20402931748843538985151001264530049874871572933694634836567070693966133783803
    case 16 => 421743594562400382753388642386256516545992082196004333756405989743524594615
    case 17 => 12650941915662020058015862023665998998969191525479888727406889100124684769509
    case 18 => 11699596668367776675346610687704220591435078791727316319397053191800576917728
    case 19 => 15549849457946371566896172786938980432421851627449396898353380550861104573629
    case 20 => 17220337697351015657950521176323262483320249231368149235373741788599650842711
    case 21 => 13536764371732269273912573961853310557438878140379554347802702086337840854307
    case 22 => 12143866164239048021030917283424216263377309185099704096317235600302831912062
    case 23 => 934650972362265999028062457054462628285482693704334323590406443310927365533
    case 24 => 5709868443893258075976348696661355716898495876243883251619397131511003808859
    case 25 => 19200870435978225707111062059747084165650991997241425080699860725083300967194
    case 26 => 7419588552507395652481651088034484897579724952953562618697845598160172257810
    case 27 => 2082940218526944230311718225077035922214683169814847712455127909555749686340
    case _ => 19103219067921713944291392827692070036145651957329286315305642004821462161904
  }

  ghost predicate IsPrime(p: nat) {
    p >= 2 && forall d :: 1 < d < p ==> p % d != 0
  }

  type Residue = x: nat | x < FR_MODULUS

  // Arithmetic modulo m

  lemma ModUnique(x: int, q: int, r: int, m: nat)
    requires 0 <= r < m && x == m * q + r
    ensures x % m == r
  {
    var d := x / m - q;
    assert m * d == r - x % m;
    assert -1 * m < m * d < m;
    assert d == 0 by {
      MulBounded(m, d);
    }
  }

  lemma MulBounded(m: nat, d: int)
    requires 0 - m < m * d < m
    ensures d == 0
  {
    assert d >= 1 ==> m * d >= m;
    assert d <= -1 ==> m * d <= 0 - m;
  }

  lemma ModMul(a: int, b: int, m: nat)
    requires m > 0
    ensures ((a % m) * b) % m == (a * b) % m
  {
    var s, q := (a % m) * b, a / m;
    assert a == m * q + a % m;
    assert s == m * (s / m) + s % m;
    assert a * b == (m * q + a % m) * b == m * (q * b) + s;
    assert a * b == m * (q * b + s / m) + s % m;
    ModUnique(a * b, q * b + s / m, s % m, m);
  }

  /** Extended Euclid: the greatest common divisor and its Bezout coefficients. */
  function Euclid(a: nat, b: nat): (r: (nat, int, int))
    ensures r.0 == a * r.1 + b * r.2
    ensures a > 0 || b > 0 ==> r.0 > 0
    decreases b
  {
    if b == 0 then
      (a, 1, 0)
    else
      var (g, x, y) := Euclid(b, a % b);
      assert a == b * (a / b) + a % b;
      assert a * y + b * (x - (a / b) * y) == b * x + (a - b * (a / b)) * y;
      (g, y, x - (a / b) * y)
  }

  lemma DividesCombination(b: nat, c: nat, q: nat, g: nat)
    requires g > 0 && b % g == 0 && c % g == 0
    ensures (b * q + c) % g == 0
  {
    var k, l := b / g, c / g;
    assert b == g * k && c == g * l;
    assert b * q + c == g * (k * q + l);
    ModUnique(b * q + c, k * q + l, 0, g);
  }

  lemma {:induction false} EuclidDivides(a: nat, b: nat)
    requires a > 0 || b > 0
    ensures a % Euclid(a, b).0 == 0 && b % Euclid(a, b).0 == 0
    decreases b
  {
    if b == 0 {
      ModUnique(a, 1, 0, a);
    } else {
      EuclidDivides(b, a % b);
      DividesCombination(b, a % b, a / b, Euclid(a, b).0);
      assert a == b * (a / b) + a % b;
    }
  }

  function InverseMod(a: nat, p: nat): nat
    requires p > 0
  {
    Euclid(a, p).1 % p
  }

  lemma CommonDivisor(a: nat, p: nat, g: nat)
    requires IsPrime(p) && 0 < a < p
    requires g > 0 && a % g == 0 && p % g == 0
    ensures g == 1
  {
    assert g <= a by {
      assert a == g * (a / g);
    }
  }

  lemma BezoutInverse(a: nat, p: nat, x: int, y: int)
    requires p > 1 && a * x + p * y == 1
    ensures (a * (x % p)) % p == 1
  {
    ModMul(x, a, p);
    ModUnique(x * a, 0 - y, 1, p);
    assert a * (x % p) == (x % p) * a;
  }

  lemma InverseModCorrect(a: nat, p: nat)
    requires IsPrime(p) && 0 < a < p
    ensures (a * InverseMod(a, p)) % p == 1
  {
    EuclidDivides(a, p);
    CommonDivisor(a, p, Euclid(a, p).0);
    BezoutInverse(a, p, Euclid(a, p).1, Euclid(a, p).2);
  }

  lemma PrimeDivides(p: nat, a: nat, b: nat)
    requires IsPrime(p) && 0 < a < p && (a * b) % p == 0
    ensures b % p == 0
  {
    EuclidDivides(a, p);
    CommonDivisor(a, p, Euclid(a, p).0);
    BezoutDivides(p, a, b, Euclid(a, p).1, Euclid(a, p).2);
  }

  lemma BezoutDivides(p: nat, a: nat, b: nat, x: int, y: int)
    requires p > 0 && (a * b) % p == 0 && a * x + p * y == 1
    ensures b % p == 0
  {
    var k := (a * b) / p;
    assert b == b * (a * x + p * y) == (a * b) * x + p * (b * y);
    assert (a * b) * x == p * k * x == p * (k * x);
    assert b == p * (k * x + b * y);
    ModUnique(b, k * x + b * y, 0, p);
  }

  // The field

  /** The residue of `x`, by repeated subtraction. */
  function Reduce(x: nat, m: nat): (r: nat)
    requires m > 0
    ensures r < m
  {
    if x < m then x else Reduce(x - m, m)
  }

  lemma {:induction false} ReduceIsMod(x: nat, m: nat)
    requires m > 0
    ensures Reduce(x, m) == x % m
  {
    if x >= m {
      ReduceIsMod(x - m, m);
      ModUnique(x, (x - m) / m + 1, (x - m) % m, m);
    }
  }

  lemma {:induction false} ReduceMultiple(x: nat, k: nat, m: nat)
    requires m > 0
    ensures Reduce(x + k * m, m) == Reduce(x, m)
  {
    if k > 0 {
      ReduceMultiple(x, k - 1, m);
      assert x + k * m - m == x + (k - 1) * m;
    }
  }

  lemma {:induction false} ReduceAdd(x: nat, c: nat, m: nat)
    requires m > 0
    ensures Reduce(Reduce(x, m) + c, m) == Reduce(x + c, m)
  {
    if x >= m {
      ReduceAdd(x - m, c, m);
    }
  }

  lemma {:induction false} ReduceMul(x: nat, c: nat, m: nat)
    requires m > 0
    ensures Reduce(Reduce(x, m) * c, m) == Reduce(x * c, m)
  {
    if x >= m {
      ReduceMul(x - m, c, m);
      assert (x - m) * c + c * m == x * c;
      ReduceMultiple((x - m) * c, c, m);
    }
  }

  lemma AddAssociates(a: nat, b: nat, c: nat, m: nat)
    requires m > 0
    ensures Reduce(Reduce(a + b, m) + c, m) == Reduce(a + Reduce(b + c, m), m)
  {
    ReduceAdd(a + b, c, m);
    ReduceAdd(b + c, a, m);
  }

  lemma ReduceSum(x: nat, y: nat, m: nat)
    requires m > 0
    ensures Reduce(Reduce(x, m) + Reduce(y, m), m) == Reduce(x + y, m)
  {
    ReduceAdd(x, Reduce(y, m), m);
    ReduceAdd(y, x, m);
  }

  lemma IntProducts(a: nat, b: nat, c: nat)
    ensures (a * b) * c == (b * c) * a
    ensures (b + c) * a == a * b + a * c
  {
  }

  function FrAdd(a: Residue, b: Residue): Residue { Reduce(a + b, FR_MODULUS) }
  function FrNeg(a: Residue): Residue { if a == 0 then 0 else FR_MODULUS - a }
  function FrMul(a: Residue, b: Residue): Residue { Reduce(a * b, FR_MODULUS) }
  function FrInverse(a: Residue): Option<Residue> {
    if a == 0 then None else Some(InverseMod(a, FR_MODULUS))
  }

  function FrField(): Field<Residue> {
    Field(0, 1, FrAdd, FrNeg, FrMul, FrInverse)
  }

  lemma FrLaws1(a: Residue)
    requires IsPrime(FR_MODULUS)
    ensures FrAdd(a, 0) == a && FrAdd(a, FrNeg(a)) == 0 && FrMul(a, 1) == a
    ensures a != 0 ==> FrMul(a, FrInverse(a).value) == 1
  {
    if a != 0 {
      InverseModCorrect(a, FR_MODULUS);
      ReduceIsMod(a * InverseMod(a, FR_MODULUS), FR_MODULUS);
    }
  }

  lemma FrLaws2(a: Residue, b: Residue)
    ensures FrAdd(a, b) == FrAdd(b, a) && FrMul(a, b) == FrMul(b, a)
  {
    assert a * b == b * a;
  }

  lemma FrMulMul(a: Residue, b: Residue, c: Residue)
    ensures FrMul(FrMul(a, b), c) == Reduce((a * b) * c, FR_MODULUS)
  {
    ReduceMul(a * b, c, FR_MODULUS);
  }

  lemma FrMulAdd(a: Residue, b: Residue, c: Residue)
    ensures FrMul(FrAdd(b, c), a) == Reduce((b + c) * a, FR_MODULUS)
    ensures FrAdd(FrMul(a, b), FrMul(a, c)) == Reduce(a * b + a * c, FR_MODULUS)
  {
    ReduceMul(b + c, a, FR_MODULUS);
    ReduceSum(a * b, a * c, FR_MODULUS);
  }

  lemma FrLaws3(a: Residue, b: Residue, c: Residue)
    ensures FrAdd(FrAdd(a, b), c) == FrAdd(a, FrAdd(b, c))
    ensures FrMul(FrMul(a, b), c) == FrMul(a, FrMul(b, c))
    ensures FrMul(a, FrAdd(b, c)) == FrAdd(FrMul(a, b), FrMul(a, c))
  {
    AddAssociates(a, b, c, FR_MODULUS);
    IntProducts(a, b, c);
    FrMulMul(a, b, c);
    FrMulMul(b, c, a);
    FrLaws2(a, FrMul(b, c));
    FrMulAdd(a, b, c);
    FrLaws2(a, FrAdd(b, c));
  }

  lemma FrUnary()
    requires IsPrime(FR_MODULUS)
    ensures UnaryLaws(FrField())
  {
    forall a: Residue
      ensures FrAdd(a, 0) == a && FrAdd(a, FrNeg(a)) == 0 && FrMul(a, 1) == a
      ensures a != 0 ==> FrMul(a, FrInverse(a).value) == 1
    {
      FrLaws1(a);
    }
  }

  lemma FrBinary()
    ensures BinaryLaws(FrField())
  {
    forall a: Residue, b: Residue
      ensures FrAdd(a, b) == FrAdd(b, a) && FrMul(a, b) == FrMul(b, a)
    {
      FrLaws2(a, b);
    }
  }

  lemma FrTernary()
    ensures TernaryLaws(FrField())
  {
    forall a: Residue, b: Residue, c: Residue
      ensures FrAdd(FrAdd(a, b), c) == FrAdd(a, FrAdd(b, c))
      ensures FrMul(FrMul(a, b), c) == FrMul(a, FrMul(b, c))
      ensures FrMul(a, FrAdd(b, c)) == FrAdd(FrMul(a, b), FrMul(a, c))
    {
      FrLaws3(a, b, c);
    }
  }

  lemma FrIsField()
    requires IsPrime(FR_MODULUS)
    ensures IsField(FrField())
  {
    FrUnary();
    FrBinary();
    FrTernary();
  }

  // The table

  lemma SquareIs(x: Residue, y: Residue)
    requires (x * x) % FR_MODULUS == y
    ensures FrMul(x, x) == y
  {
    ReduceIsMod(x * x, FR_MODULUS);
  }

  /** Each entry is a square root of the one before it; the first two are 1 and -1. */
  lemma TableChain(k: nat)
    requires 0 < k < 29
    ensures PrimitiveRoot(k) < FR_MODULUS && PrimitiveRoot(k - 1) < FR_MODULUS
    ensures FrMul(PrimitiveRoot(k), PrimitiveRoot(k)) == PrimitiveRoot(k - 1)
  {
    match k {
      case 1 => SquareIs(PrimitiveRoot(1), PrimitiveRoot(0));
      case 2 => SquareIs(PrimitiveRoot(2), PrimitiveRoot(1));
      case 3 => SquareIs(PrimitiveRoot(3), PrimitiveRoot(2));
      case 4 => SquareIs(PrimitiveRoot(4), PrimitiveRoot(3));
      case 5 => SquareIs(PrimitiveRoot(5), PrimitiveRoot(4));
      case 6 => SquareIs(PrimitiveRoot(6), PrimitiveRoot(5));
      case 7 => SquareIs(PrimitiveRoot(7), PrimitiveRoot(6));
      case 8 => SquareIs(PrimitiveRoot(8), PrimitiveRoot(7));
      case 9 => SquareIs(PrimitiveRoot(9), PrimitiveRoot(8));
      case 10 => SquareIs(PrimitiveRoot(10), PrimitiveRoot(9));
      case 11 => SquareIs(PrimitiveRoot(11), PrimitiveRoot(10));
      case 12 => SquareIs(PrimitiveRoot(12), PrimitiveRoot(11));
      case 13 => SquareIs(PrimitiveRoot(13), PrimitiveRoot(12));
      case 14 => SquareIs(PrimitiveRoot(14), PrimitiveRoot(13));
      case 15 => SquareIs(PrimitiveRoot(15), PrimitiveRoot(14));
      case 16 => SquareIs(PrimitiveRoot(16), PrimitiveRoot(15));
      case 17 => SquareIs(PrimitiveRoot(17), PrimitiveRoot(16));
      case 18 => SquareIs(PrimitiveRoot(18), PrimitiveRoot(17));
      case 19 => SquareIs(PrimitiveRoot(19), PrimitiveRoot(18));
      case 20 => SquareIs(PrimitiveRoot(20), PrimitiveRoot(19));
      case 21 => SquareIs(PrimitiveRoot(21), PrimitiveRoot(20));
      case 22 => SquareIs(PrimitiveRoot(22), PrimitiveRoot(21));
      case 23 => SquareIs(PrimitiveRoot(23), PrimitiveRoot(22));
      case 24 => SquareIs(PrimitiveRoot(24), PrimitiveRoot(23));
      case 25 => SquareIs(PrimitiveRoot(25), PrimitiveRoot(24));
      case 26 => SquareIs(PrimitiveRoot(26), PrimitiveRoot(25));
      case 27 => SquareIs(PrimitiveRoot(27), PrimitiveRoot(26));
      case _ => SquareIs(PrimitiveRoot(28), PrimitiveRoot(27));
    }
  }

  function TableEntry(k: nat): Residue
    requires k < 29
  {
    TableChain(if k == 0 then 1 else k);
    PrimitiveRoot(k)
  }

  function FrSetup(): Setup<Residue> {
    Setup(FrField(), seq(29, k requires 0 <= k < 29 => TableEntry(k)))
  }

  /** The literal table entries have order exactly `2^k`, so the evaluation domains are what the verifier takes
      them for. */
  lemma FrSetupCorrect()
    requires IsPrime(FR_MODULUS)
    ensures IsSetup(FrSetup())
  {
    var K, t := FrField(), FrSetup().primitiveRoots;
    FrIsField();
    forall k | 0 < k < 29
      ensures K.mul(t[k], t[k]) == t[k - 1]
    {
      TableChain(k);
    }
    assert SquareRootChain(K, t);
    forall k | 0 <= k < 29
      ensures HasOrder(K, t[k], Exp2(k))
    {
      ChainOrder(K, t, k);
    }
  }
}
