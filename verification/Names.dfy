/**
  Names without regard to case: upper-case forms and the hash that picks one of the 72
  chains of a directory. Models adfToUpper, adfIntlToUpper, adfStrToUpper and
  adfGetHashValue of adf_dir.c; `intl` says whether the volume has international names.
*/
module Names {
  import opened Blocks

  const MAX_NAME_LEN := 30
  const HT_SIZE := 72

  function IntlToUpper(c: byte): byte {
    if ('a' as int <= c <= 'z' as int) || (224 <= c <= 254 && c != 247) then c - 32 else c
  }

  function ToUpper(c: byte): byte {
    if 'a' as int <= c <= 'z' as int then c - 32 else c
  }

  function UpperByte(c: byte, intl: bool): byte {
    if intl then IntlToUpper(c) else ToUpper(c)
  }

  /** The capital of a letter, as ISO 8859-1 has it; all other characters stand for themselves. */
  function Capital(c: char): char {
    match c
    case 'a' => 'A' case 'b' => 'B' case 'c' => 'C' case 'd' => 'D' case 'e' => 'E' case 'f' => 'F'
    case 'g' => 'G' case 'h' => 'H' case 'i' => 'I' case 'j' => 'J' case 'k' => 'K' case 'l' => 'L'
    case 'm' => 'M' case 'n' => 'N' case 'o' => 'O' case 'p' => 'P' case 'q' => 'Q' case 'r' => 'R'
    case 's' => 'S' case 't' => 'T' case 'u' => 'U' case 'v' => 'V' case 'w' => 'W' case 'x' => 'X'
    case 'y' => 'Y' case 'z' => 'Z' case 'à' => 'À' case 'á' => 'Á' case 'â' => 'Â' case 'ã' => 'Ã'
    case 'ä' => 'Ä' case 'å' => 'Å' case 'æ' => 'Æ' case 'ç' => 'Ç' case 'è' => 'È' case 'é' => 'É'
    case 'ê' => 'Ê' case 'ë' => 'Ë' case 'ì' => 'Ì' case 'í' => 'Í' case 'î' => 'Î' case 'ï' => 'Ï'
    case 'ð' => 'Ð' case 'ñ' => 'Ñ' case 'ò' => 'Ò' case 'ó' => 'Ó' case 'ô' => 'Ô' case 'õ' => 'Õ'
    case 'ö' => 'Ö' case 'ø' => 'Ø' case 'ù' => 'Ù' case 'ú' => 'Ú' case 'û' => 'Û' case 'ü' => 'Ü'
    case 'ý' => 'Ý' case 'þ' => 'Þ'
    case _ => c
  }

  /** On international volumes all letters that have a capital are changed, on others the English ones only. */
  lemma UpperIsCapital(c: byte, intl: bool)
    ensures UpperByte(c, intl) == if intl || c < 128 then Capital(c as char) as int else c
  {
  }

  /** The upper-case form of a name. */
  function Upper(name: seq<byte>, intl: bool): (u: seq<byte>)
    ensures |u| == |name|
  {
    seq(|name|, i requires 0 <= i < |name| => UpperByte(name[i], intl))
  }

  /** The hash after the first `k` bytes of a name, in 11 bits. */
  function HashUpTo(name: seq<byte>, intl: bool, k: nat): nat
    requires k <= |name|
  {
    if k == 0 then |name| else (HashUpTo(name, intl, k - 1) * 13 + UpperByte(name[k - 1], intl)) % 2048
  }

  /** The chain a name belongs to. */
  function Hash(name: seq<byte>, intl: bool): (h: nat)
    ensures h < HT_SIZE
  {
    HashUpTo(name, intl, |name|) % HT_SIZE
  }

  /** adfStrToUpper */
  method StrToUpper(name: seq<byte>, intl: bool) returns (u: seq<byte>)
    ensures u == Upper(name, intl)
  {
    u := [];
    var i := 0;
    while i < |name|
      invariant 0 <= i <= |name|
      invariant u == Upper(name, intl)[..i]
    {
      u := u + [if intl then IntlToUpper(name[i]) else ToUpper(name[i])];
      i := i + 1;
    }
  }

  /* ---- the hash as a polynomial ---- */

  function Power(b: nat, n: nat): nat {
    if n == 0 then 1 else b * Power(b, n - 1)
  }

  /** Every byte times 13 to the number of bytes behind it. */
  function Weighted(u: seq<byte>): nat {
    if u == [] then 0 else u[0] * Power(13, |u| - 1) + Weighted(u[1..])
  }

  /** One more byte. */
  lemma {:induction false} WeightedStep(u: seq<byte>, c: byte)
    ensures Weighted(u + [c]) == 13 * Weighted(u) + c
  {
    if u == [] {
      assert u + [c] == [c];
      assert Power(13, 0) == 1 && Weighted([]) == 0;
    } else {
      WeightedStep(u[1..], c);
      assert (u + [c])[1..] == u[1..] + [c];
      PowerStep(u[0], |u|);
    }
  }

  lemma PowerStep(c: nat, n: nat)
    requires n > 0
    ensures c * Power(13, n) == 13 * (c * Power(13, n - 1))
  {
  }

  lemma RemainderStep(x: nat, c: nat)
    ensures (x % 2048 * 13 + c) % 2048 == (13 * x + c) % 2048
  {
    var q := x / 2048;
    assert 13 * x + c == 2048 * (13 * q) + (x % 2048 * 13 + c);
  }

  lemma SameRemainder(h: nat, x: nat, c: nat)
    requires h % 2048 == x % 2048
    ensures var h' := (h * 13 + c) % 2048; h' % 2048 == (13 * x + c) % 2048 && h' < 2048
  {
    RemainderStep(h, c);
    RemainderStep(x, c);
  }

  /** The polynomial of a name after its first `k` bytes. */
  function Polynomial(name: seq<byte>, intl: bool, k: nat): nat
    requires k <= |name|
  {
    |name| * Power(13, k) + Weighted(Upper(name, intl)[..k])
  }

  lemma PolynomialStep(name: seq<byte>, intl: bool, k: nat)
    requires 0 < k <= |name|
    ensures Polynomial(name, intl, k) == 13 * Polynomial(name, intl, k - 1) + UpperByte(name[k - 1], intl)
  {
    hide Weighted, UpperByte;
    var u := Upper(name, intl);
    assert u[..k] == u[..k - 1] + [u[k - 1]];
    WeightedStep(u[..k - 1], u[k - 1]);
    PowerStep(|name|, k);
  }

  lemma HashStep(name: seq<byte>, intl: bool, k: nat)
    requires k <= |name|
    ensures HashUpTo(name, intl, k) ==
            if k == 0 then |name| else (HashUpTo(name, intl, k - 1) * 13 + UpperByte(name[k - 1], intl)) % 2048
  {
  }

  /** Cutting the hash to 11 bits at each step is cutting it once at the end. */
  lemma {:induction false} HashIsPolynomial(name: seq<byte>, intl: bool, k: nat)
    requires k <= |name|
    ensures HashUpTo(name, intl, k) % 2048 == Polynomial(name, intl, k) % 2048
    ensures k > 0 ==> HashUpTo(name, intl, k) < 2048
  {
    hide Polynomial, UpperByte, HashUpTo;
    HashStep(name, intl, k);
    if k == 0 {
      NoBytes(name, intl);
    } else {
      HashIsPolynomial(name, intl, k - 1);
      PolynomialStep(name, intl, k);
      SameRemainder(HashUpTo(name, intl, k - 1), Polynomial(name, intl, k - 1), UpperByte(name[k - 1], intl));
    }
  }

  lemma NoBytes(name: seq<byte>, intl: bool)
    ensures Polynomial(name, intl, 0) == |name|
  {
  }

  /** The chain of a name: its length and its bytes in upper case are the coefficients of a polynomial in 13. */
  lemma HashFormula(name: seq<byte>, intl: bool)
    ensures Hash(name, intl) == (|name| * Power(13, |name|) + Weighted(Upper(name, intl))) % 2048 % 72
  {
    hide Power, Weighted, Upper, HashUpTo;
    HashIsPolynomial(name, intl, |name|);
    WholeName(name, intl);
    SmallRemainder(HashUpTo(name, intl, |name|));
  }

  lemma WholeName(name: seq<byte>, intl: bool)
    ensures Polynomial(name, intl, |name|) == |name| * Power(13, |name|) + Weighted(Upper(name, intl))
    ensures name == [] ==> HashUpTo(name, intl, |name|) == 0
  {
    hide Power, Weighted;
    assert Upper(name, intl)[..|name|] == Upper(name, intl);
  }

  lemma SmallRemainder(h: nat)
    ensures h < 2048 ==> h % 2048 == h
  {
  }

  /** The chains of two names on any volume. */
  lemma HashesOfNames(intl: bool)
    ensures Hash([68, 101, 118, 115], intl) == 22 && Hash([97, 98], intl) == 25
  {
    var devs, ab: seq<byte> := [68, 101, 118, 115], [97, 98];
    assert HashUpTo(devs, intl, 1) == 120;
    assert HashUpTo(devs, intl, 2) == 1629;
    assert HashUpTo(devs, intl, 3) == 783;
    assert HashUpTo(ab, intl, 1) == 91;
  }

  /** adfGetHashValue */
  method GetHashValue(name: seq<byte>, intl: bool) returns (hash: nat)
    ensures hash == Hash(name, intl) < HT_SIZE
    ensures hash == (|name| * Power(13, |name|) + Weighted(Upper(name, intl))) % 2048 % 72
  {
    hide Power, Weighted, Upper, HashUpTo;
    HashFormula(name, intl);
    HashStep(name, intl, 0);
    hash := |name|;
    var i := 0;
    while i < |name|
      invariant 0 <= i <= |name|
      invariant hash == HashUpTo(name, intl, i)
    {
      HashStep(name, intl, i + 1);
      var upper := if intl then IntlToUpper(name[i]) else ToUpper(name[i]);
      hash := (hash * 13 + upper) % 2048;
      i := i + 1;
    }
    hash := hash % HT_SIZE;
  }

  lemma {:induction false} SameUpperSameHashUpTo(a: seq<byte>, b: seq<byte>, intl: bool, k: nat)
    requires Upper(a, intl) == Upper(b, intl) && k <= |a|
    ensures |a| == |b| && HashUpTo(a, intl, k) == HashUpTo(b, intl, k)
  {
    assert |a| == |Upper(a, intl)| == |b|;
    if k > 0 {
      SameUpperSameHashUpTo(a, b, intl, k - 1);
      assert Upper(a, intl)[k - 1] == Upper(b, intl)[k - 1];
    }
  }

  /** Names that differ in case only are in the same chain. */
  lemma SameUpperSameHash(a: seq<byte>, b: seq<byte>, intl: bool)
    requires Upper(a, intl) == Upper(b, intl)
    ensures Hash(a, intl) == Hash(b, intl)
  {
    assert |a| == |Upper(a, intl)| == |b|;
    SameUpperSameHashUpTo(a, b, intl, |a|);
  }

}
