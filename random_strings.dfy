/** Random alphanumeric strings, as `generateRandomString` in main.cpp builds them.
    The C library's `rand()` is replaced by a caller-supplied sequence of draws:
    draw `i` is the value `rand()` returns for the `i`-th character. */
module RandomStrings {

  /** The three parts of the `alphanum` table, in table order. */
  const DigitChars: string := "0123456789"
  const UpperChars: string := "ABCDEFGHIJKLMNOPQRSTUVWXYZ"
  const LowerChars: string := "abcdefghijklmnopqrstuvwxyz"

  /** The 62 symbols of the table. */
  const Alphanum: string := DigitChars + UpperChars + LowerChars

  /** The table as the C array literal stores it: the 62 symbols followed by the
      terminating NUL, so that `sizeof(alphanum)` is 63. */
  const AlphanumArray: string := Alphanum + ['\0']

  /** The divisor the source applies to every draw. */
  const TableModulus: nat := 62

  predicate IsDigit(c: char) {
    '0' <= c <= '9'
  }

  predicate IsAlnum(c: char) {
    IsDigit(c) || 'A' <= c <= 'Z' || 'a' <= c <= 'z'
  }

  predicate IsAlnumString(s: string) {
    forall i :: 0 <= i < |s| ==> IsAlnum(s[i])
  }

  /** Number of loop steps `for (int i = 0; i < length; i++)` makes: none for a
      length that is zero or negative. */
  function Width(length: int): (n: nat)
    ensures length <= 0 ==> n == 0
    ensures length >= 0 ==> n == length
  {
    if length <= 0 then 0 else length
  }

  /** `n` consecutive characters starting at `first`. */
  function Run(first: char, n: nat): (s: string)
    requires first as int + n <= 0xD800
    ensures |s| == n
    ensures forall i :: 0 <= i < n ==> s[i] as int == first as int + i
  {
    seq(n, i requires 0 <= i < n => (first as int + i) as char)
  }

  /** Entry `k` of the table, by the run it falls in. */
  function TableChar(k: nat): (c: char)
    requires k < TableModulus
    ensures IsAlnum(c)
  {
    if k < 10 then ('0' as int + k) as char
    else if k < 36 then ('A' as int + (k - 10)) as char
    else ('a' as int + (k - 36)) as char
  }

  /** The table is the ten digits, then the 26 upper-case letters, then the 26
      lower-case letters, each run in code order. */
  lemma AlphanumRuns()
    ensures Alphanum == Run('0', 10) + Run('A', 26) + Run('a', 26)
  {
    assert DigitChars == Run('0', 10);
    assert UpperChars == Run('A', 26);
    assert LowerChars == Run('a', 26);
  }

  /** Every entry of the table before its terminating NUL is a digit or an
      ASCII letter, and the NUL sits at index 62, one past the last draw index. */
  lemma AlphanumTable(k: nat)
    requires k < TableModulus
    ensures |Alphanum| == TableModulus && |AlphanumArray| == TableModulus + 1
    ensures Alphanum[k] == TableChar(k) && AlphanumArray[k] == Alphanum[k]
    ensures AlphanumArray[TableModulus] == '\0'
  {
    AlphanumRuns();
    var digits, upper, lower := Run('0', 10), Run('A', 26), Run('a', 26);
    if k < 10 {
      assert Alphanum[k] == digits[k];
    } else if k < 36 {
      assert Alphanum[k] == upper[k - 10];
    } else {
      assert Alphanum[k] == lower[k - 36];
    }
  }

  /** The table index one draw selects: `rand() % 62`, where `rand()` is never negative. */
  function TableIndex(draw: nat): (k: nat)
    ensures k < TableModulus
    ensures k == draw || draw >= TableModulus
  {
    draw % TableModulus
  }

  /** The character one draw selects: the table entry at `rand() % 62`. */
  function Pick(draw: nat): (c: char)
    ensures IsAlnum(c)
  {
    TableChar(TableIndex(draw))
  }

  /** The character one draw selects is `alphanum[draw % 62]`, a digit or an
      ASCII letter and never the table's NUL terminator. */
  lemma PickFromTable(draw: nat)
    ensures Pick(draw) == Alphanum[draw % TableModulus] == AlphanumArray[TableIndex(draw)]
    ensures Pick(draw) != '\0'
  {
    AlphanumTable(TableIndex(draw));
  }

  /** Any index up to `sizeof(alphanum) - 1` (the bound of the distribution left
      commented out next to the table) is a valid array index, and the last one
      selects the NUL terminator, which `% 62` never reaches. */
  lemma WideDistributionReachesNul(k: nat)
    requires k <= |AlphanumArray| - 1
    ensures AlphanumArray[k] == '\0' <==> k == TableModulus
    ensures forall draw: nat :: TableIndex(draw) != |AlphanumArray| - 1
  {
    AlphanumTable(0);
    if k < TableModulus {
      AlphanumTable(k);
    }
  }

  /** The string the source builds from these draws, one character per draw,
      each appended at the end. */
  function Spell(draws: seq<nat>): (s: string)
    ensures |s| == |draws|
    ensures IsAlnumString(s)
  {
    if |draws| == 0 then "" else Spell(draws[..|draws| - 1]) + [Pick(draws[|draws| - 1])]
  }

  /** Character `i` of the spelled string is the one draw `i` selects. */
  lemma {:induction false} SpellAt(draws: seq<nat>)
    ensures forall i :: 0 <= i < |draws| ==> Spell(draws)[i] == Pick(draws[i])
  {
    if |draws| > 0 {
      var n := |draws| - 1;
      var prefix := draws[..n];
      SpellAt(prefix);
      forall i | 0 <= i < n
        ensures Spell(draws)[i] == Pick(draws[i])
      {
        assert Spell(draws)[i] == Spell(prefix)[i];
        assert prefix[i] == draws[i];
      }
    }
  }

  /** `generateRandomString(length)`: a string of exactly `length` characters
      (empty when `length <= 0`), character `i` taken from the table at index
      `draws[i] % 62`. */
  method GenerateRandomString(length: int, draws: seq<nat>) returns (s: string)
    requires Width(length) <= |draws|
    ensures s == Spell(draws[..Width(length)])
    ensures |s| == Width(length) && IsAlnumString(s)
  {
    s := "";
    var i := 0;
    while i < length
      invariant 0 <= i <= Width(length)
      invariant s == Spell(draws[..i])
    {
      assert draws[..i + 1][..i] == draws[..i];
      s := s + [Pick(draws[i])];
      i := i + 1;
    }
  }

  /** Character `i` of the spelled string is `alphanum[draws[i] % 62]`. */
  lemma SpellFromTable(draws: seq<nat>)
    ensures forall i :: 0 <= i < |draws| ==> Spell(draws)[i] == Alphanum[draws[i] % TableModulus]
  {
    SpellAt(draws);
    forall i | 0 <= i < |draws|
      ensures Spell(draws)[i] == Alphanum[draws[i] % TableModulus]
    {
      PickFromTable(draws[i]);
    }
  }
}
