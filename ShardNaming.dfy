/** Names of the split directories (get_ith_sub_dir_name, dirsplitter.py:50-61): the index in
    decimal, left-padded with '0' to the decimal width of the number of directories. The
    floating-point floor(log10(.)) of the source is replaced by the integer FloorLog10. */
module ShardNaming {
  import opened Decimal

  /** Number of decimal digits of n >= 1. */
  function Width(n: nat): (w: nat)
    requires n >= 1
    ensures w >= 1 && Pow10(w - 1) <= n < Pow10(w)
  {
    FloorLog10(n) + 1
  }

  /** get_ith_sub_dir_name(i, n): '0' * (floor(log10 n) - floor(log10 i)) + str(i). */
  function GetIthSubDirName(i: nat, n: nat): (name: string)
    requires 1 <= i <= n
    ensures |name| == Width(n)
    ensures AllDigits(name) && ParseDecimal(name) == i
  {
    FloorLog10Monotone(i, n);
    ParseDecimalString(i);
    ParseDecimalLeadingZeros(FloorLog10(n) - FloorLog10(i), DecimalString(i));
    Zeros(FloorLog10(n) - FloorLog10(i)) + DecimalString(i)
  }

  /** The name is some '0' characters followed by str(i). */
  lemma SubDirNameShape(i: nat, n: nat)
    requires 1 <= i <= n
    ensures var name, dec := GetIthSubDirName(i, n), DecimalString(i);
      |dec| <= |name| && name[|name| - |dec|..] == dec &&
      forall j :: 0 <= j < |name| - |dec| ==> name[j] == '0'
  {
    FloorLog10Monotone(i, n);
  }

  /** All names for a fixed n have the same length. */
  lemma SubDirNameFixedWidth(i: nat, j: nat, n: nat)
    requires 1 <= i <= n && 1 <= j <= n
    ensures |GetIthSubDirName(i, n)| == |GetIthSubDirName(j, n)| == FloorLog10(n) + 1
  {
  }

  /** Distinct indices give distinct directory names. */
  lemma SubDirNameInjective(i: nat, j: nat, n: nat)
    requires 1 <= i <= n && 1 <= j <= n
    ensures GetIthSubDirName(i, n) == GetIthSubDirName(j, n) <==> i == j
  {
  }

  /** The last directory's name is exactly str(n): no padding, no leading zero. */
  lemma LastSubDirNameUnpadded(n: nat)
    requires n >= 1
    ensures GetIthSubDirName(n, n) == DecimalString(n)
    ensures GetIthSubDirName(n, n)[0] != '0'
  {
    assert Zeros(0) == [];
  }

  /** A name is a single path component: non-empty, and only digits (no '/', not "." or ".."). */
  lemma SubDirNameIsComponent(i: nat, n: nat)
    requires 1 <= i <= n
    ensures var name := GetIthSubDirName(i, n);
      name != [] && '/' !in name && name != "." && name != ".."
  {
    var name := GetIthSubDirName(i, n);
    assert IsDigit(name[0]);
  }

  /** The docstring's example and the boundary of the same width. */
  lemma SubDirNameExamples()
    ensures GetIthSubDirName(10, 100) == "010"
    ensures GetIthSubDirName(100, 100) == "100"
    ensures GetIthSubDirName(7, 9) == "7"
  {
    assert FloorLog10(100) == 2 by { assert FloorLog10(10) == 1; }
    assert DecimalString(10) == "10" by { assert DecimalString(1) == "1"; }
    assert DecimalString(100) == "100" by { assert DecimalString(10) == "10" by { assert DecimalString(1) == "1"; } }
  }
}
