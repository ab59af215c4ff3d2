/** Decimal numerals and the numbered names built from them (`str(n)` in candidate file names,
    METS identifiers and padded destination paths), and `strip`. */
module Strings {

  predicate IsDigit(c: char) {
    '0' <= c <= '9'
  }

  /** Python's `str(n)` of a natural number. */
  function Decimal(n: nat): (s: string)
    ensures |s| > 0
    ensures forall i :: 0 <= i < |s| ==> IsDigit(s[i])
  {
    if n < 10 then ["0123456789"[n]] else Decimal(n / 10) + ["0123456789"[n % 10]]
  }

  /** The number a string of digits stands for. */
  function Number(s: string): nat
    requires forall i :: 0 <= i < |s| ==> IsDigit(s[i])
  {
    if s == "" then 0 else
      assert IsDigit(s[|s| - 1]);
      10 * Number(s[..|s| - 1]) + (s[|s| - 1] as int - '0' as int)
  }

  lemma {:induction false} NumberOfDecimal(n: nat)
    ensures Number(Decimal(n)) == n
  {
    if n < 10 {
      assert Decimal(n)[..0] == "";
    } else {
      NumberOfDecimal(n / 10);
      assert Decimal(n)[..|Decimal(n)| - 1] == Decimal(n / 10);
    }
  }

  lemma DecimalInjective(m: nat, n: nat)
    requires Decimal(m) == Decimal(n)
    ensures m == n
  {
    NumberOfDecimal(m);
    NumberOfDecimal(n);
  }

  /** The digits in front of each place stand for the numbers `v`, up to n; and there is no leading zero. */
  lemma {:induction false} DecimalDigits(n: nat) returns (v: seq<nat>)
    ensures |v| == |Decimal(n)| + 1 && v[0] == 0 && v[|Decimal(n)|] == n
    ensures forall k :: 0 <= k < |Decimal(n)| ==> v[k + 1] == 10 * v[k] + (Decimal(n)[k] as int - '0' as int)
    ensures if n < 10 then |Decimal(n)| == 1 else Decimal(n)[0] != '0'
  {
    if n < 10 {
      v := [0, n];
    } else {
      var before := DecimalDigits(n / 10);
      LastDigit(n);
      hide Decimal;
      v := before + [n];
    }
  }

  lemma LastDigit(n: nat)
    requires n >= 10
    ensures |Decimal(n)| == |Decimal(n / 10)| + 1
    ensures forall k :: 0 <= k < |Decimal(n / 10)| ==> Decimal(n)[k] == Decimal(n / 10)[k]
    ensures n == 10 * (n / 10) + (Decimal(n)[|Decimal(n / 10)|] as int - '0' as int)
  {
  }

  /** A stem, an underscore and a number can be read back: no two numbered names coincide. */
  lemma NumberedNamesDiffer(a: string, m: nat, b: string, n: nat)
    requires a + "_" + Decimal(m) == b + "_" + Decimal(n)
    ensures a == b && m == n
  {
    var s := a + "_" + Decimal(m);
    assert s[|a|] == '_' && s[|b|] == '_';
    assert s[|a| + 1..] == Decimal(m);
    assert s[|b| + 1..] == Decimal(n);
    assert |a| == |b|;
    assert a == s[..|a|] == b;
    DecimalInjective(m, n);
  }

  /** The characters for which Python's `isspace` holds. */
  predicate Space(c: char) {
    var n := c as int;
    0x09 <= n <= 0x0D || 0x1C <= n <= 0x20 || n == 0x85 || n == 0xA0 || n == 0x1680
    || 0x2000 <= n <= 0x200A || n == 0x2028 || n == 0x2029 || n == 0x202F || n == 0x205F || n == 0x3000
  }

  function LeftStrip(s: string): string {
    if s != "" && Space(s[0]) then LeftStrip(s[1..]) else s
  }

  function RightStrip(s: string): string {
    if s != "" && Space(s[|s| - 1]) then RightStrip(s[..|s| - 1]) else s
  }

  /** `s.strip()` */
  function Strip(s: string): string {
    RightStrip(LeftStrip(s))
  }

  lemma {:induction false} LeftStripped(s: string)
    ensures var r := LeftStrip(s);
            && (r == "" || !Space(r[0])) && |r| <= |s| && s[|s| - |r|..] == r
            && forall i :: 0 <= i < |s| - |r| ==> Space(s[i])
  {
    if s != "" && Space(s[0]) {
      LeftStripped(s[1..]);
    }
  }

  lemma {:induction false} RightStripped(s: string)
    ensures var r := RightStrip(s);
            && r <= s && (r == "" || !Space(r[|r| - 1])) && forall i :: |r| <= i < |s| ==> Space(s[i])
  {
    if s != "" && Space(s[|s| - 1]) {
      RightStripped(s[..|s| - 1]);
    }
  }

  /** Text without the spaces around it. */
  ghost predicate IsTrimmed(s: string, r: string) {
    && (r == "" || (!Space(r[0]) && !Space(r[|r| - 1])))
    && exists i :: TrimmedAt(s, r, i)
  }

  /** The text is found at position i, and all around it are spaces. */
  predicate TrimmedAt(s: string, r: string, i: int) {
    && 0 <= i <= |s| - |r| && s[i..i + |r|] == r
    && (forall k :: 0 <= k < i ==> Space(s[k])) && forall k :: i + |r| <= k < |s| ==> Space(s[k])
  }

  lemma TrimmedBothSides(s: string, left: string, r: string)
    requires |left| <= |s| && s[|s| - |left|..] == left && forall i :: 0 <= i < |s| - |left| ==> Space(s[i])
    requires r <= left && forall i :: |r| <= i < |left| ==> Space(left[i])
    ensures TrimmedAt(s, r, |s| - |left|)
  {
    var i := |s| - |left|;
    hide Space;
    assert s[i..i + |r|] == left[..|r|];
    forall k | i + |r| <= k < |s| ensures Space(s[k]) {
      assert s[k] == left[k - i];
    }
  }

  lemma StripTrims(s: string)
    ensures IsTrimmed(s, Strip(s))
  {
    LeftStripped(s);
    RightStripped(LeftStrip(s));
    hide Space;
    TrimmedBothSides(s, LeftStrip(s), Strip(s));
    assert Strip(s) == "" || Strip(s)[0] == LeftStrip(s)[0];
  }

  /** There is one way to trim a text. */
  lemma TrimmedUnique(s: string, a: string, b: string)
    requires IsTrimmed(s, a) && IsTrimmed(s, b)
    ensures a == b
  {
    var i :| TrimmedAt(s, a, i);
    var j :| TrimmedAt(s, b, j);
    EndsAreNoSpaces(s, a, i);
    EndsAreNoSpaces(s, b, j);
    hide Space;
    if a != "" && b != "" {
      assert i == j && i + |a| == j + |b|;
    }
  }

  lemma EndsAreNoSpaces(s: string, r: string, i: int)
    requires TrimmedAt(s, r, i) && (r == "" || (!Space(r[0]) && !Space(r[|r| - 1])))
    ensures r != "" ==> !Space(s[i]) && !Space(s[i + |r| - 1])
  {
    assert r != "" ==> r[0] == s[i] && r[|r| - 1] == s[i + |r| - 1];
  }

  lemma StripIff(s: string, r: string)
    ensures r == Strip(s) <==> IsTrimmed(s, r)
  {
    StripTrims(s);
    if IsTrimmed(s, r) {
      TrimmedUnique(s, Strip(s), r);
    }
  }
}
