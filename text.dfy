/**
 * The string operations the compilers rely on: prefix and suffix tests, ASCII case folding,
 * `str.find`, `str.split(sep)[k]`, `str.replace`, `str(n)`, `int(s)` and the thousands
 * grouping of `f"{n:,}"`.
 */
module Text {
  import opened Wrappers

  predicate StartsWith(s: string, p: string) {
    |p| <= |s| && s[..|p|] == p
  }

  predicate EndsWith(s: string, p: string) {
    |p| <= |s| && s[|s| - |p|..] == p
  }

  /** `p` occurs in `s` starting at index `i`. */
  predicate OccursAt(s: string, p: string, i: nat) {
    i + |p| <= |s| && s[i..i + |p|] == p
  }

  predicate Occurs(s: string, p: string) {
    exists i: nat | i <= |s| :: OccursAt(s, p, i)
  }

  /** ASCII case folding; stands for Python's `str.lower`. */
  function LowerChar(c: char): char {
    if 'A' <= c <= 'Z' then (c as int + 32) as char else c
  }

  function Lower(s: string): (r: string)
    ensures |r| == |s|
    ensures forall i :: 0 <= i < |s| ==> r[i] == LowerChar(s[i])
  {
    seq(|s|, i requires 0 <= i < |s| => LowerChar(s[i]))
  }

  /** `s.find(p)` for a non-empty `p`: the first index where `p` occurs (see FindSpec). */
  function Find(s: string, p: string): (r: Option<nat>)
    requires p != []
    ensures r.Some? ==> r.value + |p| <= |s|
    decreases |s|
  {
    if |s| < |p| then None
    else if s[..|p|] == p then Some(0)
    else
      var rest := Find(s[1..], p);
      if rest.None? then None else Some(rest.value + 1)
  }

  lemma OccursShift(s: string, p: string)
    requires |s| >= 1 && |p| <= |s| && s[..|p|] != p
    ensures !OccursAt(s, p, 0)
    ensures forall j: nat :: j >= 1 ==> (OccursAt(s, p, j) <==> OccursAt(s[1..], p, j - 1))
  {
    assert s[0..|p|] == s[..|p|];
    forall j: nat | j >= 1 ensures OccursAt(s, p, j) <==> OccursAt(s[1..], p, j - 1) {
      if j + |p| <= |s| {
        var t := s[1..];
        var u, v := s[j..j + |p|], t[j - 1..j - 1 + |p|];
        forall k | 0 <= k < |p| ensures u[k] == v[k] {
          assert v[k] == t[j - 1 + k] == s[j + k];
        }
        assert u == v;
      }
    }
  }

  /** Find returns the first occurrence of `p`, and None exactly when `p` does not occur. */
  lemma {:induction false} FindSpec(s: string, p: string)
    requires p != []
    ensures Find(s, p).Some? ==> OccursAt(s, p, Find(s, p).value) && forall j: nat :: j < Find(s, p).value ==> !OccursAt(s, p, j)
    ensures Find(s, p).None? ==> forall j: nat :: !OccursAt(s, p, j)
    decreases |s|
  {
    if |s| < |p| {
    } else if s[..|p|] == p {
    } else {
      FindSpec(s[1..], p);
      OccursShift(s, p);
    }
  }

  /** The first index of `p` in `s` is `i` when `p` occurs at `i` and nowhere before. */
  lemma FindFirst(s: string, p: string, i: nat)
    requires p != [] && OccursAt(s, p, i)
    requires forall j: nat :: j < i ==> !OccursAt(s, p, j)
    ensures Find(s, p) == Some(i)
  {
    FindSpec(s, p);
  }

  /** `s.split(p)[0]`: the text before the first occurrence of `p`, or all of `s`. */
  function BeforeFirst(s: string, p: string): string
    requires p != []
  {
    match Find(s, p)
    case Some(i) => s[..i]
    case None => s
  }

  /** The first field is a prefix of the text. */
  lemma BeforeFirstIsPrefix(s: string, p: string)
    requires p != []
    ensures StartsWith(s, BeforeFirst(s, p))
  {
    FindSpec(s, p);
  }

  /** `s.split(p)[1]`: the text between the first and second occurrences of `p`; None where Python raises IndexError. */
  function SecondField(s: string, p: string): Option<string>
    requires p != []
  {
    match Find(s, p)
    case Some(i) => Some(BeforeFirst(s[i + |p|..], p))
    case None => None
  }

  /** There is a second field exactly when `p` occurs. */
  lemma SecondFieldExists(s: string, p: string)
    requires p != []
    ensures SecondField(s, p).None? <==> !Occurs(s, p)
  {
    FindSpec(s, p);
    if Find(s, p).None? {
      forall i: nat | i <= |s| ensures !OccursAt(s, p, i) { }
    }
  }

  /** `s.replace(p, x)`: every non-overlapping occurrence of `p`, scanned left to right, becomes `x`. */
  function Replace(s: string, p: string, x: string): string
    requires p != []
    decreases |s|
  {
    match Find(s, p)
    case None => s
    case Some(i) => s[..i] + x + Replace(s[i + |p|..], p, x)
  }

  /** Text without `p` is left as it is. */
  lemma ReplaceAbsent(s: string, p: string, x: string)
    requires p != [] && !Occurs(s, p)
    ensures Replace(s, p, x) == s
  {
    FindSpec(s, p);
  }

  predicate IsDigit(c: char) {
    '0' <= c <= '9'
  }

  function DigitChar(d: nat): (c: char)
    requires d < 10
    ensures IsDigit(c) && c as int - '0' as int == d
  {
    ('0' as int + d) as char
  }

  function DigitValue(c: char): (d: nat)
    requires IsDigit(c)
    ensures d < 10 && DigitChar(d) == c
  {
    c as int - '0' as int
  }

  /** `str(n)` for a natural number. */
  function NatToString(n: nat): (s: string)
    ensures |s| >= 1
    ensures forall c <- s :: IsDigit(c)
    decreases n
  {
    if n < 10 then [DigitChar(n)] else NatToString(n / 10) + [DigitChar(n % 10)]
  }

  /** `str(n)` for any integer. */
  function IntToString(n: int): string {
    if n < 0 then "-" + NatToString(-n) else NatToString(n)
  }

  /** The value of a digit string read most significant digit first. */
  function DigitsValue(s: string): nat
    requires forall c <- s :: IsDigit(c)
    decreases |s|
  {
    if s == [] then 0 else DigitsValue(s[..|s| - 1]) * 10 + DigitValue(s[|s| - 1])
  }

  /** `int(s)` restricted to plain decimal digits; None where the model does not accept the text. */
  function ParseNat(s: string): Option<nat> {
    if s != [] && forall c <- s :: IsDigit(c) then Some(DigitsValue(s)) else None
  }

  /** Python's `str` of an optional integer cell: `"None"` for a missing value. */
  function Str(cell: Option<int>): (s: string)
    ensures cell.Some? && cell.value >= 0 ==> ParseNat(s) == Some(cell.value)
    ensures cell.None? ==> ParseNat(s).None?
  {
    if cell.None? then "None"
    else if cell.value >= 0 then ParseNatToString(cell.value); NatToString(cell.value)
    else IntToString(cell.value)
  }

  /** `int(s.split(p)[1].split("_")[0])`, the number after the first `p` in a reference string. */
  function SegmentNumber(s: string, p: string): Option<nat>
    requires p != []
  {
    match SecondField(s, p)
    case None => None
    case Some(field) => ParseNat(BeforeFirst(field, "_"))
  }

  /** The last three decimal digits of `k`, zero-padded. */
  function Pad3(k: nat): (s: string)
    requires k < 1000
    ensures |s| == 3
  {
    [DigitChar(k / 100), DigitChar((k / 10) % 10), DigitChar(k % 10)]
  }

  function GroupNat(n: nat): string
    decreases n
  {
    if n < 1000 then NatToString(n) else GroupNat(n / 1000) + "," + Pad3(n % 1000)
  }

  /** `f"{n:,}"`: decimal digits with a comma between every group of three. */
  function Grouped(n: int): string {
    if n < 0 then "-" + GroupNat(-n) else GroupNat(n)
  }

  function RemoveCommas(s: string): (r: string)
    decreases |s|
  {
    if s == [] then []
    else (if s[0] == ',' then [] else [s[0]]) + RemoveCommas(s[1..])
  }

  // ----- Lemmas -----

  /** Reading the decimal text of `n` gives back `n`. */
  lemma {:induction false} ParseNatToString(n: nat)
    ensures ParseNat(NatToString(n)) == Some(n)
  {
    var s := NatToString(n);
    if n >= 10 {
      ParseNatToString(n / 10);
      assert s[..|s| - 1] == NatToString(n / 10);
      assert s[|s| - 1] == DigitChar(n % 10);
      assert DigitsValue(s[..|s| - 1]) == n / 10;
      assert DigitValue(s[|s| - 1]) == n % 10;
      assert DigitsValue(s) == (n / 10) * 10 + n % 10;
    }
  }

  lemma {:induction false} RemoveCommasAppend(a: string, b: string)
    ensures RemoveCommas(a + b) == RemoveCommas(a) + RemoveCommas(b)
    decreases |a|
  {
    if a == [] {
      assert a + b == b;
    } else {
      RemoveCommasAppend(a[1..], b);
      assert (a + b)[1..] == a[1..] + b;
    }
  }

  lemma {:induction false} NoCommas(s: string)
    requires forall c <- s :: IsDigit(c)
    ensures RemoveCommas(s) == s
    decreases |s|
  {
    if s != [] {
      assert s[0] in s;
      NoCommas(s[1..]);
      assert s == [s[0]] + s[1..];
    }
  }

  /** The last three decimal digits of n are those of n % 1000, and dropping them leaves n / 1000. */
  lemma ThousandsDigits(n: nat)
    ensures n / 10 / 10 / 10 == n / 1000
    ensures n / 10 / 10 % 10 == n % 1000 / 100
    ensures n / 10 % 10 == n % 1000 / 10 % 10
    ensures n % 10 == n % 1000 % 10
  {
    var q, r := n / 1000, n % 1000;
    assert n == 1000 * q + r;
    assert n / 10 == 100 * q + r / 10;
    assert n / 10 / 10 == 10 * q + r / 100;
  }

  /** The decimal text of `n >= 1000` splits into that of `n / 1000` and three padded digits. */
  lemma ThousandsSplit(n: nat)
    requires n >= 1000
    ensures NatToString(n) == NatToString(n / 1000) + Pad3(n % 1000)
  {
    ThousandsDigits(n);
    assert NatToString(n) == NatToString(n / 10) + [DigitChar(n % 10)];
    assert NatToString(n / 10) == NatToString(n / 10 / 10) + [DigitChar(n / 10 % 10)];
    assert NatToString(n / 10 / 10) == NatToString(n / 10 / 10 / 10) + [DigitChar(n / 10 / 10 % 10)];
  }

  /** Deleting the grouping commas of `f"{n:,}"` leaves `str(n)`. */
  lemma {:induction false} UngroupNat(n: nat)
    ensures RemoveCommas(GroupNat(n)) == NatToString(n)
    decreases n
  {
    if n < 1000 {
      NoCommas(NatToString(n));
    } else {
      UngroupNat(n / 1000);
      RemoveCommasAppend(GroupNat(n / 1000) + ",", Pad3(n % 1000));
      RemoveCommasAppend(GroupNat(n / 1000), ",");
      NoCommas(Pad3(n % 1000));
      ThousandsSplit(n);
    }
  }

  lemma UngroupInt(n: int)
    ensures RemoveCommas(Grouped(n)) == IntToString(n)
  {
    if n < 0 {
      var g := GroupNat(-n);
      UngroupNat(-n);
      assert ("-" + g)[1..] == g;
    } else {
      UngroupNat(n);
    }
  }

  /** The first occurrence of `p` in `a + b` is at `|a|` when `b` starts with `p` and `a` lacks `p`'s first character. */
  lemma FindAfterFree(a: string, b: string, p: string)
    requires p != [] && p[0] !in a && StartsWith(b, p)
    ensures Find(a + b, p) == Some(|a|)
  {
    var s := a + b;
    assert OccursAt(s, p, |a|) by { assert s[|a|..|a| + |p|] == b[..|p|]; }
    forall j: nat | j < |a| ensures !OccursAt(s, p, j) {
      assert s[j] == a[j] && a[j] != p[0];
      assert j + |p| <= |s| ==> s[j..j + |p|][0] == s[j];
    }
    FindFirst(s, p, |a|);
  }

  /** Splitting `a + b` on `p` keeps all of `a` in the first field when `a` lacks `p`'s first character. */
  lemma BeforeFirstKeeps(a: string, b: string, p: string)
    requires p != [] && p[0] !in a
    ensures StartsWith(BeforeFirst(a + b, p), a)
  {
    var s := a + b;
    FindSpec(s, p);
    match Find(s, p)
    case None =>
    case Some(i) =>
      assert s[i..i + |p|][0] == s[i] == p[0];
      assert forall k :: 0 <= k < |a| ==> s[k] == a[k] && a[k] != p[0];
      assert i >= |a|;
      assert s[..i][..|a|] == a;
  }

  /** Splitting on `p` after text free of `p`'s first character: the second field comes from what follows `p`. */
  lemma SecondFieldAfter(pre: string, p: string, tail: string)
    requires p != [] && p[0] !in pre
    ensures SecondField(pre + p + tail, p) == Some(BeforeFirst(tail, p))
  {
    var s := pre + p + tail;
    assert s == pre + (p + tail);
    FindAfterFree(pre, p + tail, p);
    assert s[|pre| + |p|..] == tail;
  }

  /** The first `_`-separated field of `w + "_" + rest` is `w` when `w` has no `_`. */
  lemma FirstFieldBeforeUnderscore(w: string, rest: string)
    requires '_' !in w
    ensures BeforeFirst(w + "_" + rest, "_") == w
  {
    assert w + "_" + rest == w + ("_" + rest);
    FindAfterFree(w, "_" + rest, "_");
  }

  /** A character that is neither a digit nor `_` is absent from a number's text followed by `_`. */
  lemma AbsentFromNumberField(c: char, n: nat)
    requires !IsDigit(c) && c != '_'
    ensures c !in NatToString(n) + "_"
  {
    var digits := NatToString(n);
    assert forall d <- digits :: IsDigit(d);
    assert c !in digits;
  }

  /** The first `_`-field of a text starting with a number and `_` is that number's text. */
  lemma LeadingNumberField(field: string, n: nat)
    requires StartsWith(field, NatToString(n) + "_")
    ensures BeforeFirst(field, "_") == NatToString(n)
  {
    var digits := NatToString(n);
    var rest := field[|digits| + 1..];
    assert field == digits + "_" + rest by {
      assert field[..|digits| + 1] == digits + "_";
    }
    assert '_' !in digits by {
      assert forall d <- digits :: IsDigit(d);
    }
    FirstFieldBeforeUnderscore(digits, rest);
  }

  /** `int(s.split(p)[1].split("_")[0])` reads back the number written after the first `p`. */
  lemma SegmentNumberRoundTrip(pre: string, p: string, n: nat, rest: string)
    requires p != [] && p[0] !in pre && !IsDigit(p[0]) && p[0] != '_'
    ensures SegmentNumber(pre + p + NatToString(n) + "_" + rest, p) == Some(n)
  {
    var head := NatToString(n) + "_";
    var tail := head + rest;
    assert pre + p + NatToString(n) + "_" + rest == pre + p + tail;
    SecondFieldAfter(pre, p, tail);
    AbsentFromNumberField(p[0], n);
    BeforeFirstKeeps(head, rest, p);
    LeadingNumberField(BeforeFirst(tail, p), n);
    ParseNatToString(n);
  }

  /** A template with a single `p` after text free of `p`'s first character: `p` is substituted once. */
  lemma {:induction false} ReplaceOnce(a: string, p: string, b: string, x: string)
    requires p != [] && p[0] !in a && !Occurs(b, p)
    ensures Replace(a + p + b, p, x) == a + x + b
  {
    var s := a + p + b;
    assert s == a + (p + b);
    FindAfterFree(a, p + b, p);
    assert s[..|a|] == a;
    assert s[|a| + |p|..] == b;
    ReplaceAbsent(b, p, x);
  }
}
