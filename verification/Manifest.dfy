/** The manifest text of the deduplicating backup (dedupe.c): one tab-separated line per file, directory
    or link, written by print_stat and read back with tokenize, atoi and dec_to_oct. */
module Manifest {
  import opened Bytes

  const PATH_MAX := 4096

  // ----- numbers -----

  function Digit(d: nat): char
    requires d < 10
  {
    (48 + d) as char
  }

  predicate IsDigit(c: char) {
    '0' <= c <= '9'
  }

  /** printf's %o (base 8) and %lu (base 10). */
  function Digits(n: nat, base: nat): string
    requires base == 8 || base == 10
  {
    (if n < base then "" else Digits(n / base, base)) + [Digit(n % base)]
  }

  /** %d. */
  function Signed(n: int): string {
    if n < 0 then "-" + Digits(-n, 10) else Digits(n, 10)
  }

  function DigitsValue(s: string, acc: nat): nat {
    if s == "" || !IsDigit(s[0]) then acc else DigitsValue(s[1..], 10 * acc + (s[0] as int - 48))
  }

  predicate IsSpace(c: char) {
    c == ' ' || '\t' <= c <= '\r'
  }

  function SkipSpace(s: string): string {
    if s != "" && IsSpace(s[0]) then SkipSpace(s[1..]) else s
  }

  /** scanf's %d. */
  function ScanInt(s: string): Option<int> {
    var t := SkipSpace(s);
    var u := if t != "" && (t[0] == '-' || t[0] == '+') then t[1..] else t;
    if u == "" || !IsDigit(u[0]) then None
    else Some(if t[0] == '-' then 0 - DigitsValue(u, 0) else DigitsValue(u, 0) as int)
  }

  function Atoi(s: string): int {
    if ScanInt(s).Some? then ScanInt(s).value else 0
  }

  function Rem10(d: int): int { if d < 0 then -(-d % 10) else d % 10 }

  function Div10(d: int): int { if d < 0 then -(-d / 10) else d / 10 }

  /** The decimal digits of d taken as digits to the base 8. */
  function AsOctal(d: int): int
    decreases if d < 0 then -d else d
  {
    if d == 0 then 0 else Rem10(d) + 8 * AsOctal(Div10(d))
  }

  lemma AsOctalZero()
    ensures AsOctal(0) == 0
  {}

  lemma AsOctalStep(d: int)
    requires d != 0
    ensures AsOctal(d) == Rem10(d) + 8 * AsOctal(Div10(d))
    ensures Div10(d) < 0 ==> d < Div10(d)
    ensures Div10(d) >= 0 ==> Div10(d) < d || Div10(d) < -d
  {}

  lemma Distribute(m: int, a: int, b: int)
    ensures m * (a + 8 * b) == a * m + (m * 8) * b
  {
    assert m * (8 * b) == (m * 8) * b;
  }

  /** dec_to_oct. */
  method DecToOct(d: int) returns (r: int)
    ensures r == AsOctal(d)
  {
    hide *;
    AsOctalZero();
    r := 0;
    var dec, mult := d, 1;
    while dec != 0
      invariant r + mult * AsOctal(dec) == AsOctal(d)
      decreases if dec < 0 then -dec else dec
    {
      AsOctalStep(dec);
      Distribute(mult, Rem10(dec), AsOctal(Div10(dec)));
      r := r + Rem10(dec) * mult;
      dec := Div10(dec);
      mult := mult * 8;
    }
  }

  /** The number whose decimal digits are the octal digits of m. */
  function ShownOctal(m: nat): nat {
    if m < 8 then m else 10 * ShownOctal(m / 8) + m % 8
  }

  lemma {:induction false} OctalUndone(m: nat)
    ensures AsOctal(ShownOctal(m)) == m
  {
    if m >= 8 {
      OctalUndone(m / 8);
      assert ShownOctal(m) / 10 == ShownOctal(m / 8);
      assert ShownOctal(m) % 10 == m % 8;
    } else if m > 0 {
      assert AsOctal(m) == m + 8 * AsOctal(0);
    }
  }

  lemma {:induction false} ValueOfAppended(s: string, c: char, acc: nat)
    requires (forall i :: 0 <= i < |s| ==> IsDigit(s[i])) && IsDigit(c)
    ensures DigitsValue(s + [c], acc) == 10 * DigitsValue(s, acc) + (c as int - 48)
  {
    if s == "" {
      assert (s + [c])[1..] == "";
    } else {
      assert (s + [c])[1..] == s[1..] + [c];
      ValueOfAppended(s[1..], c, 10 * acc + (s[0] as int - 48));
    }
  }

  lemma {:induction false} DigitsAreDigits(n: nat, base: nat)
    requires base == 8 || base == 10
    ensures Digits(n, base) != ""
    ensures forall i :: 0 <= i < |Digits(n, base)| ==> IsDigit(Digits(n, base)[i])
  {
    if n >= base {
      DigitsAreDigits(n / base, base);
    }
  }

  lemma {:induction false} DigitsGrow(m: nat, n: nat, base: nat)
    requires m <= n && (base == 8 || base == 10)
    ensures |Digits(m, base)| <= |Digits(n, base)|
  {
    if m >= base {
      DigitsGrow(m / base, n / base, base);
    }
  }

  /** Numbers below 2^32 take at most ten decimal digits, permission bits at most four octal ones. */
  lemma DigitsFew(n: nat)
    ensures n < 0x1_0000_0000 ==> |Digits(n, 10)| <= 10
    ensures n < 4096 ==> |Digits(n, 8)| <= 4
  {
    if n < 0x1_0000_0000 {
      DigitsGrow(n, 9_999_999_999, 10);
      TenNines();
    }
    if n < 4096 {
      DigitsGrow(n, 4095, 8);
      assert |Digits(4095, 8)| == 1 + |Digits(511, 8)| == 2 + |Digits(63, 8)| == 3 + |Digits(7, 8)|;
    }
  }

  lemma TenNines()
    ensures |Digits(9_999_999_999, 10)| == 10
  {
    assert |Digits(9_999_999_999, 10)| == 1 + |Digits(999_999_999, 10)|;
    assert |Digits(999_999_999, 10)| == 1 + |Digits(99_999_999, 10)|;
    assert |Digits(99_999_999, 10)| == 1 + |Digits(9_999_999, 10)|;
    assert |Digits(9_999_999, 10)| == 1 + |Digits(999_999, 10)|;
    assert |Digits(999_999, 10)| == 1 + |Digits(99_999, 10)|;
    assert |Digits(99_999, 10)| == 1 + |Digits(9_999, 10)|;
    assert |Digits(9_999, 10)| == 1 + |Digits(999, 10)|;
    assert |Digits(999, 10)| == 1 + |Digits(99, 10)|;
  }

  lemma {:induction false} DecimalValue(n: nat)
    ensures DigitsValue(Digits(n, 10), 0) == n
  {
    var prefix := if n < 10 then "" else Digits(n / 10, 10);
    if n >= 10 {
      DecimalValue(n / 10);
      DigitsAreDigits(n / 10, 10);
    }
    ValueOfAppended(prefix, Digit(n % 10), 0);
  }

  lemma {:induction false} OctalValue(n: nat)
    ensures DigitsValue(Digits(n, 8), 0) == ShownOctal(n)
  {
    var prefix := if n < 8 then "" else Digits(n / 8, 8);
    if n >= 8 {
      OctalValue(n / 8);
      DigitsAreDigits(n / 8, 8);
    }
    ValueOfAppended(prefix, Digit(n % 8), 0);
  }

  lemma AtoiOfDigits(n: nat, base: nat)
    requires base == 8 || base == 10
    ensures Atoi(Digits(n, base)) == DigitsValue(Digits(n, base), 0)
    ensures ScanInt(Digits(n, base)).Some?
  {
    DigitsAreDigits(n, base);
    var s := Digits(n, base);
    assert IsDigit(s[0]);
    assert SkipSpace(s) == s;
  }

  /** A decimal field reads back as the number printed. */
  lemma DecimalReadsBack(n: nat)
    ensures Atoi(Digits(n, 10)) == n
  {
    AtoiOfDigits(n, 10);
    DecimalValue(n);
  }

  /** The mode, printed in octal, read in decimal and converted, is the mode. */
  lemma ModeReadsBack(m: nat)
    ensures AsOctal(Atoi(Digits(m, 8))) == m
  {
    AtoiOfDigits(m, 8);
    OctalValue(m);
    OctalUndone(m);
  }

  // ----- fields -----

  /** The place of the first c at or after position i, or the end. */
  function Next(s: string, c: char, i: nat): (k: nat)
    requires i <= |s|
    ensures i <= k <= |s|
    decreases |s| - i
  {
    if i == |s| || s[i] == c then i else Next(s, c, i + 1)
  }

  /** The field that starts at i and its end, if a tab ends it and its buffer holds it. */
  function Field(line: string, i: nat, cap: nat): (r: Option<string>)
    requires i <= |line|
    ensures r.Some? ==> i + |r.value| < |line| && line[i..i + |r.value|] == r.value
  {
    var k := Next(line, '\t', i);
    if k < |line| && k - i < cap then Some(line[i..k]) else None
  }

  /** tokenize, into a buffer of cap characters; writing past it is modelled as a failure. */
  method Tokenize(line: string, start: nat, cap: nat) returns (r: Option<string>)
    requires start <= |line|
    ensures r == Field(line, start, cap)
  {
    var out, i := "", start;
    while i < |line| && line[i] != '\t'
      invariant start <= i <= |line| && out == line[start..i]
      invariant Next(line, '\t', start) == Next(line, '\t', i)
    {
      out := out + [line[i]];
      i := i + 1;
    }
    r := if i < |line| && |out| < cap then Some(out) else None;
  }

  /** The next fields, one for each buffer. */
  function Fields(line: string, i: nat, caps: seq<nat>): (r: Option<seq<string>>)
    requires i <= |line|
    ensures r.Some? ==> |r.value| == |caps|
    decreases |caps|
  {
    if caps == [] then Some([])
    else
      var f := Field(line, i, caps[0]);
      if f == None then None else Prepend([f.value], Fields(line, i + |f.value| + 1, caps[1..]))
  }

  function Prepend(fs: seq<string>, rest: Option<seq<string>>): Option<seq<string>> {
    if rest == None then None else Some(fs + rest.value)
  }

  lemma FieldsStep(line: string, i: nat, caps: seq<nat>, k: nat, fs: seq<string>)
    requires i <= |line| && k < |caps|
    ensures Field(line, i, caps[k]) == None ==> Fields(line, i, caps[k..]) == None
    ensures Field(line, i, caps[k]).Some? ==>
              var f := Field(line, i, caps[k]).value;
              Prepend(fs, Fields(line, i, caps[k..])) == Prepend(fs + [f], Fields(line, i + |f| + 1, caps[k + 1..]))
  {
    assert caps[k..][1..] == caps[k + 1..];
    var f := Field(line, i, caps[k]);
    if f.Some? {
      var rest := Fields(line, i + |f.value| + 1, caps[k + 1..]);
      if rest.Some? {
        assert fs + ([f.value] + rest.value) == (fs + [f.value]) + rest.value;
      }
    }
  }

  lemma FieldsNone(line: string, i: nat, caps: seq<nat>, fs: seq<string>)
    requires i <= |line|
    ensures Prepend(fs, Fields(line, i, caps[|caps|..])) == Some(fs)
    ensures Prepend([], Fields(line, i, caps[0..])) == Fields(line, i, caps)
  {
    assert fs + [] == fs && caps[0..] == caps;
    var r := Fields(line, i, caps);
    if r.Some? {
      assert [] + r.value == r.value;
    }
  }

  /** Each field followed by a tab. */
  function Tabbed(fs: seq<string>): string {
    if fs == [] then "" else fs[0] + "\t" + Tabbed(fs[1..])
  }

  method ReadFields(line: string, start: nat, caps: seq<nat>) returns (r: Option<seq<string>>, i: nat)
    requires start <= |line|
    ensures r == Fields(line, start, caps)
    ensures r.Some? ==> i == start + |Tabbed(r.value)| && i <= |line|
  {
    hide Fields, Field, Tabbed, Next;
    i := start;
    var fs := [];
    TabbedNothing();
    FieldsNone(line, start, caps, []);
    for k := 0 to |caps|
      invariant |fs| == k && start <= i <= |line| && i == start + |Tabbed(fs)|
      invariant Fields(line, start, caps) == Prepend(fs, Fields(line, i, caps[k..]))
    {
      var f := Tokenize(line, i, caps[k]);
      FieldsStep(line, i, caps, k, fs);
      if f == None {
        return None, i;
      }
      TabbedAppend(fs, f.value);
      i := i + |f.value| + 1;
      fs := fs + [f.value];
    }
    FieldsNone(line, i, caps, fs);
    r := Some(fs);
  }

  lemma TabbedNothing()
    ensures Tabbed([]) == ""
  {}

  lemma {:induction false} TabbedAppend(fs: seq<string>, f: string)
    ensures Tabbed(fs + [f]) == Tabbed(fs) + f + "\t"
  {
    if fs == [] {
      assert (fs + [f])[1..] == [];
    } else {
      assert (fs + [f])[1..] == fs[1..] + [f];
      TabbedAppend(fs[1..], f);
    }
  }

  /** Fields that come back as they were: no tab inside, and short enough for their buffers. */
  ghost predicate Clean(fs: seq<string>, caps: seq<nat>) {
    |fs| == |caps| && forall k :: 0 <= k < |fs| ==> '\t' !in fs[k] && |fs[k]| < caps[k]
  }

  lemma {:induction false} NextAfter(before: string, f: string, after: string, i: nat, c: char)
    requires |before| <= i <= |before| + |f| && c !in f
    ensures Next(before + f + [c] + after, c, i) == |before| + |f|
    decreases |before| + |f| - i
  {
    var s := before + f + [c] + after;
    if i < |before| + |f| {
      assert s[i] == f[i - |before|];
      NextAfter(before, f, after, i + 1, c);
    }
  }

  lemma {:induction false} NextFound(s: string, c: char, i: nat)
    requires i <= |s|
    ensures var k := Next(s, c, i); c !in s[i..k] && (k < |s| ==> s[k] == c)
    decreases |s| - i
  {
    if i < |s| && s[i] != c {
      NextFound(s, c, i + 1);
      var k := Next(s, c, i);
      assert s[i..k] == [s[i]] + s[i + 1..k];
    }
  }

  lemma {:induction false} NextAbsent(s: string, c: char, i: nat)
    requires i <= |s| && c !in s
    ensures Next(s, c, i) == |s|
    decreases |s| - i
  {
    if i < |s| {
      NextAbsent(s, c, i + 1);
    }
  }

  lemma FieldFound(line: string, before: string, f: string, rest: string, cap: nat)
    requires '\t' !in f && |f| < cap && line == before + f + "\t" + rest
    ensures Field(line, |before|, cap) == Some(f)
  {
    NextAfter(before, f, rest, |before|, '\t');
    assert line[|before|..|before| + |f|] == f;
  }

  lemma FieldsFound(line: string, i: nat, fs: seq<string>, caps: seq<nat>)
    requires |fs| == |caps| > 0 && i <= |line| && Field(line, i, caps[0]) == Some(fs[0])
    requires Fields(line, i + |fs[0]| + 1, caps[1..]) == Some(fs[1..])
    ensures Fields(line, i, caps) == Some(fs)
  {
    assert [fs[0]] + fs[1..] == fs;
  }

  /** Splitting undoes joining. */
  lemma {:induction false} FieldsOfTabbed(before: string, fs: seq<string>, after: string, caps: seq<nat>)
    requires Clean(fs, caps)
    ensures Fields(before + Tabbed(fs) + after, |before|, caps) == Some(fs)
    decreases |fs|
  {
    var line := before + Tabbed(fs) + after;
    if fs != [] {
      hide Fields, Field, Next;
      var rest := Tabbed(fs[1..]) + after;
      assert line == before + fs[0] + "\t" + rest;
      FieldFound(line, before, fs[0], rest, caps[0]);
      var before' := before + fs[0] + "\t";
      assert line == before' + Tabbed(fs[1..]) + after;
      FieldsOfTabbed(before', fs[1..], after, caps[1..]);
      FieldsFound(line, |before|, fs, caps);
    }
  }
}
