/**
 Human-readable byte sizes: digits with an optional decimal point, then an optional unit.

 Strings are sequences of code points. Machine words are the newtype `uint64`, so every operation below is proved to
 stay inside 64 bits.
 */
module ByteSize {
  import opened Basics
  import opened Decimal

  const MAX: uint64 := 0x7FFF_FFFF_FFFF_FFFF

  datatype SizeError = Empty | MultipleDots | MissingDigits | UnknownUnit | TooLarge

  // ---------------------------------------------------------------- text

  /** `unicode.IsSpace` */
  predicate IsSpace(c: char) {
    || '\U{9}' <= c <= '\U{D}' || c == ' ' || c == '\U{85}' || c == '\U{A0}' || c == '\U{1680}'
    || '\U{2000}' <= c <= '\U{200A}' || c == '\U{2028}' || c == '\U{2029}' || c == '\U{202F}'
    || c == '\U{205F}' || c == '\U{3000}'
  }

  /** The 25 code points of Unicode's White_Space property. */
  lemma SpacesExact(c: char)
    ensures IsSpace(c) <==>
      c in "\U{9}\U{A}\U{B}\U{C}\U{D} \U{85}\U{A0}\U{1680}\U{2000}\U{2001}\U{2002}\U{2003}\U{2004}\U{2005}" +
           "\U{2006}\U{2007}\U{2008}\U{2009}\U{200A}\U{2028}\U{2029}\U{202F}\U{205F}\U{3000}"
  {
    var spaces := "\U{9}\U{A}\U{B}\U{C}\U{D} \U{85}\U{A0}\U{1680}\U{2000}\U{2001}\U{2002}\U{2003}\U{2004}\U{2005}" +
                  "\U{2006}\U{2007}\U{2008}\U{2009}\U{200A}\U{2028}\U{2029}\U{202F}\U{205F}\U{3000}";
    if '\U{9}' <= c <= '\U{D}' { assert spaces[c as int - 9] == c; }
    if '\U{2000}' <= c <= '\U{200A}' { assert spaces[c as int - 0x2000 + 9] == c; }
    assert spaces[5] == ' ' && spaces[6] == '\U{85}' && spaces[7] == '\U{A0}' && spaces[8] == '\U{1680}';
    assert spaces[20] == '\U{2028}' && spaces[21] == '\U{2029}' && spaces[22] == '\U{202F}';
    assert spaces[23] == '\U{205F}' && spaces[24] == '\U{3000}';
  }

  function TrimLeft(s: string): string {
    if s != "" && IsSpace(s[0]) then TrimLeft(s[1..]) else s
  }

  function TrimRight(s: string): string {
    if s != "" && IsSpace(s[|s| - 1]) then TrimRight(s[..|s| - 1]) else s
  }

  function Trim(s: string): string { TrimRight(TrimLeft(s)) }

  predicate AllSpaces(s: string) { forall i :: 0 <= i < |s| ==> IsSpace(s[i]) }

  /** Text without spaces at its ends. */
  predicate Bare(s: string) { s != "" ==> !IsSpace(s[0]) && !IsSpace(s[|s| - 1]) }

  lemma {:induction false} TrimLeftExact(pre: string, rest: string)
    requires AllSpaces(pre) && (rest != "" ==> !IsSpace(rest[0]))
    ensures TrimLeft(pre + rest) == rest
  {
    if pre == "" {
      assert pre + rest == rest;
    } else {
      assert (pre + rest)[1..] == pre[1..] + rest;
      TrimLeftExact(pre[1..], rest);
    }
  }

  lemma {:induction false} TrimRightExact(rest: string, post: string)
    requires AllSpaces(post) && (rest != "" ==> !IsSpace(rest[|rest| - 1]))
    ensures TrimRight(rest + post) == rest
  {
    if post == "" {
      assert rest + post == rest;
    } else {
      assert (rest + post)[..|rest + post| - 1] == rest + post[..|post| - 1];
      TrimRightExact(rest, post[..|post| - 1]);
    }
  }

  /** Trimming takes away the spaces at both ends and nothing else. */
  lemma TrimExact(pre: string, core: string, post: string)
    requires AllSpaces(pre) && AllSpaces(post) && Bare(core)
    ensures Trim(pre + core + post) == core
  {
    if core == "" {
      assert pre + core + post == pre + post + "";
      TrimLeftExact(pre + post, "");
    } else {
      assert pre + core + post == pre + (core + post);
      TrimLeftExact(pre, core + post);
      TrimRightExact(core, post);
    }
  }

  /** `unicode.ToLower`, as far as it reaches ASCII: the Kelvin sign and the dotted capital I also do. */
  function LowerChar(c: char): char {
    if 'A' <= c <= 'Z' then c + 32 as char
    else if c == '\U{212A}' then 'k'
    else if c == '\U{130}' then 'i'
    else c
  }

  function Lower(s: string): string { seq(|s|, i requires 0 <= i < |s| => LowerChar(s[i])) }

  /** `resolveByteMultiplier` */
  function Multiplier(unit: string): Option<uint64> {
    if unit == "" || unit == "b" || unit == "byte" || unit == "bytes" then Some(1)
    else if unit == "k" || unit == "kb" || unit == "kib" then Some(0x400)
    else if unit == "m" || unit == "mb" || unit == "mib" then Some(0x10_0000)
    else if unit == "g" || unit == "gb" || unit == "gib" then Some(0x4000_0000)
    else if unit == "t" || unit == "tb" || unit == "tib" then Some(0x100_0000_0000)
    else None
  }

  /** A character that stands for a small letter: itself, its capital, or one of the two that Unicode adds. */
  predicate StandsFor(c: char, small: char) {
    || c == small || ('A' <= c <= 'Z' && c as int + 32 == small as int)
    || (small == 'k' && c == '\U{212A}') || (small == 'i' && c == '\U{130}')
  }

  predicate Spells(s: string, word: string) {
    |s| == |word| && forall i :: 0 <= i < |s| ==> StandsFor(s[i], word[i])
  }

  lemma LowerSpells(s: string, word: string)
    requires forall i :: 0 <= i < |word| ==> 'a' <= word[i] <= 'z'
    ensures Lower(s) == word <==> Spells(s, word)
  {
    assert Lower(s) == word <==> |s| == |word| && forall i :: 0 <= i < |s| ==> Lower(s)[i] == word[i];
  }

  /** The names of 1024 to the `k`, in small letters. */
  predicate NamesPower(unit: string, k: nat) {
    if k == 0 then unit == "" || unit == "b" || unit == "byte" || unit == "bytes"
    else k <= 4 && var letter := ["kmgt"[k - 1]]; unit == letter || unit == letter + "b" || unit == letter + "ib"
  }

  lemma Powers()
    ensures Pow1024(0) == 1 && Pow1024(1) == 0x400 && Pow1024(2) == 0x10_0000
    ensures Pow1024(3) == 0x4000_0000 && Pow1024(4) == 0x100_0000_0000
  {
    assert Pow1024(2) == 1024 * Pow1024(1);
    assert Pow1024(4) == 1024 * Pow1024(3);
  }

  /** Every unit is a power of 1024, and every name of one is known. */
  lemma MultiplierExact(unit: string, u: uint64)
    ensures Multiplier(unit) == Some(u) <==> exists k: nat :: NamesPower(unit, k) && u as nat == Pow1024(k)
  {
    Powers();
    hide Pow1024;
    if Multiplier(unit) == Some(u) {
      var k := if unit == "" || unit[0] == 'b' then 0 else if unit[0] == 'k' then 1 else if unit[0] == 'm' then 2
               else if unit[0] == 'g' then 3 else 4;
      assert NamesPower(unit, k);
    }
    if k: nat :| NamesPower(unit, k) && u as nat == Pow1024(k) {
      assert ['k'] + "b" == "kb" && ['k'] + "ib" == "kib" && ['m'] + "b" == "mb" && ['m'] + "ib" == "mib";
      assert ['g'] + "b" == "gb" && ['g'] + "ib" == "gib" && ['t'] + "b" == "tb" && ['t'] + "ib" == "tib";
      assert k == 0 || k == 1 || k == 2 || k == 3 || k == 4;
    }
  }

  // ---------------------------------------------------------------- what a size means

  /** The first `n` characters of `t` are a maximal decimal number with its point at `dot` (-1 for none). */
  predicate Number(t: string, n: int, dot: int) {
    && 0 <= n <= |t| && -1 <= dot < n && n > (if dot >= 0 then 1 else 0)
    && (forall p :: 0 <= p < n ==> if p == dot then t[p] == '.' else IsDigit(t[p]))
    && (n < |t| ==> !IsDigit(t[n]) && t[n] != '.')
  }

  lemma NumberIsUnique(t: string, n: int, dot: int, n': int, dot': int)
    requires Number(t, n, dot) && Number(t, n', dot')
    ensures n == n' && dot == dot'
  {
    if n != n' { assert false; }
    assert dot >= 0 ==> t[dot] == '.';
    assert dot' >= 0 ==> t[dot'] == '.';
  }

  lemma SecondDot(t: string, dot: int, i: int)
    requires 0 <= dot < i < |t| && t[dot] == '.' && t[i] == '.'
    requires forall p :: 0 <= p < i && p != dot ==> IsDigit(t[p])
    ensures forall n, d :: !Number(t, n, d)
  {
  }

  lemma NoDigits(t: string, i: int)
    requires 0 <= i <= 1 && i <= |t| && (i == 1 ==> t[0] == '.')
    requires i < |t| ==> !IsDigit(t[i]) && t[i] != '.'
    ensures forall n, d :: !Number(t, n, d)
  {
  }

  function Whole(t: string, n: int, dot: int): (w: string)
    requires Number(t, n, dot)
    ensures AllDigits(w)
  {
    if dot < 0 then t[..n] else t[..dot]
  }

  function Fraction(t: string, n: int, dot: int): (f: string)
    requires Number(t, n, dot)
    ensures AllDigits(f) && t[..n] == if dot < 0 then Whole(t, n, dot) + f else Whole(t, n, dot) + "." + f
  {
    if dot < 0 then "" else t[dot + 1..n]
  }

  function Unit(t: string, n: int): Option<uint64>
    requires 0 <= n <= |t|
  {
    Multiplier(Lower(Trim(t[n..])))
  }

  /** The number's digits without the point: its value is `Digits / 10^|Fraction|`. */
  function Digits(t: string, n: int, dot: int): nat
    requires Number(t, n, dot)
  {
    Value(Whole(t, n, dot) + Fraction(t, n, dot))
  }

  lemma DivisionBounds(a: nat, b: nat)
    requires b > 0
    ensures (a / b) * b <= a < (a / b) * b + b
  {
    assert a == (a / b) * b + a % b;
  }

  /** floor(a / p + 1/2) */
  function RoundHalfUp(a: nat, p: nat): (r: nat)
    requires p > 0
    ensures 2 * (r * p) <= 2 * a + p < 2 * (r * p + p)
  {
    var r := (2 * a + p) / (2 * p);
    DivisionBounds(2 * a + p, 2 * p);
    assert r * (2 * p) == 2 * (r * p);
    r
  }

  lemma RoundedFits(a: nat, p: nat)
    requires p > 0 && a <= MAX_INT64 * p
    ensures RoundHalfUp(a, p) <= MAX_INT64
  {
    hide RoundHalfUp;
    Spaced(MAX_INT64, RoundHalfUp(a, p), p);
  }

  function Size(digits: nat, unit: uint64, places: nat): (r: Result<int64, SizeError>)
    ensures r.Err? ==> r.error.TooLarge?
  {
    var a, p := digits * unit as int, Pow10(places);
    if a > MAX_INT64 * p then Err(TooLarge)
    else
      RoundedFits(a, p);
      Ok(RoundHalfUp(a, p))
  }

  /** The exact size: the real value times the unit, rounded half up, unless that product exceeds 2^63 - 1. */
  function Meaning(t: string, n: int, dot: int): Result<int64, SizeError>
    requires Number(t, n, dot)
  {
    var unit := Unit(t, n);
    if unit.None? then Err(UnknownUnit)
    else Size(Digits(t, n, dot), unit.value, |Fraction(t, n, dot)|)
  }

  /** The text of a number: digits `d`, and if there are any `f`, a point and `f`. */
  function NumberText(d: string, f: Option<string>): string {
    if f.Some? then d + "." + f.value else d
  }

  predicate Digital(d: string, f: Option<string>) {
    AllDigits(d) && (f.Some? ==> AllDigits(f.value)) && (d != "" || (f.Some? && f.value != ""))
  }

  function Places(f: Option<string>): string { if f.Some? then f.value else "" }

  lemma NumberParts(d: string, f: Option<string>, rest: string)
    requires Digital(d, f) && (rest != "" ==> !IsDigit(rest[0]) && rest[0] != '.')
    ensures var num := NumberText(d, f); var t := num + rest; var dot := if f.Some? then |d| else -1;
      && Number(t, |num|, dot) && t[|num|..] == rest
      && Whole(t, |num|, dot) == d && Fraction(t, |num|, dot) == Places(f)
  {
    var num := NumberText(d, f);
    var t := num + rest;
    assert t[..|num|] == num && t[|num|..] == rest;
    assert forall p :: 0 <= p < |num| ==> t[p] == num[p];
    if f.Some? {
      assert forall p :: 0 <= p < |d| ==> num[p] == d[p];
      assert forall p :: |d| < p < |num| ==> num[p] == f.value[p - |d| - 1];
      assert t[..|d|] == d && t[|d| + 1..|num|] == f.value;
    }
  }

  lemma PowerFits(k: nat)
    requires k <= 4
    ensures Pow1024(k) <= 0x100_0000_0000
  {
    Powers();
  }

  lemma UnitIsBare(unit: string, word: string, k: nat)
    requires Spells(unit, word) && NamesPower(word, k)
    ensures k <= 4 && Lower(unit) == word && Bare(unit) && (unit != "" ==> !IsDigit(unit[0]) && unit[0] != '.')
  {
    assert forall i :: 0 <= i < |word| ==> 'a' <= word[i] <= 'z';
    LowerSpells(unit, word);
  }

  lemma NumberIsBare(d: string, f: Option<string>, rest: string)
    requires Digital(d, f) && (rest != "" ==> !IsSpace(rest[|rest| - 1]))
    ensures Bare(NumberText(d, f) + rest)
  {
    var num := NumberText(d, f);
    var t := num + rest;
    assert t[0] == num[0] && t[|t| - 1] == if rest != "" then rest[|rest| - 1] else num[|num| - 1];
  }

  /** Trimming leaves number, gap and unit, and the unit is what is left of the rest. */
  lemma PartsOfSize(pre: string, d: string, f: Option<string>, gap: string, unit: string, post: string)
    requires AllSpaces(pre) && AllSpaces(gap) && AllSpaces(post) && Bare(unit) && (unit == "" ==> gap == "")
    requires Digital(d, f) && (unit != "" ==> !IsDigit(unit[0]) && unit[0] != '.')
    ensures var num := NumberText(d, f); var t := num + (gap + unit); var dot := if f.Some? then |d| else -1;
      && Trim(pre + num + gap + unit + post) == t && Number(t, |num|, dot)
      && Whole(t, |num|, dot) == d && Fraction(t, |num|, dot) == Places(f) && Trim(t[|num|..]) == unit
  {
    var num, rest := NumberText(d, f), gap + unit;
    var t := num + rest;
    NumberIsBare(d, f, rest);
    assert pre + num + gap + unit + post == pre + t + post;
    NumberParts(d, f, rest);
    hide Trim, NumberText, Number;
    TrimExact(pre, t, post);
    assert gap + unit + "" == rest;
    TrimExact(gap, unit, "");
  }

  /**
   A number with or without a point, then spaces and a unit's name in any letter case, possibly between spaces: exactly
   the number times the power of 1024, rounded half up, or too large.
   */
  lemma SizeTextExact(pre: string, d: string, f: Option<string>, gap: string, unit: string, post: string, word: string,
                      k: nat)
    requires AllSpaces(pre) && AllSpaces(gap) && AllSpaces(post)
    requires Digital(d, f) && Spells(unit, word) && NamesPower(word, k) && (unit == "" ==> gap == "")
    ensures var num := NumberText(d, f);
      var t, dot := Trim(pre + num + gap + unit + post), if f.Some? then |d| else -1;
      && Number(t, |num|, dot) && AllDigits(d + Places(f))
      && var exact, p := Value(d + Places(f)) * Pow1024(k), Pow10(|Places(f)|);
         Meaning(t, |num|, dot) == if exact > MAX_INT64 * p then Err(TooLarge) else Ok(RoundHalfUp(exact, p))
  {
    hide Multiplier, Trim, Lower, Value, Pow1024, Pow10, Number, Whole, Fraction, AllSpaces, Bare, Spells, NamesPower,
      NumberText, RoundHalfUp;
    UnitIsBare(unit, word, k);
    PartsOfSize(pre, d, f, gap, unit, post);
    PowerFits(k);
    MultiplierExact(word, Pow1024(k) as uint64);
  }

  // ---------------------------------------------------------------- arithmetic behind the loops

  lemma {:induction false} PrefixValue(s: string, j: nat)
    requires AllDigits(s) && j <= |s|
    ensures Value(s[..j]) <= Value(s)
  {
    if j < |s| {
      assert s[..|s| - 1][..j] == s[..j];
      PrefixValue(s[..|s| - 1], j);
    } else {
      assert s[..j] == s;
    }
  }

  /** The guard of the digit loop is exactly overflow past `limit`. */
  lemma DigitGuard(whole: nat, d: nat, limit: nat)
    requires d < 10
    ensures (whole > limit / 10 || (whole == limit / 10 && d > limit % 10)) <==> 10 * whole + d > limit
  {
  }

  lemma FractionStep(d: nat, u: nat, carry: nat, rest: nat, p: nat, value: nat)
    requires value * u == carry * p + rest
    ensures var v := d * u + carry;
      (d * p + value) * u == (v / 10) * (10 * p) + ((v % 10) * p + rest)
  {
  }

  /** The leading digit of a remainder below `10 * q`. */
  lemma LeadingDigit(digit: nat, q: nat, rest: nat)
    requires digit < 10 && rest < q
    ensures digit * q + rest < 10 * q
    ensures digit >= 5 <==> 2 * (digit * q + rest) >= 10 * q
    ensures digit * q + rest != 0 <==> digit != 0 || rest != 0
  {
  }

  lemma Sandwich(x: int, y: int, a: int, p: int)
    requires p > 0
    requires 2 * (x * p) <= 2 * a + p < 2 * (x * p + p)
    requires 2 * (y * p) <= 2 * a + p < 2 * (y * p + p)
    ensures x == y
  {
    Spaced(x, y, p);
    Spaced(y, x, p);
  }

  /** Rounding a number given as whole part and remainder. */
  lemma RoundedParts(whole: nat, rest: nat, p: nat)
    requires rest < p
    ensures RoundHalfUp(whole * p + rest, p) == if 2 * rest >= p then whole + 1 else whole
    ensures whole * p + rest > MAX_INT64 * p <==> whole > MAX_INT64 || (whole == MAX_INT64 && rest > 0)
  {
    hide RoundHalfUp;
    var a := whole * p + rest;
    assert (whole + 1) * p == whole * p + p;
    Sandwich(if 2 * rest >= p then whole + 1 else whole, RoundHalfUp(a, p), a, p);
    Spaced(MAX_INT64, whole, p);
    Spaced(whole, MAX_INT64, p);
  }

  // ---------------------------------------------------------------- the parser

  /** `splitByteSizeToken` on trimmed text: the extent of the number and its point. */
  method SplitNumber(t: string) returns (r: Result<(int, int), SizeError>)
    ensures r.Ok? ==> Number(t, r.value.0, r.value.1)
    ensures r.Err? ==> forall n, dot :: !Number(t, n, dot)
    ensures r.Err? ==> (r.error.Empty? <==> t == "")
    ensures r.Err? ==> r.error.Empty? || r.error.MultipleDots? || r.error.MissingDigits?
  {
    if t == "" { return Err(Empty); }
    var i, dot, count := 0, -1, 0;
    while i < |t| && (IsDigit(t[i]) || t[i] == '.')
      invariant 0 <= i <= |t| && -1 <= dot < i
      invariant forall p :: 0 <= p < i ==> if p == dot then t[p] == '.' else IsDigit(t[p])
      invariant count == if dot >= 0 then i - 1 else i
    {
      if IsDigit(t[i]) {
        count := count + 1;
      } else {
        if dot >= 0 {
          SecondDot(t, dot, i);
          return Err(MultipleDots);
        }
        dot := i;
      }
      i := i + 1;
    }
    if count == 0 {
      NoDigits(t, i);
      return Err(MissingDigits);
    }
    return Ok((i, dot));
  }

  /** The digits before the point, stopping as soon as they exceed `limit`. */
  method ReadWhole(s: string, limit: uint64) returns (r: Option<uint64>)
    requires AllDigits(s) && limit <= MAX
    ensures r.Some? <==> Value(s) <= limit as int
    ensures r.Some? ==> r.value as int == Value(s)
  {
    var whole: uint64 := 0;
    for j := 0 to |s|
      invariant whole as int == Value(s[..j]) && whole <= limit
    {
      var d := DigitValue(s[j]) as uint64;
      assert s[..j + 1][..j] == s[..j];
      DigitGuard(whole as int, d as int, limit as int);
      if whole > limit / 10 || (whole == limit / 10 && d > limit % 10) {
        PrefixValue(s, j + 1);
        return None;
      }
      whole := whole * 10 + d;
    }
    assert s[..|s|] == s;
    return Some(whole);
  }

  /** The state of the fraction loop: `f` times the unit is `carry` whole units and a remainder. */
  ghost predicate FractionDone(f: string, u: int, carry: int, rest: nat, first: int, nonzero: bool)
    requires AllDigits(f)
  {
    && Value(f) * u == carry * Pow10(|f|) + rest && rest < Pow10(|f|)
    && (nonzero <==> rest != 0) && (first >= 5 <==> 2 * rest >= Pow10(|f|))
  }

  /** A digit times the unit, and what came over from the digits behind it. */
  function Carried(d: nat, u: nat, carry: nat): nat { d * u + carry }

  function LongerRest(digit: nat, p: nat, rest: nat): nat { digit * p + rest }

  lemma FractionExtends(c: char, f: string, u: nat, carry: nat, rest: nat, first: int, nonzero: bool)
    requires IsDigit(c) && AllDigits(f) && FractionDone(f, u, carry, rest, first, nonzero)
    ensures var v := Carried(DigitValue(c), u, carry);
      var rest' := LongerRest(v % 10, Pow10(|f|), rest);
      AllDigits([c] + f) && FractionDone([c] + f, u, v / 10, rest', v % 10, nonzero || v % 10 != 0)
  {
    var v, p := DigitValue(c) * u + carry, Pow10(|f|);
    ValueSplit([c], f);
    assert Value([c]) == DigitValue(c) by { assert [c][..0] == ""; }
    FractionStep(DigitValue(c), u, carry, rest, p, Value(f));
    LeadingDigit(v % 10, p, rest);
    assert Pow10(|[c] + f|) == 10 * p;
  }

  /** One round of the fraction loop, in machine words. */
  method MultiplyDigit(d: uint64, u: uint64, carry: uint64, nonzero: bool)
    returns (carry': uint64, first: uint64, nonzero': bool)
    requires d < 10 && carry < u <= 0x100_0000_0000
    ensures carry' < u
    ensures var v := Carried(d as int, u as int, carry as int);
      carry' as int == v / 10 && first as int == v % 10 && nonzero' == (nonzero || v % 10 != 0)
  {
    assert d as int * u as int <= 9 * u as int;
    var v := d * u + carry;
    assert v as int < 10 * u as int;
    return v / 10, v % 10, nonzero || v % 10 != 0;
  }

  /** The digits behind the point, last one first. */
  method ReadFraction(s: string, u: uint64) returns (carry: uint64, first: uint64, nonzero: bool, ghost rest: nat)
    requires AllDigits(s) && 0 < u <= 0x100_0000_0000
    ensures carry < u && FractionDone(s, u as int, carry as int, rest, first as int, nonzero)
  {
    carry, first, nonzero, rest := 0, 0, false, 0;
    var j := |s|;
    assert s[|s|..] == "";
    assert FractionDone("", u as int, 0, 0, 0, false);
    hide FractionDone, Pow10, Carried, LongerRest;
    while j > 0
      invariant 0 <= j <= |s| && carry < u
      invariant FractionDone(s[j..], u as int, carry as int, rest, first as int, nonzero)
    {
      j := j - 1;
      FractionExtends(s[j], s[j + 1..], u as int, carry as int, rest, first as int, nonzero);
      assert [s[j]] + s[j + 1..] == s[j..];
      rest := LongerRest(Carried(DigitValue(s[j]), u as int, carry as int) % 10, Pow10(|s| - j - 1), rest);
      carry, first, nonzero := MultiplyDigit(DigitValue(s[j]) as uint64, u, carry, nonzero);
    }
    assert s[0..] == s;
  }

  lemma ProductOfParts(whole: nat, frac: nat, p: nat, u: nat, carry: nat, rest: nat)
    requires frac * u == carry * p + rest
    ensures (whole * p + frac) * u == (whole * u + carry) * p + rest
  {
  }

  lemma MeaningOfParts(whole: string, frac: string, u: nat, carry: nat, rest: nat, first: int, nonzero: bool)
    requires AllDigits(whole) && AllDigits(frac) && FractionDone(frac, u, carry, rest, first, nonzero)
    ensures AllDigits(whole + frac)
    ensures var p, units := Pow10(|frac|), Value(whole) * u + carry;
      && Value(whole + frac) * u == units * p + rest && rest < p
      && RoundHalfUp(units * p + rest, p) == (if first >= 5 then units + 1 else units)
      && (units * p + rest > MAX_INT64 * p <==> units > MAX_INT64 || (units == MAX_INT64 && nonzero))
  {
    var p, units := Pow10(|frac|), Value(whole) * u + carry;
    ValueSplit(whole, frac);
    ProductOfParts(Value(whole), Value(frac), p, u, carry, rest);
    hide Value, RoundHalfUp, Pow10;
    RoundedParts(units, rest, p);
  }

  /** The product of a whole part past the guard is too large whatever the fraction. */
  lemma WholeTooLarge(whole: nat, u: nat, limit: nat)
    requires u > 0 && limit == MAX_INT64 / u
    ensures whole <= limit <==> whole * u <= MAX_INT64
  {
    DivisionBounds(MAX_INT64, u);
    Spaced(whole, limit, u);
    Spaced(limit, whole, u);
  }

  /** The exact size in terms of what the two loops return. */
  lemma SizeOfParts(whole: string, frac: string, u: uint64, carry: nat, rest: nat, first: int, nonzero: bool)
    requires AllDigits(whole) && AllDigits(frac) && FractionDone(frac, u as int, carry, rest, first, nonzero)
    ensures AllDigits(whole + frac) && (first >= 5 ==> nonzero)
    ensures var units := Value(whole) * u as int + carry;
      Size(Value(whole + frac), u, |frac|)
      == if units > MAX_INT64 || (units == MAX_INT64 && nonzero) then Err(TooLarge)
         else Ok(if first >= 5 then units + 1 else units)
  {
    assert first >= 5 ==> nonzero;
    hide FractionDone, Value, RoundHalfUp, Pow10;
    MeaningOfParts(whole, frac, u as int, carry, rest, first, nonzero);
  }

  /** `ParseByteSize` below the text: exact size, overflow, and no step outside 64 bits. */
  method Evaluate(whole: string, frac: string, u: uint64) returns (r: Result<int64, SizeError>)
    requires AllDigits(whole) && AllDigits(frac) && AllDigits(whole + frac) && 0 < u <= 0x100_0000_0000
    ensures r == Size(Value(whole + frac), u, |frac|)
  {
    hide FractionDone, Value, Size;
    var limit := MAX / u;
    var w := ReadWhole(whole, limit);
    var carry, first, nonzero, rest := ReadFraction(frac, u);
    ghost var exact := Value(whole) * u as int;
    SizeOfParts(whole, frac, u, carry as int, rest, first as int, nonzero);
    WholeTooLarge(Value(whole), u as int, limit as int);
    if w.None? { return Err(TooLarge); }
    assert w.value as int * u as int == exact;
    var wholeBytes := w.value * u;
    var remaining := MAX - wholeBytes;
    if carry > remaining { return Err(TooLarge); }
    var units := wholeBytes + carry;
    if units == MAX && nonzero { return Err(TooLarge); }
    // A rounding carry past the maximum is impossible here: it needs a nonzero remainder.
    if first >= 5 {
      assert units < MAX;
      units := units + 1;
    }
    return Ok(units as int);
  }

  lemma MultiplierRange(unit: string)
    ensures Multiplier(unit).Some? ==> 0 < Multiplier(unit).value <= 0x100_0000_0000
  {
  }

  /** `ParseByteSize`: exactly the rounded product for every well-formed size, and an error for every other string. */
  method ParseByteSize(s: string) returns (r: Result<int64, SizeError>)
    ensures forall n, dot :: Number(Trim(s), n, dot) ==> r == Meaning(Trim(s), n, dot)
    ensures (forall n, dot :: !Number(Trim(s), n, dot)) ==>
      r.Err? && (r.error.Empty? || r.error.MultipleDots? || r.error.MissingDigits?)
    ensures r == Err(Empty) <==> Trim(s) == ""
  {
    hide Trim, Lower, Multiplier, Size;
    var t := Trim(s);
    var split :- SplitNumber(t);
    var (n, dot) := split;
    forall n', dot' | Number(t, n', dot') ensures n' == n && dot' == dot { NumberIsUnique(t, n, dot, n', dot'); }
    assert t != "";
    hide Number;
    var unit := Unit(t, n);
    if unit.None? { return Err(UnknownUnit); }
    MultiplierRange(Lower(Trim(t[n..])));
    r := Evaluate(Whole(t, n, dot), Fraction(t, n, dot), unit.value);
  }
}
