/** The few Python `str` operations the analyzer relies on, over `seq<char>`. */
module Strings {
  import opened Options

  /** `s.startswith(prefix)` */
  predicate StartsWith(s: string, prefix: string) {
    |prefix| <= |s| && s[..|prefix|] == prefix
  }

  /** `s.endswith(suffix)` */
  predicate EndsWith(s: string, suffix: string) {
    |suffix| <= |s| && s[|s| - |suffix|..] == suffix
  }

  /** `needle` is found in `hay` starting at index `i`. */
  predicate OccursAt(hay: string, needle: string, i: int) {
    0 <= i && i + |needle| <= |hay| && hay[i..i + |needle|] == needle
  }

  /** `needle in hay` */
  predicate Contains(hay: string, needle: string) {
    exists i :: 0 <= i <= |hay| && OccursAt(hay, needle, i)
  }

  /** `s.lstrip(cs)`: drops the longest prefix made of characters satisfying `cs`. */
  function LStrip(s: string, cs: char -> bool): (r: string)
    ensures |r| <= |s| && r == s[|s| - |r|..]
    ensures forall k :: 0 <= k < |s| - |r| ==> cs(s[k])
    ensures r != [] ==> !cs(r[0])
    decreases |s|
  {
    if s != [] && cs(s[0]) then LStrip(s[1..], cs) else s
  }

  /** `s.rstrip(cs)`: drops the longest suffix made of characters satisfying `cs`. */
  function RStrip(s: string, cs: char -> bool): (r: string)
    ensures |r| <= |s| && r == s[..|r|]
    ensures forall k :: |r| <= k < |s| ==> cs(s[k])
    ensures r != [] ==> !cs(r[|r| - 1])
    decreases |s|
  {
    if s != [] && cs(s[|s| - 1]) then RStrip(s[..|s| - 1], cs) else s
  }

  /**
   * `s.strip(cs)`: the part of `s` left between the stripped prefix and
   * suffix, which neither begins nor ends with a character satisfying `cs`.
   */
  function StripChars(s: string, cs: char -> bool): (r: string)
    ensures r != [] ==> !cs(r[0]) && !cs(r[|r| - 1])
  {
    RStrip(LStrip(s, cs), cs)
  }

  /** Python's `str.isspace()`. */
  predicate IsSpace(c: char) {
    || '\t' <= c <= '\r'
    || '\U{1C}' <= c <= ' '
    || c == '\U{85}' || c == '\U{A0}' || c == '\U{1680}'
    || '\U{2000}' <= c <= '\U{200A}'
    || c == '\U{2028}' || c == '\U{2029}' || c == '\U{202F}' || c == '\U{205F}' || c == '\U{3000}'
  }

  /** `s.strip()` with no argument. */
  function Strip(s: string): string {
    StripChars(s, IsSpace)
  }

  /** `s.replace(from, to)` for one-character `from` and `to`. */
  function ReplaceChar(s: string, from: char, to: char): (r: string)
    ensures |r| == |s|
    ensures forall i :: 0 <= i < |s| ==> r[i] == if s[i] == from then to else s[i]
    ensures from != to ==> from !in r
  {
    seq(|s|, i requires 0 <= i < |s| => if s[i] == from then to else s[i])
  }

  /** The index of the first occurrence of `c` in `s`. */
  function IndexOf(s: string, c: char): (i: nat)
    requires c in s
    ensures i < |s| && s[i] == c && c !in s[..i]
  {
    if s[0] == c then 0
    else
      var j := IndexOf(s[1..], c);
      assert s[..j + 1] == [s[0]] + s[1..][..j];
      j + 1
  }

  /** `sep.join(parts)` for a one-character separator. */
  function Join(parts: seq<string>, sep: char): string
    requires parts != []
  {
    if |parts| == 1 then parts[0] else parts[0] + [sep] + Join(parts[1..], sep)
  }

  /**
   * `s.split(sep)` for a one-character separator: the pieces between the
   * separators, which joined back with `sep` give `s` again.
   */
  function Split(s: string, sep: char): (parts: seq<string>)
    ensures parts != [] && Join(parts, sep) == s
    ensures forall i :: 0 <= i < |parts| ==> sep !in parts[i]
    decreases |s|
  {
    if sep !in s then [s]
    else
      var i := IndexOf(s, sep);
      var rest := Split(s[i + 1..], sep);
      assert ([s[..i]] + rest)[1..] == rest;
      assert s == s[..i] + [sep] + s[i + 1..];
      [s[..i]] + rest
  }

  /** The split of a string is the only sequence of separator-free pieces that joins to it. */
  lemma {:induction false} SplitUnique(parts: seq<string>, sep: char)
    requires parts != []
    requires forall i :: 0 <= i < |parts| ==> sep !in parts[i]
    ensures Split(Join(parts, sep), sep) == parts
  {
    var s := Join(parts, sep);
    if |parts| == 1 {
    } else {
      var p := parts[0];
      var tail := Join(parts[1..], sep);
      assert s == p + [sep] + tail;
      assert s[|p|] == sep;
      assert sep in s;
      var i := IndexOf(s, sep);
      if i < |p| {
        assert false;
      } else if i > |p| {
        assert false;
      }
      assert s[..i] == p;
      assert s[i + 1..] == tail;
      SplitUnique(parts[1..], sep);
      assert Split(s, sep) == [p] + Split(tail, sep);
      assert parts == [p] + parts[1..];
    }
  }

  /** Splitting three separator-free pieces joined by `sep` gives the three pieces back. */
  lemma SplitThree(a: string, b: string, c: string, sep: char)
    requires sep !in a && sep !in b && sep !in c
    ensures Split(a + [sep] + b + [sep] + c, sep) == [a, b, c]
  {
    var parts := [a, b, c];
    assert parts[1..][1..] == [c];
    assert Join(parts[1..], sep) == b + [sep] + c;
    assert Join(parts, sep) == a + [sep] + b + [sep] + c;
    SplitUnique(parts, sep);
  }

  /** A string that does not start with the separator starts its first piece. */
  lemma SplitFirst(s: string, sep: char)
    requires s != [] && s[0] != sep
    ensures Split(s, sep)[0] != [] && Split(s, sep)[0][0] == s[0]
  {
    if sep in s {
      var i := IndexOf(s, sep);
      assert i > 0;
      assert Split(s, sep)[0] == s[..i];
    }
  }

  /** Python's `str.isdigit()` restricted to ASCII digits. */
  predicate IsDigit(c: char) {
    '0' <= c <= '9'
  }

  /**
   * The digit strings Python's `int()` accepts in base 10: digits, with single
   * underscores allowed between two digits.
   */
  predicate WellFormedDigits(t: string) {
    && t != []
    && IsDigit(t[0])
    && IsDigit(t[|t| - 1])
    && forall i :: 0 <= i < |t| ==>
         IsDigit(t[i]) || (t[i] == '_' && 0 < i < |t| - 1 && IsDigit(t[i - 1]) && IsDigit(t[i + 1]))
  }

  /** The value of a digit string, underscores ignored. */
  function DigitsValue(t: string): nat {
    if t == [] then 0
    else if t[|t| - 1] == '_' then DigitsValue(t[..|t| - 1])
    else 10 * DigitsValue(t[..|t| - 1]) + ((t[|t| - 1] as int - '0' as int) % 10)
  }

  /** An integer literal as `int()` reads it in base 10: an optional sign, then well-formed digits. */
  predicate IsIntLiteral(t: string) {
    WellFormedDigits(t) || (t != [] && (t[0] == '+' || t[0] == '-') && WellFormedDigits(t[1..]))
  }

  /**
   * Python's `int(s)`: surrounding whitespace, an optional sign, then a
   * well-formed digit string; `None` where Python raises `ValueError`.
   */
  function ParseInt(s: string): (r: Option<int>)
    ensures r.Some? <==> IsIntLiteral(Strip(s))
    ensures Strip(s) == [] ==> r.None?
    ensures s != [] && IsDigit(s[0]) && r.Some? ==> r.value >= 0
  {
    var t := Strip(s);
    if t != [] && (t[0] == '+' || t[0] == '-') then
      var digits := t[1..];
      if WellFormedDigits(digits) then
        StripKeepsFirst(s);
        var v: int := DigitsValue(digits);
        Some(if t[0] == '-' then -v else v)
      else None
    else if WellFormedDigits(t) then Some(DigitsValue(t))
    else None
  }

  /**
   * `int()` raises on text holding a character that is neither a digit, nor
   * an underscore, nor a leading sign: "5x", "1.5" and "0x1f" do not parse.
   */
  lemma ParseIntRejects(s: string, i: nat)
    requires i < |Strip(s)|
    requires !IsDigit(Strip(s)[i]) && Strip(s)[i] != '_'
    requires i > 0 || (Strip(s)[i] != '+' && Strip(s)[i] != '-')
    ensures ParseInt(s).None?
  {
    var t := Strip(s);
    NotWellFormed(t, i);
    if i > 0 {
      assert t[1..][i - 1] == t[i];
      NotWellFormed(t[1..], i - 1);
    }
    assert !IsIntLiteral(t);
  }

  /** A character other than a digit or '_' spoils a digit string. */
  lemma NotWellFormed(t: string, i: nat)
    requires i < |t| && !IsDigit(t[i]) && t[i] != '_'
    ensures !WellFormedDigits(t)
  {
    if 0 < i < |t| - 1 {
      // the digit-string quantifier fires on the neighbours of position i
      var before, after := t[i - 1], t[i + 1];
    }
  }

  /** Stripping a string that starts with a non-space keeps that first character. */
  lemma StripKeepsFirst(s: string)
    ensures s != [] && !IsSpace(s[0]) ==> Strip(s) != [] && Strip(s)[0] == s[0]
  {
    if s != [] && !IsSpace(s[0]) {
      assert LStrip(s, IsSpace) == s;
      var t := RStrip(s, IsSpace);
      if t == [] {
        assert false;
      }
    }
  }

  /** The decimal digits of `n`, as Python's `str(n)` writes a non-negative integer. */
  function ShowNat(n: nat): (r: string)
    ensures r != [] && forall i :: 0 <= i < |r| ==> IsDigit(r[i])
  {
    if n < 10 then [('0' as int + n) as char]
    else ShowNat(n / 10) + [('0' as int + n % 10) as char]
  }

  /** `int(str(n)) == n`: parsing reads back what `ShowNat` writes. */
  lemma {:induction false} ParseShowNat(n: nat)
    ensures ParseInt(ShowNat(n)) == Some(n)
  {
    var r := ShowNat(n);
    StripDigits(r);
    assert r[0] != '+' && r[0] != '-';
    assert WellFormedDigits(r);
    DigitsValueOfShowNat(n);
  }

  /** A string of digits has no surrounding whitespace. */
  lemma StripDigits(r: string)
    requires r != [] && forall i :: 0 <= i < |r| ==> IsDigit(r[i])
    ensures Strip(r) == r
  {
    assert !IsSpace(r[0]);
    assert LStrip(r, IsSpace) == r;
    assert !IsSpace(r[|r| - 1]);
    assert RStrip(r, IsSpace) == r;
  }

  lemma {:induction false} DigitsValueOfShowNat(n: nat)
    ensures DigitsValue(ShowNat(n)) == n
  {
    var r := ShowNat(n);
    if n < 10 {
      assert r[..0] == [];
    } else {
      assert r[..|r| - 1] == ShowNat(n / 10);
      DigitsValueOfShowNat(n / 10);
    }
  }
}
