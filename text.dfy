/**
 * The pieces of Go's `strings` and `strconv` packages that the relay utility
 * relies on, stated over `string`, a sequence of characters. Go's strings are
 * UTF-8 bytes; here one character stands for one byte where the program counts
 * bytes, and for one rune where it decodes runes (`unicode.IsSpace`).
 */
module Text {
  import opened Wrappers
  import opened Ints

  // ---------------------------------------------------------------------------
  // Prefixes and substrings
  // ---------------------------------------------------------------------------

  /** `strings.HasPrefix`. */
  predicate HasPrefix(s: string, prefix: string) {
    |prefix| <= |s| && s[..|prefix|] == prefix
  }

  /** `strings.TrimPrefix`: drop one leading copy of `prefix`, if there is one. */
  function TrimPrefix(s: string, prefix: string): (r: string)
    ensures HasPrefix(s, prefix) ==> s == prefix + r
    ensures !HasPrefix(s, prefix) ==> r == s
  {
    if HasPrefix(s, prefix) then s[|prefix|..] else s
  }

  /** `strings.Contains`. */
  predicate Contains(s: string, sub: string)
    decreases |s|
  {
    HasPrefix(s, sub) || (|s| > 0 && Contains(s[1..], sub))
  }

  /** A string that has `sub` at some offset contains it. */
  lemma {:induction false} ContainsAt(pre: string, sub: string, post: string)
    ensures Contains(pre + sub + post, sub)
    decreases |pre|
  {
    var s := pre + sub + post;
    if pre == [] {
      assert s[..|sub|] == sub;
    } else {
      assert s[1..] == pre[1..] + sub + post;
      ContainsAt(pre[1..], sub, post);
    }
  }

  // ---------------------------------------------------------------------------
  // Trimming
  // ---------------------------------------------------------------------------

  /** `unicode.IsSpace`, the test `strings.TrimSpace` applies. */
  predicate IsSpace(c: char) {
    c == ' ' || (9 <= c as int <= 13) || c as int == 0x85 || c as int == 0xA0
    || c as int == 0x1680 || (0x2000 <= c as int <= 0x200A) || c as int == 0x2028
    || c as int == 0x2029 || c as int == 0x202F || c as int == 0x205F || c as int == 0x3000
  }

  function TrimLeftSpace(s: string): (r: string)
    ensures |r| <= |s|
  {
    if s != [] && IsSpace(s[0]) then TrimLeftSpace(s[1..]) else s
  }

  function TrimRightSpace(s: string): (r: string)
    ensures |r| <= |s|
  {
    if s != [] && IsSpace(s[|s| - 1]) then TrimRightSpace(s[..|s| - 1]) else s
  }

  /** `strings.TrimSpace`. */
  function TrimSpace(s: string): string {
    TrimRightSpace(TrimLeftSpace(s))
  }

  /** `TrimLeftSpace` drops exactly the leading white space. */
  lemma {:induction false} TrimLeftSpaceDrops(s: string)
    ensures var r := TrimLeftSpace(s);
      && r == s[|s| - |r|..]
      && (r == [] || !IsSpace(r[0]))
      && (forall i :: 0 <= i < |s| - |r| ==> IsSpace(s[i]))
  {
    if s != [] && IsSpace(s[0]) {
      TrimLeftSpaceDrops(s[1..]);
    }
  }

  /** `TrimRightSpace` drops exactly the trailing white space. */
  lemma {:induction false} TrimRightSpaceDrops(s: string)
    ensures var r := TrimRightSpace(s);
      && r == s[..|r|]
      && (r == [] || !IsSpace(r[|r| - 1]))
      && (forall i :: |r| <= i < |s| ==> IsSpace(s[i]))
  {
    if s != [] && IsSpace(s[|s| - 1]) {
      TrimRightSpaceDrops(s[..|s| - 1]);
    }
  }

  /**
   * The result of `strings.TrimSpace` is the part of `s` between its leading
   * and trailing white space: the slice `s[i..i + |r|]` with only white space
   * before and after it, empty exactly when `s` is all white space, and
   * otherwise with neither end white space.
   */
  lemma TrimSpaceTrims(s: string)
    ensures var r := TrimSpace(s);
            var i := |s| - |TrimLeftSpace(s)|;
      && i + |r| <= |s|
      && r == s[i..i + |r|]
      && (forall k :: 0 <= k < i ==> IsSpace(s[k]))
      && (forall k :: i + |r| <= k < |s| ==> IsSpace(s[k]))
      && (r == [] || (!IsSpace(r[0]) && !IsSpace(r[|r| - 1])))
      && (r == [] <==> forall k :: 0 <= k < |s| ==> IsSpace(s[k]))
  {
    var l := TrimLeftSpace(s);
    var r := TrimSpace(s);
    TrimLeftSpaceDrops(s);
    TrimRightSpaceDrops(l);
    var i := |s| - |l|;
    assert r == s[i..i + |r|];
    forall k | i + |r| <= k < |s|
      ensures IsSpace(s[k])
    {
      assert s[k] == l[k - i];
    }
    if r != [] {
      assert r[0] == l[0];
    }
  }

  /** A string without white space at either end is its own trimmed form. */
  lemma TrimSpaceOfTrimmed(s: string)
    requires s == [] || (!IsSpace(s[0]) && !IsSpace(s[|s| - 1]))
    ensures TrimSpace(s) == s
  {
  }

  /** `strings.Trim(s, string(c))`: drop every leading and trailing `c`. */
  function TrimChar(s: string, c: char): (r: string)
    ensures r == [] || (r[0] != c && r[|r| - 1] != c)
    ensures (forall i :: 0 <= i < |s| ==> s[i] != c) ==> r == s
    decreases |s|
  {
    if s != [] && s[0] == c then TrimChar(s[1..], c)
    else if s != [] && s[|s| - 1] == c then TrimChar(s[..|s| - 1], c)
    else s
  }

  /**
   * The result of `strings.Trim(s, string(c))` is the slice of `s` left after
   * its leading run and its trailing run of `c`; `i` is where it starts.
   */
  lemma {:induction false} TrimCharSlice(s: string, c: char) returns (i: nat)
    ensures var r := TrimChar(s, c);
      && i + |r| <= |s|
      && r == s[i..i + |r|]
      && (forall k :: 0 <= k < i ==> s[k] == c)
      && (forall k :: i + |r| <= k < |s| ==> s[k] == c)
    decreases |s|
  {
    if s != [] && s[0] == c {
      var j := TrimCharSlice(s[1..], c);
      i := j + 1;
      var r := TrimChar(s, c);
      assert r == s[1..][j..j + |r|];
      forall k | 0 < k < i
        ensures s[k] == c
      {
        assert s[k] == s[1..][k - 1];
      }
      forall k | i + |r| <= k < |s|
        ensures s[k] == c
      {
        assert s[k] == s[1..][k - 1];
      }
    } else if s != [] && s[|s| - 1] == c {
      var t := s[..|s| - 1];
      i := TrimCharSlice(t, c);
      var r := TrimChar(s, c);
      assert r == t[i..i + |r|];
      assert t[0] == s[0];
      assert i == 0;
      forall k | i + |r| <= k < |s|
        ensures s[k] == c
      {
        if k < |s| - 1 {
          assert s[k] == t[k];
        }
      }
    } else {
      i := 0;
    }
  }

  // ---------------------------------------------------------------------------
  // Splitting and joining on one separator character
  // ---------------------------------------------------------------------------

  /** `strings.Split(s, string(sep))`: never empty, and no piece holds the separator. */
  function Split(s: string, sep: char): (parts: seq<string>)
    ensures |parts| >= 1
    ensures forall i :: 0 <= i < |parts| ==> sep !in parts[i]
  {
    if s == [] then [""]
    else if s[0] == sep then [""] + Split(s[1..], sep)
    else
      var rest := Split(s[1..], sep);
      [[s[0]] + rest[0]] + rest[1..]
  }

  /** `strings.Join(parts, string(sep))`. */
  function Join(parts: seq<string>, sep: char): string
  {
    if parts == [] then ""
    else if |parts| == 1 then parts[0]
    else parts[0] + [sep] + Join(parts[1..], sep)
  }

  /** Joining the pieces of a split gives back the original text. */
  lemma {:induction false} JoinSplit(s: string, sep: char)
    ensures Join(Split(s, sep), sep) == s
  {
    if s == [] {
    } else if s[0] == sep {
      JoinSplit(s[1..], sep);
    } else {
      var rest := Split(s[1..], sep);
      JoinSplit(s[1..], sep);
      if |rest| == 1 {
      } else {
        var parts := [[s[0]] + rest[0]] + rest[1..];
        assert parts[1..] == rest[1..];
        assert Join(rest, sep) == rest[0] + [sep] + Join(rest[1..], sep);
      }
    }
  }

  /** A piece without the separator, followed by the separator, splits off as one piece. */
  lemma {:induction false} SplitCons(p: string, sep: char, t: string)
    requires sep !in p
    ensures Split(p + [sep] + t, sep) == [p] + Split(t, sep)
    decreases |p|
  {
    if p == [] {
      assert p + [sep] + t == [sep] + t;
      assert ([sep] + t)[1..] == t;
    } else {
      var s := p + [sep] + t;
      assert s[1..] == p[1..] + [sep] + t;
      SplitCons(p[1..], sep, t);
      assert [p[0]] + p[1..] == p;
    }
  }

  /** A text without the separator is a single piece. */
  lemma {:induction false} SplitNoSep(p: string, sep: char)
    requires sep !in p
    ensures Split(p, sep) == [p]
  {
    if p != [] {
      SplitNoSep(p[1..], sep);
      assert [p[0]] + p[1..] == p;
    }
  }

  /** A separator followed by a last piece without one splits off that piece at the end. */
  lemma {:induction false} SplitSnoc(x: string, sep: char, p: string)
    requires sep !in p
    ensures Split(x + [sep] + p, sep) == Split(x, sep) + [p]
    decreases |x|
  {
    var s := x + [sep] + p;
    if x == [] {
      assert s == [sep] + p;
      assert s[1..] == p;
      SplitNoSep(p, sep);
    } else {
      assert s[0] == x[0];
      assert s[1..] == x[1..] + [sep] + p;
      SplitSnoc(x[1..], sep, p);
    }
  }

  /** Joining one more piece adds the separator and that piece at the end. */
  lemma {:induction false} JoinSnoc(parts: seq<string>, sep: char, last: string)
    requires |parts| >= 1
    ensures Join(parts + [last], sep) == Join(parts, sep) + [sep] + last
  {
    var all := parts + [last];
    assert all[1..] == parts[1..] + [last];
    if |parts| > 1 {
      JoinSnoc(parts[1..], sep, last);
    } else {
      assert all[1..] == [last];
    }
  }

  /** Splitting a join gives back the pieces, when no piece holds the separator. */
  lemma {:induction false} SplitJoin(parts: seq<string>, sep: char)
    requires |parts| >= 1
    requires forall i :: 0 <= i < |parts| ==> sep !in parts[i]
    ensures Split(Join(parts, sep), sep) == parts
  {
    if |parts| == 1 {
      SplitNoSep(parts[0], sep);
    } else {
      SplitJoin(parts[1..], sep);
      SplitCons(parts[0], sep, Join(parts[1..], sep));
    }
  }

  // ---------------------------------------------------------------------------
  // Integers as text (strconv)
  // ---------------------------------------------------------------------------

  /** The value of a digit in bases up to 16 (either letter case), or -1. */
  function DigitValue(c: char): (v: int)
    ensures -1 <= v < 16
  {
    if '0' <= c <= '9' then c as int - '0' as int
    else if 'a' <= c <= 'f' then c as int - 'a' as int + 10
    else if 'A' <= c <= 'F' then c as int - 'A' as int + 10
    else -1
  }

  predicate IsDigitIn(c: char, base: nat) {
    0 <= DigitValue(c) < base
  }

  predicate AllDigits(s: string, base: nat) {
    forall i :: 0 <= i < |s| ==> IsDigitIn(s[i], base)
  }

  /** The number a digit string denotes, most significant digit first. */
  function DigitsValue(s: string, base: nat): nat
    requires AllDigits(s, base)
  {
    if s == [] then 0 else DigitsValue(s[..|s| - 1], base) * base + DigitValue(s[|s| - 1])
  }

  /** The lower-case digit for `d`, as `strconv` writes it. */
  function DigitChar(d: nat): (c: char)
    requires d < 16
    ensures DigitValue(c) == d
  {
    if d < 10 then ('0' as int + d) as char else ('a' as int + d - 10) as char
  }

  /** The digits of `n` in `base`, without leading zeros. */
  function NatDigits(n: nat, base: nat): (s: string)
    requires 2 <= base <= 16
    ensures |s| >= 1 && AllDigits(s, base)
    ensures '-' !in s && '+' !in s && ',' !in s
    ensures n > 0 ==> s[0] != '0'
    ensures n == 0 ==> s == "0"
    decreases n
  {
    if n < base then
      var s := [DigitChar(n)];
      NoSignsInDigits(s, base);
      assert DigitValue('0') == 0;
      s
    else
      DivisionShrinks(n, base);
      var s := DigitsSnoc(NatDigits(n / base, base), n % base, base);
      NoSignsInDigits(s, base);
      s
  }

  /** Dividing by a base of at least two shrinks a positive number and leaves a remainder below the base. */
  lemma DivisionShrinks(n: nat, base: nat)
    requires 2 <= base <= n
    ensures 0 <= n / base < n && 0 <= n % base < base
  {
  }

  /** One more digit after a digit string. */
  function DigitsSnoc(p: string, d: nat, base: nat): (s: string)
    requires AllDigits(p, base) && d < base <= 16
    ensures s == p + [DigitChar(d)] && AllDigits(s, base)
  {
    var s := p + [DigitChar(d)];
    assert forall i :: 0 <= i < |p| ==> s[i] == p[i];
    s
  }

  /** Digit strings hold no sign and no thousands separator. */
  lemma NoSignsInDigits(s: string, base: nat)
    requires AllDigits(s, base)
    ensures '-' !in s && '+' !in s && ',' !in s
  {
    assert !IsDigitIn('-', base) && !IsDigitIn('+', base) && !IsDigitIn(',', base);
  }

  /** Reading back the digits of `n` gives `n`. */
  lemma {:induction false} NatDigitsValue(n: nat, base: nat)
    requires 2 <= base <= 16
    ensures DigitsValue(NatDigits(n, base), base) == n
    decreases n
  {
    if n < base {
      var s := [DigitChar(n)];
      assert s[..0] == [];
      assert DigitsValue(s, base) == DigitsValue([], base) * base + n;
    } else {
      var q, d := n / base, n % base;
      var p := NatDigits(q, base);
      var s := p + [DigitChar(d)];
      assert NatDigits(n, base) == s;
      assert s[..|s| - 1] == p;
      assert DigitValue(s[|s| - 1]) == d;
      DivLess(n, base);
      NatDigitsValue(q, base);
      assert DigitsValue(s, base) == DigitsValue(p, base) * base + d;
      DivMod(n, base);
    }
  }

  lemma DivLess(n: nat, base: nat)
    requires base >= 2 && n >= 1
    ensures n / base < n
  {
  }

  lemma DivMod(n: nat, base: nat)
    requires base > 0
    ensures n == (n / base) * base + n % base
  {
  }

  /** `strconv.Itoa` (and `fmt`'s `%d`/`%v` of an integer). */
  function Itoa(n: int): (s: string)
    ensures |s| >= 1
    ensures n < 0 <==> s[0] == '-'
    ensures n == 0 <==> s == "0"
    ensures n > 0 ==> s[0] != '0'
    ensures n < 0 ==> |s| >= 2 && s[1] != '0'
  {
    if n < 0 then "-" + NatDigits(-n, 10) else NatDigits(n, 10)
  }

  /**
   * `strconv.ParseInt(s, base, 64)` for an explicit base (10 or 16): an optional
   * sign, at least one digit of the base and nothing else, and a value that fits
   * in 64 bits. `strconv.Atoi` is the base-10 case.
   */
  function ParseInt(s: string, base: nat): (r: Option<int>)
    requires 2 <= base <= 16
    ensures r.Some? ==> MinInt64 <= r.value <= MaxInt64
    ensures s == [] ==> r.None?
  {
    if s == [] then None
    else
      var body := if s[0] == '-' || s[0] == '+' then s[1..] else s;
      if body == [] || !AllDigits(body, base) then None
      else
        var magnitude: int := DigitsValue(body, base);
        var v: int := if s[0] == '-' then -magnitude else magnitude;
        if MinInt64 <= v <= MaxInt64 then Some(v) else None
  }

  /**
   * What `strconv.ParseInt` accepts: a sign (`-`, `+` or none) followed by
   * digits of the base, at least one, whose signed value fits in 64 bits; the
   * value is then the digits' value with the sign applied. Any text splits
   * this way (a text not starting with a sign has the empty sign).
   */
  lemma ParseIntDigits(sign: string, d: string, base: nat)
    requires 2 <= base <= 16
    requires sign == "" || sign == "-" || sign == "+"
    requires sign == "" ==> d == [] || (d[0] != '-' && d[0] != '+')
    ensures ParseInt(sign + d, base).Some? <==>
      && d != [] && AllDigits(d, base)
      && var m: int := DigitsValue(d, base);
         MinInt64 <= (if sign == "-" then -m else m) <= MaxInt64
    ensures ParseInt(sign + d, base).Some? ==>
      var m: int := DigitsValue(d, base);
      ParseInt(sign + d, base).value == if sign == "-" then -m else m
  {
    var s := sign + d;
    if sign != "" {
      assert s[0] == sign[0] && s[1..] == d;
    } else {
      assert s == d;
    }
  }

  /** `strconv.Atoi`. */
  function Atoi(s: string): Option<int> {
    ParseInt(s, 10)
  }

  /** Every 64-bit integer survives `strconv.Atoi(strconv.Itoa(n))`. */
  lemma AtoiItoa(n: int)
    requires MinInt64 <= n <= MaxInt64
    ensures Atoi(Itoa(n)) == Some(n)
  {
    if n < 0 {
      NatDigitsValue(-n, 10);
      ParseSignedDigits("-", NatDigits(-n, 10), n);
    } else {
      var d := NatDigits(n, 10);
      NatDigitsValue(n, 10);
      assert d[0] in d;
      assert "" + d == d;
      ParseSignedDigits("", d, n);
    }
  }

  /** An optional minus sign followed by decimal digits parses as their (signed) value, when it fits. */
  lemma ParseSignedDigits(sign: string, d: string, v: int)
    requires sign == "" || sign == "-"
    requires d != [] && AllDigits(d, 10) && d[0] != '-' && d[0] != '+'
    requires var m: int := DigitsValue(d, 10); v == if sign == "-" then -m else m
    requires MinInt64 <= v <= MaxInt64
    ensures ParseInt(sign + d, 10) == Some(v)
  {
    var s := sign + d;
    if sign == "-" {
      assert s[0] == '-' && s[1..] == d;
    } else {
      assert s == d;
    }
  }
}
