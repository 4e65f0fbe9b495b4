/** String operations of Go's `strings` package and of the JavaScript
    runtime that the proxy and the console rely on, on `seq<char>`. */
module Text {

  /** Go's `strings.HasPrefix`. */
  predicate HasPrefix(s: string, prefix: string) {
    |prefix| <= |s| && s[..|prefix|] == prefix
  }

  /** Go's `strings.TrimPrefix`: removes `prefix` once, if `s` starts with it. */
  function TrimPrefix(s: string, prefix: string): (r: string)
    ensures HasPrefix(s, prefix) ==> s == prefix + r
    ensures !HasPrefix(s, prefix) ==> r == s
  {
    if HasPrefix(s, prefix) then s[|prefix|..] else s
  }

  /** Go's `unicode.IsSpace`: the Latin-1 spaces and the Unicode White_Space runes. */
  predicate IsSpace(c: char) {
    var n := c as int;
    (0x09 <= n <= 0x0D) || n == 0x20 || n == 0x85 || n == 0xA0 || n == 0x1680
    || (0x2000 <= n <= 0x200A) || n == 0x2028 || n == 0x2029 || n == 0x202F
    || n == 0x205F || n == 0x3000
  }

  /** Go's `strings.TrimLeftFunc(s, unicode.IsSpace)`. */
  function TrimLeftSpace(s: string): (r: string)
    ensures |r| <= |s|
  {
    if s != [] && IsSpace(s[0]) then TrimLeftSpace(s[1..]) else s
  }

  /** What TrimLeftSpace removes is white space, and what it keeps is a
      suffix that does not start with white space. */
  lemma {:induction false} TrimLeftSpaceShape(s: string)
    ensures TrimLeftSpace(s) == s[|s| - |TrimLeftSpace(s)|..]
    ensures TrimLeftSpace(s) == [] || !IsSpace(TrimLeftSpace(s)[0])
    ensures forall i :: 0 <= i < |s| - |TrimLeftSpace(s)| ==> IsSpace(s[i])
  {
    if s != [] && IsSpace(s[0]) {
      TrimLeftSpaceShape(s[1..]);
    }
  }

  /** Go's `strings.TrimRightFunc(s, unicode.IsSpace)`. */
  function TrimRightSpace(s: string): (r: string)
    ensures |r| <= |s|
  {
    if s != [] && IsSpace(s[|s| - 1]) then TrimRightSpace(s[..|s| - 1]) else s
  }

  /** What TrimRightSpace removes is white space, and what it keeps is a
      prefix that does not end with white space. */
  lemma {:induction false} TrimRightSpaceShape(s: string)
    ensures TrimRightSpace(s) == s[..|TrimRightSpace(s)|]
    ensures TrimRightSpace(s) == [] || !IsSpace(TrimRightSpace(s)[|TrimRightSpace(s)| - 1])
    ensures forall i :: |TrimRightSpace(s)| <= i < |s| ==> IsSpace(s[i])
  {
    if s != [] && IsSpace(s[|s| - 1]) {
      TrimRightSpaceShape(s[..|s| - 1]);
    }
  }

  /** Go's `strings.TrimSpace`. */
  function TrimSpace(s: string): string {
    TrimRightSpace(TrimLeftSpace(s))
  }

  /** TrimSpace keeps one contiguous slice of `s` that neither starts nor
      ends with white space, and everything it drops is white space. */
  lemma TrimSpaceShape(s: string)
    ensures var a := |s| - |TrimLeftSpace(s)|;
      a + |TrimSpace(s)| <= |s| && TrimSpace(s) == s[a..a + |TrimSpace(s)|]
    ensures TrimSpace(s) == [] || (!IsSpace(TrimSpace(s)[0]) && !IsSpace(TrimSpace(s)[|TrimSpace(s)| - 1]))
    ensures var a := |s| - |TrimLeftSpace(s)|;
      forall i :: 0 <= i < |s| && !(a <= i < a + |TrimSpace(s)|) ==> IsSpace(s[i])
  {
    var t := TrimLeftSpace(s);
    TrimLeftSpaceShape(s);
    TrimRightSpaceShape(t);
    var a := |s| - |t|;
    var r := TrimSpace(s);
    assert r == t[..|r|];
    assert t[..|r|] == s[a..a + |r|];
    forall i | 0 <= i < |s| && !(a <= i < a + |r|) ensures IsSpace(s[i]) {
      if i >= a {
        assert s[i] == t[i - a];
      }
    }
  }

  /** Go's `unicode.ToLower`, exact on every rune whose lower case is ASCII
      (the ASCII capitals, U+0130 and the Kelvin sign U+212A); every other
      rune is left as it is, which changes no comparison against ASCII text. */
  function LowerChar(c: char): char {
    if 'A' <= c <= 'Z' then (c as int + 32) as char
    else if c == '\U{0130}' then 'i'
    else if c == '\U{212A}' then 'k'
    else c
  }

  /** Go's `strings.ToLower`, rune by rune. */
  function ToLower(s: string): (r: string)
    ensures |r| == |s|
  {
    seq(|s|, i requires 0 <= i < |s| => LowerChar(s[i]))
  }

  /** Lower-casing leaves no ASCII capital, maps each one to its small
      letter, and keeps every other ASCII character. */
  lemma ToLowerCases(s: string)
    ensures forall i :: 0 <= i < |s| ==> !('A' <= ToLower(s)[i] <= 'Z')
    ensures forall i :: 0 <= i < |s| && 'A' <= s[i] <= 'Z' ==> ToLower(s)[i] as int == s[i] as int + 32
    ensures forall i :: 0 <= i < |s| && s[i] as int < 128 && !('A' <= s[i] <= 'Z') ==> ToLower(s)[i] == s[i]
  {
  }

  /** Lower-casing twice is lower-casing once. */
  lemma ToLowerIdempotent(s: string)
    ensures ToLower(ToLower(s)) == ToLower(s)
  {
  }

  /** Go's `strings.TrimRight(s, cutset)` for a one-character cutset:
      removes EVERY trailing `c`, not just one. */
  function TrimRightChar(s: string, c: char): (r: string)
    ensures |r| <= |s| && r == s[..|r|]
    ensures r == [] || r[|r| - 1] != c
    ensures forall i :: |r| <= i < |s| ==> s[i] == c
  {
    if s != [] && s[|s| - 1] == c then TrimRightChar(s[..|s| - 1], c) else s
  }

  /** Go's `strings.Join(parts, string(sep))`. */
  function Join(parts: seq<string>, sep: char): (r: string)
    ensures |parts| >= 1 && (forall i :: 0 <= i < |parts| ==> sep !in parts[i]) ==> Count(r, sep) == |parts| - 1
  {
    if |parts| == 0 then []
    else if |parts| == 1 then CountAbsent(parts[0], sep); parts[0]
    else
      var tail := Join(parts[1..], sep);
      CountAbsent(parts[0], sep);
      CountConcat(parts[0], [sep] + tail, sep);
      CountConcat([sep], tail, sep);
      parts[0] + ([sep] + tail)
  }

  /** Go's `strings.Split(s, string(sep))`: always at least one part (the
      empty string splits into one empty part), no part contains `sep`,
      and joining the parts gives `s` back. */
  function Split(s: string, sep: char): (parts: seq<string>)
    ensures |parts| >= 1
    ensures forall i :: 0 <= i < |parts| ==> sep !in parts[i]
    ensures Join(parts, sep) == s
  {
    if s == [] then [[]]
    else
      var rest := Split(s[1..], sep);
      if s[0] == sep then
        assert ([[]] + rest)[1..] == rest;
        [[]] + rest
      else
        var parts := [[s[0]] + rest[0]] + rest[1..];
        assert parts[1..] == rest[1..];
        assert |rest| >= 2 ==> Join(rest, sep) == rest[0] + [sep] + Join(rest[1..], sep);
        assert s == [s[0]] + s[1..];
        parts
  }

  /** Splitting `a + t` where `a` holds no separator glues `a` onto the first part of `t`. */
  lemma {:induction false} SplitAfterPlainPrefix(a: string, t: string, sep: char)
    requires sep !in a
    ensures Split(a + t, sep) == [a + Split(t, sep)[0]] + Split(t, sep)[1..]
  {
    if a != [] {
      assert (a + t)[1..] == a[1..] + t;
      SplitAfterPlainPrefix(a[1..], t, sep);
      var rest := Split(a[1..] + t, sep);
      assert Split(a + t, sep) == [[a[0]] + rest[0]] + rest[1..];
      assert [a[0]] + (a[1..] + Split(t, sep)[0]) == a + Split(t, sep)[0];
    } else {
      assert a + t == t;
      assert a + Split(t, sep)[0] == Split(t, sep)[0];
      assert Split(t, sep) == [Split(t, sep)[0]] + Split(t, sep)[1..];
    }
  }

  /** Splitting undoes joining, when no part holds the separator. */
  lemma {:induction false} SplitOfJoin(parts: seq<string>, sep: char)
    requires |parts| >= 1
    requires forall i :: 0 <= i < |parts| ==> sep !in parts[i]
    ensures Split(Join(parts, sep), sep) == parts
  {
    if |parts| == 1 {
      SplitAfterPlainPrefix(parts[0], [], sep);
      assert parts[0] + [] == parts[0];
    } else {
      var tail := Join(parts[1..], sep);
      SplitOfJoin(parts[1..], sep);
      assert Split([sep] + tail, sep) == [[]] + parts[1..] by {
        assert ([sep] + tail)[1..] == tail;
      }
      assert Join(parts, sep) == parts[0] + ([sep] + tail);
      SplitAfterPlainPrefix(parts[0], [sep] + tail, sep);
      assert parts[0] + [] == parts[0];
      assert ([[]] + parts[1..])[1..] == parts[1..];
      assert parts == [parts[0]] + parts[1..];
    }
  }

  /** The decimal digit for `d`. */
  function DigitChar(d: nat): char
    requires d < 10
  {
    "0123456789"[d]
  }

  /** The value of a decimal digit character. */
  function DigitValue(c: char): nat {
    if '0' <= c <= '9' then c as int - '0' as int else 0
  }

  /** The value of a string of decimal digits. */
  function DecimalValue(s: string): nat {
    if s == [] then 0 else 10 * DecimalValue(s[..|s| - 1]) + DigitValue(s[|s| - 1])
  }

  predicate IsDigit(c: char) {
    '0' <= c <= '9'
  }

  /** JavaScript's `String(n)` and Go's `strconv.Itoa` on a natural number:
      its decimal digits, without leading zeros. */
  function NatToString(n: nat): (s: string)
    ensures s != []
    ensures forall i :: 0 <= i < |s| ==> IsDigit(s[i])
  {
    if n < 10 then [DigitChar(n)] else NatToString(n / 10) + [DigitChar(n % 10)]
  }

  /** Reading the decimal text of `n` gives back `n`. */
  lemma {:induction false} NatToStringRoundTrip(n: nat)
    ensures DecimalValue(NatToString(n)) == n
  {
    var s := NatToString(n);
    if n < 10 {
      assert s[..0] == [];
    } else {
      NatToStringRoundTrip(n / 10);
      assert s[..|s| - 1] == NatToString(n / 10);
    }
  }

  /** Distinct numbers have distinct decimal texts. */
  lemma NatToStringInjective(m: nat, n: nat)
    ensures NatToString(m) == NatToString(n) ==> m == n
  {
    NatToStringRoundTrip(m);
    NatToStringRoundTrip(n);
  }

  /** The number of occurrences of `c` in `s`. */
  function Count(s: string, c: char): nat {
    if s == [] then 0 else (if s[0] == c then 1 else 0) + Count(s[1..], c)
  }

  /** Counting distributes over concatenation. */
  lemma {:induction false} CountConcat(a: string, b: string, c: char)
    ensures Count(a + b, c) == Count(a, c) + Count(b, c)
  {
    if a == [] {
      assert a + b == b;
    } else {
      assert (a + b)[1..] == a[1..] + b;
      CountConcat(a[1..], b, c);
    }
  }

  /** A string without `c` has no occurrence of it to count. */
  lemma {:induction false} CountAbsent(s: string, c: char)
    ensures c !in s ==> Count(s, c) == 0
  {
    if s != [] && c !in s {
      assert c !in s[1..];
      CountAbsent(s[1..], c);
    }
  }
}
