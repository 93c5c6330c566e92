/** The few Python string operations that variable-name decoding uses. */
module Text {
  import opened Wrappers

  /** No character of `s` is `c`. */
  predicate Avoids(s: string, c: char)
  {
    forall k :: 0 <= k < |s| ==> s[k] != c
  }

  /** `s.replace(pat, repl)`: every occurrence of `pat`, found left to right
      without overlap, replaced by `repl`. */
  function Replace(s: string, pat: string, repl: string): string
    requires |pat| > 0
    decreases |s|
  {
    if |s| < |pat| then s
    else if s[..|pat|] == pat then repl + Replace(s[|pat|..], pat, repl)
    else [s[0]] + Replace(s[1..], pat, repl)
  }

  /** Text that cannot start an occurrence of `pat` is copied unchanged. */
  lemma {:induction false} ReplaceSkips(a: string, b: string, pat: string, repl: string)
    requires |pat| > 0 && Avoids(a, pat[0])
    ensures Replace(a + b, pat, repl) == a + Replace(b, pat, repl)
  {
    var s := a + b;
    if a == [] {
      assert s == b;
    } else if |s| < |pat| {
      // b is shorter than pat too, and both are left as they are
      assert Replace(s, pat, repl) == s;
      assert Replace(b, pat, repl) == b;
    } else {
      assert s[..|pat|][0] == a[0] != pat[0];
      assert Replace(s, pat, repl) == [a[0]] + Replace(s[1..], pat, repl);
      assert s[1..] == a[1..] + b;
      ReplaceSkips(a[1..], b, pat, repl);
      assert [a[0]] + a[1..] == a;
    }
  }

  /** An occurrence at the front is replaced. */
  lemma ReplaceFront(pat: string, repl: string, b: string)
    requires |pat| > 0
    ensures Replace(pat + b, pat, repl) == repl + Replace(b, pat, repl)
  {
    assert (pat + b)[..|pat|] == pat && (pat + b)[|pat|..] == b;
  }

  /** `s.split(sep)`: the pieces between the occurrences of `sep`, found left
      to right without overlap; always at least one piece. */
  function Split(s: string, sep: string): (parts: seq<string>)
    requires |sep| > 0
    ensures |parts| >= 1
    decreases |s|
  {
    if |s| < |sep| then [s]
    else if s[..|sep|] == sep then [""] + Split(s[|sep|..], sep)
    else
      var rest := Split(s[1..], sep);
      [[s[0]] + rest[0]] + rest[1..]
  }

  /** Text without the first character of `sep` is one piece. */
  lemma {:induction false} SplitWhole(a: string, sep: string)
    requires |sep| > 0 && Avoids(a, sep[0])
    ensures Split(a, sep) == [a]
  {
    if |a| >= |sep| {
      assert a[..|sep|][0] == a[0];
      SplitWhole(a[1..], sep);
      assert [a[0]] + a[1..] == a;
    }
  }

  /** Text before the first occurrence of `sep` is the first piece. */
  lemma {:induction false} SplitFirst(a: string, sep: string, b: string)
    requires |sep| > 0 && Avoids(a, sep[0])
    ensures Split(a + sep + b, sep) == [a] + Split(b, sep)
  {
    var s := a + sep + b;
    if a == [] {
      assert s == sep + b;
      assert s[..|sep|] == sep && s[|sep|..] == b;
    } else {
      assert s[1..] == a[1..] + sep + b;
      assert s[..|sep|][0] == a[0];
      SplitFirst(a[1..], sep, b);
      assert [a[0]] + a[1..] == a;
    }
  }

  predicate IsDigit(c: char)
  {
    '0' <= c <= '9'
  }

  predicate AllDigits(s: string)
  {
    forall k :: 0 <= k < |s| ==> IsDigit(s[k])
  }

  function DigitChar(d: nat): (c: char)
    requires d < 10
    ensures IsDigit(c)
  {
    ('0' as int + d) as char
  }

  /** `str(n)` for a nonnegative integer: its decimal digits. */
  function Decimal(n: nat): (s: string)
    ensures |s| >= 1 && AllDigits(s)
  {
    if n < 10 then [DigitChar(n)] else Decimal(n / 10) + [DigitChar(n % 10)]
  }

  /** The value of a string of decimal digits. */
  function DigitsValue(s: string): nat
    requires AllDigits(s)
  {
    if s == [] then 0
    else 10 * DigitsValue(s[..|s| - 1]) + (s[|s| - 1] as int - '0' as int)
  }

  /** `int(s)` on the strings it can meet here: a nonempty run of decimal
      digits; anything else raises `ValueError`, modelled as `None`. */
  function ParseNat(s: string): (r: Option<nat>)
  {
    if s != [] && AllDigits(s) then Some(DigitsValue(s)) else None
  }

  /** `int(str(n)) == n`. */
  lemma {:induction false} ParseDecimal(n: nat)
    ensures ParseNat(Decimal(n)) == Some(n)
  {
    var s := Decimal(n);
    if n >= 10 {
      ParseDecimal(n / 10);
      assert s[..|s| - 1] == Decimal(n / 10);
      assert s[|s| - 1] as int - '0' as int == n % 10;
      assert DigitsValue(s) == 10 * (n / 10) + n % 10;
    } else {
      assert s[..|s| - 1] == [];
      assert DigitsValue(s) == n;
    }
  }
}
