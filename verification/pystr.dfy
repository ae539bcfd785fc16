/**
 Python's argument-less `str.strip()`, as the preprocessor uses it to recognise
 its marker line: leading and trailing whitespace is removed, where whitespace
 is every character for which Python 3's `str.isspace()` holds (this includes
 the line terminator `\n` that the file iterator leaves on each line).
 */
module PyStr {

  /** Python 3's `str.isspace()` for one character. */
  predicate IsSpace(c: char) {
    var k := c as int;
    (0x09 <= k <= 0x0D) || (0x1C <= k <= 0x20) || k == 0x85 || k == 0xA0 || k == 0x1680
    || (0x2000 <= k <= 0x200A) || k == 0x2028 || k == 0x2029 || k == 0x202F
    || k == 0x205F || k == 0x3000
  }

  predicate AllSpace(s: string) {
    forall i :: 0 <= i < |s| ==> IsSpace(s[i])
  }

  /** A string that `strip()` leaves as it is: empty, or bounded by non-whitespace. */
  predicate Trimmed(s: string) {
    s == [] || (!IsSpace(s[0]) && !IsSpace(s[|s| - 1]))
  }

  /** `str.lstrip()`: `s` without its leading whitespace. */
  function TrimLeft(s: string): string
    decreases |s|
  {
    if s != [] && IsSpace(s[0]) then TrimLeft(s[1..]) else s
  }

  /** `str.rstrip()`: `s` without its trailing whitespace. */
  function TrimRight(s: string): string
    decreases |s|
  {
    if s != [] && IsSpace(s[|s| - 1]) then TrimRight(s[..|s| - 1]) else s
  }

  /** `lstrip()` returns a suffix of `s`; everything it removes is whitespace, and what it
      keeps is empty or starts with non-whitespace. */
  lemma {:induction false} TrimLeftSpec(s: string)
    ensures var r := TrimLeft(s);
            |r| <= |s| && r == s[|s| - |r|..] && AllSpace(s[..|s| - |r|])
            && (r == [] || !IsSpace(r[0]))
    decreases |s|
  {
    if s != [] && IsSpace(s[0]) {
      TrimLeftSpec(s[1..]);
      var r := TrimLeft(s[1..]);
      assert s[..|s| - |r|] == [s[0]] + s[1..][..|s| - 1 - |r|];
    }
  }

  /** `rstrip()` returns a prefix of `s`; everything it removes is whitespace, and what it
      keeps is empty or ends in non-whitespace. */
  lemma {:induction false} TrimRightSpec(s: string)
    ensures var r := TrimRight(s);
            |r| <= |s| && r == s[..|r|] && AllSpace(s[|r|..])
            && (r == [] || !IsSpace(r[|r| - 1]))
    decreases |s|
  {
    if s != [] && IsSpace(s[|s| - 1]) {
      TrimRightSpec(s[..|s| - 1]);
      var r := TrimRight(s[..|s| - 1]);
      assert s[|r|..] == s[..|s| - 1][|r|..] + [s[|s| - 1]];
    }
  }

  /** The number of whitespace characters `s` starts with. */
  function LeadingSpaces(s: string): (n: nat)
    ensures n <= |s| && AllSpace(s[..n])
    ensures n == |s| || !IsSpace(s[n])
  {
    TrimLeftSpec(s);
    |s| - |TrimLeft(s)|
  }

  /** `str.strip()`: `s` with all leading and trailing whitespace removed. */
  function Strip(s: string): string {
    TrimRight(TrimLeft(s))
  }

  /** What `strip()` returns is the slice of `s` that starts after its leading whitespace
      and is followed by whitespace only; it has no whitespace at either end. */
  lemma StripShape(s: string)
    ensures var r := Strip(s);
            Trimmed(r) && LeadingSpaces(s) + |r| <= |s|
            && s[LeadingSpaces(s)..LeadingSpaces(s) + |r|] == r
            && AllSpace(s[LeadingSpaces(s) + |r|..])
  {
    var t := TrimLeft(s);
    var r := TrimRight(t);
    TrimLeftSpec(s);
    TrimRightSpec(t);
    var i := |s| - |t|;
    assert s[i + |r|..] == t[|r|..];
  }

  lemma {:induction false} TrimLeftSkipsSpace(a: string, t: string)
    requires AllSpace(a)
    requires t == [] || !IsSpace(t[0])
    ensures TrimLeft(a + t) == t
    decreases |a|
  {
    if a == [] {
      assert a + t == t;
    } else {
      assert (a + t)[1..] == a[1..] + t;
      TrimLeftSkipsSpace(a[1..], t);
    }
  }

  lemma {:induction false} TrimRightSkipsSpace(t: string, b: string)
    requires AllSpace(b)
    requires t == [] || !IsSpace(t[|t| - 1])
    ensures TrimRight(t + b) == t
    decreases |b|
  {
    if b == [] {
      assert t + b == t;
    } else {
      var b' := b[..|b| - 1];
      assert (t + b)[..|t + b| - 1] == t + b';
      TrimRightSkipsSpace(t, b');
    }
  }

  /** Whatever whitespace surrounds a trimmed string, `strip()` recovers exactly that string. */
  lemma StripUnique(a: string, m: string, b: string)
    requires AllSpace(a) && AllSpace(b) && Trimmed(m)
    ensures Strip(a + m + b) == m
  {
    if m == [] {
      assert a + m + b == (a + b) + m;
      TrimLeftSkipsSpace(a + b, m);
    } else {
      assert a + m + b == a + (m + b);
      TrimLeftSkipsSpace(a, m + b);
      TrimRightSkipsSpace(m, b);
    }
  }
}
