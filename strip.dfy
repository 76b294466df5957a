/**
 * Python's `str.strip()` with no argument, as applied to every column name
 * (app.py:13): leading and trailing whitespace is removed, nothing else
 * changes.
 */
module Strip {

  /** Python's `str.isspace` for a single character, written out by code point. */
  predicate IsSpace(c: char) {
    var n := c as int;
    || (0x09 <= n <= 0x0D)
    || (0x1C <= n <= 0x20)
    || n == 0x85 || n == 0xA0 || n == 0x1680
    || (0x2000 <= n <= 0x200A)
    || n == 0x2028 || n == 0x2029 || n == 0x202F || n == 0x205F || n == 0x3000
  }

  predicate AllSpace(s: string) {
    forall i :: 0 <= i < |s| ==> IsSpace(s[i])
  }

  /** `s` is already stripped: empty, or neither end is whitespace. */
  predicate Trimmed(s: string) {
    s == [] || (!IsSpace(s[0]) && !IsSpace(s[|s| - 1]))
  }

  /** `str.lstrip()`: the suffix of `s` left after its leading whitespace. */
  function StripStart(s: string): (r: string)
    ensures |r| <= |s| && r == s[|s| - |r|..]
    ensures AllSpace(s[..|s| - |r|])
    ensures r == [] || !IsSpace(r[0])
  {
    if s != [] && IsSpace(s[0]) then
      var r := StripStart(s[1..]);
      assert forall i :: 0 < i < |s| - |r| ==> s[i] == s[1..][..|s| - 1 - |r|][i - 1];
      r
    else
      s
  }

  /** `str.rstrip()`: the prefix of `s` left before its trailing whitespace. */
  function StripEnd(s: string): (r: string)
    ensures |r| <= |s| && r == s[..|r|]
    ensures AllSpace(s[|r|..])
    ensures r == [] || !IsSpace(r[|r| - 1])
  {
    if s != [] && IsSpace(s[|s| - 1]) then
      var r := StripEnd(s[..|s| - 1]);
      assert forall i :: |r| <= i < |s| - 1 ==> s[i] == s[..|s| - 1][|r|..][i - |r|];
      r
    else
      s
  }

  /** Number of leading whitespace characters of `s`. */
  function LeadingSpace(s: string): nat {
    |s| - |StripStart(s)|
  }

  /**
   * `str.strip()`: a contiguous slice of `s` whose surroundings are all
   * whitespace and whose own ends are not.
   */
  function StripName(s: string): (r: string)
    ensures LeadingSpace(s) + |r| <= |s|
    ensures r == s[LeadingSpace(s)..LeadingSpace(s) + |r|]
    ensures AllSpace(s[..LeadingSpace(s)]) && AllSpace(s[LeadingSpace(s) + |r|..])
    ensures Trimmed(r)
  {
    var t := StripStart(s);
    var r := StripEnd(t);
    assert s[LeadingSpace(s)..LeadingSpace(s) + |r|] == r;
    assert s[LeadingSpace(s) + |r|..] == t[|r|..];
    r
  }

  lemma {:induction false} StripStartOver(a: string, m: string)
    requires AllSpace(a) && (m == [] || !IsSpace(m[0]))
    ensures StripStart(a + m) == m
  {
    if a != [] {
      assert (a + m)[1..] == a[1..] + m;
      StripStartOver(a[1..], m);
    } else {
      assert a + m == m;
    }
  }

  lemma {:induction false} StripEndOver(m: string, b: string)
    requires AllSpace(b) && (m == [] || !IsSpace(m[|m| - 1]))
    ensures StripEnd(m + b) == m
  {
    if b != [] {
      assert (m + b)[..|m + b| - 1] == m + b[..|b| - 1];
      StripEndOver(m, b[..|b| - 1]);
    } else {
      assert m + b == m;
    }
  }

  /**
   * Strip is exactly "remove the whitespace around the text": for any split of
   * `s` into whitespace, a trimmed middle and whitespace, the middle is the result.
   */
  lemma StripNameCharacterised(a: string, m: string, b: string)
    requires AllSpace(a) && Trimmed(m) && AllSpace(b)
    ensures StripName(a + m + b) == m
  {
    if m == [] {
      assert a + m + b == a + b;
      assert AllSpace(a + b);
      StripStartOver(a + b, []);
      assert (a + b) + [] == a + b;
    } else {
      assert a + m + b == a + (m + b);
      StripStartOver(a, m + b);
      StripEndOver(m, b);
    }
  }

  /** Stripping a second time changes nothing. */
  lemma StripNameIdempotent(s: string)
    ensures StripName(StripName(s)) == StripName(s)
  {
  }

  /** Stripping the header (app.py:13): every column name stripped, in place and in order. */
  function StripColumns(columns: seq<string>): (r: seq<string>)
    ensures |r| == |columns|
  {
    seq(|columns|, i requires 0 <= i < |columns| => StripName(columns[i]))
  }

  /** Stripping the header strips every name, position by position. */
  lemma StripColumnsElementwise(columns: seq<string>)
    ensures forall k :: 0 <= k < |columns| ==> StripColumns(columns)[k] == StripName(columns[k])
  {
  }
}
