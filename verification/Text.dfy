/** The few string operations of Go's standard library the modelled code relies on. */
module Text {
  /** unicode.IsSpace. */
  predicate IsSpace(c: char) {
    || '\t' <= c <= '\r' || c == ' ' || c == '\U{85}' || c == '\U{A0}'
    || c == '\U{1680}' || '\U{2000}' <= c <= '\U{200A}' || c == '\U{2028}' || c == '\U{2029}'
    || c == '\U{202F}' || c == '\U{205F}' || c == '\U{3000}'
  }

  /** The same by code points, the Latin-1 range first. */
  lemma SpaceCodes(c: char)
    ensures IsSpace(c) <==>
            || c as int in {0x09, 0x0A, 0x0B, 0x0C, 0x0D, 0x20, 0x85, 0xA0}
            || c as int in {0x1680, 0x2028, 0x2029, 0x202F, 0x205F, 0x3000} || 0x2000 <= c as int <= 0x200A
  {
  }

  predicate AllSpace(s: string) { forall k :: 0 <= k < |s| ==> IsSpace(s[k]) }

  /** strings.ToLower on ASCII letters; other characters are left alone. */
  function LowerChar(c: char): char {
    if 'A' <= c <= 'Z' then c - 'A' + 'a' else c
  }

  function Lower(s: string): (r: string)
    ensures |r| == |s|
  {
    seq(|s|, i requires 0 <= i < |s| => LowerChar(s[i]))
  }

  /** Character by character, the letters of the alphabet move 32 places. */
  lemma LowerAt(s: string, k: nat)
    requires k < |s|
    ensures Lower(s)[k] as int == s[k] as int + if 0x41 <= s[k] as int <= 0x5A then 32 else 0
  {
  }

  function TrimLeft(s: string): string {
    if s != "" && IsSpace(s[0]) then TrimLeft(s[1..]) else s
  }

  function TrimRight(s: string): string {
    if s != "" && IsSpace(s[|s| - 1]) then TrimRight(s[..|s| - 1]) else s
  }

  /** strings.TrimSpace. */
  function Trim(s: string): string { TrimRight(TrimLeft(s)) }

  /** r is s without the white space at its two ends. */
  ghost predicate IsTrimmed(s: string, r: string) {
    exists i, j :: 0 <= i <= j <= |s| && r == s[i..j] && CutAt(s, i, j)
  }

  ghost predicate CutAt(s: string, i: int, j: int)
    requires 0 <= i <= j <= |s|
  {
    && (forall k :: 0 <= k < i || j <= k < |s| ==> IsSpace(s[k]))
    && (i < j ==> !IsSpace(s[i]) && !IsSpace(s[j - 1]))
  }

  lemma {:induction false} TrimLeftCuts(s: string)
    ensures exists i :: 0 <= i <= |s| && TrimLeft(s) == s[i..] && AllSpace(s[..i])
    ensures TrimLeft(s) != "" ==> !IsSpace(TrimLeft(s)[0])
  {
    if s != "" && IsSpace(s[0]) {
      TrimLeftCuts(s[1..]);
      var i :| 0 <= i <= |s[1..]| && TrimLeft(s) == s[1..][i..] && AllSpace(s[1..][..i]);
      assert s[1..][i..] == s[i + 1..] && s[..i + 1] == [s[0]] + s[1..][..i];
    } else {
      assert s[0..] == s && AllSpace(s[..0]);
    }
  }

  lemma {:induction false} TrimRightCuts(s: string)
    ensures |TrimRight(s)| <= |s| && TrimRight(s) == s[..|TrimRight(s)|]
    ensures forall k :: |TrimRight(s)| <= k < |s| ==> IsSpace(s[k])
    ensures TrimRight(s) != "" ==> !IsSpace(TrimRight(s)[|TrimRight(s)| - 1])
  {
    if s != "" && IsSpace(s[|s| - 1]) {
      var rest := s[..|s| - 1];
      TrimRightCuts(rest);
      assert forall k :: 0 <= k < |rest| ==> rest[k] == s[k];
    }
  }

  lemma TrimmedIsUnique(s: string, a: string, b: string)
    requires IsTrimmed(s, a) && IsTrimmed(s, b)
    ensures a == b
  {
    var i, j :| 0 <= i <= j <= |s| && a == s[i..j] && CutAt(s, i, j);
    var m, n :| 0 <= m <= n <= |s| && b == s[m..n] && CutAt(s, m, n);
    assert (i < j ==> m <= i < n && m < j <= n) && (m < n ==> i <= m < j && i < n <= j);
  }

  lemma CutTogether(s: string, i: nat, left: string, r: string)
    requires i <= |s| && left == s[i..] && AllSpace(s[..i])
    requires |r| <= |left| && r == left[..|r|] && (forall k :: |r| <= k < |left| ==> IsSpace(left[k]))
    requires r != "" ==> !IsSpace(r[0]) && !IsSpace(r[|r| - 1])
    ensures IsTrimmed(s, r)
  {
    var j := i + |r|;
    forall k | 0 <= k < i || j <= k < |s|
      ensures IsSpace(s[k])
    {
      assert k < i ==> s[k] == s[..i][k];
      assert j <= k ==> s[k] == left[k - i];
    }
    assert r == s[i..j] && CutAt(s, i, j);
  }

  /** Trimming cuts exactly the white space at the two ends. */
  lemma TrimIff(s: string, r: string)
    ensures Trim(s) == r <==> IsTrimmed(s, r)
  {
    TrimLeftCuts(s);
    var left := TrimLeft(s);
    TrimRightCuts(left);
    var i :| 0 <= i <= |s| && left == s[i..] && AllSpace(s[..i]);
    CutTogether(s, i, left, Trim(s));
    if IsTrimmed(s, r) {
      TrimmedIsUnique(s, r, Trim(s));
    }
  }

  lemma BlankIff(s: string)
    ensures Trim(s) == "" <==> AllSpace(s)
  {
    TrimIff(s, "");
    if AllSpace(s) {
      assert CutAt(s, 0, 0) && s[0..0] == "";
    }
  }

  predicate IsDigit(c: char) { '0' <= c <= '9' }

  predicate AllDigits(s: string) { forall k :: 0 <= k < |s| ==> IsDigit(s[k]) }

  function Decimal(s: string): nat
    requires AllDigits(s)
  {
    if s == "" then 0 else Decimal(s[..|s| - 1]) * 10 + (s[|s| - 1] - '0') as nat
  }

  function Digits(n: nat): (s: string)
    ensures s != "" && AllDigits(s) && Decimal(s) == n
  {
    var last := ['0' + (n % 10) as char];
    if n < 10 then
      assert last[..0] == "";
      last
    else
      assert (Digits(n / 10) + last)[..|Digits(n / 10)|] == Digits(n / 10);
      Digits(n / 10) + last
  }

  const MAX_INT64: int := 0x7FFF_FFFF_FFFF_FFFF

  /** The value of strconv.ParseInt(s, 10, 64) when its error is ignored: 0 for a
      malformed number, the nearest bound for one out of range. */
  function ParseInt(s: string): int {
    var negative := s != "" && s[0] == '-';
    var digits := if s != "" && (s[0] == '-' || s[0] == '+') then s[1..] else s;
    if digits == "" || !AllDigits(digits) then 0
    else if negative then
      if Decimal(digits) > MAX_INT64 then -MAX_INT64 - 1 else 0 - (Decimal(digits) as int)
    else if Decimal(digits) > MAX_INT64 then MAX_INT64 else Decimal(digits)
  }

  lemma ParseIntDigits(n: nat)
    requires n <= MAX_INT64
    ensures ParseInt(Digits(n)) == n
  {
    assert IsDigit(Digits(n)[0]);
  }

  /** A leading zero does not count. */
  lemma {:induction false} LeadingZero(s: string)
    requires AllDigits(s)
    ensures Decimal(['0'] + s) == Decimal(s)
  {
    var z := ['0'] + s;
    if s == "" {
      assert z[..|z| - 1] == "";
    } else {
      LeadingZero(s[..|s| - 1]);
      assert z[..|z| - 1] == ['0'] + s[..|s| - 1];
    }
  }

  /** Signs, the two bounds, and 0 for whatever is not a number. */
  lemma ParseIntSigned(n: nat, rest: string)
    ensures ParseInt("-" + Digits(n)) == if n < 0x8000_0000_0000_0000 then 0 - n as int else -0x8000_0000_0000_0000
    ensures ParseInt("+" + Digits(n)) == if n < 0x8000_0000_0000_0000 then n as int else 0x7FFF_FFFF_FFFF_FFFF
    ensures ParseInt(Digits(n)) == ParseInt("+" + Digits(n))
    ensures ParseInt("") == ParseInt("-") == ParseInt("+") == 0
    ensures forall k :: 0 < k < |rest| && !('0' <= rest[k] <= '9') ==> ParseInt(rest) == 0
  {
    assert ("-" + Digits(n))[1..] == Digits(n) == ("+" + Digits(n))[1..];
    assert IsDigit(Digits(n)[0]);
    forall k | 0 < k < |rest| && !('0' <= rest[k] <= '9')
      ensures ParseInt(rest) == 0
    {
      assert rest[1..][k - 1] == rest[k];
    }
  }

  /** Go's `<` on strings. */
  predicate StringLess(a: string, b: string) {
    if b == "" then false
    else if a == "" then true
    else a[0] < b[0] || (a[0] == b[0] && StringLess(a[1..], b[1..]))
  }

  ghost predicate DiffersAt(a: string, b: string, n: nat) {
    n <= |a| && n < |b| && a[..n] == b[..n] && (n == |a| || a[n] < b[n])
  }

  /** The smaller string is a proper prefix, or has the smaller character where they first differ. */
  lemma {:induction false} LessIffDiffers(a: string, b: string)
    ensures StringLess(a, b) <==> exists n: nat :: DiffersAt(a, b, n)
  {
    if b == "" {
    } else if a == "" {
      assert DiffersAt(a, b, 0);
    } else if a[0] == b[0] {
      LessIffDiffers(a[1..], b[1..]);
      if n: nat :| DiffersAt(a[1..], b[1..], n) {
        assert a[..n + 1] == [a[0]] + a[1..][..n] && b[..n + 1] == [b[0]] + b[1..][..n];
        assert DiffersAt(a, b, n + 1);
      }
      if n: nat :| DiffersAt(a, b, n) {
        assert n > 0;
        assert a[1..][..n - 1] == a[..n][1..] && b[1..][..n - 1] == b[..n][1..];
        assert DiffersAt(a[1..], b[1..], n - 1);
      }
    } else {
      assert a[0] < b[0] ==> DiffersAt(a, b, 0);
      assert forall n: nat :: n > 0 && DiffersAt(a, b, n) ==> a[..n][0] == a[0] && b[..n][0] == b[0];
    }
  }

  lemma {:induction false} StringLessTotal(a: string, b: string)
    ensures a == b || StringLess(a, b) || StringLess(b, a)
    ensures !(StringLess(a, b) && StringLess(b, a))
  {
    if a != "" && b != "" && a[0] == b[0] {
      StringLessTotal(a[1..], b[1..]);
      assert a == [a[0]] + a[1..] && b == [b[0]] + b[1..];
    }
  }

  lemma {:induction false} StringLessTransitive(a: string, b: string, c: string)
    requires StringLess(a, b) && StringLess(b, c)
    ensures StringLess(a, c)
  {
    if a != "" && a[0] == b[0] == c[0] {
      StringLessTransitive(a[1..], b[1..], c[1..]);
    }
  }
}
