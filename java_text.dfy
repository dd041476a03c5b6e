/**
 * The string primitives the services and the bean-validation constraints rely on:
 * `String.trim`, Spring's `StringUtils.hasText`, Hibernate's `@NotBlank`, SQL `LOWER`
 * and `LIKE`, and the decimal rendering of `%d` and of string concatenation.
 */
module JavaText {
  import opened Wrappers

  // ---------------------------------------------------------------- trim

  /** `String.trim` drops every leading and trailing char whose code is at most U+0020. */
  function TrimStart(s: string): (r: string)
    ensures |r| <= |s| && r == s[|s| - |r|..]
    ensures r == [] || r[0] > ' '
    ensures forall i | 0 <= i < |s| - |r| :: s[i] <= ' '
  {
    if s != [] && s[0] <= ' ' then TrimStart(s[1..]) else s
  }

  function TrimEnd(s: string): (r: string)
    ensures |r| <= |s| && r == s[..|r|]
    ensures r == [] || r[|r| - 1] > ' '
    ensures forall i | |r| <= i < |s| :: s[i] <= ' '
  {
    if s != [] && s[|s| - 1] <= ' ' then TrimEnd(s[..|s| - 1]) else s
  }

  /** `r` is `s` from offset `i` on, with only chars up to U+0020 cut on either side. */
  predicate CutAround(s: string, r: string, i: int) {
    && 0 <= i <= |s| - |r|
    && r == s[i..i + |r|]
    && (forall k | 0 <= k < i :: s[k] <= ' ')
    && (forall k | i + |r| <= k < |s| :: s[k] <= ' ')
  }

  function Trim(s: string): (r: string)
    ensures |r| <= |s|
    ensures r == [] <==> forall i | 0 <= i < |s| :: s[i] <= ' '
    ensures r != [] ==> r[0] > ' ' && r[|r| - 1] > ' '
  {
    var t := TrimStart(s);
    var r := TrimEnd(t);
    assert r == [] ==> t == [];
    assert r != [] ==> r[0] == t[0];
    r
  }

  /** What `TrimStart` and then `TrimEnd` promise, put together: `t` is `s` after its leading
      blanks and `r` is `t` before its trailing ones. */
  predicate TrimmedInTwo(s: string, t: string, r: string) {
    && |t| <= |s| && t == s[|s| - |t|..]
    && (forall i | 0 <= i < |s| - |t| :: s[i] <= ' ')
    && |r| <= |t| && r == t[..|r|]
    && (forall i | |r| <= i < |t| :: t[i] <= ' ')
  }

  lemma {:induction false} CutInTwo(s: string, t: string, r: string)
    requires TrimmedInTwo(s, t, r)
    ensures CutAround(s, r, |s| - |t|)
  {
    var i := |s| - |t|;
    assert r == s[i..i + |r|] by {
      assert s[i..i + |r|] == s[i..][..|r|];
    }
    forall k | i + |r| <= k < |s|
      ensures s[k] <= ' '
    {
      assert s[k] == t[k - i];
    }
  }

  /** The trimmed string is a contiguous part of the input with only chars up to U+0020 cut
      before and after it. */
  lemma {:induction false} TrimCutsAround(s: string)
    ensures exists i :: CutAround(s, Trim(s), i)
  {
    var t := TrimStart(s);
    var r := TrimEnd(t);
    assert Trim(s) == r;
    assert TrimmedInTwo(s, t, r);
    CutInTwo(s, t, r);
  }

  /** Trimming twice is trimming once. */
  lemma {:induction false} TrimIdempotent(s: string)
    ensures Trim(Trim(s)) == Trim(s)
  {
    var r := Trim(s);
    assert TrimStart(r) == r;
    assert TrimEnd(r) == r;
  }

  // ------------------------------------------------- blank versus has-text

  /** `Character.isWhitespace`: the space, line and paragraph separators except the
      no-break spaces U+00A0, U+2007 and U+202F, plus U+0009..U+000D and U+001C..U+001F. */
  predicate IsJavaWhitespace(c: char) {
    || ('\t' <= c <= '\r')
    || ('\U{1C}' <= c <= ' ')
    || c == '\U{1680}'
    || ('\U{2000}' <= c <= '\U{2006}')
    || ('\U{2008}' <= c <= '\U{200A}')
    || c == '\U{2028}' || c == '\U{2029}' || c == '\U{205F}' || c == '\U{3000}'
  }

  /** Spring's `StringUtils.hasText`: not null and holding a non-whitespace char. */
  predicate HasText(s: Option<string>) {
    s.Some? && exists i :: 0 <= i < |s.value| && !IsJavaWhitespace(s.value[i])
  }

  /** Hibernate's `@NotBlank`: not null and non-empty after `trim`, that is, holding a char
      above U+0020 (NotBlankIsTrimmedNonEmpty). Stated on the chars so that a stored row's
      constraints do not bring `trim`'s definition along. */
  predicate NotBlank(s: Option<string>) {
    s.Some? && exists i | 0 <= i < |s.value| :: s.value[i] > ' '
  }

  /** The char-level statement is Hibernate's: `trim` leaves something. */
  lemma NotBlankIsTrimmedNonEmpty(s: Option<string>)
    ensures NotBlank(s) <==> s.Some? && Trim(s.value) != []
  {
  }

  /** `@Size(max = n)`: null passes; otherwise the length is at most n. */
  predicate SizeAtMost(s: Option<string>, n: nat) {
    s.None? || |s.value| <= n
  }

  /** The two blankness tests disagree: U+0001 has text but trims away; U+2000 survives
      `trim` but is whitespace. */
  lemma HasTextAndNotBlankDiffer()
    ensures HasText(Some("\U{1}")) && !NotBlank(Some("\U{1}"))
    ensures NotBlank(Some("\U{2000}")) && !HasText(Some("\U{2000}"))
  {
    assert !IsJavaWhitespace("\U{1}"[0]);
    assert "\U{2000}"[0] > ' ';
  }

  /** On text without the C0 control chars that `trim` strips but Java does not call
      whitespace, having text implies passing `@NotBlank`. */
  lemma {:induction false} HasTextImpliesNotBlank(s: string)
    requires forall i | 0 <= i < |s| :: s[i] <= ' ' ==> IsJavaWhitespace(s[i])
    ensures HasText(Some(s)) ==> NotBlank(Some(s))
  {
    if HasText(Some(s)) {
      var i :| 0 <= i < |s| && !IsJavaWhitespace(s[i]);
      assert s[i] > ' ';
    }
  }

  // ------------------------------------------------------- LOWER and LIKE

  /** SQL `LOWER` on one char: ASCII letters only. */
  function LowerChar(c: char): (r: char)
    ensures 'A' <= c <= 'Z' ==> 'a' <= r <= 'z' && r as int == c as int + 32
    ensures !('A' <= c <= 'Z') ==> r == c
  {
    if 'A' <= c <= 'Z' then (c as int + 32) as char else c
  }

  function Lower(s: string): (r: string)
    ensures |r| == |s| && forall i | 0 <= i < |s| :: r[i] == LowerChar(s[i])
  {
    seq(|s|, i requires 0 <= i < |s| => LowerChar(s[i]))
  }

  /** SQL `s LIKE p` with `%` (any run) and `_` (any one char) and no escape char. */
  function Like(s: string, p: string): bool
    decreases |s| + |p|
  {
    if p == [] then s == []
    else if p[0] == '%' then Like(s, p[1..]) || (s != [] && Like(s[1..], p))
    else s != [] && (p[0] == '_' || p[0] == s[0]) && Like(s[1..], p[1..])
  }

  predicate NoWildcards(t: string) {
    forall i | 0 <= i < |t| :: t[i] != '%' && t[i] != '_'
  }

  predicate OccursAt(t: string, s: string, i: int) {
    0 <= i <= |s| - |t| && s[i..i + |t|] == t
  }

  predicate IsSubstring(t: string, s: string) {
    exists i | 0 <= i <= |s| - |t| :: OccursAt(t, s, i)
  }

  lemma {:induction false} LikeAnything(s: string)
    ensures Like(s, "%")
  {
    if s != [] {
      LikeAnything(s[1..]);
    }
  }

  /** `s LIKE t%` for a wildcard-free `t` means `t` is a prefix of `s`. */
  lemma {:induction false} LikePrefix(s: string, t: string)
    requires NoWildcards(t)
    ensures Like(s, t + "%") <==> |t| <= |s| && s[..|t|] == t
  {
    if t == [] {
      assert t + "%" == "%";
      LikeAnything(s);
    } else {
      assert (t + "%")[0] == t[0];
      assert (t + "%")[1..] == t[1..] + "%";
      if s != [] {
        LikePrefix(s[1..], t[1..]);
        if |t| <= |s| && s[..|t|] == t {
          assert s[1..][..|t[1..]|] == t[1..];
        }
        if |t[1..]| <= |s[1..]| && s[1..][..|t[1..]|] == t[1..] && t[0] == s[0] {
          assert s[..|t|] == [s[0]] + s[1..][..|t[1..]|];
        }
      }
    }
  }

  /** `s LIKE %q` holds exactly when some suffix of `s` matches `q`. */
  lemma {:induction false} LikeLeadingPercent(s: string, q: string)
    ensures Like(s, "%" + q) <==> exists i :: 0 <= i <= |s| && Like(s[i..], q)
  {
    var p := "%" + q;
    assert p[0] == '%' && p[1..] == q;
    if s == [] {
      assert s[0..] == s;
    } else {
      LikeLeadingPercent(s[1..], q);
      if Like(s, p) {
        if Like(s, q) {
          assert s[0..] == s;
        } else {
          var i :| 0 <= i <= |s[1..]| && Like(s[1..][i..], q);
          assert s[1..][i..] == s[i + 1..];
        }
      }
      if exists i :: 0 <= i <= |s| && Like(s[i..], q) {
        var i :| 0 <= i <= |s| && Like(s[i..], q);
        if i == 0 {
          assert s[0..] == s;
        } else {
          assert s[1..][i - 1..] == s[i..];
        }
      }
    }
  }

  /** The title finder's pattern `%t%` with a wildcard-free `t` is a substring test. */
  lemma {:induction false} LikeContains(s: string, t: string)
    requires NoWildcards(t)
    ensures Like(s, "%" + t + "%") <==> IsSubstring(t, s)
  {
    assert "%" + t + "%" == "%" + (t + "%");
    LikeLeadingPercent(s, t + "%");
    if Like(s, "%" + t + "%") {
      var i :| 0 <= i <= |s| && Like(s[i..], t + "%");
      LikePrefix(s[i..], t);
      assert s[i..i + |t|] == s[i..][..|t|];
      assert OccursAt(t, s, i);
    }
    if IsSubstring(t, s) {
      var i :| 0 <= i <= |s| - |t| && OccursAt(t, s, i);
      LikePrefix(s[i..], t);
      assert s[i..][..|t|] == s[i..i + |t|];
    }
  }

  // --------------------------------------------------------------- decimal

  function DigitChar(d: nat): (c: char)
    requires d < 10
    ensures '0' <= c <= '9' && c as int - '0' as int == d
  {
    (d + '0' as int) as char
  }

  /** The decimal digits of `n`, most significant first, without leading zeros. */
  function NatDigits(n: nat): (r: string)
    ensures |r| >= 1
    ensures forall i | 0 <= i < |r| :: '0' <= r[i] <= '9'
  {
    if n < 10 then [DigitChar(n)] else NatDigits(n / 10) + [DigitChar(n % 10)]
  }

  /** `%d` and `"" + n` of a Java integer: an optional minus sign and the digits. */
  function Decimal(n: int): string {
    if n < 0 then "-" + NatDigits(-n) else NatDigits(n)
  }

  /** Reads decimal digits back (the inverse used to state that `Decimal` loses nothing). */
  function ParseNat(s: string): nat
    requires forall i | 0 <= i < |s| :: '0' <= s[i] <= '9'
  {
    if s == [] then 0 else ParseNat(s[..|s| - 1]) * 10 + (s[|s| - 1] as int - '0' as int)
  }

  function ParseDecimal(s: string): int
    requires s != [] && s[0] == '-' ==> forall i | 1 <= i < |s| :: '0' <= s[i] <= '9'
    requires s == [] || s[0] != '-' ==> forall i | 0 <= i < |s| :: '0' <= s[i] <= '9'
  {
    if s != [] && s[0] == '-' then -(ParseNat(s[1..]) as int) else ParseNat(s)
  }

  lemma {:induction false} ParseNatDigits(n: nat)
    ensures ParseNat(NatDigits(n)) == n
  {
    if n >= 10 {
      var r := NatDigits(n);
      assert r[..|r| - 1] == NatDigits(n / 10);
      ParseNatDigits(n / 10);
    }
  }

  /** Reading back the rendering of `n` gives `n`. */
  lemma DecimalRoundTrip(n: int)
    ensures ParseDecimal(Decimal(n)) == n
  {
    if n < 0 {
      assert Decimal(n)[1..] == NatDigits(-n);
      ParseNatDigits(-n);
    } else {
      ParseNatDigits(n);
    }
  }

  /** Distinct integers render differently. */
  lemma DecimalInjective(a: int, b: int)
    ensures Decimal(a) == Decimal(b) ==> a == b
  {
    DecimalRoundTrip(a);
    DecimalRoundTrip(b);
  }
}
