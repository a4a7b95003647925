/** Python string operations the core relies on: decimal rendering of integers,
    `str.find`, `str.replace` (first occurrence and all occurrences), `str.strip`
    and `str.join`, over strings modelled as sequences of characters. */
module Text {
  import opened Wrappers

  predicate IsDigit(c: char) { '0' <= c <= '9' }

  /** `str.isspace()` for one character; Python's `\s` in a text pattern uses the same set. */
  predicate IsSpace(c: char)
  {
    var n := c as int;
    (9 <= n <= 13) || (28 <= n <= 32) || n == 0x85 || n == 0xA0 || n == 0x1680
    || (0x2000 <= n <= 0x200A) || n == 0x2028 || n == 0x2029 || n == 0x202F
    || n == 0x205F || n == 0x3000
  }

  function DigitChar(d: nat): (c: char)
    requires d < 10
    ensures IsDigit(c) && c as int - '0' as int == d
  {
    (d + '0' as int) as char
  }

  function Pow10(k: nat): (r: nat)
    ensures r >= 1
  {
    if k == 0 then 1 else 10 * Pow10(k - 1)
  }

  /** `str(n)` for a non-negative integer: its decimal digits, most significant first. */
  function NatToString(n: nat): (r: string)
    ensures |r| >= 1
    ensures forall i :: 0 <= i < |r| ==> IsDigit(r[i])
  {
    if n < 10 then [DigitChar(n)] else NatToString(n / 10) + [DigitChar(n % 10)]
  }

  /** A number renders as a single digit exactly when it is below ten. */
  lemma NatToStringSingle(n: nat)
    ensures |NatToString(n)| == 1 <==> n < 10
  {
    if n >= 10 {
      assert |NatToString(n / 10)| >= 1;
    }
  }

  /** Distinct numbers render as distinct strings, so numbered placeholders never clash. */
  lemma {:induction false} NatToStringInjective(a: nat, b: nat)
    requires NatToString(a) == NatToString(b)
    ensures a == b
  {
    NatToStringSingle(a);
    NatToStringSingle(b);
    if a >= 10 {
      var sa, sb := NatToString(a), NatToString(b);
      assert sa[|sa| - 1] == DigitChar(a % 10);
      assert sb[|sb| - 1] == DigitChar(b % 10);
      assert a % 10 == b % 10;
      assert NatToString(a / 10) == sa[..|sa| - 1] == sb[..|sb| - 1] == NatToString(b / 10);
      NatToStringInjective(a / 10, b / 10);
    }
  }

  /** A number below 10^k has at most k decimal digits. */
  lemma {:induction false} NatToStringShort(n: nat, k: nat)
    requires k >= 1 && n < Pow10(k)
    ensures |NatToString(n)| <= k
  {
    if n >= 10 {
      assert Pow10(1) == 10;
      assert n / 10 < Pow10(k - 1);
      NatToStringShort(n / 10, k - 1);
    }
  }

  /** `v` occurs in `s` starting at index `i`. */
  predicate Occurs(s: string, v: string, i: nat)
  {
    i + |v| <= |s| && s[i..i + |v|] == v
  }

  lemma OccursTail(s: string, v: string, j: nat)
    requires |s| > 0
    ensures Occurs(s, v, j + 1) <==> Occurs(s[1..], v, j)
  {
    if j + 1 + |v| <= |s| {
      assert s[j + 1..j + 1 + |v|] == s[1..][j..j + |v|];
    }
  }

  /** `s.find(v)`: the least index at which `v` occurs, or None when it does not occur. */
  function Find(s: string, v: string): (r: Option<nat>)
    ensures r.Some? ==> r.value + |v| <= |s|
    decreases |s|
  {
    if Occurs(s, v, 0) then Some(0)
    else if s == [] then None
    else
      match Find(s[1..], v)
      case Some(k) => Some(k + 1)
      case None => None
  }

  /** `Find` returns the first occurrence, and None only when there is none. */
  lemma {:induction false} FindFirst(s: string, v: string)
    ensures Find(s, v).Some? ==> Occurs(s, v, Find(s, v).value)
    ensures Find(s, v).Some? ==> forall j :: 0 <= j < Find(s, v).value ==> !Occurs(s, v, j)
    ensures Find(s, v).None? ==> forall j :: 0 <= j <= |s| ==> !Occurs(s, v, j)
    decreases |s|
  {
    if !Occurs(s, v, 0) && s != [] {
      FindFirst(s[1..], v);
      forall j | 1 <= j <= |s| ensures Occurs(s, v, j) <==> Occurs(s[1..], v, j - 1) {
        OccursTail(s, v, j - 1);
      }
    }
  }

  /** `s.replace(pat, rep, 1)`: the first occurrence of `pat`, if any, becomes `rep`. */
  function Replace1(s: string, pat: string, rep: string): string
  {
    match Find(s, pat)
    case None => s
    case Some(i) => s[..i] + rep + s[i + |pat|..]
  }

  /** `s.replace(pat, rep, 1)` leaves a text without `pat` alone; otherwise the text before the
      first occurrence and the text after it are kept, with `rep` between them. */
  lemma Replace1Parts(s: string, pat: string, rep: string)
    ensures !(exists i :: 0 <= i <= |s| && Occurs(s, pat, i)) ==> Replace1(s, pat, rep) == s
    ensures forall i :: 0 <= i <= |s| && Occurs(s, pat, i) && (forall j :: 0 <= j < i ==> !Occurs(s, pat, j))
              ==> Replace1(s, pat, rep) == s[..i] + rep + s[i + |pat|..]
  {
    FindFirst(s, pat);
  }

  /** One replacement lengthens the text by at most the length of `rep`. */
  lemma Replace1Length(s: string, pat: string, rep: string)
    ensures |Replace1(s, pat, rep)| <= |s| + |rep|
  {
    match Find(s, pat)
    case None =>
    case Some(i) =>
      assert |Replace1(s, pat, rep)| == i + |rep| + (|s| - i - |pat|);
  }

  /** `s.replace(pat, rep)`: every occurrence of `pat`, found left to right without overlap,
      becomes `rep`; an empty `pat` inserts `rep` before every character and at the end. */
  function ReplaceAll(s: string, pat: string, rep: string): (r: string)
    decreases |s|
  {
    if |pat| == 0 then
      if s == [] then rep else rep + [s[0]] + ReplaceAll(s[1..], pat, rep)
    else if Occurs(s, pat, 0) then rep + ReplaceAll(s[|pat|..], pat, rep)
    else if s == [] then []
    else [s[0]] + ReplaceAll(s[1..], pat, rep)
  }

  /** Where a non-empty `pat` does not occur, `s.replace(pat, rep)` leaves `s` unchanged. */
  lemma {:induction false} ReplaceAllAbsent(s: string, pat: string, rep: string)
    requires |pat| > 0
    requires forall j :: 0 <= j <= |s| ==> !Occurs(s, pat, j)
    ensures ReplaceAll(s, pat, rep) == s
  {
    if s != [] {
      forall j | 0 <= j <= |s[1..]| ensures !Occurs(s[1..], pat, j) {
        OccursTail(s, pat, j);
      }
      ReplaceAllAbsent(s[1..], pat, rep);
      assert s == [s[0]] + s[1..];
    }
  }

  /** `sep.join(parts)`. */
  function Join(parts: seq<string>, sep: string): (r: string)
    ensures parts == [] ==> r == []
    ensures |parts| == 1 ==> r == parts[0]
  {
    if parts == [] then []
    else if |parts| == 1 then parts[0]
    else parts[0] + sep + Join(parts[1..], sep)
  }

  /** The last parts of a join: joining `ps + [a, b]` ends with `a + sep + b`. */
  lemma {:induction false} JoinEndsWith(ps: seq<string>, a: string, b: string, sep: string)
    ensures exists pre :: Join(ps + [a, b], sep) == pre + a + sep + b
  {
    if ps == [] {
      assert Join([a, b], sep) == a + sep + Join([b], sep);
      assert Join(ps + [a, b], sep) == [] + a + sep + b;
    } else {
      assert (ps + [a, b])[1..] == ps[1..] + [a, b];
      JoinEndsWith(ps[1..], a, b, sep);
      var pre :| Join(ps[1..] + [a, b], sep) == pre + a + sep + b;
      assert Join(ps + [a, b], sep) == (ps[0] + sep + pre) + a + sep + b;
    }
  }

  function StripLeft(s: string): string
  {
    if s != [] && IsSpace(s[0]) then StripLeft(s[1..]) else s
  }

  function StripRight(s: string): string
  {
    if s != [] && IsSpace(s[|s| - 1]) then StripRight(s[..|s| - 1]) else s
  }

  /** `s.lstrip()` drops the leading whitespace of `s` and nothing else. */
  lemma {:induction false} StripLeftSpec(s: string)
    ensures |StripLeft(s)| <= |s| && StripLeft(s) == s[|s| - |StripLeft(s)|..]
    ensures StripLeft(s) == [] || !IsSpace(StripLeft(s)[0])
    ensures forall i :: 0 <= i < |s| - |StripLeft(s)| ==> IsSpace(s[i])
  {
    if s != [] && IsSpace(s[0]) {
      StripLeftSpec(s[1..]);
      forall i | 1 <= i < |s| - |StripLeft(s)| ensures IsSpace(s[i]) {
        assert s[i] == s[1..][i - 1];
      }
    }
  }

  /** `s.rstrip()` drops the trailing whitespace of `s` and nothing else. */
  lemma {:induction false} StripRightSpec(s: string)
    ensures |StripRight(s)| <= |s| && StripRight(s) == s[..|StripRight(s)|]
    ensures StripRight(s) == [] || !IsSpace(StripRight(s)[|StripRight(s)| - 1])
    ensures forall i :: |StripRight(s)| <= i < |s| ==> IsSpace(s[i])
  {
    if s != [] && IsSpace(s[|s| - 1]) {
      StripRightSpec(s[..|s| - 1]);
      forall i | |StripRight(s)| <= i < |s| - 1 ensures IsSpace(s[i]) {
        assert s[i] == s[..|s| - 1][i];
      }
    }
  }

  /** `s.strip()`: `s` without its leading and trailing whitespace. */
  function Strip(s: string): string
  {
    StripRight(StripLeft(s))
  }

  /** `s.strip()` is a slice of `s` that neither starts nor ends with whitespace. */
  lemma StripSlice(s: string)
    ensures Strip(s) == [] || (!IsSpace(Strip(s)[0]) && !IsSpace(Strip(s)[|Strip(s)| - 1]))
    ensures exists i, j :: 0 <= i <= j <= |s| && Strip(s) == s[i..j]
  {
    var l := StripLeft(s);
    var r := StripRight(l);
    StripLeftSpec(s);
    StripRightSpec(l);
    assert r == l[..|r|];
    assert l[..|r|] == s[|s| - |l|..|s| - |l| + |r|];
  }

  /** Whether `s.strip()` is non-empty, i.e. `s` holds a non-whitespace character. */
  lemma StripEmptyIffAllSpace(s: string)
    ensures Strip(s) == [] <==> forall i :: 0 <= i < |s| ==> IsSpace(s[i])
  {
    var l := StripLeft(s);
    StripLeftSpec(s);
    StripRightSpec(l);
    if Strip(s) == [] {
      assert StripRight(l) == [];
      assert l == [];
    } else {
      var r := Strip(s);
      StripSlice(s);
      var i, j :| 0 <= i <= j <= |s| && r == s[i..j];
      assert s[i] == r[0];
    }
  }
}
