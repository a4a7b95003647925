/** The fragment of Python's `re` that the masking patterns use: a pattern is a sequence
    of greedy repetitions of one character class, and `\b` word boundaries. `MatchFrom`
    tries repetition counts from the largest down, depth first, as Python's backtracking
    matcher does, and `FindAll` is `re.findall` for such a pattern. */
module Pattern {
  import opened Wrappers
  import opened Text

  predicate IsLetter(c: char) { 'A' <= c <= 'Z' || 'a' <= c <= 'z' }

  /** `\w`, restricted to ASCII. */
  predicate IsWordChar(c: char) { IsLetter(c) || IsDigit(c) || c == '_' }

  datatype Class =
    | Digit          // \d
    | Space          // \s
    | Separator      // [-.\s]
    | Char(c: char)  // one literal character
    | EmailLocal     // [A-Za-z0-9._%+-]
    | EmailDomain    // [A-Za-z0-9.-]
    | EmailTld       // [A-Z|a-z], whose '|' is a literal bar

  predicate InClass(cls: Class, c: char)
  {
    match cls
    case Digit => IsDigit(c)
    case Space => IsSpace(c)
    case Separator => c == '-' || c == '.' || IsSpace(c)
    case Char(x) => c == x
    case EmailLocal => IsLetter(c) || IsDigit(c) || c in "._%+-"
    case EmailDomain => IsLetter(c) || IsDigit(c) || c in ".-"
    case EmailTld => IsLetter(c) || c == '|'
  }

  /** `cls{min,max}` (greedy; `max` None is unbounded) or `\b`. */
  datatype Atom = Repeat(cls: Class, min: nat, max: Option<nat>) | WordBoundary

  type Pattern = seq<Atom>

  /** `\b` at index `i`: exactly one of the characters around `i` is a word character. */
  predicate AtBoundary(s: string, i: nat)
    requires i <= |s|
  {
    (i > 0 && IsWordChar(s[i - 1])) != (i < |s| && IsWordChar(s[i]))
  }

  /** The length of the longest run of `cls` characters starting at `i`. */
  function Run(cls: Class, s: string, i: nat): (n: nat)
    requires i <= |s|
    ensures i + n <= |s|
    ensures forall j :: i <= j < i + n ==> InClass(cls, s[j])
    ensures i + n == |s| || !InClass(cls, s[i + n])
    decreases |s| - i
  {
    if i < |s| && InClass(cls, s[i]) then 1 + Run(cls, s, i + 1) else 0
  }

  /** The most repetitions a greedy atom can take at `i`. */
  function Most(a: Atom, s: string, i: nat): (n: nat)
    requires a.Repeat? && i <= |s|
    ensures i + n <= |s|
    ensures a.max.Some? ==> n <= a.max.value
  {
    var run := Run(a.cls, s, i);
    match a.max
    case None => run
    case Some(m) => if m < run then m else run
  }

  /** Where the match of `p` that starts at `i` ends, if there is one. */
  function MatchFrom(p: Pattern, s: string, i: nat): Option<nat>
    requires i <= |s|
    decreases |p|, 1, 0
  {
    if p == [] then Some(i)
    else match p[0]
      case WordBoundary => if AtBoundary(s, i) then MatchFrom(p[1..], s, i) else None
      case Repeat(_, _, _) => TryCounts(p, s, i, Most(p[0], s, i))
  }

  /** Backtracking over the repetition count of `p[0]`: `k`, then `k - 1`, down to its minimum. */
  function TryCounts(p: Pattern, s: string, i: nat, k: nat): Option<nat>
    requires p != [] && p[0].Repeat? && i + k <= |s|
    decreases |p|, 0, k
  {
    if k < p[0].min then None
    else match MatchFrom(p[1..], s, i + k)
      case Some(e) => Some(e)
      case None => if k == 0 then None else TryCounts(p, s, i, k - 1)
  }

  function MinLen(p: Pattern): nat
  {
    if p == [] then 0 else (if p[0].Repeat? then p[0].min else 0) + MinLen(p[1..])
  }

  predicate Bounded(p: Pattern)
  {
    forall a :: 0 <= a < |p| && p[a].Repeat? ==> p[a].max.Some?
  }

  function MaxLen(p: Pattern): nat
    requires Bounded(p)
  {
    if p == [] then 0
    else (if p[0].Repeat? then p[0].max.value else 0) + MaxLen(p[1..])
  }

  /** Some repetition atom of `p` admits `c`. */
  predicate InSomeAtom(p: Pattern, c: char)
  {
    exists a :: 0 <= a < |p| && p[a].Repeat? && InClass(p[a].cls, c)
  }

  /** Every character of `v` is admitted by some repetition atom of `p`. */
  predicate MadeOf(p: Pattern, v: string)
  {
    forall j :: 0 <= j < |v| ==> InSomeAtom(p, v[j])
  }

  /** `v` holds a character of every class that `p` repeats at least once. */
  predicate HasEveryRequired(p: Pattern, v: string)
  {
    forall a :: 0 <= a < |p| && p[a].Repeat? && p[a].min > 0 ==>
      exists j :: 0 <= j < |v| && InClass(p[a].cls, v[j])
  }

  /** What every text matched by `p` looks like: long enough, made of the pattern's
      characters, holding a character of every class that must repeat at least once,
      and no longer than the pattern allows. */
  predicate Shaped(p: Pattern, v: string)
  {
    && |v| >= MinLen(p)
    && MadeOf(p, v)
    && HasEveryRequired(p, v)
    && (Bounded(p) ==> |v| <= MaxLen(p))
  }

  /** The repetition count at which backtracking succeeded. */
  lemma {:induction false} TryCountsChoice(p: Pattern, s: string, i: nat, k: nat, e: nat) returns (c: nat)
    requires p != [] && p[0].Repeat? && i + k <= |s|
    requires TryCounts(p, s, i, k) == Some(e)
    ensures p[0].min <= c <= k && MatchFrom(p[1..], s, i + c) == Some(e)
    decreases k
  {
    if MatchFrom(p[1..], s, i + k).None? {
      c := TryCountsChoice(p, s, i, k - 1, e);
    } else {
      c := k;
    }
  }

  /** One step of a match: `p[0]` takes `c` characters from `i`, the rest of `p` matches
      from `i + c` to `e`. */
  lemma MatchStep(p: Pattern, s: string, i: nat, e: nat) returns (c: nat)
    requires p != [] && i <= |s| && MatchFrom(p, s, i) == Some(e)
    ensures i + c <= |s| && MatchFrom(p[1..], s, i + c) == Some(e)
    ensures p[0].WordBoundary? ==> c == 0
    ensures p[0].Repeat? ==> p[0].min <= c && (p[0].max.Some? ==> c <= p[0].max.value)
    ensures p[0].Repeat? ==> forall j :: i <= j < i + c ==> InClass(p[0].cls, s[j])
  {
    if p[0].WordBoundary? {
      c := 0;
    } else {
      c := TryCountsChoice(p, s, i, Most(p[0], s, i), e);
    }
  }

  /** A match found by `MatchFrom` ends within the text, no shorter than `MinLen(p)` and,
      for a bounded pattern, no longer than `MaxLen(p)`. */
  lemma {:induction false} MatchLength(p: Pattern, s: string, i: nat, e: nat)
    requires i <= |s| && MatchFrom(p, s, i) == Some(e)
    ensures i + MinLen(p) <= e <= |s|
    ensures Bounded(p) ==> e <= i + MaxLen(p)
    decreases |p|
  {
    if p != [] {
      var c := MatchStep(p, s, i, e);
      MatchLength(p[1..], s, i + c, e);
      if Bounded(p) {
        assert Bounded(p[1..]) by {
          forall a | 0 <= a < |p[1..]| && p[1..][a].Repeat? ensures p[1..][a].max.Some? {
            assert p[1..][a] == p[a + 1];
          }
        }
        assert p[0].Repeat? ==> p[0].max.Some?;
      }
    }
  }

  /** Every character of a match is admitted by some atom of the pattern. */
  lemma {:induction false} MatchMadeOf(p: Pattern, s: string, i: nat, e: nat)
    requires i <= |s| && MatchFrom(p, s, i) == Some(e)
    ensures i <= e <= |s| && MadeOf(p, s[i..e])
    decreases |p|
  {
    MatchLength(p, s, i, e);
    if p != [] {
      var c := MatchStep(p, s, i, e);
      MatchMadeOf(p[1..], s, i + c, e);
      forall j | i <= j < e ensures InSomeAtom(p, s[j]) {
        if j < i + c {
          assert p[0].Repeat? && InClass(p[0].cls, s[j]);
        } else {
          assert s[i + c..e][j - i - c] == s[j];
          var a :| 0 <= a < |p[1..]| && p[1..][a].Repeat? && InClass(p[1..][a].cls, s[j]);
          assert p[a + 1] == p[1..][a];
        }
      }
      forall j | 0 <= j < e - i ensures InSomeAtom(p, s[i..e][j]) {
        assert s[i..e][j] == s[i + j];
      }
    }
  }

  /** A match holds a character of every class its pattern must repeat. */
  lemma {:induction false} MatchHasEveryRequired(p: Pattern, s: string, i: nat, e: nat)
    requires i <= |s| && MatchFrom(p, s, i) == Some(e)
    ensures i <= e <= |s| && HasEveryRequired(p, s[i..e])
    decreases |p|
  {
    MatchLength(p, s, i, e);
    if p != [] {
      var c := MatchStep(p, s, i, e);
      MatchHasEveryRequired(p[1..], s, i + c, e);
      var v, w := s[i..e], s[i + c..e];
      forall a | 0 <= a < |p| && p[a].Repeat? && p[a].min > 0
        ensures exists j :: 0 <= j < |v| && InClass(p[a].cls, v[j])
      {
        if a == 0 {
          assert InClass(p[0].cls, s[i]) && v[0] == s[i];
        } else {
          assert p[1..][a - 1] == p[a];
          var j :| 0 <= j < |w| && InClass(p[1..][a - 1].cls, w[j]);
          assert v[j + c] == w[j];
        }
      }
    }
  }

  /** A match found by `MatchFrom` has the shape of its pattern. */
  lemma MatchShaped(p: Pattern, s: string, i: nat, e: nat)
    requires i <= |s| && MatchFrom(p, s, i) == Some(e)
    ensures i + MinLen(p) <= e <= |s| && Shaped(p, s[i..e])
  {
    MatchLength(p, s, i, e);
    MatchMadeOf(p, s, i, e);
    MatchHasEveryRequired(p, s, i, e);
  }

  /** `re.findall(p, s[pos:])`: the texts of the leftmost, non-overlapping matches, scanning
      left to right; after an empty match the scan moves on by one character. Each match has
      the pattern's shape. */
  function FindAll(p: Pattern, s: string, pos: nat): (r: seq<string>)
    requires pos <= |s|
    ensures forall m :: 0 <= m < |r| ==> Shaped(p, r[m])
    decreases |s| - pos
  {
    match MatchFrom(p, s, pos)
    case Some(e) =>
      MatchShaped(p, s, pos, e);
      var rest := if e > pos then FindAll(p, s, e) else if pos < |s| then FindAll(p, s, pos + 1) else [];
      var r := [s[pos..e]] + rest;
      assert forall m :: 1 <= m < |r| ==> r[m] == rest[m - 1];
      r
    case None => if pos == |s| then [] else FindAll(p, s, pos + 1)
  }

  lemma MulSucc(n: nat, m: nat)
    ensures (n + 1) * m == n * m + m
  {
  }

  /** `FindAll` returns no more matches than fit, without overlap, in the text scanned. */
  lemma {:induction false} FindAllCount(p: Pattern, s: string, pos: nat)
    requires pos <= |s| && MinLen(p) > 0
    ensures |FindAll(p, s, pos)| * MinLen(p) <= |s| - pos
    decreases |s| - pos
  {
    var m := MinLen(p);
    match MatchFrom(p, s, pos)
    case Some(e) =>
      MatchLength(p, s, pos, e);
      assert e > pos;
      FindAllCount(p, s, e);
      var n := |FindAll(p, s, e)|;
      assert FindAll(p, s, pos) == [s[pos..e]] + FindAll(p, s, e);
      MulSucc(n, m);
    case None =>
      if pos < |s| {
        FindAllCount(p, s, pos + 1);
      }
  }

  /** A text with no character of a class that `p` must repeat at least once has no match of `p`. */
  lemma MatchNeedsClass(p: Pattern, s: string, i: nat, a: nat)
    requires i <= |s| && a < |p| && p[a].Repeat? && p[a].min > 0
    requires forall j :: i <= j < |s| ==> !InClass(p[a].cls, s[j])
    ensures MatchFrom(p, s, i).None?
  {
    match MatchFrom(p, s, i)
    case None =>
    case Some(e) =>
      MatchHasEveryRequired(p, s, i, e);
      assert false;
  }

  /** `re.findall` finds nothing in a text lacking a class that `p` must repeat. */
  lemma {:induction false} FindAllNeedsClass(p: Pattern, s: string, pos: nat, a: nat)
    requires pos <= |s| && a < |p| && p[a].Repeat? && p[a].min > 0
    requires forall j :: pos <= j < |s| ==> !InClass(p[a].cls, s[j])
    ensures FindAll(p, s, pos) == []
    decreases |s| - pos
  {
    MatchNeedsClass(p, s, pos, a);
    if pos < |s| {
      FindAllNeedsClass(p, s, pos + 1, a);
    }
  }
}
