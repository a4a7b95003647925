/** A masked text read as a sequence of pieces: text carried over from the input, and
    placeholders. `unmask_text` and each replacement made by `mask_text` act on those pieces,
    which is what the round trip of the masking rests on. */
module Pieces {
  import opened Wrappers
  import opened Text
  import opened Table
  import opened Pattern
  import opened Masking

  /** A piece of a masked text: text carried over from the input, or a placeholder. */
  datatype Piece = Plain(s: string) | Key(k: string)

  function Show(p: Piece): string
  {
    match p
    case Plain(s) => s
    case Key(k) => k
  }

  /** The masked text the pieces spell. */
  function Render(ps: seq<Piece>): string
  {
    if ps == [] then [] else Show(ps[0]) + Render(ps[1..])
  }

  /** What a placeholder unmasks to: the value of its first entry in the table, or itself
      when the table has none. */
  function Lookup(t: Table, k: string): string
  {
    if t == [] then k else if t[0].key == k then t[0].value else Lookup(t[1..], k)
  }

  /** What a piece stands for. */
  function Meaning(p: Piece, t: Table): string
  {
    if p.Key? then Lookup(t, p.k) else p.s
  }

  /** The text the pieces stand for: every placeholder replaced by its value. */
  function Expand(ps: seq<Piece>, t: Table): string
  {
    if ps == [] then [] else Meaning(ps[0], t) + Expand(ps[1..], t)
  }

  predicate NoOpen(s: string)
  {
    forall j :: 0 <= j < |s| ==> s[j] != '['
  }

  predicate NoBrackets(s: string)
  {
    forall j :: 0 <= j < |s| ==> s[j] != '[' && s[j] != ']'
  }

  /** `[`, then no bracket, then `]`: the shape of every placeholder. */
  predicate IsToken(k: string)
  {
    && |k| >= 2 && k[0] == '[' && k[|k| - 1] == ']'
    && forall j :: 0 < j < |k| - 1 ==> k[j] != '[' && k[j] != ']'
  }

  /** Carried-over text holds no `[`; placeholders are tokens. */
  predicate WellFormed(ps: seq<Piece>)
  {
    forall i :: 0 <= i < |ps| ==>
      (ps[i].Plain? ==> NoOpen(ps[i].s)) && (ps[i].Key? ==> IsToken(ps[i].k))
  }

  /** Every placeholder `k` becomes `v`. */
  function Subst(ps: seq<Piece>, k: string, v: string): (r: seq<Piece>)
    ensures |r| == |ps|
  {
    if ps == [] then []
    else [if ps[0] == Key(k) then Plain(v) else ps[0]] + Subst(ps[1..], k, v)
  }

  lemma RenderAppend(a: seq<Piece>, b: seq<Piece>)
    ensures Render(a + b) == Render(a) + Render(b)
  {
    if a != [] {
      assert (a + b)[0] == a[0];
      assert (a + b)[1..] == a[1..] + b;
      RenderAppend(a[1..], b);
      calc {
        Render(a + b);
        Show(a[0]) + Render(a[1..] + b);
        Show(a[0]) + (Render(a[1..]) + Render(b));
        (Show(a[0]) + Render(a[1..])) + Render(b);
      }
    } else {
      assert a + b == b;
    }
  }

  lemma ExpandAppend(a: seq<Piece>, b: seq<Piece>, t: Table)
    ensures Expand(a + b, t) == Expand(a, t) + Expand(b, t)
  {
    if a != [] {
      assert (a + b)[0] == a[0];
      assert (a + b)[1..] == a[1..] + b;
      ExpandAppend(a[1..], b, t);
    } else {
      assert a + b == b;
    }
  }

  /** Text without `[` in front of the rest passes through `replace` of a token unchanged. */
  lemma {:induction false} ReplaceAllPlain(a: string, b: string, k: string, v: string)
    requires NoOpen(a) && |k| > 0 && k[0] == '['
    ensures ReplaceAll(a + b, k, v) == a + ReplaceAll(b, k, v)
    decreases |a|
  {
    if a != [] {
      var s := a + b;
      assert s[0] == a[0] != k[0];
      assert !Occurs(s, k, 0) by {
        if |k| <= |s| {
          assert s[..|k|][0] == s[0];
        }
      }
      assert s[1..] == a[1..] + b;
      ReplaceAllPlain(a[1..], b, k, v);
      calc {
        ReplaceAll(s, k, v);
        [s[0]] + ReplaceAll(s[1..], k, v);
        [a[0]] + (a[1..] + ReplaceAll(b, k, v));
        { assert a == [a[0]] + a[1..]; }
        a + ReplaceAll(b, k, v);
      }
    } else {
      assert a + b == b;
    }
  }

  /** A token in front of the rest is replaced by its value. */
  lemma ReplaceAllToken(k: string, b: string, v: string)
    requires |k| > 0
    ensures ReplaceAll(k + b, k, v) == v + ReplaceAll(b, k, v)
  {
    assert (k + b)[..|k|] == k;
    assert (k + b)[|k|..] == b;
  }

  /** Neither of two distinct tokens is a prefix of the other: each has its only `]` at its
      end. */
  lemma TokenNotPrefix(k': string, b: string, k: string)
    requires IsToken(k) && IsToken(k') && k != k'
    ensures !Occurs(k' + b, k, 0)
  {
    var s := k' + b;
    if |k| < |k'| {
      assert s[|k| - 1] == k'[|k| - 1] != ']';
    } else if |k| == |k'| {
      assert s[..|k|] == k';
    } else {
      assert s[|k'| - 1] == ']' != k[|k'| - 1];
    }
  }

  /** A different token in front of the rest passes through unchanged. */
  lemma OtherToken(k': string, b: string, k: string, v: string)
    requires IsToken(k) && IsToken(k') && k != k'
    ensures ReplaceAll(k' + b, k, v) == k' + ReplaceAll(b, k, v)
  {
    var s := k' + b;
    TokenNotPrefix(k', b, k);
    var rest := k'[1..];
    assert s[1..] == rest + b;
    ReplaceAllPlain(rest, b, k, v);
    calc {
      ReplaceAll(s, k, v);
      [s[0]] + ReplaceAll(s[1..], k, v);
      [k'[0]] + (rest + ReplaceAll(b, k, v));
      { assert k' == [k'[0]] + rest; }
      k' + ReplaceAll(b, k, v);
    }
  }

  /** `replace` of a token acts piece by piece on well-formed pieces. */
  lemma {:induction false} ReplaceAllPieces(ps: seq<Piece>, k: string, v: string)
    requires WellFormed(ps) && IsToken(k)
    ensures ReplaceAll(Render(ps), k, v) == Render(Subst(ps, k, v))
    decreases |ps|
  {
    if ps != [] {
      assert WellFormed(ps[1..]) by {
        forall i | 0 <= i < |ps[1..]| ensures ps[1..][i] == ps[i + 1] { }
      }
      ReplaceAllPieces(ps[1..], k, v);
      assert Render(ps) == Show(ps[0]) + Render(ps[1..]);
      match ps[0]
      case Plain(s) =>
        ReplaceAllPlain(s, Render(ps[1..]), k, v);
      case Key(k') =>
        if k' == k {
          ReplaceAllToken(k, Render(ps[1..]), v);
        } else {
          OtherToken(k', Render(ps[1..]), k, v);
        }
    }
  }

  lemma {:induction false} SubstWellFormed(ps: seq<Piece>, k: string, v: string)
    requires WellFormed(ps) && NoOpen(v)
    ensures WellFormed(Subst(ps, k, v))
    decreases |ps|
  {
    if ps != [] {
      assert WellFormed(ps[1..]) by {
        forall i | 0 <= i < |ps[1..]| ensures ps[1..][i] == ps[i + 1] { }
      }
      SubstWellFormed(ps[1..], k, v);
      var r := Subst(ps, k, v);
      forall i | 1 <= i < |r| ensures r[i] == Subst(ps[1..], k, v)[i - 1] { }
    }
  }

  /** Substituting the table's first entry and expanding with the rest of the table is
      expanding with the whole table. */
  lemma {:induction false} ExpandSubst(ps: seq<Piece>, t: Table)
    requires t != [] && DistinctKeys(t)
    ensures Expand(Subst(ps, t[0].key, t[0].value), t[1..]) == Expand(ps, t)
    decreases |ps|
  {
    if ps != [] {
      ExpandSubst(ps[1..], t);
    }
  }

  /** The keys of a table that the unmasking can act on: tokens, with values free of `[`. */
  predicate Unmaskable(t: Table)
  {
    && DistinctKeys(t)
    && forall j :: 0 <= j < |t| ==> IsToken(t[j].key) && NoOpen(t[j].value)
  }

  /** On well-formed pieces, `unmask_text` replaces each placeholder by its value. */
  lemma {:induction false} UnmaskPieces(ps: seq<Piece>, t: Table)
    requires WellFormed(ps) && Unmaskable(t)
    ensures Unmask(Render(ps), t) == Expand(ps, t)
    decreases |t|
  {
    if t != [] {
      var k, v := t[0].key, t[0].value;
      ReplaceAllPieces(ps, k, v);
      SubstWellFormed(ps, k, v);
      assert Unmaskable(t[1..]) by {
        forall j | 0 <= j < |t[1..]| ensures t[1..][j] == t[j + 1] { }
        forall i, j | 0 <= i < j < |t[1..]| ensures t[1..][i].key != t[1..][j].key {
          assert t[1..][i] == t[i + 1] && t[1..][j] == t[j + 1];
        }
      }
      UnmaskPieces(Subst(ps, k, v), t[1..]);
      ExpandSubst(ps, t);
    } else {
      ExpandNoTable(ps);
    }
  }

  /** With an empty table every placeholder stays as it is. */
  lemma {:induction false} ExpandNoTable(ps: seq<Piece>)
    ensures Expand(ps, []) == Render(ps)
    decreases |ps|
  {
    if ps != [] {
      ExpandNoTable(ps[1..]);
    }
  }

  /** A character no placeholder holds: neither a letter, a digit, `_` nor a bracket. */
  predicate Foreign(c: char)
  {
    !(IsLetter(c) || IsDigit(c) || c == '_' || c == '[' || c == ']')
  }

  predicate AllDigits(s: string)
  {
    forall j :: 0 <= j < |s| ==> IsDigit(s[j])
  }

  /** Ten digits in a row start at index `j` of `k`. */
  predicate TenDigitsAt(k: string, j: nat)
  {
    j + 10 <= |k| && AllDigits(k[j..j + 10])
  }

  /** A placeholder no masked literal can occur in: a token of letters, digits and `_`
      without a run of ten digits. */
  predicate ShortKey(k: string)
  {
    && IsToken(k)
    && (forall j :: 0 <= j < |k| ==> !Foreign(k[j]))
    && (forall j :: 0 <= j < |k| ==> !TenDigitsAt(k, j))
  }

  /** A literal that is masked: non-empty, without brackets, and either holding a character
      no placeholder has or being at least ten digits long. */
  predicate Safe(v: string)
  {
    && |v| > 0 && NoBrackets(v)
    && ((exists j :: 0 <= j < |v| && Foreign(v[j])) || (|v| >= 10 && AllDigits(v)))
  }

  /** A safe literal never occurs inside a short key. */
  lemma SafeAvoids(k: string, v: string)
    requires ShortKey(k) && Safe(v)
    ensures forall j: nat :: !Occurs(k, v, j)
  {
    forall j: nat ensures !Occurs(k, v, j) {
      if j + |v| <= |k| {
        if exists f :: 0 <= f < |v| && Foreign(v[f]) {
          var f :| 0 <= f < |v| && Foreign(v[f]);
          assert k[j..j + |v|][f] == k[j + f];
        } else {
          DigitRunDiffers(k, v, j);
        }
      }
    }
  }

  /** Ten digits or more differ from any slice of a key without a run of ten digits. */
  lemma DigitRunDiffers(k: string, v: string, j: nat)
    requires j + |v| <= |k| && |v| >= 10 && AllDigits(v) && !TenDigitsAt(k, j)
    ensures k[j..j + |v|] != v
  {
    var d :| 0 <= d < 10 && !IsDigit(k[j..j + 10][d]);
    assert k[j..j + 10][d] == k[j..j + |v|][d];
  }
  /** A piece fits table `t`: carried-over text holds no `[`, and a placeholder is a short
      key of `t`. */
  predicate PieceFits(p: Piece, t: Table)
  {
    && (p.Plain? ==> NoOpen(p.s))
    && (p.Key? ==> ShortKey(p.k) && HasKey(t, p.k))
  }

  predicate Fits(ps: seq<Piece>, t: Table)
  {
    forall i :: 0 <= i < |ps| ==> PieceFits(ps[i], t)
  }

  lemma FitsWellFormed(ps: seq<Piece>, t: Table)
    requires Fits(ps, t)
    ensures WellFormed(ps)
  {
    forall i | 0 <= i < |ps| ensures PieceFits(ps[i], t) { }
  }

  lemma FitsAppend(a: seq<Piece>, b: seq<Piece>, t: Table)
    ensures Fits(a + b, t) <==> Fits(a, t) && Fits(b, t)
  {
    if Fits(a, t) && Fits(b, t) {
      forall i | 0 <= i < |a + b| ensures PieceFits((a + b)[i], t) {
        if i < |a| {
          assert (a + b)[i] == a[i];
        } else {
          assert (a + b)[i] == b[i - |a|];
        }
      }
    }
    if Fits(a + b, t) {
      forall i | 0 <= i < |a| ensures PieceFits(a[i], t) {
        assert (a + b)[i] == a[i];
      }
      forall i | 0 <= i < |b| ensures PieceFits(b[i], t) {
        assert (a + b)[i + |a|] == b[i];
      }
    }
  }

  /** An occurrence in `k + r` that ends within `k` is an occurrence in `k`. */
  lemma OccursInPrefix(k: string, r: string, v: string, i: nat)
    requires Occurs(k + r, v, i)
    ensures i + |v| <= |k| ==> Occurs(k, v, i)
  {
    if i + |v| <= |k| {
      assert k[i..i + |v|] == (k + r)[i..i + |v|];
    }
  }

  /** An occurrence in `x + r` that starts after `x` is an occurrence in `r`. */
  lemma OccursInSuffix(x: string, r: string, v: string, i: nat)
    requires |x| <= i && Occurs(x + r, v, i)
    ensures Occurs(r, v, i - |x|)
  {
    assert r[i - |x|..i - |x| + |v|] == (x + r)[i..i + |v|];
  }

  /** A safe literal that does not occur inside token `k` cannot start inside `k`. */
  lemma AfterToken(k: string, r: string, v: string, i: nat)
    requires IsToken(k) && Safe(v)
    requires forall j: nat :: !Occurs(k, v, j)
    requires Occurs(k + r, v, i)
    ensures i >= |k|
  {
    var s := k + r;
    OccursInPrefix(k, r, v, i);
    assert forall q :: i <= q < i + |v| ==> s[q] == s[i..i + |v|][q - i];
    assert s[0] == '[' && s[|k| - 1] == ']';
  }

  lemma RenderCons(p: Piece, ps: seq<Piece>)
    ensures Render([p] + ps) == Show(p) + Render(ps)
  {
    assert ([p] + ps)[1..] == ps;
  }

  lemma ExpandCons(p: Piece, ps: seq<Piece>, t: Table)
    ensures Expand([p] + ps, t) == Expand([p], t) + Expand(ps, t)
  {
    assert ([p] + ps)[1..] == ps;
    assert [p][1..] == [];
  }

  /** `pre` and `post` are the pieces before and after the occurrence of `v` at `i` in the
      text the pieces `ps` spell, and together with `v` they stand for what `ps` stands for. */
  predicate IsCut(ps: seq<Piece>, t: Table, v: string, i: nat, pre: seq<Piece>, post: seq<Piece>)
  {
    && i + |v| <= |Render(ps)|
    && Fits(pre, t) && Fits(post, t)
    && Render(pre) == Render(ps)[..i] && Render(post) == Render(ps)[i + |v|..]
    && Expand(pre, t) + v + Expand(post, t) == Expand(ps, t)
  }

  lemma IsCutSame(ps: seq<Piece>, qs: seq<Piece>, t: Table, v: string, i: nat,
                  pre: seq<Piece>, post: seq<Piece>)
    requires IsCut(ps, t, v, i, pre, post)
    requires Render(ps) == Render(qs) && Expand(ps, t) == Expand(qs, t)
    ensures IsCut(qs, t, v, i, pre, post)
  {
  }

  /** Cutting `x + r` inside `r`. */
  lemma SplitAfter(x: string, r: string, j: nat, n: nat)
    requires j + n <= |r|
    ensures (x + r)[..|x| + j] == x + r[..j]
    ensures (x + r)[|x| + j + n..] == r[j + n..]
  {
  }

  /** A split of the pieces after a first piece `p` is a split of all of them. */
  lemma Prepend(p: Piece, rest: seq<Piece>, t: Table, v: string,
                pre: seq<Piece>, post: seq<Piece>, j: nat)
    requires j + |v| <= |Render(rest)|
    requires Render(pre) == Render(rest)[..j] && Render(post) == Render(rest)[j + |v|..]
    ensures Render([p] + pre) == Render([p] + rest)[..|Show(p)| + j]
    ensures Render(post) == Render([p] + rest)[|Show(p)| + j + |v|..]
  {
    RenderCons(p, pre);
    RenderCons(p, rest);
    SplitAfter(Show(p), Render(rest), j, |v|);
  }

  /** The same for the text the pieces stand for. */
  lemma PrependExpand(p: Piece, rest: seq<Piece>, t: Table, v: string,
                      pre: seq<Piece>, post: seq<Piece>)
    requires Expand(pre, t) + v + Expand(post, t) == Expand(rest, t)
    ensures Expand([p] + pre, t) + v + Expand(post, t) == Expand([p] + rest, t)
  {
    ExpandCons(p, pre, t);
    ExpandCons(p, rest, t);
    Regroup(Expand([p], t), Expand(pre, t), v, Expand(post, t));
  }

  lemma SplitAround(c: string, v: string, i: nat)
    requires i + |v| <= |c| && c[i..i + |v|] == v
    ensures c == c[..i] + v + c[i + |v|..]
  {
  }

  lemma Regroup(e: string, x: string, v: string, y: string)
    ensures (e + x) + v + y == e + (x + v + y)
  {
  }

  /** Carried-over text stands for itself. */
  lemma ExpandPlain(c: string, t: Table)
    ensures Expand([Plain(c)], t) == c
  {
    assert [Plain(c)][1..] == [];
  }

  lemma ExpandPlainCons(c: string, rest: seq<Piece>, t: Table)
    ensures Expand([Plain(c)] + rest, t) == c + Expand(rest, t)
  {
    ExpandCons(Plain(c), rest, t);
    ExpandPlain(c, t);
  }

  /** An occurrence inside carried-over text `c` at the front splits `c` around it. */
  lemma CutHere(c: string, rest: seq<Piece>, t: Table, v: string, i: nat)
    returns (pre: seq<Piece>, post: seq<Piece>)
    requires NoOpen(c) && Fits(rest, t)
    requires i + |v| <= |c| && c[i..i + |v|] == v
    ensures IsCut([Plain(c)] + rest, t, v, i, pre, post)
  {
    RenderCons(Plain(c), rest);
    var a, b := c[..i], c[i + |v|..];
    pre := [Plain(a)];
    post := [Plain(b)] + rest;
    assert Fits(pre, t);
    assert PieceFits(Plain(b), t);
    FitsAppend([Plain(b)], rest, t);
    CutHereRender(c, rest, v, i);
    CutHereExpand(c, rest, t, v, i);
  }

  lemma CutHereRender(c: string, rest: seq<Piece>, v: string, i: nat)
    requires i + |v| <= |c|
    ensures Render([Plain(c[..i])]) == Render([Plain(c)] + rest)[..i]
    ensures Render([Plain(c[i + |v|..])] + rest) == Render([Plain(c)] + rest)[i + |v|..]
  {
    RenderCons(Plain(c[..i]), []);
    RenderCons(Plain(c), rest);
    RenderCons(Plain(c[i + |v|..]), rest);
    var r := Render(rest);
    assert (c + r)[..i] == c[..i];
    assert (c + r)[i + |v|..] == c[i + |v|..] + r;
  }

  lemma CutHereExpand(c: string, rest: seq<Piece>, t: Table, v: string, i: nat)
    requires i + |v| <= |c| && c[i..i + |v|] == v
    ensures Expand([Plain(c[..i])], t) + v + Expand([Plain(c[i + |v|..])] + rest, t)
            == Expand([Plain(c)] + rest, t)
  {
    var a, b := c[..i], c[i + |v|..];
    SplitAround(c, v, i);
    ExpandPlainCons(c, rest, t);
    ExpandPlainCons(b, rest, t);
    ExpandPlain(a, t);
    Regroup(a, v, b, Expand(rest, t));
  }

  /** Two pieces of carried-over text in a row read as one. */
  lemma Merge(c: string, d: string, rest: seq<Piece>, t: Table)
    requires NoOpen(c) && NoOpen(d) && Fits(rest, t)
    ensures Fits([Plain(c + d)] + rest, t)
    ensures Render([Plain(c + d)] + rest) == Render([Plain(c)] + ([Plain(d)] + rest))
    ensures Expand([Plain(c + d)] + rest, t) == Expand([Plain(c)] + ([Plain(d)] + rest), t)
  {
    assert PieceFits(Plain(c + d), t);
    FitsAppend([Plain(c + d)], rest, t);
    MergeRender(c, d, rest);
    MergeExpand(c, d, rest, t);
  }

  lemma MergeRender(c: string, d: string, rest: seq<Piece>)
    ensures Render([Plain(c + d)] + rest) == Render([Plain(c)] + ([Plain(d)] + rest))
  {
    RenderCons(Plain(c + d), rest);
    RenderCons(Plain(c), [Plain(d)] + rest);
    RenderCons(Plain(d), rest);
    var r := Render(rest);
    assert (c + d) + r == c + (d + r);
  }

  lemma MergeExpand(c: string, d: string, rest: seq<Piece>, t: Table)
    ensures Expand([Plain(c + d)] + rest, t) == Expand([Plain(c)] + ([Plain(d)] + rest), t)
  {
    ExpandPlainCons(c + d, rest, t);
    ExpandPlainCons(c, [Plain(d)] + rest, t);
    ExpandPlainCons(d, rest, t);
    var e := Expand(rest, t);
    assert (c + d) + e == c + (d + e);
  }

  /** Text spelled by pieces starting with a placeholder starts with `[`. */
  lemma KeyFirst(ps: seq<Piece>, t: Table)
    requires ps != [] && Fits(ps, t) && |Render(ps)| > 0
    ensures ps[0].Key? ==> Render(ps)[0] == '['
  {
    Uncons(ps, t);
  }

  /** The first piece and the rest of non-empty pieces. */
  lemma Uncons(ps: seq<Piece>, t: Table)
    requires ps != [] && Fits(ps, t)
    ensures ps == [ps[0]] + ps[1..]
    ensures PieceFits(ps[0], t) && Fits(ps[1..], t)
    ensures Render(ps) == Show(ps[0]) + Render(ps[1..])
  {
    assert ps == [ps[0]] + ps[1..];
    FitsAppend([ps[0]], ps[1..], t);
  }

  /** An occurrence of a safe literal does not start inside a placeholder. */
  lemma NotInKey(p: Piece, r: string, t: Table, v: string, i: nat)
    requires PieceFits(p, t) && Safe(v) && Occurs(Show(p) + r, v, i)
    ensures p.Key? ==> |Show(p)| <= i
  {
    if p.Key? {
      SafeAvoids(p.k, v);
      AfterToken(p.k, r, v, i);
    }
  }

  /** An occurrence of a safe literal in the text the pieces spell lies inside carried-over
      text, so the pieces split into those before it and those after it. */
  lemma {:induction false} Cut(ps: seq<Piece>, t: Table, v: string, i: nat)
    returns (pre: seq<Piece>, post: seq<Piece>)
    requires Fits(ps, t) && Safe(v) && Occurs(Render(ps), v, i)
    ensures IsCut(ps, t, v, i, pre, post)
    decreases |ps|, 1
  {
    assert ps != [];
    Uncons(ps, t);
    var rest := ps[1..];
    NotInKey(ps[0], Render(rest), t, v, i);
    var h := |Show(ps[0])|;
    if h <= i {
      pre, post := CutLater(ps[0], rest, t, v, i);
    } else if |ps| == 1 || i + |v| <= h {
      var c := ps[0].s;
      assert c[i..i + |v|] == Render(ps)[i..i + |v|];
      pre, post := CutHere(c, rest, t, v, i);
    } else {
      pre, post := CutAcross(ps[0].s, rest, t, v, i);
    }
  }

  /** The occurrence starts after the first piece. */
  lemma {:induction false} CutLater(p: Piece, rest: seq<Piece>, t: Table, v: string, i: nat)
    returns (pre: seq<Piece>, post: seq<Piece>)
    requires PieceFits(p, t) && Fits(rest, t) && Safe(v)
    requires |Show(p)| <= i && Occurs(Show(p) + Render(rest), v, i)
    ensures IsCut([p] + rest, t, v, i, pre, post)
    decreases |rest| + 1, 0
  {
    var j := i - |Show(p)|;
    OccursInSuffix(Show(p), Render(rest), v, i);
    var pre';
    pre', post := Cut(rest, t, v, j);
    pre := Combine(p, rest, t, v, pre', post, i);
  }

  /** A cut of the pieces after `p`, with `p` put back in front. */
  lemma Combine(p: Piece, rest: seq<Piece>, t: Table, v: string,
                pre: seq<Piece>, post: seq<Piece>, i: nat)
    returns (pre': seq<Piece>)
    requires |Show(p)| <= i && PieceFits(p, t) && IsCut(rest, t, v, i - |Show(p)|, pre, post)
    ensures pre' == [p] + pre
    ensures IsCut([p] + rest, t, v, i, pre', post)
  {
    var j := i - |Show(p)|;
    RenderCons(p, rest);
    Prepend(p, rest, t, v, pre, post, j);
    PrependExpand(p, rest, t, v, pre, post);
    FitsCons(p, pre, t);
    pre' := [p] + pre;
  }

  /** The occurrence starts inside carried-over text `c` and runs past it: the next piece is
      carried-over text too (a placeholder would put a `[` inside the literal), and the two
      read as one. */
  lemma {:induction false} CutAcross(c: string, rest: seq<Piece>, t: Table, v: string, i: nat)
    returns (pre: seq<Piece>, post: seq<Piece>)
    requires NoOpen(c) && Fits(rest, t) && Safe(v)
    requires i < |c| < i + |v| && Occurs(c + Render(rest), v, i)
    ensures IsCut([Plain(c)] + rest, t, v, i, pre, post)
    decreases |rest| + 1, 0
  {
    var s := c + Render(rest);
    assert s[|c|] == s[i..i + |v|][|c| - i];
    assert rest != [];
    Uncons(rest, t);
    assert s[|c|] == Render(rest)[0];
    KeyFirst(rest, t);
    if rest[0].Plain? {
      var d := rest[0].s;
      Merge(c, d, rest[1..], t);
      RenderCons(Plain(c), rest);
      RenderCons(Plain(c + d), rest[1..]);
      pre, post := Cut([Plain(c + d)] + rest[1..], t, v, i);
      IsCutSame([Plain(c + d)] + rest[1..], [Plain(c)] + rest, t, v, i, pre, post);
    } else {
      assert false;
    }
  }

  lemma FitsCons(p: Piece, ps: seq<Piece>, t: Table)
    requires PieceFits(p, t) && Fits(ps, t)
    ensures Fits([p] + ps, t)
  {
    assert Fits([p], t);
    FitsAppend([p], ps, t);
  }

  /** A new last entry answers for its key. */
  lemma {:induction false} LookupAppendNew(t: Table, k: string, v: string)
    requires !HasKey(t, k)
    ensures Lookup(t + [Entry(k, v)], k) == v
    decreases |t|
  {
    if t != [] {
      assert (t + [Entry(k, v)])[1..] == t[1..] + [Entry(k, v)];
      assert t[0].key != k;
      assert !HasKey(t[1..], k) by {
        forall j | 0 <= j < |t[1..]| ensures t[1..][j].key != k {
          assert t[1..][j] == t[j + 1];
        }
      }
      LookupAppendNew(t[1..], k, v);
    }
  }

  /** A new last entry does not change what a key already in the table answers. */
  lemma {:induction false} LookupAppendOld(t: Table, e: Entry, k: string)
    requires HasKey(t, k)
    ensures Lookup(t + [e], k) == Lookup(t, k)
    decreases |t|
  {
    assert t != [];
    assert (t + [e])[1..] == t[1..] + [e];
    if t[0].key != k {
      var j :| 0 <= j < |t| && t[j].key == k;
      assert t[1..][j - 1].key == k;
      LookupAppendOld(t[1..], e, k);
    }
  }

  /** Appending an entry to the table leaves what fitting pieces stand for alone. */
  lemma {:induction false} ExpandExtend(ps: seq<Piece>, t: Table, e: Entry)
    requires Fits(ps, t)
    ensures Fits(ps, t + [e])
    ensures Expand(ps, t + [e]) == Expand(ps, t)
    decreases |ps|
  {
    if ps != [] {
      Uncons(ps, t);
      ExpandExtend(ps[1..], t, e);
      if ps[0].Key? {
        LookupAppendOld(t, e, ps[0].k);
        var j :| 0 <= j < |t| && t[j].key == ps[0].k;
        assert (t + [e])[j].key == ps[0].k;
      }
      FitsCons(ps[0], ps[1..], t + [e]);
    }
  }

  lemma UnmaskableAppend(t: Table, k: string, v: string)
    requires Unmaskable(t) && IsToken(k) && NoOpen(v) && !HasKey(t, k)
    ensures Unmaskable(t + [Entry(k, v)])
  {
    var t' := t + [Entry(k, v)];
    forall j | 0 <= j < |t'| ensures IsToken(t'[j].key) && NoOpen(t'[j].value) {
      if j < |t| {
        assert t'[j] == t[j];
      }
    }
    forall i, j | 0 <= i < j < |t'| ensures t'[i].key != t'[j].key {
      assert t'[i] == t[i];
      if j == |t| {
        assert t[i].key != k;
      } else {
        assert t'[j] == t[j];
      }
    }
  }

  /** The working invariant of the masking: the pieces spell the masked text, fit the table,
      and stand for the original text; the table can be unmasked. */
  predicate Inv(text: string, t: Table, ps: seq<Piece>, orig: string)
  {
    && Fits(ps, t) && Unmaskable(t) && Render(ps) == text && Expand(ps, t) == orig
  }

  /** Putting placeholder `k` between the pieces before and after a cut. */
  lemma Splice(pre: seq<Piece>, post: seq<Piece>, t: Table, k: string, v: string)
    requires !HasKey(t, k) && ShortKey(k) && Fits(pre, t) && Fits(post, t)
    ensures Fits(pre + [Key(k)] + post, t + [Entry(k, v)])
    ensures Render(pre + [Key(k)] + post) == Render(pre) + k + Render(post)
    ensures Expand(pre + [Key(k)] + post, t + [Entry(k, v)])
            == Expand(pre, t) + v + Expand(post, t)
  {
    var t' := t + [Entry(k, v)];
    ExpandExtend(pre, t, Entry(k, v));
    ExpandExtend(post, t, Entry(k, v));
    assert t'[|t|].key == k;
    assert PieceFits(Key(k), t');
    FitsCons(Key(k), post, t');
    assert pre + [Key(k)] + post == pre + ([Key(k)] + post);
    FitsAppend(pre, [Key(k)] + post, t');
    SpliceRender(pre, post, k);
    LookupAppendNew(t, k, v);
    SpliceExpand(pre, post, t', k);
  }

  lemma SpliceRender(pre: seq<Piece>, post: seq<Piece>, k: string)
    ensures Render(pre + [Key(k)] + post) == Render(pre) + k + Render(post)
  {
    assert pre + [Key(k)] + post == pre + ([Key(k)] + post);
    RenderAppend(pre, [Key(k)] + post);
    RenderCons(Key(k), post);
  }

  lemma SpliceExpand(pre: seq<Piece>, post: seq<Piece>, t: Table, k: string)
    ensures Expand(pre + [Key(k)] + post, t) == Expand(pre, t) + Lookup(t, k) + Expand(post, t)
  {
    assert pre + [Key(k)] + post == pre + ([Key(k)] + post);
    ExpandAppend(pre, [Key(k)] + post, t);
    ExpandCons(Key(k), post, t);
    assert Expand([Key(k)], t) == Lookup(t, k);
  }

  /** `str.find` returns an index at which the literal occurs. */
  lemma FoundOccurs(s: string, v: string)
    ensures Find(s, v).Some? ==> Occurs(s, v, Find(s, v).value)
  {
    FindFirst(s, v);
  }

  lemma ReplaceFound(s: string, v: string, k: string, i: nat)
    requires Find(s, v) == Some(i)
    ensures Replace1(s, v, k) == s[..i] + k + s[i + |v|..]
  {
  }

  /** One `replace(v, k, 1)` of a safe literal `v` by a fresh short placeholder `k`, with the
      entry `k: v` appended to the table, keeps the invariant. */
  lemma Step(text: string, t: Table, ps: seq<Piece>, orig: string, v: string, k: string)
    returns (ps': seq<Piece>)
    requires Inv(text, t, ps, orig) && Safe(v) && ShortKey(k) && !HasKey(t, k)
    ensures Inv(Replace1(text, v, k), t + [Entry(k, v)], ps', orig)
  {
    UnmaskableAppend(t, k, v);
    match Find(text, v)
    case None =>
      ExpandExtend(ps, t, Entry(k, v));
      ps' := ps;
    case Some(i) =>
      ps' := StepAt(text, t, ps, orig, v, k, i);
  }

  /** The literal occurs first at `i`: the pieces are cut around it and `k` goes between. */
  lemma StepAt(text: string, t: Table, ps: seq<Piece>, orig: string, v: string, k: string,
               i: nat)
    returns (ps': seq<Piece>)
    requires Inv(text, t, ps, orig) && Safe(v) && ShortKey(k) && !HasKey(t, k)
    requires Find(text, v) == Some(i)
    ensures Fits(ps', t + [Entry(k, v)])
    ensures Render(ps') == Replace1(text, v, k)
    ensures Expand(ps', t + [Entry(k, v)]) == orig
  {
    FoundOccurs(text, v);
    var pre, post := Cut(ps, t, v, i);
    Splice(pre, post, t, k, v);
    ps' := pre + [Key(k)] + post;
    ReplaceFound(text, v, k, i);
  }
}
