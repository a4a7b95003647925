/** Where `mask_text` puts its placeholders. Each match is still in the text when the loop
    reaches it, because `replace(..., 1)` cuts the text at or before that match. So every
    placeholder the table holds occurs in the masked text exactly once. A phone literal
    matched again is skipped and keeps its later occurrences, and a repeated email gets a
    placeholder of its own for each occurrence. */
module Placement {
  import opened Wrappers
  import opened Text
  import opened Table
  import opened Pattern
  import opened Masking
  import opened Pieces
  import opened RoundTrip

  /** The number of positions at which `k` occurs in `s`. */
  function Count(s: string, k: string): nat
    decreases |s|
  {
    if |k| == 0 || |s| < |k| then 0
    else (if s[..|k|] == k then 1 else 0) + Count(s[1..], k)
  }

  /** `k` occurs in `s` at `i` and nowhere else. */
  ghost predicate OnlyAt(s: string, k: string, i: nat)
  {
    Occurs(s, k, i) && forall j: nat :: Occurs(s, k, j) ==> j == i
  }

  /** `Count` is zero exactly when `k` occurs nowhere in `s`. */
  lemma {:induction false} CountZero(s: string, k: string)
    requires |k| > 0
    ensures Count(s, k) == 0 <==> forall i: nat :: !Occurs(s, k, i)
    decreases |s|
  {
    if |s| >= |k| {
      var t := s[1..];
      CountZero(t, k);
      assert Occurs(s, k, 0) <==> s[..|k|] == k;
      if forall i: nat :: !Occurs(s, k, i) {
        forall j: nat ensures !Occurs(t, k, j) {
          OccursTail(s, k, j);
        }
      }
      if Count(s, k) == 0 {
        forall i: nat ensures !Occurs(s, k, i) {
          if i > 0 {
            OccursTail(s, k, i - 1);
          }
        }
      }
    }
  }

  /** `Count` is one exactly when `k` occurs in `s` at a single position. */
  lemma {:induction false} CountOne(s: string, k: string)
    requires |k| > 0
    ensures Count(s, k) == 1 <==> exists i: nat :: OnlyAt(s, k, i)
    decreases |s|
  {
    if |s| < |k| {
      assert forall i: nat :: !Occurs(s, k, i);
    } else {
      var t := s[1..];
      CountOne(t, k);
      CountZero(t, k);
      assert Occurs(s, k, 0) <==> s[..|k|] == k;
      if Count(s, k) == 1 {
        CountOneFrom(s, k);
      }
      if exists i: nat :: OnlyAt(s, k, i) {
        var i: nat :| OnlyAt(s, k, i);
        CountOneTo(s, k, i);
      }
    }
  }

  lemma CountOneFrom(s: string, k: string)
    requires |k| > 0 && |s| >= |k| && Count(s, k) == 1
    requires Count(s[1..], k) == 0 <==> forall i: nat :: !Occurs(s[1..], k, i)
    requires Count(s[1..], k) == 1 <==> exists i: nat :: OnlyAt(s[1..], k, i)
    ensures exists i: nat :: OnlyAt(s, k, i)
  {
    var t := s[1..];
    if s[..|k|] == k {
      assert Occurs(s, k, 0);
      forall j: nat | Occurs(s, k, j) ensures j == 0 {
        if j > 0 {
          OccursTail(s, k, j - 1);
        }
      }
      assert OnlyAt(s, k, 0);
    } else {
      var i: nat :| OnlyAt(t, k, i);
      OccursTail(s, k, i);
      forall j: nat | Occurs(s, k, j) ensures j == i + 1 {
        if j > 0 {
          OccursTail(s, k, j - 1);
        }
      }
      assert OnlyAt(s, k, i + 1);
    }
  }

  lemma CountOneTo(s: string, k: string, i: nat)
    requires |k| > 0 && |s| >= |k| && OnlyAt(s, k, i)
    requires Count(s[1..], k) == 0 <==> forall i: nat :: !Occurs(s[1..], k, i)
    requires Count(s[1..], k) == 1 <==> exists i: nat :: OnlyAt(s[1..], k, i)
    ensures Count(s, k) == 1
  {
    var t := s[1..];
    forall j: nat | Occurs(t, k, j) ensures j + 1 == i {
      OccursTail(s, k, j);
    }
    if i == 0 {
      assert s[..|k|] == k;
    } else {
      OccursTail(s, k, i - 1);
      assert OnlyAt(t, k, i - 1);
      assert !Occurs(s, k, 0);
    }
  }

  /** The number of pieces that are placeholder `k`. */
  function KeyCount(ps: seq<Piece>, k: string): nat
  {
    if ps == [] then 0 else (if ps[0] == Key(k) then 1 else 0) + KeyCount(ps[1..], k)
  }

  lemma {:induction false} KeyCountAppend(a: seq<Piece>, b: seq<Piece>, k: string)
    ensures KeyCount(a + b, k) == KeyCount(a, k) + KeyCount(b, k)
  {
    if a == [] {
      assert a + b == b;
    } else {
      KeyCountAppend(a[1..], b, k);
      assert (a + b)[1..] == a[1..] + b;
    }
  }

  /** Pieces that fit a table hold no placeholder the table lacks. */
  lemma {:induction false} KeyCountAbsent(ps: seq<Piece>, t: Table, k: string)
    requires Fits(ps, t) && !HasKey(t, k)
    ensures KeyCount(ps, k) == 0
  {
    if ps != [] {
      Uncons(ps, t);
      KeyCountAbsent(ps[1..], t, k);
    }
  }

  /** Text without `[` in front adds no occurrence of a token. */
  lemma {:induction false} CountSkip(x: string, y: string, k: string)
    requires NoOpen(x) && IsToken(k)
    ensures Count(x + y, k) == Count(y, k)
    decreases |x|
  {
    if x == [] {
      assert x + y == y;
    } else {
      var s := x + y;
      assert s[1..] == x[1..] + y;
      assert s[0] == x[0] != '[';
      if |s| >= |k| {
        assert s[..|k|][0] == s[0];
      }
      assert NoOpen(x[1..]) by {
        forall j | 0 <= j < |x[1..]| ensures x[1..][j] != '[' {
          assert x[1..][j] == x[j + 1];
        }
      }
      CountSkip(x[1..], y, k);
    }
  }

  /** A token `k'` in front adds one occurrence of `k` when it is `k`, and none otherwise. */
  lemma CountKey(k': string, y: string, k: string)
    requires IsToken(k') && IsToken(k)
    ensures Count(k' + y, k) == (if k == k' then 1 else 0) + Count(y, k)
  {
    var s := k' + y;
    var tail := k'[1..];
    assert s[1..] == tail + y;
    assert NoOpen(tail) by {
      forall j | 0 <= j < |tail| ensures tail[j] != '[' {
        assert tail[j] == k'[j + 1];
      }
    }
    CountSkip(tail, y, k);
    if |s| >= |k| {
      if k == k' {
        assert s[..|k|] == k';
      } else {
        TokenNotPrefix(k', y, k);
      }
    }
  }

  /** In the text well-formed pieces spell, a token occurs once per piece that is it. */
  lemma {:induction false} CountRender(ps: seq<Piece>, k: string)
    requires WellFormed(ps) && IsToken(k)
    ensures Count(Render(ps), k) == KeyCount(ps, k)
  {
    if ps != [] {
      var rest := ps[1..];
      assert WellFormed(rest) by {
        forall i | 0 <= i < |rest| ensures rest[i] == ps[i + 1] { }
      }
      CountRender(rest, k);
      match ps[0]
      case Plain(c) =>
        CountSkip(c, Render(rest), k);
      case Key(k') =>
        CountKey(k', Render(rest), k);
    }
  }

  /** The strings `ms` occur in `s` one after another, in their order, without overlap. */
  ghost predicate Laid(ms: seq<string>, s: string)
    decreases |ms|
  {
    ms == [] || exists i: nat :: Occurs(s, ms[0], i) && Laid(ms[1..], s[i + |ms[0]|..])
  }

  /** What is laid out in a text is laid out in any text ending with it. */
  lemma LaidExtend(ms: seq<string>, x: string, y: string)
    requires Laid(ms, y)
    ensures Laid(ms, x + y)
  {
    if ms != [] {
      var v := ms[0];
      var i: nat :| Occurs(y, v, i) && Laid(ms[1..], y[i + |v|..]);
      var s := x + y;
      assert s[|x| + i..|x| + i + |v|] == y[i..i + |v|];
      assert s[|x| + i + |v|..] == y[i + |v|..];
      assert Occurs(s, v, |x| + i);
    }
  }

  /** Dropping the first string keeps the rest laid out in the same text. */
  lemma LaidDrop(ms: seq<string>, s: string)
    requires ms != [] && Laid(ms, s)
    ensures Laid(ms[1..], s)
  {
    var i: nat :| Occurs(s, ms[0], i) && Laid(ms[1..], s[i + |ms[0]|..]);
    var n := i + |ms[0]|;
    LaidExtend(ms[1..], s[..n], s[n..]);
    assert s[..n] + s[n..] == s;
  }

  /** The matches `findall` returns lie in the text scanned, in order and without overlap. */
  lemma {:induction false} FindAllLaid(p: Pattern, s: string, pos: nat)
    requires pos <= |s|
    ensures Laid(FindAll(p, s, pos), s[pos..])
    decreases |s| - pos
  {
    match MatchFrom(p, s, pos)
    case Some(e) =>
      MatchShaped(p, s, pos, e);
      if e > pos {
        FindAllLaid(p, s, e);
        LaidHead(s, pos, e, FindAll(p, s, e));
      } else if pos < |s| {
        var rest := FindAll(p, s, pos + 1);
        FindAllLaid(p, s, pos + 1);
        LaidExtend(rest, [s[pos]], s[pos + 1..]);
        assert [s[pos]] + s[pos + 1..] == s[pos..];
        LaidHead(s, pos, e, rest);
      } else {
        LaidHead(s, pos, e, []);
      }
    case None =>
      if pos < |s| {
        FindAllLaid(p, s, pos + 1);
        LaidExtend(FindAll(p, s, pos), [s[pos]], s[pos + 1..]);
        assert [s[pos]] + s[pos + 1..] == s[pos..];
      }
  }

  /** A match from `pos` to `e` followed by matches laid after `e` is laid from `pos`. */
  lemma LaidHead(s: string, pos: nat, e: nat, rest: seq<string>)
    requires pos <= e <= |s| && Laid(rest, s[e..])
    ensures Laid([s[pos..e]] + rest, s[pos..])
  {
    var ms := [s[pos..e]] + rest;
    assert s[pos..][e - pos..] == s[e..];
    assert s[pos..][0..e - pos] == s[pos..e];
    assert Occurs(s[pos..], ms[0], 0);
    assert ms[1..] == rest;
  }

  /** Every key of `t` is a placeholder occurring exactly once in `s`. */
  ghost predicate Placed(s: string, t: Table)
  {
    forall k :: HasKey(t, k) ==> IsToken(k) && Count(s, k) == 1
  }

  /** Putting token `k` in place of the literal at `i` adds one occurrence of `k` and leaves
      the count of every other token as it was. */
  lemma SpliceCounts(text: string, t: Table, pre: seq<Piece>, post: seq<Piece>, v: string,
                     k: string, i: nat)
    requires i + |v| <= |text| && text[i..i + |v|] == v && NoOpen(v)
    requires Fits(pre, t) && Fits(post, t) && !HasKey(t, k) && ShortKey(k)
    requires Render(pre) == text[..i] && Render(post) == text[i + |v|..]
    ensures forall k' :: IsToken(k') ==>
              Count(text[..i] + k + text[i + |v|..], k') == Count(text, k') + (if k' == k then 1 else 0)
  {
    var a := pre + [Plain(v)] + post;
    var b := pre + [Key(k)] + post;
    PlainSpliceWellFormed(t, pre, post, v);
    Splice(pre, post, t, k, v);
    FitsWellFormed(b, t + [Entry(k, v)]);
    PlainSpliceRender(text, pre, post, v, i);
    forall k' | IsToken(k')
      ensures Count(text[..i] + k + text[i + |v|..], k') == Count(text, k') + (if k' == k then 1 else 0)
    {
      SpliceKeyCount(pre, post, v, k, k');
    }
  }

  lemma PlainSpliceWellFormed(t: Table, pre: seq<Piece>, post: seq<Piece>, v: string)
    requires Fits(pre, t) && Fits(post, t) && NoOpen(v)
    ensures WellFormed(pre + [Plain(v)] + post)
  {
    assert PieceFits(Plain(v), t);
    FitsCons(Plain(v), post, t);
    FitsAppend(pre, [Plain(v)] + post, t);
    assert pre + [Plain(v)] + post == pre + ([Plain(v)] + post);
    FitsWellFormed(pre + [Plain(v)] + post, t);
  }

  lemma PlainSpliceRender(text: string, pre: seq<Piece>, post: seq<Piece>, v: string, i: nat)
    requires i + |v| <= |text| && text[i..i + |v|] == v
    requires Render(pre) == text[..i] && Render(post) == text[i + |v|..]
    ensures Render(pre + [Plain(v)] + post) == text
  {
    assert pre + [Plain(v)] + post == pre + ([Plain(v)] + post);
    RenderAppend(pre, [Plain(v)] + post);
    RenderCons(Plain(v), post);
    SplitAround(text, v, i);
  }

  /** Counting token `k'` in the two splices: they differ by the placeholder piece only. */
  lemma SpliceKeyCount(pre: seq<Piece>, post: seq<Piece>, v: string, k: string, k': string)
    requires IsToken(k') && WellFormed(pre + [Plain(v)] + post) && WellFormed(pre + [Key(k)] + post)
    ensures Count(Render(pre + [Key(k)] + post), k')
            == Count(Render(pre + [Plain(v)] + post), k') + (if k' == k then 1 else 0)
  {
    CountRender(pre + [Plain(v)] + post, k');
    CountRender(pre + [Key(k)] + post, k');
    KeyCountMiddle(pre, Plain(v), post, k');
    KeyCountMiddle(pre, Key(k), post, k');
  }

  /** The count over pieces with one piece in the middle splits around that piece. */
  lemma KeyCountMiddle(pre: seq<Piece>, x: Piece, post: seq<Piece>, k: string)
    ensures KeyCount(pre + [x] + post, k) == KeyCount(pre, k) + (if x == Key(k) then 1 else 0) + KeyCount(post, k)
  {
    assert pre + [x] + post == pre + ([x] + post);
    KeyCountAppend(pre, [x] + post, k);
    assert ([x] + post)[1..] == post;
  }

  /** A key added to the table names a token or a key it had before. */
  lemma HasKeyAppend(t: Table, k: string, v: string, k': string)
    requires HasKey(t + [Entry(k, v)], k')
    ensures k' == k || HasKey(t, k')
  {
    var j :| 0 <= j < |t + [Entry(k, v)]| && (t + [Entry(k, v)])[j].key == k';
    if j < |t| {
      assert t[j].key == k';
    }
  }

  /** `replace(v, k, 1)` of the next match `v` by a fresh short placeholder `k`, with `k: v`
      appended to the table, places `k` exactly once, keeps every other key placed, and leaves
      the later matches laid out in the text. */
  lemma InsertOnce(text: string, t: Table, ps: seq<Piece>, orig: string, ms: seq<string>,
                   k: string)
    requires Inv(text, t, ps, orig) && ms != [] && Safe(ms[0]) && ShortKey(k) && !HasKey(t, k)
    requires Placed(text, t) && Laid(ms, text)
    ensures Placed(Replace1(text, ms[0], k), t + [Entry(k, ms[0])])
    ensures Laid(ms[1..], Replace1(text, ms[0], k))
  {
    var v := ms[0];
    var i0: nat :| Occurs(text, v, i0) && Laid(ms[1..], text[i0 + |v|..]);
    FindFirst(text, v);
    var i := Find(text, v).value;
    InsertPlaced(text, t, ps, orig, v, k, i);
    InsertLaid(text, v, k, i, i0, ms[1..]);
  }

  /** A fresh placeholder does not occur in a text its pieces spell. */
  lemma FreshAbsent(text: string, t: Table, ps: seq<Piece>, orig: string, k: string)
    requires Inv(text, t, ps, orig) && IsToken(k) && !HasKey(t, k)
    ensures Count(text, k) == 0
  {
    FitsWellFormed(ps, t);
    CountRender(ps, k);
    KeyCountAbsent(ps, t, k);
  }

  /** The counting half of `InsertOnce`, for the first occurrence `i` of `v`. */
  lemma InsertPlaced(text: string, t: Table, ps: seq<Piece>, orig: string, v: string, k: string,
                     i: nat)
    requires Inv(text, t, ps, orig) && Safe(v) && ShortKey(k) && !HasKey(t, k)
    requires Placed(text, t) && Find(text, v) == Some(i)
    ensures Placed(Replace1(text, v, k), t + [Entry(k, v)])
  {
    FoundOccurs(text, v);
    var pre, post := Cut(ps, t, v, i);
    assert NoOpen(v);
    SpliceCounts(text, t, pre, post, v, k, i);
    ReplaceFound(text, v, k, i);
    FreshAbsent(text, t, ps, orig, k);
    var text' := Replace1(text, v, k);
    forall k' | HasKey(t + [Entry(k, v)], k') ensures IsToken(k') && Count(text', k') == 1 {
      HasKeyAppend(t, k, v, k');
    }
  }

  /** The later matches, laid out after the next one, are laid out after the replacement. */
  lemma InsertLaid(text: string, v: string, k: string, i: nat, i0: nat, rest: seq<string>)
    requires Find(text, v) == Some(i) && i <= i0 && i0 + |v| <= |text|
    requires Laid(rest, text[i0 + |v|..])
    ensures Laid(rest, Replace1(text, v, k))
  {
    ReplaceFound(text, v, k, i);
    var x := text[..i] + k + text[i + |v|..i0 + |v|];
    assert text[i + |v|..] == text[i + |v|..i0 + |v|] + text[i0 + |v|..];
    assert Replace1(text, v, k) == x + text[i0 + |v|..];
    LaidExtend(rest, x, text[i0 + |v|..]);
  }

  /** One phone match keeps every placeholder placed and the later matches laid out. */
  lemma PhoneStepOnce(st: MaskState, phones: seq<string>, ps: seq<Piece>, orig: string)
    returns (ps': seq<Piece>)
    requires phones != [] && Inv(st.text, st.table, ps, orig) && PhoneTable(st)
    requires Safe(phones[0]) && st.counter < 1_000_000_000
    requires Placed(st.text, st.table) && Laid(phones, st.text)
    ensures var r := PhoneStep(st, phones[0]);
            && Inv(r.text, r.table, ps', orig) && PhoneTable(r) && r.counter <= st.counter + 1
            && Placed(r.text, r.table) && Laid(phones[1..], r.text)
  {
    var phone := phones[0];
    ps' := PhoneStepKeeps(st, phone, ps, orig);
    PhoneStepTable(st, phone);
    if Strip(phone) != [] && !HasValue(st.table, phone) {
      var ph := PhonePlaceholder(st.counter);
      PhonePutAppends(st, phone);
      PhoneFresh(st);
      PhonePlaceholderShort(st.counter);
      InsertOnce(st.text, st.table, ps, orig, phones, ph);
    } else {
      LaidDrop(phones, st.text);
    }
  }

  /** The loop over one pattern's matches keeps every placeholder placed. */
  lemma {:induction false} PhoneRunOnce(st: MaskState, phones: seq<string>, ps: seq<Piece>,
                                        orig: string)
    requires Inv(st.text, st.table, ps, orig) && PhoneTable(st)
    requires forall m :: 0 <= m < |phones| ==> Safe(phones[m])
    requires st.counter + |phones| <= 1_000_000_000
    requires Placed(st.text, st.table) && Laid(phones, st.text)
    ensures Placed(PhoneRun(st, phones).text, PhoneRun(st, phones).table)
    decreases |phones|
  {
    if phones != [] {
      var ps1 := PhoneStepOnce(st, phones, ps, orig);
      assert forall m :: 0 <= m < |phones[1..]| ==> phones[1..][m] == phones[m + 1];
      PhoneRunOnce(PhoneStep(st, phones[0]), phones[1..], ps1, orig);
    }
  }

  /** The matches of `p` in the whole text lie in it in order. */
  lemma MatchesLaid(p: Pattern, s: string)
    ensures Laid(FindAll(p, s, 0), s)
  {
    FindAllLaid(p, s, 0);
    assert s[0..] == s;
  }

  /** Every match of a pattern that matches safe literals only is safe. */
  lemma MatchesSafeAll(p: Pattern, s: string)
    requires MatchesSafe(p)
    ensures forall m :: 0 <= m < |FindAll(p, s, 0)| ==> Safe(FindAll(p, s, 0)[m])
  {
    var ms := FindAll(p, s, 0);
    forall m | 0 <= m < |ms| ensures Safe(ms[m]) {
      assert Shaped(p, ms[m]);
    }
  }

  /** One phone pattern keeps every placeholder placed. */
  lemma PassOnce(st: MaskState, p: Pattern, ps: seq<Piece>, orig: string)
    requires Inv(st.text, st.table, ps, orig) && PhoneTable(st) && PhoneSafe(p)
    requires 9 * st.counter + |st.text| <= 9_000_000_000
    requires Placed(st.text, st.table)
    ensures Placed(PhoneRun(st, FindAll(p, st.text, 0)).text, PhoneRun(st, FindAll(p, st.text, 0)).table)
  {
    var phones := FindAll(p, st.text, 0);
    FindAllCount(p, st.text, 0);
    MulMono(9, MinLen(p), |phones|);
    MatchesLaid(p, st.text);
    MatchesSafeAll(p, st.text);
    PhoneRunOnce(st, phones, ps, orig);
  }

  /** The phone patterns applied in turn keep every placeholder placed. */
  lemma {:induction false} PassesOnce(st: MaskState, passes: seq<Pattern>, ps: seq<Piece>,
                                      orig: string)
    requires Inv(st.text, st.table, ps, orig) && PhoneTable(st)
    requires AllPhoneSafe(passes) && Within(st.counter, |st.text|, |passes|)
    requires Placed(st.text, st.table)
    ensures Placed(PhonePasses(st, passes).text, PhonePasses(st, passes).table)
    decreases |passes|
  {
    if passes != [] {
      var n := |passes|;
      var r := PhoneRun(st, FindAll(passes[0], st.text, 0));
      AllPhoneSafeSplit(passes);
      BudgetNow(st.counter, |st.text|, n);
      var ps1 := PassKeeps(st, passes[0], ps, orig);
      PassOnce(st, passes[0], ps, orig);
      BudgetNext(st.counter, |st.text|, r.counter, |r.text|, n);
      PassesOnce(r, passes[1..], ps1, orig);
    }
  }

  /** The email loop keeps every placeholder placed, the ones it adds included. */
  lemma {:induction false} EmailRunOnce(text: string, table: Table, emails: seq<string>, i: nat,
                                        ps: seq<Piece>, orig: string)
    requires Inv(text, table, ps, orig) && EmailFresh(table, i)
    requires forall m :: 0 <= m < |emails| ==> Safe(emails[m])
    requires i + |emails| <= 1_000_000_000
    requires Placed(text, table) && Laid(emails, text)
    ensures Placed(EmailText(text, emails, i), EmailTable(table, emails, i))
    decreases |emails|
  {
    if emails != [] {
      var ph := EmailPlaceholder(i);
      EmailPutAppends(table, i, emails[0]);
      EmailPlaceholderShort(i);
      assert table[..] == table && !HasKey(table, ph);
      var ps1 := Step(text, table, ps, orig, emails[0], ph);
      InsertOnce(text, table, ps, orig, emails, ph);
      assert forall m :: 0 <= m < |emails[1..]| ==> emails[1..][m] == emails[m + 1];
      EmailRunOnce(Replace1(text, emails[0], ph), table + [Entry(ph, emails[0])],
                   emails[1..], i + 1, ps1, orig);
    }
  }

  /** Every placeholder in the table `mask_text` returns occurs exactly once in the text it
      returns, for every text without `[` of up to ten million characters. */
  lemma MaskPlacesEachKeyOnce(t: string)
    requires NoOpen(t) && |t| <= 10_000_000
    ensures forall k :: HasKey(Mask(t).1, k) ==> IsToken(k) && Count(Mask(t).0, k) == 1
  {
    var ps0 := [Plain(t)];
    Start(t);
    var st0 := MaskState(t, [], 1);
    PhonePatternsSafe();
    assert |PhonePatterns| == 5 && Pow3(5) == 243;
    assert Within(1, |t|, 5);
    var ps1 := PassesKeep(st0, PhonePatterns, ps0, t);
    PassesOnce(st0, PhonePatterns, ps0, t);
    var st := PhoneMasked(t);
    var emails := FindAll(EmailPattern, st.text, 0);
    EmailSafe();
    FindAllCount(EmailPattern, st.text, 0);
    assert forall m :: 0 <= m < |emails| ==> Shaped(EmailPattern, emails[m]);
    PassesTableShape(st0);
    PhoneTableEmailFresh(st);
    MatchesLaid(EmailPattern, st.text);
    EmailRunOnce(st.text, st.table, emails, 1, ps1, t);
  }

  /** A phone literal matched twice by one pattern gets one placeholder: the first match
      replaces its first occurrence, the second match is skipped, and a later occurrence of the
      literal stays in the text. */
  lemma RepeatedPhoneKept(st: MaskState, v: string, i: nat, j: nat)
    requires ValidState(st) && Strip(v) != [] && !HasValue(st.table, v)
    requires Find(st.text, v) == Some(i) && Occurs(st.text, v, j) && i + |v| <= j
    ensures PhoneRun(st, [v, v])
            == MaskState(st.text[..i] + PhonePlaceholder(st.counter) + st.text[i + |v|..],
                         Put(st.table, PhonePlaceholder(st.counter), v), st.counter + 1)
    ensures Occurs(PhoneRun(st, [v, v]).text, v, j - |v| + |PhonePlaceholder(st.counter)|)
  {
    RunTwiceStepsOnce(st, v, i);
    OccursAfterSplice(st.text, i, v, PhonePlaceholder(st.counter), j);
  }

  /** A new non-blank literal matched twice: the first step masks it, the second skips it. */
  lemma RunTwiceStepsOnce(st: MaskState, v: string, i: nat)
    requires ValidState(st) && Strip(v) != [] && !HasValue(st.table, v) && Find(st.text, v) == Some(i)
    ensures var ph := PhonePlaceholder(st.counter);
            PhoneRun(st, [v, v]) == MaskState(st.text[..i] + ph + st.text[i + |v|..], Put(st.table, ph, v), st.counter + 1)
  {
    ReplaceFound(st.text, v, PhonePlaceholder(st.counter), i);
    var ph := PhonePlaceholder(st.counter);
    var st1 := PhoneStep(st, v);
    assert st1 == MaskState(Replace1(st.text, v, ph), Put(st.table, ph, v), st.counter + 1);
    assert HasValue(st1.table, v) by {
      var q :| 0 <= q < |st1.table| && st1.table[q] == Entry(ph, v);
    }
    assert PhoneStep(st1, v) == st1;
    assert [v, v][1..] == [v];
    assert PhoneRun(st, [v, v]) == PhoneRun(st1, [v]);
    assert PhoneRun(st1, [v]) == PhoneRun(PhoneStep(st1, v), []);
  }

  /** An occurrence after the replaced span moves by the difference in length. */
  lemma OccursAfterSplice(s: string, i: nat, v: string, ph: string, j: nat)
    requires i + |v| <= j && Occurs(s, v, j)
    ensures Occurs(s[..i] + ph + s[i + |v|..], v, j - |v| + |ph|)
  {
    var r := s[..i] + ph + s[i + |v|..];
    var n := j - |v| + |ph|;
    assert r[n..n + |v|] == s[i + |v|..][j - i - |v|..j - i];
  }

  /** In a phone table followed by the email entries, the entries for the `a`-th and `b`-th
      emails sit at `|p| + a` and `|p| + b` under the keys `[EMAIL_(a+1)]` and `[EMAIL_(b+1)]`. */
  lemma EntriesPair(p: Table, emails: seq<string>, a: nat, b: nat)
    requires a < b < |emails|
    ensures var table := p + EmailEntries(emails, 1);
            && |p| + b < |table|
            && table[|p| + a] == Entry(EmailPlaceholder(a + 1), emails[a])
            && table[|p| + b] == Entry(EmailPlaceholder(b + 1), emails[b])
            && HasKey(table, EmailPlaceholder(a + 1)) && HasKey(table, EmailPlaceholder(b + 1))
  {
    var table := p + EmailEntries(emails, 1);
    EmailEntriesAt(emails, 1, a);
    EmailEntriesAt(emails, 1, b);
    assert table[|p| + a] == EmailEntries(emails, 1)[a];
    assert table[|p| + b] == EmailEntries(emails, 1)[b];
  }

  /** Two matches of the same email in the phone-masked text get two different placeholders,
      each standing for that email and each occurring exactly once in the masked text. */
  lemma RepeatedEmailsPlaced(t: string, a: nat, b: nat)
    requires NoOpen(t) && |t| <= 10_000_000
    requires a < b < |FindAll(EmailPattern, PhoneMasked(t).text, 0)|
    requires FindAll(EmailPattern, PhoneMasked(t).text, 0)[a]
             == FindAll(EmailPattern, PhoneMasked(t).text, 0)[b]
    ensures var emails := FindAll(EmailPattern, PhoneMasked(t).text, 0);
            var n := |PhoneMasked(t).table|;
            var table := Mask(t).1;
            && n + b < |table|
            && EmailPlaceholder(a + 1) != EmailPlaceholder(b + 1)
            && table[n + a] == Entry(EmailPlaceholder(a + 1), emails[a])
            && table[n + b] == Entry(EmailPlaceholder(b + 1), emails[a])
            && Count(Mask(t).0, EmailPlaceholder(a + 1)) == 1
            && Count(Mask(t).0, EmailPlaceholder(b + 1)) == 1
  {
    MaskTable(t);
    EntriesPair(PhoneMasked(t).table, FindAll(EmailPattern, PhoneMasked(t).text, 0), a, b);
    PlaceholdersDistinct(a + 1, b + 1);
    MaskPlacesEachKeyOnce(t);
  }
}
