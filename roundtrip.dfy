/** The round trip of the masking: `unmask_text(*mask_text(t)) == t` for every text `t`
    without `[` up to ten million characters. Every phone or email match is a safe literal,
    every placeholder a short key, so each replacement keeps the invariant of `Pieces`. */
module RoundTrip {
  import opened Wrappers
  import opened Text
  import opened Table
  import opened Pattern
  import opened Masking
  import opened Pieces

  /** `[`, six letters or `_`, a number below 10^9 and `]` make a short key of at most 17
      characters. */
  lemma NumberedShort(head: string, n: nat)
    requires |head| == 7 && head[0] == '['
    requires forall j :: 1 <= j < 7 ==> IsLetter(head[j]) || head[j] == '_'
    requires n < 1_000_000_000
    ensures ShortKey(head + NatToString(n) + "]")
    ensures |head + NatToString(n) + "]"| <= 17
  {
    var d := NatToString(n);
    assert Pow10(9) == 1_000_000_000;
    NatToStringShort(n, 9);
    var k := head + d + "]";
    assert forall j :: 0 <= j < 7 ==> k[j] == head[j];
    assert forall j :: 7 <= j < 7 + |d| ==> k[j] == d[j - 7];
    assert k[|k| - 1] == ']';
    forall j | 0 <= j < |k| ensures !TenDigitsAt(k, j) {
      if j + 10 <= |k| {
        if j < 7 {
          assert k[j..j + 10][0] == k[j];
        } else {
          assert k[j..j + 10][9] == k[|k| - 1];
        }
      }
    }
  }

  lemma PhonePlaceholderShort(n: nat)
    requires n < 1_000_000_000
    ensures ShortKey(PhonePlaceholder(n)) && |PhonePlaceholder(n)| <= 17
  {
    NumberedShort("[PHONE_", n);
  }

  lemma EmailPlaceholderShort(n: nat)
    requires n < 1_000_000_000
    ensures ShortKey(EmailPlaceholder(n))
  {
    NumberedShort("[EMAIL_", n);
  }

  /** A text made of the characters of a pattern whose atoms admit no bracket has none. */
  lemma NoBracketsFrom(p: Pattern, v: string)
    requires MadeOf(p, v) && !InSomeAtom(p, '[') && !InSomeAtom(p, ']')
    ensures NoBrackets(v)
  {
    forall j | 0 <= j < |v| ensures v[j] != '[' && v[j] != ']' {
      assert InSomeAtom(p, v[j]);
    }
  }

  /** A match holds a character of every class the pattern must repeat; when that class has
      only foreign characters, the match has one. */
  lemma RequiredForeign(p: Pattern, v: string, a: nat)
    requires HasEveryRequired(p, v)
    requires a < |p| && p[a].Repeat? && p[a].min > 0
    requires forall c :: InClass(p[a].cls, c) ==> Foreign(c)
    ensures exists j :: 0 <= j < |v| && Foreign(v[j])
  {
    var j :| 0 <= j < |v| && InClass(p[a].cls, v[j]);
  }

  /** Every text a pattern matches is a safe literal. */
  ghost predicate MatchesSafe(p: Pattern)
  {
    forall v :: Shaped(p, v) ==> Safe(v)
  }

  /** What the round trip needs of a phone pattern: matches of at least nine characters, all
      of them safe. */
  ghost predicate PhoneSafe(p: Pattern)
  {
    MinLen(p) >= 9 && MatchesSafe(p)
  }

  /** A pattern whose atoms admit no bracket and one of whose required atoms admits only
      foreign characters matches safe literals only. */
  lemma SafeByForeignAtom(p: Pattern, a: nat)
    requires !InSomeAtom(p, '[') && !InSomeAtom(p, ']')
    requires a < |p| && p[a].Repeat? && p[a].min > 0
    requires forall c :: InClass(p[a].cls, c) ==> Foreign(c)
    ensures MatchesSafe(p)
  {
    forall v | Shaped(p, v) ensures Safe(v) {
      NoBracketsFrom(p, v);
      RequiredForeign(p, v, a);
    }
  }

  /** A match of `InternationalShort` has at least 9 characters, no bracket, and `+`. */
  lemma InternationalShortSafe()
    ensures PhoneSafe(InternationalShort)
  {
    InternationalShortLength();
    InternationalShortNoOpen();
    InternationalShortNoClose();
    SafeByForeignAtom(InternationalShort, 0);
  }

  lemma InternationalShortLength() ensures MinLen(InternationalShort) == 9 { }
  lemma InternationalShortNoOpen() ensures !InSomeAtom(InternationalShort, '[') { }
  lemma InternationalShortNoClose() ensures !InSomeAtom(InternationalShort, ']') { }

  /** A match of `International` has at least 12 characters, no bracket, and `+`. */
  lemma InternationalSafe()
    ensures PhoneSafe(International)
  {
    InternationalLength();
    InternationalNoOpen();
    InternationalNoClose();
    SafeByForeignAtom(International, 0);
  }

  lemma InternationalLength() ensures MinLen(International) == 12 { }
  lemma InternationalNoOpen() ensures !InSomeAtom(International, '[') { }
  lemma InternationalNoClose() ensures !InSomeAtom(International, ']') { }

  /** A match of `Parenthesized` has at least 12 characters, no bracket, and `(`. */
  lemma ParenthesizedSafe()
    ensures PhoneSafe(Parenthesized)
  {
    ParenthesizedLength();
    ParenthesizedNoOpen();
    ParenthesizedNoClose();
    SafeByForeignAtom(Parenthesized, 0);
  }

  lemma ParenthesizedLength() ensures MinLen(Parenthesized) == 12 { }
  lemma ParenthesizedNoOpen() ensures !InSomeAtom(Parenthesized, '[') { }
  lemma ParenthesizedNoClose() ensures !InSomeAtom(Parenthesized, ']') { }

  /** A match of `Separated` has at least 12 characters, no bracket, and a separator. */
  lemma SeparatedSafe()
    ensures PhoneSafe(Separated)
  {
    SeparatedLength();
    SeparatedNoOpen();
    SeparatedNoClose();
    SafeByForeignAtom(Separated, 1);
  }

  lemma SeparatedLength() ensures MinLen(Separated) == 12 { }
  lemma SeparatedNoOpen() ensures !InSomeAtom(Separated, '[') { }
  lemma SeparatedNoClose() ensures !InSomeAtom(Separated, ']') { }

  /** A bare match is ten digits, the only literal without a foreign character. */
  lemma BareSafe()
    ensures PhoneSafe(Bare)
  {
    var p := Bare;
    assert MinLen(p) == 10;
    forall v | Shaped(p, v) ensures Safe(v) {
      forall j | 0 <= j < |v| ensures IsDigit(v[j]) {
        assert InSomeAtom(p, v[j]);
      }
    }
  }

  lemma PhonePatternsSafe()
    ensures AllPhoneSafe(PhonePatterns)
  {
    InternationalShortSafe();
    InternationalSafe();
    ParenthesizedSafe();
    SeparatedSafe();
    BareSafe();
    var ps := PhonePatterns;
    assert |ps| == 5 && ps[0] == InternationalShort && ps[1] == International
        && ps[2] == Parenthesized && ps[3] == Separated && ps[4] == Bare;
    forall m | 0 <= m < |ps|
      ensures PhoneSafe(ps[m])
    {
      if m == 0 {
      } else if m == 1 {
      } else if m == 2 {
      } else if m == 3 {
      } else {
      }
    }
  }

  /** An email match is a safe literal (it holds `@`) of at least six characters. */
  lemma EmailSafe()
    ensures MinLen(EmailPattern) == 6 && MatchesSafe(EmailPattern)
  {
    EmailLength();
    EmailNoOpen();
    EmailNoClose();
    SafeByForeignAtom(EmailPattern, 2);
  }

  lemma EmailLength() ensures MinLen(EmailPattern) == 6 { }
  lemma EmailNoOpen() ensures !InSomeAtom(EmailPattern, '[') { }
  lemma EmailNoClose() ensures !InSomeAtom(EmailPattern, ']') { }

  /** The next phone placeholder is not yet a key of a table the phone loops built. */
  lemma PhoneFresh(st: MaskState)
    requires PhoneTable(st)
    ensures !HasKey(st.table, PhonePlaceholder(st.counter))
  {
    forall j | 0 <= j < |st.table| ensures st.table[j].key != PhonePlaceholder(st.counter) {
      PlaceholdersDistinct(j + 1, st.counter);
    }
  }

  /** One phone match keeps the invariant; the counter grows by at most one and the text by
      at most the 17 characters of a placeholder. */
  lemma PhoneStepKeeps(st: MaskState, phone: string, ps: seq<Piece>, orig: string)
    returns (ps': seq<Piece>)
    requires Inv(st.text, st.table, ps, orig) && PhoneTable(st) && Safe(phone)
    requires st.counter < 1_000_000_000
    ensures Inv(PhoneStep(st, phone).text, PhoneStep(st, phone).table, ps', orig)
    ensures PhoneStep(st, phone).counter <= st.counter + 1
    ensures |PhoneStep(st, phone).text| <= |st.text| + 17
  {
    if Strip(phone) != [] && !HasValue(st.table, phone) {
      var ph := PhonePlaceholder(st.counter);
      PhonePutAppends(st, phone);
      PhoneFresh(st);
      PhonePlaceholderShort(st.counter);
      ps' := Step(st.text, st.table, ps, orig, phone, ph);
      Replace1Length(st.text, phone, ph);
    } else {
      ps' := ps;
    }
  }

  /** The loop over one pattern's matches keeps the invariant. */
  lemma {:induction false} PhoneRunKeeps(st: MaskState, phones: seq<string>, ps: seq<Piece>,
                                         orig: string)
    returns (ps': seq<Piece>)
    requires Inv(st.text, st.table, ps, orig) && PhoneTable(st)
    requires forall m :: 0 <= m < |phones| ==> Safe(phones[m])
    requires st.counter + |phones| <= 1_000_000_000
    ensures Inv(PhoneRun(st, phones).text, PhoneRun(st, phones).table, ps', orig)
    ensures PhoneRun(st, phones).counter <= st.counter + |phones|
    ensures |PhoneRun(st, phones).text| <= |st.text| + 17 * |phones|
    decreases |phones|
  {
    if phones == [] {
      ps' := ps;
    } else {
      var ps1 := PhoneStepKeeps(st, phones[0], ps, orig);
      PhoneStepTable(st, phones[0]);
      ps' := PhoneRunKeeps(PhoneStep(st, phones[0]), phones[1..], ps1, orig);
    }
  }

  lemma {:induction false} MulMono(a: nat, b: nat, c: nat)
    requires a <= b
    ensures a * c <= b * c
    decreases c
  {
    if c > 0 {
      MulMono(a, b, c - 1);
      assert a * c == a * (c - 1) + a && b * c == b * (c - 1) + b;
    }
  }

  /** One phone pattern keeps the invariant. Its matches, at least nine characters each, are
      at most a ninth of the text: the counter grows by at most that many and the text, each
      match giving way to at most 17 characters, at most triples. */
  lemma PassKeeps(st: MaskState, p: Pattern, ps: seq<Piece>, orig: string)
    returns (ps': seq<Piece>)
    requires Inv(st.text, st.table, ps, orig) && PhoneTable(st) && PhoneSafe(p)
    requires 9 * st.counter + |st.text| <= 9_000_000_000
    ensures var r := PhoneRun(st, FindAll(p, st.text, 0));
            Inv(r.text, r.table, ps', orig) && PhoneTable(r)
            && |r.text| <= 3 * |st.text| && 9 * r.counter <= 9 * st.counter + |st.text|
  {
    var phones := FindAll(p, st.text, 0);
    FindAllCount(p, st.text, 0);
    MulMono(9, MinLen(p), |phones|);
    assert forall m :: 0 <= m < |phones| ==> Shaped(p, phones[m]);
    ps' := PhoneRunKeeps(st, phones, ps, orig);
    PhoneRunTable(st, phones);
  }

  function Pow3(n: nat): (r: nat)
    ensures r >= 1
  {
    if n == 0 then 1 else 3 * Pow3(n - 1)
  }

  /** Counter `c` and a text of length `len` leave room for `n` more passes: the counter stays
      below 10^9 however many placeholders they hand out. */
  predicate Within(c: nat, len: nat, n: nat)
  {
    18 * c + len * (Pow3(n) - 1) <= 18_000_000_000
  }

  /** The budget of all remaining passes covers the next one. */
  lemma BudgetNow(c: nat, len: nat, n: nat)
    requires n >= 1 && Within(c, len, n)
    ensures 9 * c + len <= 9_000_000_000
  {
    MulMono(2, Pow3(n) - 1, len);
  }

  /** What the next pass leaves is within the budget of the passes after it. */
  lemma BudgetNext(c: nat, len: nat, c': nat, len': nat, n: nat)
    requires n >= 1 && Within(c, len, n)
    requires len' <= 3 * len && 9 * c' <= 9 * c + len
    ensures Within(c', len', n - 1)
  {
    var q := Pow3(n - 1);
    assert Pow3(n) - 1 == 2 + 3 * (q - 1);
    assert len * (Pow3(n) - 1) == 2 * len + 3 * len * (q - 1);
    MulMono(len', 3 * len, q - 1);
  }

  /** A text at most three times as long grows to at most `Pow3(n)` times the first one over
      the remaining `n - 1` passes. */
  lemma Triple(len: nat, len': nat, n: nat, last: nat)
    requires n >= 1 && len' <= 3 * len && last <= Pow3(n - 1) * len'
    ensures last <= Pow3(n) * len
  {
    MulMono(len', 3 * len, Pow3(n - 1));
    assert 3 * len * Pow3(n - 1) == Pow3(n) * len;
  }

  /** Every pattern of `passes` keeps the text safe. */
  ghost predicate AllPhoneSafe(passes: seq<Pattern>)
  {
    forall m :: 0 <= m < |passes| ==> PhoneSafe(passes[m])
  }

  lemma AllPhoneSafeSplit(passes: seq<Pattern>)
    requires passes != [] && AllPhoneSafe(passes)
    ensures PhoneSafe(passes[0]) && AllPhoneSafe(passes[1..]) && |passes[1..]| == |passes| - 1
  {
    assert forall m :: 0 <= m < |passes[1..]| ==> passes[1..][m] == passes[m + 1];
  }

  /** The phone patterns applied in turn keep the invariant while the counter stays below 10^9;
      the text grows at most threefold per pattern. */
  lemma {:induction false} PassesKeep(st: MaskState, passes: seq<Pattern>, ps: seq<Piece>,
                                      orig: string)
    returns (ps': seq<Piece>)
    requires Inv(st.text, st.table, ps, orig) && PhoneTable(st)
    requires AllPhoneSafe(passes) && Within(st.counter, |st.text|, |passes|)
    ensures Inv(PhonePasses(st, passes).text, PhonePasses(st, passes).table, ps', orig)
    ensures PhoneTable(PhonePasses(st, passes))
    ensures |PhonePasses(st, passes).text| <= Pow3(|passes|) * |st.text|
    decreases |passes|
  {
    if passes == [] {
      ps' := ps;
    } else {
      var n := |passes|;
      var r := PhoneRun(st, FindAll(passes[0], st.text, 0));
      AllPhoneSafeSplit(passes);
      BudgetNow(st.counter, |st.text|, n);
      var ps1 := PassKeeps(st, passes[0], ps, orig);
      BudgetNext(st.counter, |st.text|, r.counter, |r.text|, n);
      ps' := PassesKeep(r, passes[1..], ps1, orig);
      Triple(|st.text|, |r.text|, n, |PhonePasses(r, passes[1..]).text|);
    }
  }

  /** The email loop keeps the invariant while its placeholders stay below `[EMAIL_1000000000]`. */
  lemma {:induction false} EmailRunKeeps(text: string, table: Table, emails: seq<string>, i: nat,
                                         ps: seq<Piece>, orig: string)
    returns (ps': seq<Piece>)
    requires Inv(text, table, ps, orig) && EmailFresh(table, i)
    requires forall m :: 0 <= m < |emails| ==> Safe(emails[m])
    requires i + |emails| <= 1_000_000_000
    ensures Inv(EmailText(text, emails, i), EmailTable(table, emails, i), ps', orig)
    decreases |emails|
  {
    if emails == [] {
      ps' := ps;
    } else {
      var ph := EmailPlaceholder(i);
      EmailPutAppends(table, i, emails[0]);
      EmailPlaceholderShort(i);
      assert table[..] == table && !HasKey(table, ph);
      var ps1 := Step(text, table, ps, orig, emails[0], ph);
      ps' := EmailRunKeeps(Replace1(text, emails[0], ph), table + [Entry(ph, emails[0])],
                           emails[1..], i + 1, ps1, orig);
    }
  }

  /** `unmask_text(*mask_text(t)) == t`: unmasking the masked text with the table returned
      gives back the original, for every text without `[` of up to ten million characters. */
  lemma RoundTrip(t: string)
    requires NoOpen(t) && |t| <= 10_000_000
    ensures Unmask(Mask(t).0, Mask(t).1) == t
  {
    var ps0 := [Plain(t)];
    Start(t);
    var st0 := MaskState(t, [], 1);
    PhonePatternsSafe();
    assert |PhonePatterns| == 5 && Pow3(5) == 243;
    assert Within(1, |t|, 5);
    var ps1 := PassesKeep(st0, PhonePatterns, ps0, t);
    var st := PhoneMasked(t);
    var emails := FindAll(EmailPattern, st.text, 0);
    EmailSafe();
    FindAllCount(EmailPattern, st.text, 0);
    assert forall m :: 0 <= m < |emails| ==> Shaped(EmailPattern, emails[m]);
    PassesTableShape(st0);
    PhoneTableEmailFresh(st);
    var ps2 := EmailRunKeeps(st.text, st.table, emails, 1, ps1, t);
    FitsWellFormed(ps2, Mask(t).1);
    UnmaskPieces(ps2, Mask(t).1);
  }

  /** Before any replacement the text is one piece carried over, and the table is empty. */
  lemma Start(t: string)
    requires NoOpen(t)
    ensures Inv(t, [], [Plain(t)], t)
  {
    var ps := [Plain(t)];
    assert ps[1..] == [];
    assert Render(ps) == t + [];
    assert Expand(ps, []) == t + [];
    assert PieceFits(ps[0], []);
  }

  lemma PassesTableShape(st0: MaskState)
    requires st0.table == [] && st0.counter == 1
    ensures PhoneTable(PhonePasses(st0, PhonePatterns))
  {
    PhonePassesTable(st0, PhonePatterns);
  }
}
