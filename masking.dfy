/** PII masking: phone numbers and email addresses in a text are replaced by numbered
    placeholders, and a placeholder-to-literal table is returned so that a reply written
    with the placeholders can be unmasked again. */
module Masking {
  import opened Wrappers
  import opened Text
  import opened Table
  import opened Pattern

  function Digits(lo: nat, hi: nat): Atom { Repeat(Digit, lo, Some(hi)) }
  function Once(c: char): Atom { Repeat(Char(c), 1, Some(1)) }
  function Optional(cls: Class): Atom { Repeat(cls, 0, Some(1)) }

  /** `\+\d{1,3}[-.\s]?\d{3}[-.\s]?\d{4}`, e.g. +1-555-0101. */
  const InternationalShort: Pattern :=
    [Once('+'), Digits(1, 3), Optional(Separator), Digits(3, 3), Optional(Separator), Digits(4, 4)]

  /** `\+\d{1,3}[-.\s]?\(?\d{3}\)?[-.\s]?\d{3}[-.\s]?\d{4}`, e.g. +1 (555) 123-4567. */
  const International: Pattern :=
    [Once('+'), Digits(1, 3), Optional(Separator), Optional(Char('(')), Digits(3, 3),
     Optional(Char(')')), Optional(Separator), Digits(3, 3), Optional(Separator), Digits(4, 4)]

  /** `\(\d{3}\)\s*\d{3}[-.\s]?\d{4}`, e.g. (555) 123-4567. */
  const Parenthesized: Pattern :=
    [Once('('), Digits(3, 3), Once(')'), Repeat(Space, 0, None), Digits(3, 3),
     Optional(Separator), Digits(4, 4)]

  /** `\d{3}[-.\s]\d{3}[-.\s]\d{4}`, e.g. 555.123.4567. */
  const Separated: Pattern :=
    [Digits(3, 3), Repeat(Separator, 1, Some(1)), Digits(3, 3), Repeat(Separator, 1, Some(1)),
     Digits(4, 4)]

  /** `\b\d{10}\b`, e.g. 5551234567. */
  const Bare: Pattern := [WordBoundary, Digits(10, 10), WordBoundary]

  /** The phone patterns, in the order the masking applies them. */
  const PhonePatterns: seq<Pattern> :=
    [InternationalShort, International, Parenthesized, Separated, Bare]

  /** `\b[A-Za-z0-9._%+-]+@[A-Za-z0-9.-]+\.[A-Z|a-z]{2,}\b`. */
  const EmailPattern: Pattern :=
    [WordBoundary, Repeat(EmailLocal, 1, None), Once('@'), Repeat(EmailDomain, 1, None),
     Once('.'), Repeat(EmailTld, 2, None), WordBoundary]

  function PhonePlaceholder(n: nat): string { "[PHONE_" + NatToString(n) + "]" }

  function EmailPlaceholder(n: nat): string { "[EMAIL_" + NatToString(n) + "]" }

  /** The working state of `mask_text`: the text masked so far, the table, and the
      number the next phone placeholder gets. */
  datatype MaskState = MaskState(text: string, table: Table, counter: nat)

  predicate ValidState(st: MaskState) { DistinctKeys(st.table) }

  /** One phone match: a literal that is not blank and not yet a value of the table gets
      the next placeholder, which replaces the literal's first occurrence. */
  function PhoneStep(st: MaskState, phone: string): (r: MaskState)
    requires ValidState(st)
    ensures ValidState(r)
  {
    if Strip(phone) != [] && !HasValue(st.table, phone) then
      var ph := PhonePlaceholder(st.counter);
      MaskState(Replace1(st.text, phone, ph), Put(st.table, ph, phone), st.counter + 1)
    else st
  }

  /** The inner loop of one phone pattern over its matches. */
  function PhoneRun(st: MaskState, phones: seq<string>): (r: MaskState)
    requires ValidState(st)
    ensures ValidState(r)
    decreases |phones|
  {
    if phones == [] then st else PhoneRun(PhoneStep(st, phones[0]), phones[1..])
  }

  /** The outer loop: each pattern is matched against the text as masked so far. */
  function PhonePasses(st: MaskState, patterns: seq<Pattern>): (r: MaskState)
    requires ValidState(st)
    ensures ValidState(r)
    decreases |patterns|
  {
    if patterns == [] then st
    else PhonePasses(PhoneRun(st, FindAll(patterns[0], st.text, 0)), patterns[1..])
  }

  /** The email loop's text: the first occurrence of each email found, in turn, becomes
      `[EMAIL_i]`, `[EMAIL_(i+1)]`, ... */
  function EmailText(text: string, emails: seq<string>, i: nat): string
    decreases |emails|
  {
    if emails == [] then text
    else EmailText(Replace1(text, emails[0], EmailPlaceholder(i)), emails[1..], i + 1)
  }

  /** The email loop's table: `[EMAIL_i]`, `[EMAIL_(i+1)]`, ... assigned the emails found, with
      no de-duplication. */
  function EmailTable(table: Table, emails: seq<string>, i: nat): (r: Table)
    requires DistinctKeys(table)
    ensures DistinctKeys(r)
    decreases |emails|
  {
    if emails == [] then table
    else EmailTable(Put(table, EmailPlaceholder(i), emails[0]), emails[1..], i + 1)
  }

  /** The phone-masked state `mask_text` reaches before it looks for emails. */
  function PhoneMasked(text: string): (st: MaskState)
    ensures ValidState(st)
  {
    PhonePasses(MaskState(text, [], 1), PhonePatterns)
  }

  /** `mask_text(text)`: the masked text and the placeholder table. */
  function Mask(text: string): (r: (string, Table))
    ensures DistinctKeys(r.1)
  {
    var st := PhoneMasked(text);
    var emails := FindAll(EmailPattern, st.text, 0);
    (EmailText(st.text, emails, 1), EmailTable(st.table, emails, 1))
  }

  /** `unmask_text(text, mapping)`: every occurrence of each key, taken in the table's
      order, is replaced by its value. */
  function Unmask(text: string, table: Table): string
    decreases |table|
  {
    if table == [] then text
    else Unmask(ReplaceAll(text, table[0].key, table[0].value), table[1..])
  }

  /** `mask_text`, written as the loops of the original: five phone patterns, each matched
      against the current text, then the email pattern. */
  method MaskText(text: string) returns (masked: string, mapping: Table)
    ensures (masked, mapping) == Mask(text)
  {
    masked := text;
    mapping := [];
    var counter := 1;
    var patterns := PhonePatterns;
    for n := 0 to |patterns|
      invariant DistinctKeys(mapping)
      invariant PhonePasses(MaskState(masked, mapping, counter), patterns[n..]) == PhoneMasked(text)
    {
      PhonePassesAt(MaskState(masked, mapping, counter), patterns, n);
      masked, mapping, counter := MaskPhones(patterns[n], masked, mapping, counter);
    }
    var emails := FindAll(EmailPattern, masked, 0);
    for i := 0 to |emails|
      invariant DistinctKeys(mapping)
      invariant EmailText(masked, emails[i..], i + 1) == Mask(text).0
      invariant EmailTable(mapping, emails[i..], i + 1) == Mask(text).1
    {
      EmailAt(masked, mapping, emails, i);
      var placeholder := EmailPlaceholder(i + 1);
      mapping := Put(mapping, placeholder, emails[i]);
      masked := Replace1(masked, emails[i], placeholder);
    }
  }

  /** The passes from pattern `n` on are the run of pattern `n`, then the passes from `n + 1`. */
  lemma PhonePassesAt(st: MaskState, patterns: seq<Pattern>, n: nat)
    requires ValidState(st) && n < |patterns|
    ensures PhonePasses(st, patterns[n..])
            == PhonePasses(PhoneRun(st, FindAll(patterns[n], st.text, 0)), patterns[n + 1..])
  {
    assert patterns[n..][1..] == patterns[n + 1..];
  }

  /** The email loop from match `i` on is one replacement and assignment, then the loop from
      `i + 1`. */
  lemma EmailAt(text: string, table: Table, emails: seq<string>, i: nat)
    requires DistinctKeys(table) && i < |emails|
    ensures EmailText(text, emails[i..], i + 1)
            == EmailText(Replace1(text, emails[i], EmailPlaceholder(i + 1)), emails[i + 1..], i + 2)
    ensures EmailTable(table, emails[i..], i + 1)
            == EmailTable(Put(table, EmailPlaceholder(i + 1), emails[i]), emails[i + 1..], i + 2)
  {
    assert emails[i..][1..] == emails[i + 1..];
  }

  /** The body of `mask_text`'s loop over the phone patterns: the matches of one pattern in
      the current text, each new literal given the next placeholder. */
  method MaskPhones(pattern: Pattern, text: string, table: Table, counter: nat)
    returns (masked: string, mapping: Table, next: nat)
    requires DistinctKeys(table)
    ensures MaskState(masked, mapping, next)
         == PhoneRun(MaskState(text, table, counter), FindAll(pattern, text, 0))
  {
    var phones := FindAll(pattern, text, 0);
    masked, mapping, next := text, table, counter;
    for m := 0 to |phones|
      invariant DistinctKeys(mapping)
      invariant PhoneRun(MaskState(masked, mapping, next), phones[m..])
             == PhoneRun(MaskState(text, table, counter), phones)
    {
      var phone := phones[m];
      ghost var before := MaskState(masked, mapping, next);
      PhoneRunAt(before, phones, m);
      if Strip(phone) != [] && !HasValue(mapping, phone) {
        var placeholder := PhonePlaceholder(next);
        assert PhoneStep(before, phone)
            == MaskState(Replace1(masked, phone, placeholder), Put(mapping, placeholder, phone), next + 1);
        mapping := Put(mapping, placeholder, phone);
        masked := Replace1(masked, phone, placeholder);
        next := next + 1;
      } else {
        assert PhoneStep(before, phone) == before;
      }
    }
  }

  /** The run over the matches from `m` on is one step on match `m`, then the run from `m + 1`. */
  lemma PhoneRunAt(st: MaskState, phones: seq<string>, m: nat)
    requires ValidState(st) && m < |phones|
    ensures PhoneRun(st, phones[m..]) == PhoneRun(PhoneStep(st, phones[m]), phones[m + 1..])
  {
    assert phones[m..][1..] == phones[m + 1..];
  }

  /** `unmask_text`, as the original's loop over the table. */
  method UnmaskText(text: string, mapping: Table) returns (unmasked: string)
    ensures unmasked == Unmask(text, mapping)
    ensures mapping == [] ==> unmasked == text
  {
    unmasked := text;
    for i := 0 to |mapping|
      invariant Unmask(unmasked, mapping[i..]) == Unmask(text, mapping)
    {
      assert mapping[i..][1..] == mapping[i + 1..];
      unmasked := ReplaceAll(unmasked, mapping[i].key, mapping[i].value);
    }
  }

  /** The digits of a placeholder sit between its seven-character prefix and its `]`. */
  lemma PlaceholderParts(n: nat)
    ensures PhonePlaceholder(n)[7..|PhonePlaceholder(n)| - 1] == NatToString(n)
    ensures EmailPlaceholder(n)[7..|EmailPlaceholder(n)| - 1] == NatToString(n)
    ensures PhonePlaceholder(n)[1] == 'P' && EmailPlaceholder(n)[1] == 'E'
  {
  }

  /** Distinct counters give distinct placeholders, and no phone placeholder is an email one. */
  lemma PlaceholdersDistinct(a: nat, b: nat)
    ensures PhonePlaceholder(a) == PhonePlaceholder(b) ==> a == b
    ensures EmailPlaceholder(a) == EmailPlaceholder(b) ==> a == b
    ensures PhonePlaceholder(a) != EmailPlaceholder(b)
  {
    PlaceholderParts(a);
    PlaceholderParts(b);
    if PhonePlaceholder(a) == PhonePlaceholder(b) || EmailPlaceholder(a) == EmailPlaceholder(b) {
      NatToStringInjective(a, b);
    }
  }

  /** A text one of `patterns` can match. */
  predicate ShapedByOne(patterns: seq<Pattern>, v: string)
  {
    exists p :: p in patterns && Shaped(p, v)
  }

  /** The table as the phone loops leave it: `[PHONE_1]` .. `[PHONE_n]` in order, the counter
      one past the last, every value a non-blank phone match, and no value twice. */
  predicate PhoneTable(st: MaskState)
  {
    && st.counter == |st.table| + 1
    && (forall j :: 0 <= j < |st.table| ==> st.table[j].key == PhonePlaceholder(j + 1))
    && (forall j :: 0 <= j < |st.table| ==>
          Strip(st.table[j].value) != [])
    && (forall i, j :: 0 <= i < j < |st.table| ==> st.table[i].value != st.table[j].value)
  }

  /** Appending `[PHONE_counter]` for a non-blank literal that is not yet a value keeps the
      table's shape. */
  lemma PhoneTableAppend(st: MaskState, phone: string, text: string)
    requires PhoneTable(st) && Strip(phone) != [] && !HasValue(st.table, phone)
    ensures PhoneTable(MaskState(text, st.table + [Entry(PhonePlaceholder(st.counter), phone)],
                                 st.counter + 1))
  {
    var r := st.table + [Entry(PhonePlaceholder(st.counter), phone)];
    forall j | 0 <= j < |r| ensures r[j].key == PhonePlaceholder(j + 1) && Strip(r[j].value) != [] {
      if j < |st.table| {
        assert r[j] == st.table[j];
      }
    }
    forall i, j | 0 <= i < j < |r| ensures r[i].value != r[j].value {
      assert r[i] == st.table[i];
      if j < |st.table| {
        assert r[j] == st.table[j];
      }
    }
  }

  /** The next phone placeholder is not yet a key of the table. */
  lemma PhonePutAppends(st: MaskState, phone: string)
    requires ValidState(st) && PhoneTable(st)
    ensures Put(st.table, PhonePlaceholder(st.counter), phone)
            == st.table + [Entry(PhonePlaceholder(st.counter), phone)]
  {
    var ph := PhonePlaceholder(st.counter);
    forall j | 0 <= j < |st.table| ensures st.table[j].key != ph {
      PlaceholdersDistinct(j + 1, st.counter);
    }
  }

  /** One phone match either leaves the state alone (blank, or already a value) or appends
      `[PHONE_counter]` for it; afterwards every non-blank literal handled is a value. */
  lemma PhoneStepTable(st: MaskState, phone: string)
    requires ValidState(st) && PhoneTable(st)
    ensures PhoneTable(PhoneStep(st, phone))
    ensures PhoneStep(st, phone).table[..|st.table|] == st.table
    ensures Strip(phone) != [] ==> HasValue(PhoneStep(st, phone).table, phone)
    ensures forall j :: |st.table| <= j < |PhoneStep(st, phone).table| ==>
              PhoneStep(st, phone).table[j].value == phone
  {
    if Strip(phone) != [] && !HasValue(st.table, phone) {
      var r := st.table + [Entry(PhonePlaceholder(st.counter), phone)];
      PhonePutAppends(st, phone);
      PhoneTableAppend(st, phone, PhoneStep(st, phone).text);
      assert PhoneStep(st, phone).table == r;
      assert r[..|st.table|] == st.table;
      assert r[|st.table|].value == phone;
    }
  }

  /** The inner phone loop keeps the table's shape and only appends to it. */
  lemma {:induction false} PhoneRunTable(st: MaskState, phones: seq<string>)
    requires ValidState(st) && PhoneTable(st)
    ensures PhoneTable(PhoneRun(st, phones))
    ensures |st.table| <= |PhoneRun(st, phones).table|
    ensures PhoneRun(st, phones).table[..|st.table|] == st.table
    decreases |phones|
  {
    if phones != [] {
      var st' := PhoneStep(st, phones[0]);
      PhoneStepTable(st, phones[0]);
      PhoneRunTable(st', phones[1..]);
      var r := PhoneRun(st', phones[1..]);
      assert r.table[..|st.table|] == r.table[..|st'.table|][..|st.table|];
    }
  }

  /** The inner phone loop gives every non-blank match a placeholder, new or earlier, and
      appends nothing but matches. */
  lemma {:induction false} PhoneRunValues(st: MaskState, phones: seq<string>)
    requires ValidState(st) && PhoneTable(st)
    ensures forall m :: 0 <= m < |phones| && Strip(phones[m]) != [] ==>
              HasValue(PhoneRun(st, phones).table, phones[m])
    ensures forall j :: |st.table| <= j < |PhoneRun(st, phones).table| ==>
              PhoneRun(st, phones).table[j].value in phones
    decreases |phones|
  {
    if phones != [] {
      var st' := PhoneStep(st, phones[0]);
      PhoneStepTable(st, phones[0]);
      PhoneRunTable(st', phones[1..]);
      PhoneRunValues(st', phones[1..]);
      var r := PhoneRun(st', phones[1..]);
      forall m | 0 <= m < |phones| && Strip(phones[m]) != [] ensures HasValue(r.table, phones[m]) {
        if m == 0 {
          var i :| 0 <= i < |st'.table| && st'.table[i].value == phones[0];
          assert r.table[i] == r.table[..|st'.table|][i];
        } else {
          assert phones[m] == phones[1..][m - 1];
        }
      }
      forall j | |st.table| <= j < |r.table| ensures r.table[j].value in phones {
        if j < |st'.table| {
          assert r.table[j] == r.table[..|st'.table|][j];
        } else {
          assert r.table[j].value in phones[1..];
        }
      }
    }
  }

  /** Every text `re.findall` returns has the pattern's shape. */
  lemma InMatches(p: Pattern, s: string, v: string)
    requires v in FindAll(p, s, 0)
    ensures Shaped(p, v)
  {
  }

  /** A text shaped by one of the later patterns is shaped by one of them all. */
  lemma ShapedByLater(passes: seq<Pattern>, v: string)
    requires passes != [] && ShapedByOne(passes[1..], v)
    ensures ShapedByOne(passes, v)
  {
    var q :| q in passes[1..] && Shaped(q, v);
    assert q in passes;
  }

  /** Running phone patterns one after the other keeps the table's shape, only appends to it,
      and appends only texts that one of the patterns matched. */
  lemma {:induction false} PhonePassesTable(st: MaskState, passes: seq<Pattern>)
    requires ValidState(st) && PhoneTable(st)
    ensures PhoneTable(PhonePasses(st, passes))
    ensures |st.table| <= |PhonePasses(st, passes).table|
    ensures PhonePasses(st, passes).table[..|st.table|] == st.table
    ensures forall j :: |st.table| <= j < |PhonePasses(st, passes).table| ==>
              ShapedByOne(passes, PhonePasses(st, passes).table[j].value)
    decreases |passes|
  {
    if passes != [] {
      var p := passes[0];
      var phones := FindAll(p, st.text, 0);
      var st' := PhoneRun(st, phones);
      PhoneRunTable(st, phones);
      PhoneRunValues(st, phones);
      PhonePassesTable(st', passes[1..]);
      var r := PhonePasses(st', passes[1..]);
      assert r == PhonePasses(st, passes);
      forall j | |st.table| <= j < |r.table| ensures ShapedByOne(passes, r.table[j].value) {
        if j < |st'.table| {
          assert r.table[j] == r.table[..|st'.table|][j];
          InMatches(p, st.text, r.table[j].value);
          assert p in passes;
        } else {
          ShapedByLater(passes, r.table[j].value);
        }
      }
      assert r.table[..|st.table|] == r.table[..|st'.table|][..|st.table|];
    }
  }

  /** The email entries `mask_text` appends: the `j`-th email found gets `[EMAIL_(i+j)]`. */
  function EmailEntries(emails: seq<string>, i: nat): (r: Table)
    ensures |r| == |emails|
    decreases |emails|
  {
    if emails == [] then [] else [Entry(EmailPlaceholder(i), emails[0])] + EmailEntries(emails[1..], i + 1)
  }

  /** The `j`-th email entry is `[EMAIL_(i+j)]` for the `j`-th email. */
  lemma {:induction false} EmailEntriesAt(emails: seq<string>, i: nat, j: nat)
    requires j < |emails|
    ensures EmailEntries(emails, i)[j] == Entry(EmailPlaceholder(i + j), emails[j])
    decreases j
  {
    if j > 0 {
      EmailEntriesAt(emails[1..], i + 1, j - 1);
    }
  }

  /** No key of `table` is an email placeholder numbered `i` or more. */
  ghost predicate EmailFresh(table: Table, i: nat)
  {
    forall j, m :: 0 <= j < |table| && m >= i ==> table[j].key != EmailPlaceholder(m)
  }

  /** Assigning `[EMAIL_i]` into a table without it appends the entry, and the result has no
      email placeholder numbered `i + 1` or more. */
  lemma EmailPutAppends(table: Table, i: nat, email: string)
    requires DistinctKeys(table) && EmailFresh(table, i)
    ensures Put(table, EmailPlaceholder(i), email) == table + [Entry(EmailPlaceholder(i), email)]
    ensures EmailFresh(table + [Entry(EmailPlaceholder(i), email)], i + 1)
  {
    var ph := EmailPlaceholder(i);
    forall j | 0 <= j < |table| ensures table[j].key != ph { }
    var t' := table + [Entry(ph, email)];
    forall j, m | 0 <= j < |t'| && m >= i + 1 ensures t'[j].key != EmailPlaceholder(m) {
      PlaceholdersDistinct(i, m);
      if j < |table| {
        assert t'[j] == table[j];
      }
    }
  }

  /** The email loop appends one entry per email found, repeats included, when no key of the
      table is an email placeholder numbered from `i` on. */
  lemma {:induction false} EmailTableAppends(table: Table, emails: seq<string>, i: nat)
    requires DistinctKeys(table) && EmailFresh(table, i)
    ensures EmailTable(table, emails, i) == table + EmailEntries(emails, i)
    decreases |emails|
  {
    if emails != [] {
      var t' := table + [Entry(EmailPlaceholder(i), emails[0])];
      EmailTableStep(table, emails, i);
      EmailTableAppends(t', emails[1..], i + 1);
      EmailEntriesCons(table, emails, i);
    }
  }

  /** The email entries are the first email's entry followed by the rest's. */
  lemma EmailEntriesCons(table: Table, emails: seq<string>, i: nat)
    requires emails != []
    ensures table + [Entry(EmailPlaceholder(i), emails[0])] + EmailEntries(emails[1..], i + 1)
         == table + EmailEntries(emails, i)
  {
    assert EmailEntries(emails, i) == [Entry(EmailPlaceholder(i), emails[0])] + EmailEntries(emails[1..], i + 1);
  }

  /** One step of the email loop appends the next entry and keeps the table fresh above it. */
  lemma EmailTableStep(table: Table, emails: seq<string>, i: nat)
    requires DistinctKeys(table) && EmailFresh(table, i) && emails != []
    ensures DistinctKeys(table + [Entry(EmailPlaceholder(i), emails[0])])
    ensures EmailFresh(table + [Entry(EmailPlaceholder(i), emails[0])], i + 1)
    ensures EmailTable(table, emails, i)
         == EmailTable(table + [Entry(EmailPlaceholder(i), emails[0])], emails[1..], i + 1)
  {
    EmailPutAppends(table, i, emails[0]);
  }


  /** A table of phone placeholders holds no email placeholder. */
  lemma PhoneTableEmailFresh(st: MaskState)
    requires PhoneTable(st)
    ensures EmailFresh(st.table, 1)
  {
    forall j, m | 0 <= j < |st.table| && m >= 1 ensures st.table[j].key != EmailPlaceholder(m) {
      PlaceholdersDistinct(j + 1, m);
    }
  }

  /** The table `mask_text` returns: `[PHONE_1]` .. `[PHONE_n]` for the distinct non-blank phone
      matches, then `[EMAIL_1]` .. `[EMAIL_m]` for the email matches of the phone-masked text,
      one per match in order, repeats included. */
  lemma MaskTable(text: string)
    ensures PhoneTable(PhoneMasked(text))
    ensures forall j :: 0 <= j < |PhoneMasked(text).table| ==>
              ShapedByOne(PhonePatterns, PhoneMasked(text).table[j].value)
    ensures Mask(text).1 == PhoneMasked(text).table
                            + EmailEntries(FindAll(EmailPattern, PhoneMasked(text).text, 0), 1)
  {
    var st := PhoneMasked(text);
    PhonePassesTable(MaskState(text, [], 1), PhonePatterns);
    PhoneTableEmailFresh(st);
    EmailTableAppends(st.table, FindAll(EmailPattern, st.text, 0), 1);
  }

  /** The entries `mask_text` adds after the phone ones hold email-shaped values. */
  lemma MaskEmailValues(text: string)
    ensures forall j :: |PhoneMasked(text).table| <= j < |Mask(text).1| ==>
              Shaped(EmailPattern, Mask(text).1[j].value)
  {
    MaskTable(text);
    var p := PhoneMasked(text).table;
    var emails := FindAll(EmailPattern, PhoneMasked(text).text, 0);
    var r := Mask(text).1;
    forall j | |p| <= j < |r| ensures Shaped(EmailPattern, r[j].value) {
      EmailEntriesAt(emails, 1, j - |p|);
    }
  }

  /** Phone passes that find nothing leave the state as it was. */
  lemma {:induction false} PhonePassesNoMatch(st: MaskState, patterns: seq<Pattern>)
    requires ValidState(st)
    requires forall p :: p in patterns ==> FindAll(p, st.text, 0) == []
    ensures PhonePasses(st, patterns) == st
    decreases |patterns|
  {
    if patterns != [] {
      assert PhonePasses(st, patterns) == PhonePasses(st, patterns[1..]);
      PhonePassesNoMatch(st, patterns[1..]);
    }
  }

  /** A text in which no pattern matches is returned unchanged, with an empty table. */
  lemma MaskNoMatch(text: string)
    requires forall p :: p in PhonePatterns ==> FindAll(p, text, 0) == []
    requires FindAll(EmailPattern, text, 0) == []
    ensures Mask(text) == (text, [])
  {
    PhonePassesNoMatch(MaskState(text, [], 1), PhonePatterns);
  }

  /** A text with no digit and no `@` is returned unchanged, with an empty table: every phone
      pattern needs a digit and the email pattern needs an `@`. */
  lemma MaskPlainText(text: string)
    requires forall j :: 0 <= j < |text| ==> !IsDigit(text[j]) && text[j] != '@'
    ensures Mask(text) == (text, [])
  {
    FindAllNeedsClass(InternationalShort, text, 0, 1);
    FindAllNeedsClass(International, text, 0, 1);
    FindAllNeedsClass(Parenthesized, text, 0, 1);
    FindAllNeedsClass(Separated, text, 0, 0);
    FindAllNeedsClass(Bare, text, 0, 1);
    FindAllNeedsClass(EmailPattern, text, 0, 2);
    MaskNoMatch(text);
  }
}
