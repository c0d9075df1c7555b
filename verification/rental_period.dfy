/**
 * What `cleanOdooItemName` does to a product name followed by the rental
 * period Odoo appends to it, `name (D1 - D2)`: the period and the space
 * before it are removed.
 */
module RentalPeriod {
  import opened Wrappers
  import opened Text
  import opened OdooNames

  /** A date as Odoo writes it in a rental period: a month and a day of
      one or two digits, a year of two to four, then free text such as a
      time (` 10:00:00 AM`) that holds no `-`, `)` or line break. */
  datatype SlashDateText = SlashDateText(month: string, day: string, year: string, rest: string)
  {
    predicate WellFormed()
    {
      && 1 <= |month| <= 2 && AllDigits(month)
      && 1 <= |day| <= 2 && AllDigits(day)
      && 2 <= |year| <= 4 && AllDigits(year)
      && forall k :: 0 <= k < |rest| ==> rest[k] != '-' && rest[k] != ')' && !IsLineTerminator(rest[k])
    }

    /** The date as written: `month/day/year` and the free text. */
    function Text(): string
    {
      month + "/" + day + "/" + year + rest
    }
  }

  predicate AllDigits(s: string)
  {
    forall k :: 0 <= k < |s| ==> IsDigit(s[k])
  }

  /** The shape of a date's text with an `a`-digit month and a `b`-digit
      day: the two fields and their `/`s, at least two year digits, and no
      `-`, `)` or line break anywhere. */
  predicate DateShape(t: string, a: nat, b: nat)
  {
    && a in {1, 2} && b in {1, 2} && |t| >= a + b + 4
    && DigitsAt(t, 0, a) && t[a] == '/'
    && DigitsAt(t, a + 1, b) && t[a + b + 1] == '/'
    && DigitsAt(t, a + b + 2, 2)
    && forall k :: 0 <= k < |t| ==> t[k] != '-' && t[k] != ')' && !IsLineTerminator(t[k])
  }

  /** A well-formed date's text has the shape of its month and day. */
  lemma DateTextLayout(d: SlashDateText)
    requires d.WellFormed()
    ensures DateShape(d.Text(), |d.month|, |d.day|)
  {
    var t, a, b := d.Text(), |d.month|, |d.day|;
    var y := a + b + 2;
    assert forall k :: 0 <= k < a ==> t[k] == d.month[k];
    assert forall k :: 0 <= k < b ==> t[a + 1 + k] == d.day[k];
    assert forall k :: 0 <= k < |d.year| ==> t[y + k] == d.year[k];
    assert forall k :: 0 <= k < |d.rest| ==> t[y + |d.year| + k] == d.rest[k];
    forall k | 0 <= k < |t|
      ensures t[k] != '-' && t[k] != ')' && !IsLineTerminator(t[k])
    {
      if k < a {
        assert t[k] == d.month[k];
      } else if k == a || k == a + b + 1 {
      } else if k < a + b + 1 {
        assert t[k] == d.day[k - a - 1];
      } else if k < y + |d.year| {
        assert t[k] == d.year[k - y];
      } else {
        assert t[k] == d.rest[k - y - |d.year|];
      }
    }
  }

  /** `n` digits and then `/` at `i` are one field of a slash date. */
  lemma SlashFieldIs(s: string, i: nat, n: nat)
    requires n in {1, 2} && DigitsAt(s, i, n) && i + n < |s| && s[i + n] == '/'
    ensures SlashField(s, i) == Some(n)
  {
    if n == 1 {
      assert !IsDigit(s[i + 1]);
    }
  }

  /** A date text of shape `(a, b)` written at `i` is matched by the
      slash-date pattern, whose two-digit year ends `a + b + 4` later. */
  lemma SlashDateAt(s: string, i: nat, t: string, a: nat, b: nat)
    requires DateShape(t, a, b)
    requires i + |t| <= |s|
    requires forall k :: 0 <= k < |t| ==> s[i + k] == t[k]
    ensures DateEnd(SlashDate, s, i).Some? && DateEnd(SlashDate, s, i).value == i + a + b + 4
  {
    assert s[i + a] == t[a] && s[i + a + b + 1] == t[a + b + 1];
    assert forall k :: i <= k < i + a ==> s[k] == t[k - i];
    SlashFieldIs(s, i, a);
    assert forall k :: i + a + 1 <= k < i + a + 1 + b ==> s[k] == t[k - i];
    SlashFieldIs(s, i + a + 1, b);
    assert s[i + a + b + 2] == t[a + b + 2] && s[i + a + b + 3] == t[a + b + 3];
  }

  /** The first `c` in `[i, lim)` is at `j` when `s[j]` is `c` and none
      comes before it. */
  lemma FirstIndexOfIs(s: string, c: char, i: nat, j: nat, lim: nat)
    requires i <= j < lim <= |s| && s[j] == c
    requires forall k :: i <= k < j ==> s[k] != c
    ensures FirstIndexOf(s, c, i, lim).Some? && FirstIndexOf(s, c, i, lim).value == j
  {
  }

  /** The search for a closable date passes over a position where none closes. */
  lemma SkipUnclosable(f: DateForm, s: string, t: nat, lim: nat)
    requires t < lim <= |s| && !ClosableDateAt(f, s, t, lim)
    ensures FirstClosableDate(f, s, t, lim) == FirstClosableDate(f, s, t + 1, lim)
  {
  }

  /** The search for a closable date stops at the first one that closes. */
  lemma TakeClosable(f: DateForm, s: string, t: nat, lim: nat)
    requires t < lim <= |s| && ClosableDateAt(f, s, t, lim)
    ensures FirstClosableDate(f, s, t, lim) == Some(t)
  {
  }

  /** No date starts at a character that is not a digit. */
  lemma NoDateAtNonDigit(f: DateForm, s: string, i: nat)
    requires i < |s| && !IsDigit(s[i])
    ensures DateEnd(f, s, i) == None
  {
    assert !DigitsAt(s, i, 1) && !DigitsAt(s, i, 2) && !DigitsAt(s, i, 4);
  }

  /** Where the white space from `p` does not run into a `(`, no match
      starts at `p`. */
  lemma NoMatchWithoutParen(f: DateForm, s: string, p: nat)
    requires p < |s|
    requires var q := WhitespaceEnd(s, p); !(q < |s| && s[q] == '(')
    ensures MatchAt(f, s, p) == None
  {
  }

  /** The white space from `p` stops before a non-white-space character at
      `q - 1`. */
  lemma {:induction false} WhitespaceRunStops(s: string, p: nat, q: nat)
    requires p < q <= |s| && !IsWhitespace(s[q - 1])
    ensures WhitespaceEnd(s, p) < q
    decreases q - p
  {
    if IsWhitespace(s[p]) {
      WhitespaceRunStops(s, p + 1, q);
    }
  }

  /** A stretch without `(` that ends in a non-white-space character is
      copied as it is. */
  lemma {:induction false} StripKeeps(f: DateForm, s: string, p: nat, q: nat)
    requires p <= q <= |s|
    requires forall k :: p <= k < q ==> s[k] != '('
    requires p < q ==> !IsWhitespace(s[q - 1])
    ensures StripFrom(f, s, p) == s[p..q] + StripFrom(f, s, q)
    decreases q - p
  {
    if p < q {
      KeepOne(f, s, p, q);
      StripKeeps(f, s, p + 1, q);
      SliceCons(s, p, q);
      ConsAppend(s[p], s[p + 1..q], StripFrom(f, s, q), s[p..q]);
    } else {
      assert s[p..q] == [];
    }
  }

  /** Before a stretch end that is not white space, no match starts at a
      position without `(` up to there, so one character is kept. */
  lemma KeepOne(f: DateForm, s: string, p: nat, q: nat)
    requires p < q <= |s|
    requires forall k :: p <= k < q ==> s[k] != '('
    requires !IsWhitespace(s[q - 1])
    ensures StripFrom(f, s, p) == [s[p]] + StripFrom(f, s, p + 1)
  {
    WhitespaceRunStops(s, p, q);
    NoMatchWithoutParen(f, s, p);
  }

  lemma SliceCons<T>(s: seq<T>, p: nat, q: nat)
    requires p < q <= |s|
    ensures s[p..q] == [s[p]] + s[p + 1..q]
  {
  }

  lemma ConsAppend<T>(x: T, a: seq<T>, b: seq<T>, c: seq<T>)
    requires c == [x] + a
    ensures [x] + (a + b) == c + b
  {
  }

  /** A product name followed by its rental period, such as
      `(02/15/2025 10:00:00 AM - 02/20/2025 10:00:00 AM)` or
      `(2/15/25 - 2/20/25)`, is cleaned back to the product name: the
      bracketed range and the space before it are removed. */
  lemma CleanRemovesRentalPeriod(name: string, d1: SlashDateText, d2: SlashDateText)
    requires NoOpenParen(name) && IsTrimmed(name)
    requires d1.WellFormed() && d2.WellFormed()
    ensures CleanOdooItemName(name + " (" + d1.Text() + " - " + d2.Text() + ")") == name
  {
    var s := name + " (" + d1.Text() + " - " + d2.Text() + ")";
    DateTextLayout(d1);
    DateTextLayout(d2);
    StripRentalPeriod(name, d1.Text(), |d1.month|, |d1.day|, d2.Text(), |d2.month|, |d2.day|);
    StripWithoutParen(IsoDate, name, 0);
    assert name[0..] == name;
    assert StripFrom(IsoDate, StripFrom(SlashDate, s, 0), 0) == name;
  }

  /** The rental period in the comment of `cleanOdooItemName`, after a
      product name, is removed. */
  lemma CleanRemovesDocumentedPeriod()
    ensures CleanOdooItemName("Projector" + " (" + "02/15/2025 10:00:00 AM" + " - " + "02/20/2025 10:00:00 AM" + ")")
         == "Projector"
  {
    var d1 := SlashDateText("02", "15", "2025", " 10:00:00 AM");
    var d2 := SlashDateText("02", "20", "2025", " 10:00:00 AM");
    FirstDocumentedDate(d1);
    SecondDocumentedDate(d2);
    assert NoOpenParen("Projector") && IsTrimmed("Projector");
    CleanRemovesRentalPeriod("Projector", d1, d2);
  }

  lemma FirstDocumentedDate(d: SlashDateText)
    requires d == SlashDateText("02", "15", "2025", " 10:00:00 AM")
    ensures d.WellFormed() && d.Text() == "02/15/2025 10:00:00 AM"
  {
  }

  lemma SecondDocumentedDate(d: SlashDateText)
    requires d == SlashDateText("02", "20", "2025", " 10:00:00 AM")
    ensures d.WellFormed() && d.Text() == "02/20/2025 10:00:00 AM"
  {
  }

  /** The slash-date pass removes the space and the bracketed period. */
  lemma StripRentalPeriod(name: string, t1: string, a1: nat, b1: nat, t2: string, a2: nat, b2: nat)
    requires NoOpenParen(name) && IsTrimmed(name)
    requires DateShape(t1, a1, b1) && DateShape(t2, a2, b2)
    ensures StripFrom(SlashDate, name + " (" + t1 + " - " + t2 + ")", 0) == name
  {
    PeriodLayout(name, t1, t2);
    StripPeriodAt(name + " (" + t1 + " - " + t2 + ")", name, t1, a1, b1, t2, a2, b2);
  }

  /** The same for any text that is the name followed by the period. */
  lemma StripPeriodAt(s: string, name: string, t1: string, a1: nat, b1: nat, t2: string, a2: nat, b2: nat)
    requires NoOpenParen(name) && IsTrimmed(name)
    requires DateShape(t1, a1, b1) && DateShape(t2, a2, b2)
    requires |name| <= |s| && s[..|name|] == name && PeriodAt(s, |name|, t1, t2)
    ensures StripFrom(SlashDate, s, 0) == name
  {
    var n := |name|;
    NameKept(s, name);
    PeriodGroup(s, n, t1, a1, b1, t2, a2, b2);
    PeriodMatch(s, n);
    assert name + "" == name;
  }

  /** A trimmed name without `(` at the front of the text is copied. */
  lemma NameKept(s: string, name: string)
    requires NoOpenParen(name) && IsTrimmed(name)
    requires |name| <= |s| && s[..|name|] == name
    ensures StripFrom(SlashDate, s, 0) == name + StripFrom(SlashDate, s, |name|)
  {
    var n := |name|;
    assert forall k :: 0 <= k < n ==> s[k] == name[k];
    StripKeeps(SlashDate, s, 0, n);
    assert s[0..n] == name;
  }

  /** Where the pieces of `name (t1 - t2)` sit. */
  lemma PeriodLayout(name: string, t1: string, t2: string)
    ensures var s := name + " (" + t1 + " - " + t2 + ")";
            && s[..|name|] == name
            && PeriodAt(s, |name|, t1, t2)
  {
  }

  /** The text from `n` is ` (t1 - t2)` and ends there. */
  predicate PeriodAt(s: string, n: nat, t1: string, t2: string)
  {
    && |s| == n + |t1| + |t2| + 6
    && s[n] == ' ' && s[n + 1] == '('
    && (forall k :: 0 <= k < |t1| ==> s[n + 2 + k] == t1[k])
    && s[n + 2 + |t1|] == ' ' && s[n + 3 + |t1|] == '-' && s[n + 4 + |t1|] == ' '
    && (forall k :: 0 <= k < |t2| ==> s[n + 5 + |t1| + k] == t2[k])
    && s[n + 5 + |t1| + |t2|] == ')'
  }

  /** The bracketed period after the name is one bracketed range that
      ends with the text. */
  lemma PeriodGroup(s: string, n: nat, t1: string, a1: nat, b1: nat, t2: string, a2: nat, b2: nat)
    requires DateShape(t1, a1, b1) && DateShape(t2, a2, b2)
    requires PeriodAt(s, n, t1, t2)
    ensures n + 1 < |s| && s[n + 1] == '(' && GroupEnd(SlashDate, s, n + 1) == Some(|s|)
  {
    PeriodOnOneLine(s, n, t1, a1, b1, t2, a2, b2);
    PeriodFirstStep(s, n, t1, a1, b1, t2);
    PeriodSecondStep(s, n, t1, t2, a2, b2);
    GroupFromSteps(s, n + 1, n + 2 + a1 + b1 + 4, n + 3 + |t1|);
  }

  /** The first date of the period, then the `-` of ` - ` followed by a
      space. */
  lemma PeriodFirstStep(s: string, n: nat, t1: string, a1: nat, b1: nat, t2: string)
    requires DateShape(t1, a1, b1)
    requires PeriodAt(s, n, t1, t2)
    ensures DateEnd(SlashDate, s, n + 1 + 1).Some?
    ensures DateEnd(SlashDate, s, n + 1 + 1).value == n + 2 + a1 + b1 + 4 && n + 2 + a1 + b1 + 4 <= |s|
    ensures FirstIndexOf(s, '-', n + 2 + a1 + b1 + 4, |s|).Some?
    ensures FirstIndexOf(s, '-', n + 2 + a1 + b1 + 4, |s|).value == n + 3 + |t1|
    ensures n + 3 + |t1| + 2 < |s| && !IsDigit(s[n + 3 + |t1| + 1])
  {
    FirstDateThenDash(s, n + 2, t1, a1, b1);
  }

  /** The second date of the period and the `)` that ends the text. */
  lemma PeriodSecondStep(s: string, n: nat, t1: string, t2: string, a2: nat, b2: nat)
    requires DateShape(t2, a2, b2)
    requires PeriodAt(s, n, t1, t2)
    ensures ClosingParen(SlashDate, s, n + 3 + |t1| + 2, |s|).Some?
  {
    SecondDateClosed(s, n + 3 + |t1| + 2, t2, a2, b2);
  }

  /** A slash-date range on one line from the steps its lazy gaps take:
      the first date, the first `-` after it, a non-digit, and a second
      date closed by a `)` that is the only one after the `(`. */
  lemma GroupFromSteps(s: string, q: nat, e1: nat, dash: nat)
    requires q < |s| && s[q] == '(' && LineEnd(s, q) == |s|
    requires DateEnd(SlashDate, s, q + 1).Some? && DateEnd(SlashDate, s, q + 1).value == e1 && e1 <= |s|
    requires FirstIndexOf(s, '-', e1, |s|).Some? && FirstIndexOf(s, '-', e1, |s|).value == dash
    requires dash + 2 < |s| && !IsDigit(s[dash + 1])
    requires ClosingParen(SlashDate, s, dash + 2, |s|).Some?
    requires forall k :: q < k < |s| - 1 ==> s[k] != ')'
    ensures GroupEnd(SlashDate, s, q) == Some(|s|)
  {
    SecondDateAfterSpace(s, dash);
    GroupEndFrom(SlashDate, s, q, e1, dash);
    GroupEndsAtLastParen(SlashDate, s, q);
  }

  /** A second date one space after the dash is the first closable one. */
  lemma SecondDateAfterSpace(s: string, dash: nat)
    requires dash + 2 < |s| && !IsDigit(s[dash + 1])
    requires ClosingParen(SlashDate, s, dash + 2, |s|).Some?
    ensures FirstClosableDate(SlashDate, s, dash + 1, |s|).Some?
  {
    NoDateAtNonDigit(SlashDate, s, dash + 1);
    SkipUnclosable(SlashDate, s, dash + 1, |s|);
    TakeClosable(SlashDate, s, dash + 2, |s|);
  }

  /** A bracketed range ends just after a `)`, so when the only `)` after
      the `(` is the last character, it runs to the end. */
  lemma GroupEndsAtLastParen(f: DateForm, s: string, q: nat)
    requires q < |s| && s[q] == '(' && GroupEnd(f, s, q).Some?
    requires forall k :: q < k < |s| - 1 ==> s[k] != ')'
    ensures GroupEnd(f, s, q) == Some(|s|)
  {
    var g := GroupEnd(f, s, q).value;
    assert s[g - 1] == ')';
  }

  /** The steps the lazy gaps take (the first date, the first `-` after
      it, the first closable second date and its `)`) make a bracketed
      range. */
  lemma GroupEndFrom(f: DateForm, s: string, q: nat, e1: nat, m: nat)
    requires q < |s| && s[q] == '('
    requires DateEnd(f, s, q + 1).Some? && DateEnd(f, s, q + 1).value == e1 && e1 <= LineEnd(s, q)
    requires FirstIndexOf(s, '-', e1, LineEnd(s, q)).Some? && FirstIndexOf(s, '-', e1, LineEnd(s, q)).value == m
    requires FirstClosableDate(f, s, m + 1, LineEnd(s, q)).Some?
    ensures GroupEnd(f, s, q).Some?
  {
  }

  /** No line break follows the `(` of the period, and no `)` comes
      before the last character. */
  lemma PeriodOnOneLine(s: string, n: nat, t1: string, a1: nat, b1: nat, t2: string, a2: nat, b2: nat)
    requires DateShape(t1, a1, b1) && DateShape(t2, a2, b2)
    requires PeriodAt(s, n, t1, t2)
    ensures n + 1 < |s| && s[n + 1] == '('
    ensures LineEnd(s, n + 1) == |s|
    ensures forall k :: n + 1 < k < |s| - 1 ==> s[k] != ')'
  {
    var i1, i2 := n + 2, n + 5 + |t1|;
    forall k | n + 1 <= k < |s|
      ensures !IsLineTerminator(s[k]) && (k < |s| - 1 ==> s[k] != ')')
    {
      if i1 <= k < i1 + |t1| {
        assert s[k] == t1[k - i1];
      } else if i2 <= k < i2 + |t2| {
        assert s[k] == t2[k - i2];
      }
    }
  }

  /** After the first date, the first `-` is the one of ` - `. */
  lemma FirstDateThenDash(s: string, i1: nat, t1: string, a1: nat, b1: nat)
    requires DateShape(t1, a1, b1)
    requires i1 + |t1| + 1 < |s|
    requires forall k :: 0 <= k < |t1| ==> s[i1 + k] == t1[k]
    requires s[i1 + |t1|] == ' ' && s[i1 + |t1| + 1] == '-'
    ensures DateEnd(SlashDate, s, i1).Some? && DateEnd(SlashDate, s, i1).value == i1 + a1 + b1 + 4
    ensures FirstIndexOf(s, '-', i1 + a1 + b1 + 4, |s|).Some?
    ensures FirstIndexOf(s, '-', i1 + a1 + b1 + 4, |s|).value == i1 + |t1| + 1
  {
    SlashDateAt(s, i1, t1, a1, b1);
    var e1 := i1 + a1 + b1 + 4;
    forall k | e1 <= k < i1 + |t1| + 1
      ensures s[k] != '-'
    {
      if k < i1 + |t1| {
        assert s[k] == t1[k - i1];
      }
    }
    FirstIndexOfIs(s, '-', e1, i1 + |t1| + 1, |s|);
  }

  /** The second date, then the closing `)` that ends the text. */
  lemma SecondDateClosed(s: string, i2: nat, t2: string, a2: nat, b2: nat)
    requires DateShape(t2, a2, b2)
    requires |s| == i2 + |t2| + 1
    requires forall k :: 0 <= k < |t2| ==> s[i2 + k] == t2[k]
    requires s[i2 + |t2|] == ')'
    ensures ClosingParen(SlashDate, s, i2, |s|).Some?
  {
    SlashDateAt(s, i2, t2, a2, b2);
    var e2 := i2 + a2 + b2 + 4;
    forall k | e2 <= k < |s| - 1
      ensures s[k] != ')'
    {
      assert s[k] == t2[k - i2];
    }
    FirstIndexOfIs(s, ')', e2, |s| - 1, |s|);
  }

  /** A space, then a bracketed range running to the end, is one match. */
  lemma PeriodMatch(s: string, n: nat)
    requires n + 2 <= |s| && s[n] == ' ' && s[n + 1] == '('
    requires GroupEnd(SlashDate, s, n + 1) == Some(|s|)
    ensures StripFrom(SlashDate, s, n) == ""
  {
    PeriodMatchAt(s, n);
    assert StripFrom(SlashDate, s, |s|) == "";
  }

  /** The match at the space runs to the end of the text. */
  lemma PeriodMatchAt(s: string, n: nat)
    requires n + 2 <= |s| && s[n] == ' ' && s[n + 1] == '('
    requires GroupEnd(SlashDate, s, n + 1) == Some(|s|)
    ensures MatchAt(SlashDate, s, n) == Some(|s|)
  {
    OneSpaceBeforeParen(s, n);
    MatchAtGroup(SlashDate, s, n, n + 1, |s|);
  }

  /** White space up to `q`, a bracketed range from `q` ending at `e`, and
      no white space after it: the match ends at `e`. */
  lemma MatchAtGroup(f: DateForm, s: string, p: nat, q: nat, e: nat)
    requires p < |s| && WhitespaceEnd(s, p) == q && q < |s| && s[q] == '('
    requires GroupEnd(f, s, q).Some? && GroupEnd(f, s, q).value == e
    requires e <= |s| && WhitespaceEnd(s, e) == e
    ensures MatchAt(f, s, p).Some? && MatchAt(f, s, p).value == e
  {
  }

  /** One space, then `(`: the white space is that one space. */
  lemma OneSpaceBeforeParen(s: string, n: nat)
    requires n + 1 < |s| && s[n] == ' ' && s[n + 1] == '('
    ensures WhitespaceEnd(s, n) == n + 1
  {
    assert WhitespaceEnd(s, n + 1) == n + 1;
  }
}
