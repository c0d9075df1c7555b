/**
 * The cleaning of Odoo line names in the order feed
 * (supabase/functions/fetch-orders, `cleanOdooItemName`): the global
 * removal of a bracketed date range such as `(2/15/25 - 2/20/25)` with the
 * white space around it, first in the `M/D/YY` form and then in the ISO
 * form, followed by a trim.
 */
module OdooNames {
  import opened Wrappers
  import opened Text

  /** The two bracketed date forms removed from Odoo line names:
      `M/D/YY` with one or two digits for month and day, and `YYYY-MM-DD`. */
  datatype DateForm = SlashDate | IsoDate

  predicate IsDigit(c: char)
  {
    '0' <= c <= '9'
  }

  /** `n` digits start at position `i`. */
  predicate DigitsAt(s: string, i: int, n: nat)
  {
    0 <= i && i + n <= |s| && forall k :: i <= k < i + n ==> IsDigit(s[k])
  }

  /** A one- or two-digit number at `i` followed by `/`; the number of
      digits is forced (a second digit cannot be a `/`). */
  function SlashField(s: string, i: nat): (r: Option<nat>)
    ensures r.Some? ==> r.value in {1, 2} && DigitsAt(s, i, r.value) && i + r.value < |s| && s[i + r.value] == '/'
    ensures r.None? ==> !(DigitsAt(s, i, 1) && i + 1 < |s| && s[i + 1] == '/') &&
                        !(DigitsAt(s, i, 2) && i + 2 < |s| && s[i + 2] == '/')
  {
    var n := if DigitsAt(s, i, 2) then 2 else 1;
    if DigitsAt(s, i, n) && i + n < |s| && s[i + n] == '/' then Some(n) else None
  }

  /** Where the shortest date of form `f` starting at `i` ends, if one
      does. A slash date's year takes two to four digits, and the end of its
      two-digit form is used: the digits after it are never a `-` or a
      `)`, so where the rest of the pattern can match does not depend on
      how many year digits are taken. */
  function DateEnd(f: DateForm, s: string, i: nat): (r: Option<nat>)
    ensures r.Some? ==> i < r.value <= |s|
  {
    match f
    case SlashDate =>
      (match SlashField(s, i)
       case None => None
       case Some(a) =>
         match SlashField(s, i + a + 1)
         case None => None
         case Some(b) =>
           if DigitsAt(s, i + a + b + 2, 2) then Some(i + a + b + 4) else None)
    case IsoDate =>
      if DigitsAt(s, i, 4) && i + 4 < |s| && s[i + 4] == '-' && DigitsAt(s, i + 5, 2) &&
         i + 7 < |s| && s[i + 7] == '-' && DigitsAt(s, i + 8, 2)
      then Some(i + 10) else None
  }

  /** The first line terminator at or after `i`, or the end of `s`: `.` in
      the pattern matches nothing beyond it. */
  function LineEnd(s: string, i: nat): (r: nat)
    requires i <= |s|
    ensures i <= r <= |s|
    ensures forall k :: i <= k < r ==> !IsLineTerminator(s[k])
    ensures r < |s| ==> IsLineTerminator(s[r])
    decreases |s| - i
  {
    if i == |s| || IsLineTerminator(s[i]) then i else LineEnd(s, i + 1)
  }

  /** The first position in `[i, lim)` holding `c`. */
  function FirstIndexOf(s: string, c: char, i: nat, lim: nat): (r: Option<nat>)
    requires lim <= |s|
    ensures r.Some? ==> i <= r.value < lim && s[r.value] == c
    ensures r.Some? ==> forall k :: i <= k < r.value ==> s[k] != c
    ensures r.None? ==> forall k :: i <= k < lim ==> s[k] != c
    decreases lim - i
  {
    if i >= lim then None
    else if s[i] == c then Some(i)
    else FirstIndexOf(s, c, i + 1, lim)
  }

  /** The `)` closing a second date of form `f` that starts at `t`: the
      date must end by `lim`, and the first `)` after it before `lim` is
      taken. */
  function ClosingParen(f: DateForm, s: string, t: nat, lim: nat): (r: Option<nat>)
    requires lim <= |s|
    ensures r.Some? ==> t < r.value < lim && s[r.value] == ')'
  {
    match DateEnd(f, s, t)
    case None => None
    case Some(e) => if e <= lim then FirstIndexOf(s, ')', e, lim) else None
  }

  /** A second date of form `f` can start at `t`: it ends before `lim` and
      a `)` follows it before `lim`. */
  predicate ClosableDateAt(f: DateForm, s: string, t: nat, lim: nat)
    requires lim <= |s|
  {
    ClosingParen(f, s, t, lim).Some?
  }

  /** The first position in `[t, lim)` where a closable second date starts. */
  function FirstClosableDate(f: DateForm, s: string, t: nat, lim: nat): (r: Option<nat>)
    requires lim <= |s|
    ensures r.Some? ==> t <= r.value < lim && ClosableDateAt(f, s, r.value, lim)
    ensures r.None? ==> forall k :: t <= k < lim ==> !ClosableDateAt(f, s, k, lim)
    decreases lim - t
  {
    if t >= lim then None
    else if ClosableDateAt(f, s, t, lim) then Some(t)
    else FirstClosableDate(f, s, t + 1, lim)
  }

  /** The place found is the first one: no second date that starts
      earlier in the range can be closed, which is what the lazy `.*?`
      before it demands. */
  lemma {:induction false} FirstClosableDateIsFirst(f: DateForm, s: string, t: nat, lim: nat)
    requires lim <= |s|
    ensures var r := FirstClosableDate(f, s, t, lim);
              r.Some? ==> forall k :: t <= k < r.value ==> !ClosableDateAt(f, s, k, lim)
    decreases lim - t
  {
    if t < lim && !ClosableDateAt(f, s, t, lim) {
      FirstClosableDateIsFirst(f, s, t + 1, lim);
    }
  }

  /** Where the bracketed date range opened at `q` ends (just after its
      `)`), if the text from `q` matches `\(D.*?-.*?D.*?\)` for the date
      pattern `D` of form `f`. The lazy gaps take the first `-` after the
      first date, then the first second date that a `)` can still close,
      then the first such `)`, all within one line; a later `-` only leaves
      fewer places for the second date, so trying it cannot help. */
  function GroupEnd(f: DateForm, s: string, q: nat): (r: Option<nat>)
    requires q < |s| && s[q] == '('
    ensures r.Some? ==> q < r.value <= |s| && s[r.value - 1] == ')'
  {
    var lim := LineEnd(s, q);
    match DateEnd(f, s, q + 1)
    case None => None
    case Some(e1) =>
      if e1 > lim then None
      else
        match FirstIndexOf(s, '-', e1, lim)
        case None => None
        case Some(m) =>
          match FirstClosableDate(f, s, m + 1, lim)
          case None => None
          case Some(t) => Some(ClosingParen(f, s, t, lim).value + 1)
  }

  /** Where a whole match of `\s*\(D.*?-.*?D.*?\)\s*` that starts at `p`
      ends: the white space from `p`, a bracketed range, and the white
      space after it. */
  function MatchAt(f: DateForm, s: string, p: nat): (r: Option<nat>)
    requires p < |s|
    ensures r.Some? ==> p < r.value <= |s|
  {
    var q := WhitespaceEnd(s, p);
    if q < |s| && s[q] == '(' then AfterGroup(s, GroupEnd(f, s, q)) else None
  }

  /** A bracketed range that ends at `e` takes the white space after it. */
  function AfterGroup(s: string, g: Option<nat>): (r: Option<nat>)
    requires g.Some? ==> g.value <= |s|
    ensures r.Some? <==> g.Some?
    ensures r.Some? ==> g.value <= r.value <= |s|
  {
    match g
    case None => None
    case Some(e) => Some(WhitespaceEnd(s, e))
  }

  /** Where the run of white space (`\s*`) that starts at `p` ends. */
  function WhitespaceEnd(s: string, p: nat): (r: nat)
    requires p <= |s|
    ensures p <= r <= |s|
    decreases |s| - p
  {
    if p < |s| && IsWhitespace(s[p]) then WhitespaceEnd(s, p + 1) else p
  }

  /** The run is the leading white space of the text from `p`. */
  lemma {:induction false} WhitespaceEndIsLeading(s: string, p: nat)
    requires p <= |s|
    ensures WhitespaceEnd(s, p) == p + LeadingWhitespace(s[p..])
    decreases |s| - p
  {
    if p < |s| {
      assert s[p..][0] == s[p] && s[p..][1..] == s[p + 1..];
      if IsWhitespace(s[p]) {
        WhitespaceEndIsLeading(s, p + 1);
      }
    }
  }

  /** The global replacement of `\s*\(D.*?-.*?D.*?\)\s*` by nothing, from
      position `p` on: at each position either a whole match is dropped, or
      one character is kept. */
  function StripFrom(f: DateForm, s: string, p: nat): (r: string)
    requires p <= |s|
    ensures |r| <= |s| - p
    decreases |s| - p
  {
    if p == |s| then ""
    else
      match MatchAt(f, s, p)
      case Some(next) => StripFrom(f, s, next)
      case None => [s[p]] + StripFrom(f, s, p + 1)
  }

  /** `cleanOdooItemName`: the slash-date ranges are removed, then the ISO
      ones, then the ends are trimmed. */
  function CleanOdooItemName(name: string): (r: string)
    ensures IsTrimmed(r)
    ensures |r| <= |name|
  {
    Trim(StripFrom(IsoDate, StripFrom(SlashDate, name, 0), 0))
  }

  /** Without a `(` nothing matches, so a pass keeps the text as it is. */
  lemma {:induction false} StripWithoutParen(f: DateForm, s: string, p: nat)
    requires p <= |s|
    requires NoOpenParen(s)
    ensures StripFrom(f, s, p) == s[p..]
    decreases |s| - p
  {
    if p < |s| {
      StripWithoutParen(f, s, p + 1);
      assert s[p..] == [s[p]] + s[p + 1..];
    }
  }

  /** A name without `(` is only trimmed. */
  lemma CleanWithoutParen(name: string)
    requires NoOpenParen(name)
    ensures CleanOdooItemName(name) == Trim(name)
  {
    StripWithoutParen(SlashDate, name, 0);
    assert name[0..] == name;
    StripWithoutParen(IsoDate, name, 0);
  }
}
