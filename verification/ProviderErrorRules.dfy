/**
 * Reading "resets in N units" out of an upstream error body, and the opencode rule that turns
 * it into a cooldown. The pattern is matched leftmost; each part of it can match in only
 * one way, so a match is a function of where it starts.
 */
module ProviderErrorRules {
  import opened Options
  import opened Text

  datatype Unit = Day | Hour | Minute | Second

  /** `n` units in milliseconds. */
  function Cooldown(n: nat, unit: Unit): nat {
    match unit
    case Day => n * 86_400_000
    case Hour => n * 3_600_000
    case Minute => n * 60_000
    case Second => n * 1_000
  }

  function Word(unit: Unit, plural: bool): string {
    (match unit
     case Day => "day"
     case Hour => "hour"
     case Minute => "minute"
     case Second => "second")
    + if plural then "s" else ""
  }

  // ------------------------------------------------------------------- numerals

  predicate AllDigits(s: string) {
    forall c | c in s :: IsDigit(c)
  }

  function Numeral(digits: string): nat
    requires AllDigits(digits)
  {
    if digits == "" then 0
    else
      var last := digits[|digits| - 1];
      assert last in digits;
      10 * Numeral(digits[..|digits| - 1]) + (last as int - '0' as int)
  }

  function Digit(n: nat): char
    requires n < 10
  {
    ('0' as int + n) as char
  }

  function Print(n: nat): (s: string)
    ensures s != "" && AllDigits(s)
  {
    if n < 10 then [Digit(n)] else Print(n / 10) + [Digit(n % 10)]
  }

  lemma {:induction false} NumeralOfPrint(n: nat)
    ensures Numeral(Print(n)) == n
  {
    if n < 10 {
      assert [Digit(n)][..0] == "";
    } else {
      NumeralOfPrint(n / 10);
      var s := Print(n / 10) + [Digit(n % 10)];
      assert s[..|s| - 1] == Print(n / 10) && s[|s| - 1] == Digit(n % 10);
    }
  }

  // -------------------------------------------------------------------- the pattern

  function SpaceRun(s: string): (n: nat)
    ensures n <= |s|
    ensures forall i | 0 <= i < n :: IsSpace(s[i])
    ensures n < |s| ==> !IsSpace(s[n])
  {
    if s != "" && IsSpace(s[0]) then 1 + SpaceRun(s[1..]) else 0
  }

  function DigitRun(s: string): (n: nat)
    ensures n <= |s|
    ensures forall i | 0 <= i < n :: IsDigit(s[i])
    ensures n < |s| ==> !IsDigit(s[n])
  {
    if s != "" && IsDigit(s[0]) then 1 + DigitRun(s[1..]) else 0
  }

  predicate IsWordChar(c: char) {
    IsDigit(c) || 'a' <= LowerChar(c) <= 'z' || c == '_'
  }

  /** A word may end here. */
  predicate Boundary(after: string) {
    after == "" || !IsWordChar(after[0])
  }

  predicate UnitHere(s: string, unit: Unit, plural: bool) {
    var word := Word(unit, plural);
    StartsWith(s, word) && Boundary(s[|word|..])
  }

  function MatchUnit(s: string): Option<Unit> {
    if UnitHere(s, Day, false) || UnitHere(s, Day, true) then Some(Day)
    else if UnitHere(s, Hour, false) || UnitHere(s, Hour, true) then Some(Hour)
    else if UnitHere(s, Minute, false) || UnitHere(s, Minute, true) then Some(Minute)
    else if UnitHere(s, Second, false) || UnitHere(s, Second, true) then Some(Second)
    else None
  }

  /** White space and what follows it, when there is any. */
  function AfterSpace(s: string): Option<string> {
    if SpaceRun(s) > 0 then Some(s[SpaceRun(s)..]) else None
  }

  function MatchCount(s: string): Option<(nat, Unit)> {
    var d := DigitRun(s);
    var rest := AfterSpace(s[d..]);
    if d == 0 || rest.None? then None
    else
      var unit := MatchUnit(rest.value);
      if unit.None? then None else Some((Numeral(s[..d]), unit.value))
  }

  function MatchIn(s: string): Option<(nat, Unit)> {
    if !StartsWith(s, "in") then None
    else
      var rest := AfterSpace(s[2..]);
      if rest.None? then None else MatchCount(rest.value)
  }

  /** What follows `reset` or `resets`. */
  function AfterVerb(s: string): string
    requires StartsWith(s, "reset")
  {
    if StartsWith(s[5..], "s") then s[6..] else s[5..]
  }

  /** The count and unit of the phrase that starts right here. */
  function MatchHere(s: string): Option<(nat, Unit)> {
    if !StartsWith(s, "reset") then None
    else
      var rest := AfterSpace(AfterVerb(s));
      if rest.None? then None else MatchIn(rest.value)
  }

  /** The match of a pattern at the leftmost position where it matches. */
  function Leftmost<T>(pattern: string -> Option<T>, text: string): Option<T> {
    if pattern(text).Some? then pattern(text)
    else if text == "" then None
    else Leftmost(pattern, text[1..])
  }

  /** The cooldown in milliseconds. */
  function ParseResetCountdownMs(text: string): Option<nat> {
    var m := Leftmost(MatchHere, text);
    if m.None? || m.value.0 == 0 then None else Some(Cooldown(m.value.0, m.value.1))
  }

  // ------------------------------------------------------------- phrases and matches

  /** The parts of a countdown phrase: reset(s), space, in, space, digits, space, unit. */
  datatype Phrase = Phrase(plural: bool, space1: string, space2: string, digits: string, space3: string, unit: Unit,
                           units: bool) {
    predicate Valid() {
      && space1 != "" && Blank(space1) && space2 != "" && Blank(space2) && space3 != "" && Blank(space3)
      && digits != "" && AllDigits(digits)
    }

    function Verb(): string {
      if plural then "resets" else "reset"
    }

    function Count(after: string): string {
      digits + (space3 + (Word(unit, units) + after))
    }

    function In(after: string): string {
      "in" + (space2 + Count(after))
    }

    /** The phrase with `after` behind it. */
    function Before(after: string): string {
      Verb() + (space1 + In(after))
    }
  }

  lemma {:induction false} SpaceRunOf(blank: string, s: string)
    requires Blank(blank) && (s == "" || !IsSpace(s[0]))
    ensures SpaceRun(blank + s) == |blank| && (blank + s)[|blank|..] == s
  {
    if blank == "" {
      assert blank + s == s;
    } else {
      assert blank[0] in blank;
      assert (blank + s)[1..] == blank[1..] + s;
      SpaceRunOf(blank[1..], s);
    }
  }

  lemma {:induction false} DigitRunOf(digits: string, s: string)
    requires AllDigits(digits) && (s == "" || !IsDigit(s[0]))
    ensures DigitRun(digits + s) == |digits|
    ensures (digits + s)[..|digits|] == digits && (digits + s)[|digits|..] == s
  {
    if digits == "" {
      assert digits + s == s;
    } else {
      assert digits[0] in digits;
      assert (digits + s)[1..] == digits[1..] + s;
      DigitRunOf(digits[1..], s);
    }
  }

  lemma AfterSpaceOf(blank: string, s: string)
    requires blank != "" && Blank(blank) && (s == "" || !IsSpace(s[0]))
    ensures AfterSpace(blank + s) == Some(s)
  {
    SpaceRunOf(blank, s);
  }

  lemma WordShape(unit: Unit, units: bool)
    ensures
      var word := Word(unit, units);
      |word| >= 3 && !IsSpace(word[0]) && !IsDigit(word[0])
      && word[0] == match unit { case Day => 'd' case Hour => 'h' case Minute => 'm' case Second => 's' }
  {
  }

  lemma MatchUnitOf(unit: Unit, units: bool, after: string)
    requires Boundary(after)
    ensures MatchUnit(Word(unit, units) + after) == Some(unit)
  {
    var s := Word(unit, units) + after;
    WordShape(unit, units);
    assert s[|Word(unit, units)|..] == after;
    assert UnitHere(s, unit, units);
    forall u, plural | u != unit ensures !UnitHere(s, u, plural) {
      WordShape(u, plural);
      assert Word(u, plural)[0] != s[0];
    }
  }

  lemma MatchCountOf(p: Phrase, after: string)
    requires p.Valid() && Boundary(after)
    ensures MatchCount(p.Count(after)) == Some((Numeral(p.digits), p.unit))
  {
    var tail := Word(p.unit, p.units) + after;
    WordShape(p.unit, p.units);
    assert p.space3[0] in p.space3;
    DigitRunOf(p.digits, p.space3 + tail);
    AfterSpaceOf(p.space3, tail);
    MatchUnitOf(p.unit, p.units, after);
  }

  lemma MatchInOf(p: Phrase, after: string)
    requires p.Valid() && Boundary(after)
    ensures MatchIn(p.In(after)) == Some((Numeral(p.digits), p.unit))
  {
    var count := p.Count(after);
    assert p.digits[0] in p.digits;
    MatchCountOf(p, after);
    AfterSpaceOf(p.space2, count);
    assert p.In(after)[..2] == "in" && p.In(after)[2..] == p.space2 + count;
  }

  lemma AfterVerbOf(plural: bool, rest: string)
    requires rest != "" && rest[0] != 's'
    ensures var s := (if plural then "resets" else "reset") + rest; StartsWith(s, "reset") && AfterVerb(s) == rest
  {
    var s := (if plural then "resets" else "reset") + rest;
    assert s[..5] == "reset";
    assert if plural then s[5..] == "s" + rest && s[6..] == rest else s[5..] == rest;
  }

  /** A phrase matches where it starts, with its own count and unit. */
  lemma MatchHereOf(p: Phrase, after: string)
    requires p.Valid() && Boundary(after)
    ensures MatchHere(p.Before(after)) == Some((Numeral(p.digits), p.unit))
  {
    var rest := p.space1 + p.In(after);
    assert p.space1[0] in p.space1;
    AfterVerbOf(p.plural, rest);
    AfterSpaceOf(p.space1, p.In(after));
    MatchInOf(p, after);
  }

  lemma SpaceFound(s: string) returns (blank: string, rest: string)
    requires AfterSpace(s).Some?
    ensures blank != "" && Blank(blank) && s == blank + rest && AfterSpace(s) == Some(rest)
  {
    blank, rest := s[..SpaceRun(s)], s[SpaceRun(s)..];
  }

  lemma CountFound(s: string) returns (digits: string, space3: string, unit: Unit, units: bool, after: string)
    requires MatchCount(s).Some?
    ensures digits != "" && AllDigits(digits) && space3 != "" && Blank(space3) && Boundary(after)
    ensures s == digits + (space3 + (Word(unit, units) + after))
    ensures MatchCount(s) == Some((Numeral(digits), unit))
  {
    var d := DigitRun(s);
    digits := s[..d];
    var rest;
    space3, rest := SpaceFound(s[d..]);
    unit, units, after := UnitFound(rest);
  }

  lemma VerbFound(s: string) returns (plural: bool)
    requires StartsWith(s, "reset")
    ensures s == (if plural then "resets" else "reset") + AfterVerb(s)
  {
    plural := StartsWith(s[5..], "s");
    assert s == "reset" + s[5..];
    if plural {
      assert s[5..] == "s" + s[6..];
      assert "reset" + ("s" + s[6..]) == "resets" + s[6..];
    }
  }

  lemma InFound(s: string) returns (space2: string, rest: string)
    requires MatchIn(s).Some?
    ensures space2 != "" && Blank(space2) && s == "in" + (space2 + rest) && MatchCount(rest) == MatchIn(s)
  {
    space2, rest := SpaceFound(s[2..]);
    assert s == "in" + s[2..];
  }

  /** Whatever matches is such a phrase. */
  lemma PhraseHere(s: string) returns (p: Phrase, after: string)
    requires MatchHere(s).Some?
    ensures p.Valid() && Boundary(after) && s == p.Before(after)
    ensures MatchHere(s) == Some((Numeral(p.digits), p.unit))
  {
    var plural := VerbFound(s);
    var space1, t1 := SpaceFound(AfterVerb(s));
    var space2, t2 := InFound(t1);
    var digits, space3, unit, units;
    digits, space3, unit, units, after := CountFound(t2);
    p := Phrase(plural, space1, space2, digits, space3, unit, units);
    assert t2 == p.Count(after);
    assert t1 == p.In(after);
  }

  lemma UnitFound(s: string) returns (unit: Unit, units: bool, after: string)
    requires MatchUnit(s).Some?
    ensures MatchUnit(s) == Some(unit) && s == Word(unit, units) + after && Boundary(after)
  {
    unit := MatchUnit(s).value;
    units := !UnitHere(s, unit, false);
    after := s[|Word(unit, units)|..];
  }

  /** The pattern matches nowhere inside `before`, when `s` follows it. */
  predicate NoneStartsIn<T>(pattern: string -> Option<T>, before: string, s: string) {
    before == "" || (pattern(before + s).None? && NoneStartsIn(pattern, before[1..], s))
  }

  lemma {:induction false} LeftmostAt<T>(pattern: string -> Option<T>, before: string, s: string)
    requires pattern(s).Some? && NoneStartsIn(pattern, before, s)
    ensures Leftmost(pattern, before + s) == pattern(s)
  {
    if before == "" {
      assert before + s == s;
    } else {
      assert (before + s)[1..] == before[1..] + s;
      LeftmostAt(pattern, before[1..], s);
    }
  }

  /**
   * The cooldown of a text is that of its first countdown phrase, whatever surrounds it: the
   * count times the unit, and none when the count is zero.
   */
  lemma CountdownOfFirstPhrase(before: string, p: Phrase, after: string)
    requires p.Valid() && Boundary(after) && NoneStartsIn(MatchHere, before, p.Before(after))
    ensures ParseResetCountdownMs(before + p.Before(after)) ==
      if Numeral(p.digits) == 0 then None else Some(Cooldown(Numeral(p.digits), p.unit))
  {
    MatchHereOf(p, after);
    LeftmostAt(MatchHere, before, p.Before(after));
  }

  lemma {:induction false} LeftmostFound<T>(pattern: string -> Option<T>, text: string)
    returns (before: string, s: string)
    requires Leftmost(pattern, text).Some?
    ensures text == before + s && pattern(s).Some? && Leftmost(pattern, text) == pattern(s)
    ensures NoneStartsIn(pattern, before, s)
  {
    before, s := "", text;
    if pattern(text).None? {
      before, s := LeftmostFound(pattern, text[1..]);
      assert text == [text[0]] + text[1..];
      before := [text[0]] + before;
    }
  }

  /** The text holds this phrase, ended at a word boundary, and no phrase starts before it. */
  ghost predicate FirstPhrase(text: string, before: string, p: Phrase, after: string) {
    && p.Valid() && Boundary(after) && text == before + p.Before(after)
    && NoneStartsIn(MatchHere, before, p.Before(after))
  }

  lemma PhraseFound(text: string) returns (before: string, p: Phrase, after: string)
    ensures Leftmost(MatchHere, text).Some? ==>
              FirstPhrase(text, before, p, after) && Leftmost(MatchHere, text) == Some((Numeral(p.digits), p.unit))
  {
    before, p, after := *, *, *;
    if Leftmost(MatchHere, text).Some? {
      var s;
      before, s := LeftmostFound(MatchHere, text);
      p, after := PhraseHere(s);
    }
  }

  /** A text yields a cooldown exactly when its first countdown phrase has a positive count and that length. */
  lemma CountdownIff(text: string, ms: nat)
    ensures ParseResetCountdownMs(text) == Some(ms) <==>
              exists before, p, after ::
                && FirstPhrase(text, before, p, after)
                && Numeral(p.digits) > 0 && ms == Cooldown(Numeral(p.digits), p.unit)
  {
    if ParseResetCountdownMs(text) == Some(ms) {
      var before, p, after := PhraseFound(text);
      assert FirstPhrase(text, before, p, after);
    }
    forall before, p, after | FirstPhrase(text, before, p, after) && Numeral(p.digits) > 0
      ensures ParseResetCountdownMs(text) == Some(Cooldown(Numeral(p.digits), p.unit))
    {
      CountdownOfFirstPhrase(before, p, after);
    }
  }

  // --------------------------------------------------------------- printed countdowns

  /** Where text continues with an `r`, a `reset` that starts before that is complete before it. */
  lemma ResetInside(before: string, s: string)
    requires before != "" && StartsWith(s, "r") && StartsWith(before + s, "reset")
    ensures OccursAt(before, "reset", 0)
  {
    var text, verb := before + s, "reset";
    assert text[|before|] == s[0] == 'r';
    assert text[..5] == verb;
    forall j | 0 < j < 5 ensures text[j] != 'r' {
      assert text[j] == verb[j];
    }
    assert 5 <= |before|;
    assert before[0..5] == text[..5];
  }

  /** `resets in n units`, for every positive n and every unit, singular or plural. */
  function Countdown(n: nat, unit: Unit, units: bool): string {
    "resets in " + Print(n) + " " + Word(unit, units)
  }

  lemma {:induction false} NoneStartsWithoutReset(before: string, s: string)
    requires !Contains(before, "reset") && StartsWith(s, "r")
    ensures NoneStartsIn(MatchHere, before, s)
  {
    if before != "" {
      if StartsWith(before + s, "reset") {
        ResetInside(before, s);
      }
      var tail := before[1..];
      if i :| 0 <= i <= |tail| && OccursAt(tail, "reset", i) {
        assert before[i + 1..i + 1 + 5] == tail[i..i + 5];
        assert OccursAt(before, "reset", i + 1);
      }
      NoneStartsWithoutReset(tail, s);
    }
  }

  lemma CountdownIsPhrase(n: nat, unit: Unit, units: bool, after: string) returns (p: Phrase)
    ensures p.Valid() && p.digits == Print(n) && p.unit == unit
    ensures p.Before(after) == Countdown(n, unit, units) + after && StartsWith(p.Before(after), "r")
  {
    p := Phrase(true, " ", " ", Print(n), " ", unit, units);
    assert p.Before(after) == "resets in " + (Print(n) + (" " + (Word(unit, units) + after)));
  }

  /**
   * Parsing inverts printing: in text without an earlier `reset`, a printed countdown that ends
   * at a word boundary yields exactly n times its unit.
   */
  lemma PrintedCountdown(before: string, n: nat, unit: Unit, units: bool, after: string)
    requires n >= 1 && Boundary(after) && !Contains(before, "reset")
    ensures ParseResetCountdownMs(before + Countdown(n, unit, units) + after) == Some(Cooldown(n, unit))
  {
    var p := CountdownIsPhrase(n, unit, units, after);
    NumeralOfPrint(n);
    NoneStartsWithoutReset(before, p.Before(after));
    CountdownOfFirstPhrase(before, p, after);
    Regroup(before, Countdown(n, unit, units), after);
  }

  lemma SpacedWords()
    ensures " " + Word(Day, false) == " day" && " " + Word(Day, true) == " days"
    ensures " " + Word(Hour, false) == " hour" && " " + Word(Hour, true) == " hours"
    ensures " " + Word(Minute, false) == " minute" && " " + Word(Minute, true) == " minutes"
    ensures " " + Word(Second, false) == " second" && " " + Word(Second, true) == " seconds"
  {
  }

  /** A word ends here. */
  predicate WordEnds(after: string) {
    after == "" || !('a' <= after[0] <= 'z' || 'A' <= after[0] <= 'Z' || '0' <= after[0] <= '9' || after[0] == '_')
  }

  /** In so many words: every unit, singular or plural, with whatever follows that is not part of the word. */
  lemma PrintedInWords(before: string, n: nat, units: bool, after: string)
    requires n >= 1 && !Contains(before, "reset") && WordEnds(after)
    ensures
      var front := "resets in " + Print(n);
      && ParseResetCountdownMs(before + (front + if units then " days" else " day") + after) == Some(n * 86_400_000)
      && ParseResetCountdownMs(before + (front + if units then " hours" else " hour") + after) == Some(n * 3_600_000)
      && ParseResetCountdownMs(before + (front + if units then " minutes" else " minute") + after) == Some(n * 60_000)
      && ParseResetCountdownMs(before + (front + if units then " seconds" else " second") + after) == Some(n * 1_000)
  {
    OneInWords(before, n, Day, units, after);
    OneInWords(before, n, Hour, units, after);
    OneInWords(before, n, Minute, units, after);
    OneInWords(before, n, Second, units, after);
    SpacedWords();
  }

  lemma OneInWords(before: string, n: nat, unit: Unit, units: bool, after: string)
    requires n >= 1 && !Contains(before, "reset") && WordEnds(after)
    ensures ParseResetCountdownMs(before + ("resets in " + Print(n) + (" " + Word(unit, units))) + after)
              == Some(Cooldown(n, unit))
  {
    PrintedCountdown(before, n, unit, units, after);
    assert "resets in " + Print(n) + (" " + Word(unit, units)) == Countdown(n, unit, units);
  }

  lemma Regroup(a: string, b: string, c: string)
    ensures a + b + c == a + (b + c)
  {
  }

  // ------------------------------------------------------------- the opencode rule

  const MONTHLY_LIMIT := "monthly usage limit reached"

  datatype Action = QuotaExhausted(cooldownMs: nat)

  /** `body` is the text of the error envelope. */
  function MonthlyQuotaRule(status: int, body: string): Option<Action> {
    var text := Lower(body);
    var cooldown := ParseResetCountdownMs(text);
    if status != 429 || !Contains(text, MONTHLY_LIMIT) || cooldown.None? then None
    else Some(QuotaExhausted(cooldown.value))
  }

  /**
   * The rule fires exactly for a 429 whose body, in any case, holds the monthly-limit text and a
   * countdown of positive count, wherever they stand; and then for the length of the first one.
   */
  lemma MonthlyQuotaIff(status: int, body: string, ms: nat)
    ensures MonthlyQuotaRule(status, body) == Some(QuotaExhausted(ms)) <==>
              && status == 429 && Contains(Lower(body), MONTHLY_LIMIT)
              && exists before, p, after ::
                   && FirstPhrase(Lower(body), before, p, after)
                   && Numeral(p.digits) > 0 && ms == Cooldown(Numeral(p.digits), p.unit)
  {
    CountdownIff(Lower(body), ms);
  }

  lemma LowerCountdown(countdown: string, n: nat, unit: Unit, units: bool, before: string, after: string)
    requires Lower(countdown) == Countdown(n, unit, units)
    ensures Lower(before + countdown + after) == Lower(before) + Countdown(n, unit, units) + Lower(after)
  {
    LowerConcat(before + countdown, after);
    LowerConcat(before, countdown);
  }

  /** A monthly-limit body with a countdown, in any case, locks the connection for exactly that long. */
  lemma MonthlyQuotaCooldown(before: string, countdown: string, n: nat, unit: Unit, units: bool, after: string)
    requires n >= 1 && Lower(countdown) == Countdown(n, unit, units)
    requires Boundary(Lower(after)) && !Contains(Lower(before), "reset") && Contains(Lower(before), MONTHLY_LIMIT)
    ensures MonthlyQuotaRule(429, before + countdown + after) == Some(QuotaExhausted(Cooldown(n, unit)))
  {
    LowerCountdown(countdown, n, unit, units, before, after);
    PrintedCountdown(Lower(before), n, unit, units, Lower(after));
    LimitStillThere(Lower(before), Countdown(n, unit, units), Lower(after));
  }

  lemma LimitStillThere(before: string, countdown: string, after: string)
    requires Contains(before, MONTHLY_LIMIT)
    ensures Contains(before + countdown + after, MONTHLY_LIMIT)
  {
    ContainsInFront(before, countdown, MONTHLY_LIMIT);
    ContainsInFront(before + countdown, after, MONTHLY_LIMIT);
  }

  lemma ContainsInFront(a: string, b: string, pat: string)
    requires Contains(a, pat)
    ensures Contains(a + b, pat)
  {
    var i :| 0 <= i <= |a| && OccursAt(a, pat, i);
    assert (a + b)[i..i + |pat|] == a[i..i + |pat|];
    assert OccursAt(a + b, pat, i);
  }
}
