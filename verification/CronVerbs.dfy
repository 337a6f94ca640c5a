/** What splitting a schedule into words means, and what the verbs mean: the times at which they fire. */
module CronVerbs {
  import opened Common
  import opened Strings
  import opened Cron
  import opened CronGrammar

  // ---- words ----

  /** The words with gaps before, between and after them. */
  function Spaced(gaps: seq<string>, words: seq<string>): string
    requires |gaps| == |words| + 1
  {
    if words == [] then gaps[0] else gaps[0] + words[0] + Spaced(gaps[1..], words[1..])
  }

  /** Words of other than white space, with white space around them, and some between any two of them. */
  predicate IsSpacing(gaps: seq<string>, words: seq<string>) {
    && |gaps| == |words| + 1
    && (forall i :: 0 <= i < |gaps| ==> AllSpace(gaps[i]))
    && (forall i :: 0 <= i < |words| ==> IsWord(words[i]))
    && (forall i :: 0 < i < |words| ==> gaps[i] != [])
  }

  lemma {:induction false} GapSkipped(gap: string, rest: string)
    requires AllSpace(gap)
    ensures Fields(gap + rest) == Fields(rest)
  {
    if gap == [] {
      assert gap + rest == rest;
    } else {
      GapSkipped(gap[1..], rest);
      assert (gap + rest)[1..] == gap[1..] + rest;
    }
  }

  lemma WordTaken(word: string, rest: string)
    requires IsWord(word) && (rest != [] ==> IsSpace(rest[0]))
    ensures Fields(word + rest) == [word] + Fields(rest)
  {
    var s := word + rest;
    var n := WordLength(s);
    assert forall i :: 0 <= i < |word| ==> s[i] == word[i];
    assert rest != [] ==> s[|word|] == rest[0];
    assert n == |word|;
    assert s[..n] == word && s[n..] == rest;
  }

  lemma {:induction false} WordsOfSpacing(gaps: seq<string>, words: seq<string>)
    requires IsSpacing(gaps, words)
    ensures Fields(Spaced(gaps, words)) == words
  {
    if words == [] {
      GapSkipped(gaps[0], []);
      assert gaps[0] + [] == gaps[0];
    } else {
      var rest := Spaced(gaps[1..], words[1..]);
      WordsOfSpacing(gaps[1..], words[1..]);
      SpacedStart(gaps[1..], words[1..]);
      assert gaps[0] + words[0] + rest == gaps[0] + (words[0] + rest);
      GapSkipped(gaps[0], words[0] + rest);
      WordTaken(words[0], rest);
    }
  }

  lemma SpacedStart(gaps: seq<string>, words: seq<string>)
    requires |gaps| == |words| + 1 && AllSpace(gaps[0]) && (words != [] ==> gaps[0] != [])
    ensures var s := Spaced(gaps, words); s != [] ==> IsSpace(s[0])
  {
  }

  lemma FirstGap(gaps: seq<string>, words: seq<string>)
    requires IsSpacing(gaps, words) && words != []
    ensures Spaced(gaps, words) != [] && (gaps[0] == [] ==> !IsSpace(Spaced(gaps, words)[0]))
  {
    assert gaps[0] == [] ==> Spaced(gaps, words)[0] == words[0][0];
  }

  lemma GapGrows(c: char, gaps: seq<string>, words: seq<string>)
    requires IsSpace(c) && IsSpacing(gaps, words)
    ensures var longer := gaps[0 := [c] + gaps[0]];
            IsSpacing(longer, words) && Spaced(longer, words) == [c] + Spaced(gaps, words)
  {
    var longer := gaps[0 := [c] + gaps[0]];
    assert longer[1..] == gaps[1..];
    if words != [] {
      assert longer[0] + words[0] + Spaced(gaps[1..], words[1..])
          == [c] + (gaps[0] + words[0] + Spaced(gaps[1..], words[1..]));
    }
  }

  lemma WordAdded(word: string, gaps: seq<string>, words: seq<string>)
    requires IsWord(word) && IsSpacing(gaps, words) && (words != [] ==> gaps[0] != [])
    ensures IsSpacing([[]] + gaps, [word] + words)
    ensures Spaced([[]] + gaps, [word] + words) == word + Spaced(gaps, words)
  {
    assert ([[]] + gaps)[1..] == gaps && ([word] + words)[1..] == words;
    assert [] + word == word;
  }

  /** Every text is its words with such gaps, so there is exactly one way to split it. */
  lemma {:induction false} SpacingExists(s: string) returns (gaps: seq<string>)
    ensures IsSpacing(gaps, Fields(s)) && s == Spaced(gaps, Fields(s))
    decreases |s|
  {
    if s == [] {
      gaps := [[]];
    } else if IsSpace(s[0]) {
      var rest := SpacingExists(s[1..]);
      gaps := rest[0 := [s[0]] + rest[0]];
      GapGrows(s[0], rest, Fields(s[1..]));
      assert s == [s[0]] + s[1..];
    } else {
      var n := WordLength(s);
      var word, words := s[..n], Fields(s[n..]);
      var rest := SpacingExists(s[n..]);
      gaps := [[]] + rest;
      if words != [] {
        FirstGap(rest, words);
      }
      WordAdded(word, rest, words);
      assert s == word + s[n..];
    }
  }

  // ---- times ----

  datatype Time = Time(minute: int, hour: int, day: int, month: int, weekday: int)

  /** The field spells an expression that fires at this value. */
  ghost predicate FieldFiresAt(field: string, spec: FieldSpec, v: int) {
    exists e :: Spells(field, e) && InBounds(e, spec) && v in Denotes(e, spec)
  }

  /** Each of the five fields of the schedule fires at its part of the time. */
  ghost predicate FiresAt(schedule: string, t: Time) {
    var fields := Fields(schedule);
    && |fields| == 5
    && FieldFiresAt(fields[0], FieldSpec("minute", 0, 59), t.minute)
    && FieldFiresAt(fields[1], FieldSpec("hour", 0, 23), t.hour)
    && FieldFiresAt(fields[2], FieldSpec("day", 1, 31), t.day)
    && FieldFiresAt(fields[3], FieldSpec("month", 1, 12), t.month)
    && FieldFiresAt(fields[4], FieldSpec("weekday", 0, 6), t.weekday)
  }

  predicate IsTime(t: Time) {
    0 <= t.minute <= 59 && 0 <= t.hour <= 23 && 1 <= t.day <= 31 && 1 <= t.month <= 12 && 0 <= t.weekday <= 6
  }

  /** A value for a field, or any. */
  datatype When = When(
    minute: Option<int>, hour: Option<int>, day: Option<int>, month: Option<int>, weekday: Option<int>)

  predicate Fits(value: Option<int>, v: int) {
    value.Some? ==> v == value.value
  }

  predicate IsWhen(when: When, t: Time) {
    && Fits(when.minute, t.minute) && Fits(when.hour, t.hour) && Fits(when.day, t.day)
    && Fits(when.month, t.month) && Fits(when.weekday, t.weekday)
  }

  /** The verbs, their expressions and what they mean; weekdays count from Sunday. */
  predicate Means(verb: string, expression: string, when: When) {
    || (verb in {"@yearly", "@annually", "yearly", "annually"}
        && expression == "0 0 1 1 *" && when == When(Some(0), Some(0), Some(1), Some(1), None))
    || (verb in {"@monthly", "monthly"}
        && expression == "0 0 1 * *" && when == When(Some(0), Some(0), Some(1), None, None))
    || (verb in {"@weekly", "weekly", "weekly-sunday"}
        && expression == "0 0 * * 0" && when == When(Some(0), Some(0), None, None, Some(0)))
    || (verb == "weekly-monday"
        && expression == "0 0 * * 1" && when == When(Some(0), Some(0), None, None, Some(1)))
    || (verb == "weekly-friday"
        && expression == "0 0 * * 5" && when == When(Some(0), Some(0), None, None, Some(5)))
    || (verb == "weekly-saturday"
        && expression == "0 0 * * 6" && when == When(Some(0), Some(0), None, None, Some(6)))
    || (verb in {"@daily", "@midnight", "daily"}
        && expression == "0 0 * * *" && when == When(Some(0), Some(0), None, None, None))
    || (verb == "daily-1am"
        && expression == "0 1 * * *" && when == When(Some(0), Some(1), None, None, None))
    || (verb == "daily-2am"
        && expression == "0 2 * * *" && when == When(Some(0), Some(2), None, None, None))
    || (verb == "daily-3am"
        && expression == "0 3 * * *" && when == When(Some(0), Some(3), None, None, None))
    || (verb == "daily-6am"
        && expression == "0 6 * * *" && when == When(Some(0), Some(6), None, None, None))
    || (verb == "daily-noon"
        && expression == "0 12 * * *" && when == When(Some(0), Some(12), None, None, None))
    || (verb in {"@hourly", "hourly"}
        && expression == "0 * * * *" && when == When(Some(0), None, None, None, None))
  }

  function PrintField(value: Option<int>): string {
    if value.None? then "*" else Print(value.value)
  }

  function PrintWhen(when: When): seq<string> {
    [PrintField(when.minute), PrintField(when.hour), PrintField(when.day), PrintField(when.month),
     PrintField(when.weekday)]
  }

  lemma SmallNumbers()
    ensures Print(0) == "0" && Print(1) == "1" && Print(2) == "2" && Print(3) == "3" && Print(5) == "5"
    ensures Print(6) == "6" && Print(12) == "12"
  {
    assert PrintDigits(12) == PrintDigits(1) + ['2'];
  }

  lemma VerbHasMeaning(verb: string)
    requires verb in VERBS
    ensures exists when :: Means(verb, VERBS[verb], when)
  {
    var e := VERBS[verb];
    assert
      || Means(verb, e, When(Some(0), Some(0), Some(1), Some(1), None))
      || Means(verb, e, When(Some(0), Some(0), Some(1), None, None))
      || Means(verb, e, When(Some(0), Some(0), None, None, Some(0)))
      || Means(verb, e, When(Some(0), Some(0), None, None, Some(1)))
      || Means(verb, e, When(Some(0), Some(0), None, None, Some(5)))
      || Means(verb, e, When(Some(0), Some(0), None, None, Some(6)))
      || Means(verb, e, When(Some(0), Some(0), None, None, None))
      || Means(verb, e, When(Some(0), Some(1), None, None, None))
      || Means(verb, e, When(Some(0), Some(2), None, None, None))
      || Means(verb, e, When(Some(0), Some(3), None, None, None))
      || Means(verb, e, When(Some(0), Some(6), None, None, None))
      || Means(verb, e, When(Some(0), Some(12), None, None, None))
      || Means(verb, e, When(Some(0), None, None, None, None));
  }

  lemma MeaningHasVerb(verb: string, expression: string, when: When)
    requires Means(verb, expression, when)
    ensures verb in VERBS
  {
  }

  lemma JoinFive(a: string, b: string, c: string, d: string, e: string)
    ensures Join([a, b, c, d, e], ' ') == a + " " + (b + " " + (c + " " + (d + " " + e)))
  {
    assert [a, b, c, d, e][1..] == [b, c, d, e] && [b, c, d, e][1..] == [c, d, e];
    assert [c, d, e][1..] == [d, e] && [d, e][1..] == [e];
    assert Join([d, e], ' ') == d + " " + e;
    assert Join([c, d, e], ' ') == c + " " + (d + " " + e);
    assert Join([b, c, d, e], ' ') == b + " " + (c + " " + (d + " " + e));
  }

  lemma FiveCharacters(a: char, b: char, c: char, d: char, e: char)
    ensures Join([[a], [b], [c], [d], [e]], ' ') == [a, ' ', b, ' ', c, ' ', d, ' ', e]
  {
    JoinFive([a], [b], [c], [d], [e]);
  }

  /** The expression of a verb is printed from its meaning. */
  lemma ExpressionIsPrinted(verb: string, expression: string, when: When)
    requires Means(verb, expression, when)
    ensures expression == Join(PrintWhen(when), ' ') && IsProper(when)
  {
    SmallNumbers();
    if when.hour == Some(12) {
      JoinFive("0", "12", "*", "*", "*");
    } else {
      FiveCharacters(PrintField(when.minute)[0], PrintField(when.hour)[0], PrintField(when.day)[0],
        PrintField(when.month)[0], PrintField(when.weekday)[0]);
    }
  }

  predicate IsWithin(value: Option<int>, spec: FieldSpec) {
    value.Some? ==> spec.min <= value.value <= spec.max
  }

  predicate IsProper(when: When) {
    && IsWithin(when.minute, FieldSpec("minute", 0, 59)) && IsWithin(when.hour, FieldSpec("hour", 0, 23))
    && IsWithin(when.day, FieldSpec("day", 1, 31)) && IsWithin(when.month, FieldSpec("month", 1, 12))
    && IsWithin(when.weekday, FieldSpec("weekday", 0, 6))
  }

  // ---- printed schedules ----

  lemma PrintedIsWord(value: Option<int>)
    requires value.Some? ==> value.value >= 0
    ensures IsWord(PrintField(value))
  {
    if value.Some? {
      DigitsPrinted(value.value);
      DigitsAreWord(PrintDigits(value.value));
    }
  }

  lemma DigitsAreWord(s: string)
    requires IsDigits(s)
    ensures IsWord(s)
  {
  }

  lemma PrintedIsSpelled(value: Option<int>) returns (e: Expr)
    requires value.Some? ==> 0 <= value.value <= 59
    ensures Spells(PrintField(value), e)
    ensures e == if value.None? then Wildcard else Single(Number(value.value))
  {
    e := if value.None? then Wildcard else Single(Number(value.value));
    if value.Some? {
      DigitsPrinted(value.value);
      ValueIsSumOfPlaces(PrintDigits(value.value));
    }
  }

  /** A printed field fires exactly at its value, or at every value of the field. */
  lemma PrintedFiresAt(value: Option<int>, spec: FieldSpec, v: int)
    requires IsWithin(value, spec) && 0 <= spec.min && spec.max <= 59
    ensures FieldFiresAt(PrintField(value), spec, v) <==> spec.min <= v <= spec.max && Fits(value, v)
  {
    var e := PrintedIsSpelled(value);
    if f :| Spells(PrintField(value), f) && InBounds(f, spec) && v in Denotes(f, spec) {
      Unambiguous(PrintField(value), e, f);
    }
    if spec.min <= v <= spec.max && Fits(value, v) {
      assert InBounds(e, spec) && v in Denotes(e, spec);
    }
  }

  /** Words joined by blanks are the words of the text. */
  lemma {:induction false} JoinedWords(words: seq<string>)
    requires words != [] && forall i :: 0 <= i < |words| ==> IsWord(words[i])
    ensures Fields(Join(words, ' ')) == words
  {
    if |words| == 1 {
      WordTaken(words[0], []);
      assert words[0] + [] == words[0];
    } else {
      var rest := Join(words[1..], ' ');
      JoinedWords(words[1..]);
      WordTaken(words[0], [' '] + rest);
      GapSkipped([' '], rest);
      assert words[0] + [' '] + rest == words[0] + ([' '] + rest);
    }
  }

  lemma PrintedWords(when: When)
    requires IsProper(when)
    ensures Fields(Join(PrintWhen(when), ' ')) == PrintWhen(when)
  {
    PrintedIsWord(when.minute);
    PrintedIsWord(when.hour);
    PrintedIsWord(when.day);
    PrintedIsWord(when.month);
    PrintedIsWord(when.weekday);
    JoinedWords(PrintWhen(when));
  }

  lemma PrintedFires(value: Option<int>, spec: FieldSpec)
    requires IsWithin(value, spec) && 0 <= spec.min <= spec.max <= 59
    ensures Fires(PrintField(value), spec)
  {
    var e := PrintedIsSpelled(value);
    assert InBounds(e, spec);
    DenotesWithinField(PrintField(value), e, spec);
  }

  lemma PrintedIsValid(when: When)
    requires IsProper(when)
    ensures ValidSchedule(Join(PrintWhen(when), ' '))
  {
    PrintedWords(when);
    PrintedFires(when.minute, FieldSpec("minute", 0, 59));
    PrintedFires(when.hour, FieldSpec("hour", 0, 23));
    PrintedFires(when.day, FieldSpec("day", 1, 31));
    PrintedFires(when.month, FieldSpec("month", 1, 12));
    PrintedFires(when.weekday, FieldSpec("weekday", 0, 6));
    ScheduleAccepted(Join(PrintWhen(when), ' '));
  }

  lemma PrintedScheduleFiresAt(when: When, t: Time)
    requires IsProper(when)
    ensures FiresAt(Join(PrintWhen(when), ' '), t) <==> IsTime(t) && IsWhen(when, t)
  {
    PrintedWords(when);
    PrintedFiresAt(when.minute, FieldSpec("minute", 0, 59), t.minute);
    PrintedFiresAt(when.hour, FieldSpec("hour", 0, 23), t.hour);
    PrintedFiresAt(when.day, FieldSpec("day", 1, 31), t.day);
    PrintedFiresAt(when.month, FieldSpec("month", 1, 12), t.month);
    PrintedFiresAt(when.weekday, FieldSpec("weekday", 0, 6), t.weekday);
  }

  // ---- verbs in schedules ----

  /** The same letters, in either case. */
  predicate IsInAnyCase(s: string, verb: string) {
    && |s| == |verb|
    && forall i :: 0 <= i < |s| ==>
         s[i] == verb[i] || ('a' <= verb[i] <= 'z' && s[i] as int == verb[i] as int - 32)
  }

  /** Small letters, digits, '@' and '-': nothing that lower case or trimming changes. */
  lemma VerbIsPlain(verb: string)
    requires verb in VERBS
    ensures verb != [] && forall i :: 0 <= i < |verb| ==> IsPlain(verb[i])
  {
  }

  predicate IsPlain(c: char) {
    c == '@' || c == '-' || 'a' <= c <= 'z' || '0' <= c <= '9'
  }

  lemma LowerVerb(s: string, verb: string)
    requires IsInAnyCase(s, verb) && forall i :: 0 <= i < |verb| ==> IsPlain(verb[i])
    ensures ToLower(s) == verb
  {
  }

  lemma LowerSpace(s: string)
    requires AllSpace(s)
    ensures ToLower(s) == s
  {
  }

  lemma {:induction false} LowerConcat(a: string, b: string)
    ensures ToLower(a + b) == ToLower(a) + ToLower(b)
  {
    assert forall i :: 0 <= i < |a + b| ==> (a + b)[i] == if i < |a| then a[i] else b[i - |a|];
  }

  /** A verb is recognised in any case and with any white space around it. */
  lemma VerbIsRecognised(left: string, s: string, right: string, verb: string)
    requires AllSpace(left) && AllSpace(right) && verb in VERBS && IsInAnyCase(s, verb)
    ensures Normalize(left + s + right) == VERBS[verb]
  {
    VerbIsPlain(verb);
    LowerVerb(s, verb);
    LowerSpace(left);
    LowerSpace(right);
    LowerConcat(left + s, right);
    LowerConcat(left, s);
    TrimOf(left, verb, right);
  }

  lemma VerbIsPrinted(left: string, s: string, right: string, verb: string) returns (when: When)
    requires AllSpace(left) && AllSpace(right) && verb in VERBS && IsInAnyCase(s, verb)
    ensures Means(verb, Normalize(left + s + right), when)
    ensures Normalize(left + s + right) == Join(PrintWhen(when), ' ') && IsProper(when)
  {
    VerbIsRecognised(left, s, right, verb);
    VerbHasMeaning(verb);
    when :| Means(verb, VERBS[verb], when);
    ExpressionIsPrinted(verb, VERBS[verb], when);
  }

  /**
    A verb, in any case and with white space around it, becomes a schedule that is accepted and
    fires exactly at the times the verb means.
   */
  lemma VerbFiresAt(left: string, s: string, right: string, verb: string) returns (when: When)
    requires AllSpace(left) && AllSpace(right) && verb in VERBS && IsInAnyCase(s, verb)
    ensures Means(verb, Normalize(left + s + right), when) && ValidSchedule(Normalize(left + s + right))
    ensures forall t :: FiresAt(Normalize(left + s + right), t) <==> IsTime(t) && IsWhen(when, t)
  {
    when := VerbIsPrinted(left, s, right, verb);
    PrintedIsValid(when);
    forall t
      ensures FiresAt(Normalize(left + s + right), t) <==> IsTime(t) && IsWhen(when, t)
    {
      PrintedScheduleFiresAt(when, t);
    }
  }

  /** Any other schedule is left as it is. */
  lemma OtherwiseUnchanged(schedule: string)
    requires !exists expression, when :: Means(TrimSpace(ToLower(schedule)), expression, when)
    ensures Normalize(schedule) == schedule
  {
    var verb := TrimSpace(ToLower(schedule));
    if verb in VERBS {
      VerbHasMeaning(verb);
    }
  }
}
