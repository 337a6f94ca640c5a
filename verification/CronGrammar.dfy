/** The language that the cron validator accepts, as a grammar of its own with a meaning. */
module CronGrammar {
  import opened Common
  import opened Strings
  import opened Cron

  datatype Base = Any | From(start: int)

  datatype Term = Number(value: int) | Range(low: int, high: int) | Step(base: Base, step: int)

  datatype Expr = Wildcard | Single(term: Term) | List(terms: seq<Term>)

  // ---- spelling ----

  /** An unsigned numeral: digits, a plus sign in front or not, that fit 64 bits. */
  predicate Numeral(s: string, n: int) {
    var digits := if s != [] && s[0] == '+' then s[1..] else s;
    IsDigits(digits) && n == SumOfPlaces(digits) && n <= 9223372036854775807
  }

  predicate SpellsRange(s: string, left: string, right: string, low: int, high: int) {
    s == left + "-" + right && Numeral(left, low) && Numeral(right, high)
  }

  predicate SpellsStep(s: string, left: string, right: string, base: Base, step: int) {
    && s == left + "/" + right
    && (if base.Any? then left == "*" else Numeral(left, base.start))
    && Numeral(right, step)
  }

  ghost predicate SpellsTerm(s: string, term: Term) {
    match term
    case Number(n) => Numeral(s, n)
    case Range(low, high) => exists left, right :: SpellsRange(s, left, right, low, high)
    case Step(base, step) => exists left, right :: SpellsStep(s, left, right, base, step)
  }

  ghost predicate SpellsList(parts: seq<string>, terms: seq<Term>) {
    && |parts| == |terms|
    && forall i :: 0 <= i < |parts| ==> !terms[i].Range? && SpellsTerm(TrimSpace(parts[i]), terms[i])
  }

  /** A list has at least two terms, none of them a range, and no hyphen around them. */
  ghost predicate Spells(s: string, e: Expr) {
    match e
    case Wildcard => s == "*"
    case Single(term) => SpellsTerm(s, term)
    case List(terms) =>
      && |terms| >= 2 && '-' !in s
      && exists parts :: s == Join(parts, ',') && SplitFree(parts, ',') && SpellsList(parts, terms)
  }

  // ---- meaning ----

  predicate TermInBounds(term: Term, spec: FieldSpec) {
    match term
    case Number(n) => spec.min <= n <= spec.max
    case Range(low, high) => spec.min <= low <= high <= spec.max
    case Step(base, step) => step > 0 && (base.From? ==> spec.min <= base.start <= spec.max)
  }

  predicate InBounds(e: Expr, spec: FieldSpec) {
    match e
    case Wildcard => true
    case Single(term) => TermInBounds(term, spec)
    case List(terms) => forall i :: 0 <= i < |terms| ==> TermInBounds(terms[i], spec)
  }

  predicate TermMatches(term: Term, spec: FieldSpec, v: int)
    requires TermInBounds(term, spec)
  {
    && spec.min <= v <= spec.max
    && match term
       case Number(n) => v == n
       case Range(low, high) => low <= v <= high
       case Step(base, step) =>
         var start := if base.Any? then spec.min else base.start;
         start <= v && (v - start) % step == 0
  }

  predicate Matches(e: Expr, spec: FieldSpec, v: int)
    requires InBounds(e, spec)
  {
    match e
    case Wildcard => spec.min <= v <= spec.max
    case Single(term) => TermMatches(term, spec, v)
    case List(terms) => exists i :: 0 <= i < |terms| && TermMatches(terms[i], spec, v)
  }

  /** The values of the field at which the schedule fires. */
  ghost function Denotes(e: Expr, spec: FieldSpec): iset<int>
    requires InBounds(e, spec)
  {
    iset v | Matches(e, spec, v)
  }

  lemma TermMatchesSomething(term: Term, spec: FieldSpec) returns (v: int)
    requires TermInBounds(term, spec) && spec.min <= spec.max
    ensures TermMatches(term, spec, v)
  {
    match term
    case Number(n) => v := n;
    case Range(low, _) => v := low;
    case Step(base, step) => v := if base.Any? then spec.min else base.start;
  }

  /** Every spelled expression within bounds fires at some value, and only at values of the field. */
  lemma DenotesWithinField(s: string, e: Expr, spec: FieldSpec)
    requires Spells(s, e) && InBounds(e, spec) && spec.min <= spec.max
    ensures Denotes(e, spec) != iset{}
    ensures forall v :: v in Denotes(e, spec) ==> spec.min <= v <= spec.max
  {
    match e
    case Wildcard => assert spec.min in Denotes(e, spec);
    case Single(term) =>
      var v := TermMatchesSomething(term, spec);
      assert v in Denotes(e, spec);
    case List(terms) =>
      var v := TermMatchesSomething(terms[0], spec);
      assert v in Denotes(e, spec);
  }

  // ---- numerals ----

  lemma NumeralParses(s: string, n: int)
    ensures Numeral(s, n) <==> '-' !in s && ParseInt(s) == Some(n)
  {
    var digits := if s != [] && s[0] == '+' then s[1..] else s;
    if IsDigits(digits) {
      ValueIsSumOfPlaces(digits);
    }
    if s != [] && (s[0] == '+' || s[0] == '-') {
      assert s == [s[0]] + s[1..];
      assert '-' in s <==> s[0] == '-' || '-' in s[1..];
    }
  }

  lemma NumeralIsPlain(s: string, n: int)
    requires Numeral(s, n)
    ensures s != [] && '-' !in s && ',' !in s && '/' !in s && '*' !in s
  {
    var digits := if s[0] == '+' then s[1..] else s;
    forall c | c in s
      ensures c == '+' || '0' <= c <= '9'
    {
      var i :| 0 <= i < |s| && s[i] == c;
      if s[0] == '+' && i > 0 {
        assert digits[i - 1] == c;
      }
    }
  }

  // ---- terms ----

  lemma SplitTwo(s: string, left: string, right: string, separator: char)
    requires separator !in left && separator !in right
    ensures s == left + [separator] + right <==> Split(s, separator) == [left, right]
  {
    JoinSplit(s, separator);
    var parts := [left, right];
    assert parts[1..] == [right];
    assert Join(parts, separator) == left + [separator] + right;
    SplitJoin(parts, separator);
  }

  lemma PartsKeepOut(s: string, left: string, right: string, separator: char, c: char)
    requires s == left + [separator] + right
    ensures c in s <==> c == separator || c in left || c in right
  {
    assert s[|left|] == separator;
  }

  lemma RangeAccepted(s: string, spec: FieldSpec) returns (term: Term)
    requires ValidRange(s, spec)
    ensures term.Range? && SpellsTerm(s, term) && TermInBounds(term, spec)
  {
    var parts := Split(s, '-');
    JoinSplit(s, '-');
    SplitTwo(s, parts[0], parts[1], '-');
    term := Range(ParseInt(parts[0]).value, ParseInt(parts[1]).value);
    NumeralParses(parts[0], term.low);
    NumeralParses(parts[1], term.high);
    assert SpellsRange(s, parts[0], parts[1], term.low, term.high);
  }

  lemma RangeSplits(s: string, term: Term) returns (left: string, right: string)
    requires term.Range? && SpellsTerm(s, term)
    ensures Split(s, '-') == [left, right] && ParseInt(left) == Some(term.low) && ParseInt(right) == Some(term.high)
    ensures '-' in s && ',' !in s && '/' !in s && s != "*"
  {
    left, right :| SpellsRange(s, left, right, term.low, term.high);
    NumeralParses(left, term.low);
    NumeralParses(right, term.high);
    NumeralIsPlain(left, term.low);
    NumeralIsPlain(right, term.high);
    SplitTwo(s, left, right, '-');
    PartsKeepOut(s, left, right, '-', ',');
    PartsKeepOut(s, left, right, '-', '/');
    assert s[|left|] == '-';
  }

  lemma StepAccepted(s: string, spec: FieldSpec) returns (term: Term)
    requires ValidStep(s, spec) && '-' !in s
    ensures term.Step? && SpellsTerm(s, term) && TermInBounds(term, spec)
  {
    var parts := Split(s, '/');
    JoinSplit(s, '/');
    SplitTwo(s, parts[0], parts[1], '/');
    PartsKeepOut(s, parts[0], parts[1], '/', '-');
    var step := ParseInt(parts[1]).value;
    NumeralParses(parts[1], step);
    if parts[0] == "*" {
      term := Step(Any, step);
    } else {
      var start := ParseInt(parts[0]).value;
      NumeralParses(parts[0], start);
      term := Step(From(start), step);
    }
    assert SpellsStep(s, parts[0], parts[1], term.base, step);
  }

  predicate ReadsStep(left: string, right: string, term: Term)
    requires term.Step?
  {
    && ParseInt(right) == Some(term.step)
    && if term.base.Any? then left == "*" else '*' !in left && '-' !in left && ParseInt(left) == Some(term.base.start)
  }

  lemma ReadingUnambiguous(left: string, right: string, t: Term, u: Term)
    requires t.Step? && u.Step? && ReadsStep(left, right, t) && ReadsStep(left, right, u)
    ensures t == u
  {
    assert "*"[0] == '*';
  }

  lemma StepSplits(s: string, term: Term) returns (left: string, right: string)
    requires term.Step? && SpellsTerm(s, term)
    ensures Split(s, '/') == [left, right] && ReadsStep(left, right, term)
    ensures '/' in s && ',' !in s && '-' !in s && s != "*" && s != []
  {
    left, right :| SpellsStep(s, left, right, term.base, term.step);
    NumeralParses(right, term.step);
    NumeralIsPlain(right, term.step);
    if term.base.From? {
      NumeralParses(left, term.base.start);
      NumeralIsPlain(left, term.base.start);
    }
    SplitTwo(s, left, right, '/');
    PartsKeepOut(s, left, right, '/', '-');
    PartsKeepOut(s, left, right, '/', ',');
    assert s[|left|] == '/';
  }

  /** How the validator reads a term: by its hyphen or its slash. */
  predicate ValidTerm(s: string, spec: FieldSpec) {
    if '-' in s then ValidRange(s, spec) else if '/' in s then ValidStep(s, spec) else ValidNumber(s, spec)
  }

  lemma RangeSpelledIsValid(s: string, term: Term, spec: FieldSpec)
    requires term.Range? && SpellsTerm(s, term)
    ensures s != [] && s != "*" && ',' !in s && '-' in s
    ensures TermInBounds(term, spec) <==> ValidTerm(s, spec)
  {
    var left, right := RangeSplits(s, term);
  }

  lemma StepSpelledIsValid(s: string, term: Term, spec: FieldSpec)
    requires term.Step? && SpellsTerm(s, term)
    ensures s != [] && s != "*" && ',' !in s && '-' !in s && '/' in s
    ensures TermInBounds(term, spec) <==> ValidTerm(s, spec)
  {
    var left, right := StepSplits(s, term);
    assert "*"[0] == '*';
  }

  /** The form of a term is told by its hyphen or slash alone. */
  lemma TermSpelledIsValid(s: string, term: Term, spec: FieldSpec)
    requires SpellsTerm(s, term)
    ensures s != [] && s != "*" && ',' !in s
    ensures term.Range? <==> '-' in s
    ensures term.Step? <==> '-' !in s && '/' in s
    ensures TermInBounds(term, spec) <==> ValidTerm(s, spec)
  {
    if term.Range? {
      RangeSpelledIsValid(s, term, spec);
    } else if term.Step? {
      StepSpelledIsValid(s, term, spec);
    } else {
      NumeralParses(s, term.value);
      NumeralIsPlain(s, term.value);
      assert "*"[0] == '*';
    }
  }

  lemma TermAccepted(s: string, spec: FieldSpec) returns (term: Term)
    requires ValidTerm(s, spec)
    ensures SpellsTerm(s, term) && TermInBounds(term, spec)
  {
    if '-' in s {
      term := RangeAccepted(s, spec);
    } else if '/' in s {
      term := StepAccepted(s, spec);
    } else {
      term := Number(ParseInt(s).value);
      NumeralParses(s, term.value);
    }
  }

  lemma RangeUnambiguous(s: string, t: Term, u: Term)
    requires t.Range? && u.Range? && SpellsTerm(s, t) && SpellsTerm(s, u)
    ensures t == u
  {
    var left, right := RangeSplits(s, t);
    var left', right' := RangeSplits(s, u);
    assert [left, right][0] == [left', right'][0] && [left, right][1] == [left', right'][1];
  }

  lemma StepUnambiguous(s: string, t: Term, u: Term)
    requires t.Step? && u.Step? && SpellsTerm(s, t) && SpellsTerm(s, u)
    ensures t == u
  {
    var left, right := StepSplits(s, t);
    var left', right' := StepSplits(s, u);
    assert [left, right][0] == [left', right'][0] && [left, right][1] == [left', right'][1];
    ReadingUnambiguous(left, right, t, u);
  }

  lemma TermUnambiguous(s: string, t: Term, u: Term)
    requires SpellsTerm(s, t) && SpellsTerm(s, u)
    ensures t == u
  {
    TermSpelledIsValid(s, t, FIELD_SPECS[0]);
    TermSpelledIsValid(s, u, FIELD_SPECS[0]);
    if t.Range? {
      RangeUnambiguous(s, t, u);
    } else if t.Step? {
      StepUnambiguous(s, t, u);
    }
  }

  // ---- lists ----

  lemma {:induction false} TrimKeepsOut(s: string, c: char)
    requires c !in s
    ensures c !in TrimSpace(s)
  {
    TrimLeftKeepsOut(s, c);
    TrimRightKeepsOut(TrimLeft(s), c);
  }

  lemma {:induction false} TrimLeftKeepsOut(s: string, c: char)
    requires c !in s
    ensures c !in TrimLeft(s)
  {
    if s != [] && IsSpace(s[0]) {
      TrimLeftKeepsOut(s[1..], c);
    }
  }

  lemma {:induction false} TrimRightKeepsOut(s: string, c: char)
    requires c !in s
    ensures c !in TrimRight(s)
  {
    if s != [] && IsSpace(s[|s| - 1]) {
      TrimRightKeepsOut(s[..|s| - 1], c);
    }
  }

  lemma {:induction false} JoinKeepsOut(parts: seq<string>, separator: char, c: char, i: nat)
    requires i < |parts| && c !in Join(parts, separator)
    ensures c !in parts[i]
  {
    if |parts| == 1 {
    } else if i == 0 {
    } else {
      JoinKeepsOut(parts[1..], separator, c, i - 1);
    }
  }

  lemma {:induction false} ElementsAccepted(parts: seq<string>, spec: FieldSpec) returns (terms: seq<Term>)
    requires ValidElements(parts, spec)
    requires forall i :: 0 <= i < |parts| ==> '-' !in parts[i]
    ensures SpellsList(parts, terms) && forall i :: 0 <= i < |terms| ==> TermInBounds(terms[i], spec)
  {
    if parts == [] {
      terms := [];
    } else {
      var rest := ElementsAccepted(parts[1..], spec);
      assert ValidElement(parts[0], spec);
      TrimKeepsOut(parts[0], '-');
      var term := TermAccepted(TrimSpace(parts[0]), spec);
      TermSpelledIsValid(TrimSpace(parts[0]), term, spec);
      terms := [term] + rest;
    }
  }

  lemma ListAccepted(s: string, spec: FieldSpec) returns (e: Expr)
    requires '-' !in s && ',' in s && ValidElements(Split(s, ','), spec)
    ensures Spells(s, e) && InBounds(e, spec)
  {
    var parts := Split(s, ',');
    JoinSplit(s, ',');
    forall i | 0 <= i < |parts|
      ensures '-' !in parts[i]
    {
      JoinKeepsOut(parts, ',', '-', i);
    }
    var terms := ElementsAccepted(parts, spec);
    e := List(terms);
  }

  lemma ListSplits(s: string, terms: seq<Term>) returns (parts: seq<string>)
    requires Spells(s, List(terms))
    ensures Split(s, ',') == parts && SpellsList(parts, terms) && ',' in s && s != "*"
  {
    parts :| s == Join(parts, ',') && SplitFree(parts, ',') && SpellsList(parts, terms);
    SplitJoin(parts, ',');
    assert s[|parts[0]|] == ',';
  }

  lemma ListSpelledIsValid(s: string, terms: seq<Term>, spec: FieldSpec)
    requires Spells(s, List(terms)) && InBounds(List(terms), spec)
    ensures ValidField(s, spec)
  {
    var parts := ListSplits(s, terms);
    forall i | 0 <= i < |parts|
      ensures ValidElement(parts[i], spec)
    {
      TermSpelledIsValid(TrimSpace(parts[i]), terms[i], spec);
    }
  }

  // ---- fields ----

  lemma FieldAccepted(s: string, spec: FieldSpec) returns (e: Expr)
    requires ValidField(s, spec)
    ensures Spells(s, e) && InBounds(e, spec)
  {
    if s == "*" {
      e := Wildcard;
    } else if '-' !in s && ',' in s {
      e := ListAccepted(s, spec);
    } else {
      var term := TermAccepted(s, spec);
      e := Single(term);
    }
  }

  /** The validator accepts exactly the spelled expressions within the bounds of the field. */
  lemma AcceptsExactlyTheGrammar(s: string, spec: FieldSpec)
    ensures ValidField(s, spec) <==> exists e :: Spells(s, e) && InBounds(e, spec)
  {
    if ValidField(s, spec) {
      var e := FieldAccepted(s, spec);
    }
    if e :| Spells(s, e) && InBounds(e, spec) {
      match e
      case Wildcard =>
      case Single(term) => TermSpelledIsValid(s, term, spec);
      case List(terms) => ListSpelledIsValid(s, terms, spec);
    }
  }

  /** No string spells two expressions, so an accepted field has one meaning. */
  lemma Unambiguous(s: string, e: Expr, f: Expr)
    requires Spells(s, e) && Spells(s, f)
    ensures e == f
  {
    var spec := FIELD_SPECS[0];
    if e.Single? {
      TermSpelledIsValid(s, e.term, spec);
    }
    if f.Single? {
      TermSpelledIsValid(s, f.term, spec);
    }
    if e.List? {
      var parts := ListSplits(s, e.terms);
    }
    if f.List? {
      var parts := ListSplits(s, f.terms);
    }
    match e
    case Wildcard =>
    case Single(term) => TermUnambiguous(s, term, f.term);
    case List(terms) => ListUnambiguous(s, terms, f.terms);
  }

  lemma ListUnambiguous(s: string, terms: seq<Term>, others: seq<Term>)
    requires Spells(s, List(terms)) && Spells(s, List(others))
    ensures terms == others
  {
    var parts := ListSplits(s, terms);
    var parts' := ListSplits(s, others);
    forall i | 0 <= i < |parts|
      ensures terms[i] == others[i]
    {
      TermUnambiguous(TrimSpace(parts[i]), terms[i], others[i]);
    }
  }

  /** A range combined with a list or a step is rejected, because a hyphen is looked for first. */
  lemma MixedRangeRejected(s: string, spec: FieldSpec)
    requires '-' in s && (',' in s || '/' in s)
    ensures !ValidField(s, spec)
  {
    if ValidRange(s, spec) {
      var term := RangeAccepted(s, spec);
      var left, right := RangeSplits(s, term);
    }
  }

  lemma FiveFields(fields: seq<string>)
    requires |fields| == 5
    ensures (forall i :: 0 <= i < |fields| ==> ValidField(fields[i], FIELD_SPECS[i])) <==>
            && ValidField(fields[0], FieldSpec("minute", 0, 59)) && ValidField(fields[1], FieldSpec("hour", 0, 23))
            && ValidField(fields[2], FieldSpec("day", 1, 31)) && ValidField(fields[3], FieldSpec("month", 1, 12))
            && ValidField(fields[4], FieldSpec("weekday", 0, 6))
  {
    assert FIELD_SPECS[0] == FieldSpec("minute", 0, 59) && FIELD_SPECS[1] == FieldSpec("hour", 0, 23);
    assert FIELD_SPECS[2] == FieldSpec("day", 1, 31) && FIELD_SPECS[3] == FieldSpec("month", 1, 12);
    assert FIELD_SPECS[4] == FieldSpec("weekday", 0, 6);
  }

  /** A schedule is accepted exactly when its words spell five expressions that fire within their fields. */
  lemma ScheduleAccepted(schedule: string)
    ensures ValidSchedule(schedule) <==>
            && |Fields(schedule)| == 5
            && Fires(Fields(schedule)[0], FieldSpec("minute", 0, 59))
            && Fires(Fields(schedule)[1], FieldSpec("hour", 0, 23))
            && Fires(Fields(schedule)[2], FieldSpec("day", 1, 31))
            && Fires(Fields(schedule)[3], FieldSpec("month", 1, 12))
            && Fires(Fields(schedule)[4], FieldSpec("weekday", 0, 6))
  {
    var fields := Fields(schedule);
    if |fields| == 5 {
      FiveFields(fields);
      FieldFires(fields[0], FieldSpec("minute", 0, 59));
      FieldFires(fields[1], FieldSpec("hour", 0, 23));
      FieldFires(fields[2], FieldSpec("day", 1, 31));
      FieldFires(fields[3], FieldSpec("month", 1, 12));
      FieldFires(fields[4], FieldSpec("weekday", 0, 6));
    }
  }

  ghost predicate Fires(field: string, spec: FieldSpec) {
    exists e :: Spells(field, e) && InBounds(e, spec) && Denotes(e, spec) != iset{}
  }

  lemma FieldFires(field: string, spec: FieldSpec)
    requires spec.min <= spec.max
    ensures ValidField(field, spec) <==> Fires(field, spec)
  {
    AcceptsExactlyTheGrammar(field, spec);
    if e :| Spells(field, e) && InBounds(e, spec) {
      DenotesWithinField(field, e, spec);
    }
  }
}
