/** Validation of backup schedules: verb normalisation and the five fields of a cron expression. */
module Cron {
  import opened Common
  import opened Strings

  // ---- white space and case ----

  /**
    Lower case as far as it can make an ASCII letter: the Kelvin sign and the dotted capital I are
    the two characters outside ASCII that do.
   */
  function Lower(c: char): char {
    if 'A' <= c <= 'Z' then (c as int + 32) as char
    else if c == '\U{212A}' then 'k'
    else if c == '\U{130}' then 'i'
    else c
  }

  function ToLower(s: string): (lower: string)
    ensures |lower| == |s| && forall i :: 0 <= i < |s| ==> lower[i] == Lower(s[i])
  {
    if s == [] then [] else [Lower(s[0])] + ToLower(s[1..])
  }

  function WordLength(s: string): (n: nat)
    ensures n <= |s| && (forall i :: 0 <= i < n ==> !IsSpace(s[i])) && (n < |s| ==> IsSpace(s[n]))
  {
    if s == [] || IsSpace(s[0]) then 0 else 1 + WordLength(s[1..])
  }

  predicate IsWord(s: string) {
    s != [] && forall i :: 0 <= i < |s| ==> !IsSpace(s[i])
  }

  /** The maximal words between white space. */
  function Fields(s: string): (fields: seq<string>)
    ensures forall i :: 0 <= i < |fields| ==> IsWord(fields[i])
    decreases |s|
  {
    if s == [] then []
    else if IsSpace(s[0]) then Fields(s[1..])
    else
      var n := WordLength(s);
      [s[..n]] + Fields(s[n..])
  }

  // ---- validators ----

  datatype FieldSpec = FieldSpec(name: string, min: int, max: int)

  const FIELD_SPECS := [
    FieldSpec("minute", 0, 59), FieldSpec("hour", 0, 23), FieldSpec("day", 1, 31),
    FieldSpec("month", 1, 12), FieldSpec("weekday", 0, 6)]

  predicate ValidNumber(field: string, spec: FieldSpec) {
    var number := ParseInt(field);
    number.Some? && spec.min <= number.value <= spec.max
  }

  predicate ValidRange(field: string, spec: FieldSpec) {
    var parts := Split(field, '-');
    && |parts| == 2
    && var start, end := ParseInt(parts[0]), ParseInt(parts[1]);
    && start.Some? && end.Some?
    && spec.min <= start.value <= spec.max && spec.min <= end.value <= spec.max
    && start.value <= end.value
  }

  predicate ValidStep(field: string, spec: FieldSpec) {
    var parts := Split(field, '/');
    && |parts| == 2
    && var step := ParseInt(parts[1]);
    && step.Some? && step.value > 0
    && (parts[0] == "*" || if '-' in parts[0] then ValidRange(parts[0], spec) else ValidNumber(parts[0], spec))
  }

  predicate ValidElement(part: string, spec: FieldSpec) {
    var trimmed := TrimSpace(part);
    && trimmed != []
    && if '-' in trimmed then ValidRange(trimmed, spec)
       else if '/' in trimmed then ValidStep(trimmed, spec)
       else ValidNumber(trimmed, spec)
  }

  predicate ValidElements(parts: seq<string>, spec: FieldSpec) {
    forall i :: 0 <= i < |parts| ==> ValidElement(parts[i], spec)
  }

  predicate ValidField(field: string, spec: FieldSpec) {
    if field == "*" then true
    else if '-' in field then ValidRange(field, spec)
    else if ',' in field then ValidElements(Split(field, ','), spec)
    else if '/' in field then ValidStep(field, spec)
    else ValidNumber(field, spec)
  }

  method ValidateElement(part: string, spec: FieldSpec) returns (ok: bool)
    ensures ok == ValidElement(part, spec)
  {
    var trimmed := TrimSpace(part);
    if trimmed == "" {
      return false;
    }
    if '-' in trimmed {
      return ValidRange(trimmed, spec);
    } else if '/' in trimmed {
      return ValidStep(trimmed, spec);
    }
    return ValidNumber(trimmed, spec);
  }

  method ValidateList(field: string, spec: FieldSpec) returns (ok: bool)
    ensures ok == ValidElements(Split(field, ','), spec)
  {
    var parts := Split(field, ',');
    for i := 0 to |parts|
      invariant forall j :: 0 <= j < i ==> ValidElement(parts[j], spec)
    {
      ok := ValidateElement(parts[i], spec);
      if !ok {
        return;
      }
    }
    return true;
  }

  method ValidateCronField(field: string, position: nat) returns (ok: bool)
    requires position < |FIELD_SPECS|
    ensures ok == ValidField(field, FIELD_SPECS[position])
  {
    var spec := FIELD_SPECS[position];
    if field == "*" {
      return true;
    }
    if '-' in field {
      return ValidRange(field, spec);
    }
    if ',' in field {
      ok := ValidateList(field, spec);
      return;
    }
    if '/' in field {
      return ValidStep(field, spec);
    }
    return ValidNumber(field, spec);
  }

  // ---- schedules ----

  const VERBS: map<string, string> := map[
    "@yearly" := "0 0 1 1 *", "@annually" := "0 0 1 1 *", "@monthly" := "0 0 1 * *", "@weekly" := "0 0 * * 0",
    "@daily" := "0 0 * * *", "@midnight" := "0 0 * * *", "@hourly" := "0 * * * *",
    "yearly" := "0 0 1 1 *", "annually" := "0 0 1 1 *", "monthly" := "0 0 1 * *", "weekly" := "0 0 * * 0",
    "daily" := "0 0 * * *", "hourly" := "0 * * * *",
    "daily-1am" := "0 1 * * *", "daily-2am" := "0 2 * * *", "daily-3am" := "0 3 * * *", "daily-6am" := "0 6 * * *",
    "daily-noon" := "0 12 * * *",
    "weekly-sunday" := "0 0 * * 0", "weekly-monday" := "0 0 * * 1", "weekly-friday" := "0 0 * * 5",
    "weekly-saturday" := "0 0 * * 6"]

  function Normalize(schedule: string): string {
    var verb := TrimSpace(ToLower(schedule));
    if verb in VERBS then VERBS[verb] else schedule
  }

  predicate ValidSchedule(schedule: string) {
    var fields := Fields(schedule);
    |fields| == |FIELD_SPECS| && forall i :: 0 <= i < |fields| ==> ValidField(fields[i], FIELD_SPECS[i])
  }

  method ValidateFields(fields: seq<string>) returns (ok: bool)
    requires |fields| == |FIELD_SPECS|
    ensures ok <==> forall i :: 0 <= i < |fields| ==> ValidField(fields[i], FIELD_SPECS[i])
  {
    for i := 0 to |fields|
      invariant forall j :: 0 <= j < i ==> ValidField(fields[j], FIELD_SPECS[j])
    {
      ok := ValidateCronField(fields[i], i);
      if !ok {
        return;
      }
    }
    return true;
  }

  class CreateOptions {
    var schedule: string

    constructor (schedule: string)
      ensures this.schedule == schedule
    {
      this.schedule := schedule;
    }

    method ValidateSchedulePace() returns (ok: bool)
      modifies this
      ensures ok == (old(schedule) != "" && ValidSchedule(Normalize(old(schedule))))
      ensures schedule == if old(schedule) == "" then "" else Normalize(old(schedule))
    {
      if schedule == "" {
        return false;
      }
      schedule := Normalize(schedule);
      var fields := Fields(schedule);
      if |fields| != 5 {
        return false;
      }
      ok := ValidateFields(fields);
    }
  }

  // ---- normalisation ----

  lemma {:induction false} TrimRightKeepsFirst(s: string)
    requires s != [] && !IsSpace(s[0])
    ensures TrimRight(s) != [] && TrimRight(s)[0] == s[0]
  {
    if IsSpace(s[|s| - 1]) {
      TrimRightKeepsFirst(s[..|s| - 1]);
    }
  }

  /** No cron expression of a verb is a verb. */
  lemma ExpressionIsNoVerb(verb: string)
    requires verb in VERBS
    ensures verb[..1] != "0" && VERBS[verb][..1] == "0"
  {
  }

  lemma NormalizeIdempotent(schedule: string)
    ensures Normalize(Normalize(schedule)) == Normalize(schedule)
  {
    var verb := TrimSpace(ToLower(schedule));
    if verb in VERBS {
      ExpressionIsNoVerb(verb);
      var expression := VERBS[verb];
      assert expression[..1][0] == expression[0];
      var lower := ToLower(expression);
      assert lower[0] == '0';
      TrimRightKeepsFirst(lower);
      var again := TrimSpace(lower);
      assert again[..1] == "0";
      if again in VERBS {
        ExpressionIsNoVerb(again);
      }
    }
  }
}
